/** The newer SD parser. Slices of Python bytes never fail but come out short at the
    end of the data, so each field read below fails exactly when its slice is short. */
module SdDeserialization {
  import opened Bytes
  import opened SdMessages

  /** An option as the parser keeps it; only endpoint options ever reach an entry. */
  datatype ParsedOption = Endpoint(endpoint: EndpointOption) | Foreign(kind: byte)

  /** The option counts of an entry share one byte. */
  type nibble = n: nat | n < 0x10

  datatype EntryHead = EntryHead(kind: byte, index1: nat, index2: nat, count1: nibble, count2: nibble,
                                 serviceId: int, instanceId: int, majorVersion: int, ttl: int)

  datatype ReceivedMessage = ReceivedMessage(sessionId: int, rebootFlag: bool, entries: seq<Entry>)

  const ENTRIES_START: nat := 24

  predicate IsSdMessage(data: seq<byte>) {
    && |data| >= 16
    && 12 <= At32(data, 4) <= |data| - 8
    && At16(data, 0) == 0xFFFF
    && At16(data, 2) == 0x8100
    && At16(data, 8) == 0
    && data[12] == 1
    && data[13] == 1
    && data[14] == 2
    && data[15] == 0
    && At16(data, 10) != 0
  }

  // ----- Options -----

  /** Decodes the option whose length field stands at pos. CONFIGURATION options end in a
      TypeError, because their constructor is called without its arguments. */
  function OptionAt(data: seq<byte>, pos: nat): (r: Result<ParsedOption>)
    requires pos + 4 <= |data|
  {
    var kind := data[pos + 2];
    if kind == 0x04 || kind == 0x14 then
      if pos + 12 > |data| then Err(StructError)
      else
        var protocol :- ProtocolOf(data[pos + 9]);
        if kind == 0x04 then Ok(Endpoint(V4(data[pos + 4..pos + 8], protocol, At16(data, pos + 10))))
        else Ok(Foreign(kind))
    else if kind == 0x06 || kind == 0x16 then
      if pos + 20 > |data| then Err(ValueError)
      else if pos + 24 > |data| then Err(StructError)
      else
        var protocol :- ProtocolOf(data[pos + 21]);
        if kind == 0x06 then Ok(Endpoint(V6(data[pos + 4..pos + 20], protocol, At16(data, pos + 22))))
        else Ok(Foreign(kind))
    else if kind == 0x24 then
      if pos + 12 > |data| then Err(StructError) else Ok(Foreign(kind))
    else if kind == 0x26 then
      if pos + 20 > |data| then Err(ValueError)
      else if pos + 24 > |data| then Err(StructError)
      else Ok(Foreign(kind))
    else if kind == 0x02 then
      if pos + 8 > |data| then Err(StructError) else Ok(Foreign(kind))
    else if kind == 0x01 then Err(TypeError)
    else Err(ValueError)
  }

  /** All options from pos on while `left` bytes remain; the cursor moves by the option
      length plus the three bytes of length and type. */
  /** Which options are read: seven types, each with its size; IPv4 and IPv6 endpoints are kept. */
  lemma OptionAtExact(data: seq<byte>, pos: nat)
    requires pos + 4 <= |data|
    ensures var kind, left := data[pos + 2], |data| - pos;
            OptionAt(data, pos).Ok? <==>
              || (kind in {0x04, 0x14} && 12 <= left && data[pos + 9] in {0x06, 0x11})
              || (kind in {0x06, 0x16} && 24 <= left && data[pos + 21] in {0x06, 0x11})
              || (kind == 0x24 && 12 <= left) || (kind == 0x26 && 24 <= left) || (kind == 0x02 && 8 <= left)
    ensures OptionAt(data, pos).Ok? ==>
              var kind, option := data[pos + 2], OptionAt(data, pos).value;
              && (kind == 0x04 ==>
                    option == Endpoint(V4(data[pos + 4..pos + 8], if data[pos + 9] == 0x06 then TCP else UDP, At16(data, pos + 10))))
              && (kind == 0x06 ==>
                    option == Endpoint(V6(data[pos + 4..pos + 20], if data[pos + 21] == 0x06 then TCP else UDP, At16(data, pos + 22))))
              && (kind != 0x04 && kind != 0x06 ==> option == Foreign(kind))
  {
  }

  function OptionsFrom(data: seq<byte>, pos: nat, left: int): Result<seq<ParsedOption>>
    decreases left
  {
    if left <= 0 then Ok([])
    else if pos + 4 > |data| then Err(StructError)
    else
      var step := At16(data, pos) + 3;
      var first :- OptionAt(data, pos);
      var rest :- OptionsFrom(data, pos + step, left - step);
      Ok([first] + rest)
  }

  // ----- Entries -----

  function HeadAt(data: seq<byte>, start: nat): EntryHead
    requires start + 12 <= |data|
  {
    EntryHead(data[start], data[start + 1], data[start + 2], data[start + 3] / 0x10, data[start + 3] % 0x10,
              At16(data, start + 4), At16(data, start + 6), data[start + 8], At32(data, start + 8) % 0x100_0000)
  }

  /** The options[index], ..., options[index + count - 1] of one run. */
  function Run<T>(options: seq<T>, index: nat, count: nat): Result<seq<T>> {
    if count == 0 then Ok([])
    else if index + count > |options| then Err(IndexError)
    else Ok(options[index..index + count])
  }

  function ApplicableOptions<T>(head: EntryHead, options: seq<T>): Result<seq<T>> {
    var first :- Run(options, head.index1, head.count1);
    var second :- Run(options, head.index2, head.count2);
    Ok(first + second)
  }

  /** An entry's options are those of its first run and then those of its second; a run that is not empty
      has to lie within the list. */
  lemma ApplicableExact<T>(head: EntryHead, options: seq<T>)
    ensures ApplicableOptions(head, options).Ok? <==>
            && (head.count1 > 0 ==> head.index1 + head.count1 <= |options|)
            && (head.count2 > 0 ==> head.index2 + head.count2 <= |options|)
    ensures ApplicableOptions(head, options).Ok? ==>
              var applicable := ApplicableOptions(head, options).value;
              && |applicable| == head.count1 + head.count2
              && (forall i :: 0 <= i < head.count1 ==> applicable[i] == options[head.index1 + i])
              && forall i :: head.count1 <= i < |applicable| ==> applicable[i] == options[head.index2 + (i - head.count1)]
  {
  }

  function V4Endpoints(options: seq<ParsedOption>): (r: seq<V4Endpoint>) {
    if options == [] then []
    else if options[0].Endpoint? && options[0].endpoint.V4? then [options[0].endpoint] + V4Endpoints(options[1..])
    else V4Endpoints(options[1..])
  }

  function V6Endpoints(options: seq<ParsedOption>): (r: seq<V6Endpoint>) {
    if options == [] then []
    else if options[0].Endpoint? && options[0].endpoint.V6? then [options[0].endpoint] + V6Endpoints(options[1..])
    else V6Endpoints(options[1..])
  }

  /** One entry, or None for an entry type that is skipped. Eventgroup entries end in an
      exception whatever they hold: their constructors take no minor_version. */
  function EntryAt(data: seq<byte>, start: nat, options: seq<ParsedOption>): Result<Option<Entry>> {
    if start + 12 > |data| then Err(StructError)
    else
      var head := HeadAt(data, start);
      if head.kind == 0x00 || head.kind == 0x01 then
        if start + 16 > |data| then Err(StructError)
        else
          var minorVersion := At32(data, start + 12);
          if head.kind == 0x00 then
            Ok(Some(FindService(head.serviceId, head.instanceId, head.majorVersion, minorVersion, head.ttl)))
          else
            var run :- ApplicableOptions(head, options);
            var v4 := V4Endpoints(run);
            var v6 := V6Endpoints(run);
            if head.ttl != 0 then
              Ok(Some(OfferService(head.serviceId, head.instanceId, head.majorVersion, minorVersion, head.ttl, v4, v6)))
            else
              Ok(Some(StopOfferService(head.serviceId, head.instanceId, head.majorVersion, minorVersion, v4, v6)))
      else if head.kind == 0x06 || head.kind == 0x07 then Err(TypeError)
      else Ok(None)
  }

  function Collected(entry: Option<Entry>, entries: seq<Entry>): seq<Entry> {
    if entry.None? then entries else [entry.value] + entries
  }

  /** Entries number i to count - 1. */
  function EntriesFrom(data: seq<byte>, i: nat, count: nat, options: seq<ParsedOption>): Result<seq<Entry>>
    decreases count - i
  {
    if i >= count then Ok([])
    else
      var entry :- EntryAt(data, ENTRIES_START + 16 * i, options);
      var rest :- EntriesFrom(data, i + 1, count, options);
      Ok(Collected(entry, rest))
  }

  // ----- The whole message -----

  /** Where the length field of the options array stands. */
  function OptionsLengthPos(data: seq<byte>): nat
    requires |data| >= 24
  {
    24 + At32(data, 20)
  }

  function Parsed(data: seq<byte>): Result<ReceivedMessage> {
    if !IsSdMessage(data) then Err(ValueError)
    else if |data| < 24 then Err(StructError)
    else if OptionsLengthPos(data) + 4 > |data| then Err(StructError)
    else
      var pos := OptionsLengthPos(data);
      var options :- OptionsFrom(data, pos + 4, At32(data, pos));
      var entries :- EntriesFrom(data, 0, At32(data, 20) / 16, options);
      Ok(ReceivedMessage(At16(data, 10), data[16] >= 0x80, entries))
  }

  // ----- The loops of the parser -----

  /** The cursor loop over current_pos_option and bytes_options_left. */
  method ParseOptions(data: seq<byte>, start: nat, length: nat) returns (r: Result<seq<ParsedOption>>)
    ensures r == OptionsFrom(data, start, length)
  {
    var options: seq<ParsedOption> := [];
    var pos: nat, left: int := start, length;
    PrependNone(OptionsFrom(data, pos, left));
    while left > 0
      invariant OptionsFrom(data, start, length) == PrependAll(options, OptionsFrom(data, pos, left))
    {
      if pos + 4 > |data| {
        return Err(StructError);
      }
      var step := At16(data, pos) + 3;
      var option :- OptionAt(data, pos);
      ghost var rest := OptionsFrom(data, pos + step, left - step);
      assert rest.Ok? ==> options + ([option] + rest.value) == options + [option] + rest.value;
      options := options + [option];
      left := left - step;
      pos := pos + step;
    }
    assert options + [] == options;
    return Ok(options);
  }

  /** The index loop that gathers one run of options. */
  method CollectRun(options: seq<ParsedOption>, index: nat, count: nat) returns (r: Result<seq<ParsedOption>>)
    ensures r == Run(options, index, count)
  {
    var applicable: seq<ParsedOption> := [];
    for j := 0 to count
      invariant j > 0 ==> index + j <= |options|
      invariant applicable == if j == 0 then [] else options[index..index + j]
    {
      if index + j >= |options| {
        return Err(IndexError);
      }
      applicable := applicable + [options[index + j]];
    }
    return Ok(applicable);
  }

  method ParseEntry(data: seq<byte>, start: nat, options: seq<ParsedOption>) returns (r: Result<Option<Entry>>)
    ensures r == EntryAt(data, start, options)
  {
    if start + 12 > |data| {
      return Err(StructError);
    }
    var head := HeadAt(data, start);
    if head.kind == 0x06 || head.kind == 0x07 {
      return Err(TypeError);
    }
    if head.kind != 0x00 && head.kind != 0x01 {
      return Ok(None);
    }
    if start + 16 > |data| {
      return Err(StructError);
    }
    var minorVersion := At32(data, start + 12);
    if head.kind == 0x00 {
      return Ok(Some(FindService(head.serviceId, head.instanceId, head.majorVersion, minorVersion, head.ttl)));
    }
    var first :- CollectRun(options, head.index1, head.count1);
    var second :- CollectRun(options, head.index2, head.count2);
    var run := first + second;
    if head.ttl != 0 {
      return Ok(Some(OfferService(head.serviceId, head.instanceId, head.majorVersion, minorVersion, head.ttl,
                                  V4Endpoints(run), V6Endpoints(run))));
    }
    return Ok(Some(StopOfferService(head.serviceId, head.instanceId, head.majorVersion, minorVersion,
                                    V4Endpoints(run), V6Endpoints(run))));
  }

  method ParseEntries(data: seq<byte>, count: nat, options: seq<ParsedOption>) returns (r: Result<seq<Entry>>)
    ensures r == EntriesFrom(data, 0, count, options)
  {
    var entries: seq<Entry> := [];
    PrependNone(EntriesFrom(data, 0, count, options));
    for i := 0 to count
      invariant EntriesFrom(data, 0, count, options) == PrependAll(entries, EntriesFrom(data, i, count, options))
    {
      var entry :- ParseEntry(data, ENTRIES_START + 16 * i, options);
      ghost var rest := EntriesFrom(data, i + 1, count, options);
      if entry.Some? {
        assert rest.Ok? ==> entries + ([entry.value] + rest.value) == entries + [entry.value] + rest.value;
        entries := entries + [entry.value];
      }
    }
    assert entries + [] == entries;
    return Ok(entries);
  }

  method DeserializeSdMessage(data: seq<byte>) returns (r: Result<ReceivedMessage>)
    ensures r == Parsed(data)
  {
    if !IsSdMessage(data) {
      return Err(ValueError);
    }
    if |data| < 24 {
      return Err(StructError);
    }
    var lengthEntries := At32(data, 20);
    var posLengthOptions := 24 + lengthEntries;
    if posLengthOptions + 4 > |data| {
      return Err(StructError);
    }
    var options :- ParseOptions(data, posLengthOptions + 4, At32(data, posLengthOptions));
    var entries :- ParseEntries(data, lengthEntries / 16, options);
    return Ok(ReceivedMessage(At16(data, 10), data[16] >= 0x80, entries));
  }
}
