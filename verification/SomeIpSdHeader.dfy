/** The older SD parser with its extractors, and the printer of acknowledgements. */
module SomeIpSdHeader {
  import opened Bytes
  import opened SdMessages
  import opened SomeIpHeader
  import opened SdDeserialization

  datatype OptionCommon = OptionCommon(length: nat, kind: byte, discardable: bool)

  /** Every option keeps its common part; only IPv4 endpoint options are decoded further. */
  datatype SdOption = Common(common: OptionCommon) | Ip4Endpoint(common: OptionCommon, endpoint: V4Endpoint)

  datatype SdEntry =
    | ServiceEntry(head: EntryHead, minorVersion: int)
    | EventGroupEntry(head: EntryHead, initialDataRequested: bool, counter: int, eventGroupId: int)

  datatype SdHeader = SdHeader(header: Header, rebootFlag: bool, unicastFlag: bool, lengthEntries: int,
                               lengthOptions: int, entries: seq<SdEntry>, options: seq<SdOption>)

  // ----- Parsing -----

  predicate KnownOption(kind: byte) {
    kind == 0x01 || kind == 0x02 || kind == 0x04 || kind == 0x06
    || kind == 0x14 || kind == 0x16 || kind == 0x24 || kind == 0x26
  }

  function SdOptionAt(data: seq<byte>, pos: nat): Result<SdOption>
    requires pos + 4 <= |data|
  {
    var common := OptionCommon(At16(data, pos), data[pos + 2], data[pos + 3] >= 0x80);
    if !KnownOption(common.kind) then Err(ValueError)
    else if common.kind != 0x04 then Ok(Common(common))
    else if pos + 12 > |data| then Err(StructError)
    else
      var protocol :- ProtocolOf(data[pos + 9]);
      Ok(Ip4Endpoint(common, V4(data[pos + 4..pos + 8], protocol, At16(data, pos + 10))))
  }

  /** Which options are read: those of eight types, and of these the IPv4 endpoints as such. */
  lemma SdOptionAtExact(data: seq<byte>, pos: nat)
    requires pos + 4 <= |data|
    ensures SdOptionAt(data, pos).Ok? <==>
            && data[pos + 2] in {0x01, 0x02, 0x04, 0x06, 0x14, 0x16, 0x24, 0x26}
            && (data[pos + 2] == 0x04 ==> pos + 12 <= |data| && data[pos + 9] in {0x06, 0x11})
    ensures SdOptionAt(data, pos).Ok? ==>
              var option := SdOptionAt(data, pos).value;
              && option.common == OptionCommon(At16(data, pos), data[pos + 2], data[pos + 3] >= 0x80)
              && (option.Ip4Endpoint? <==> data[pos + 2] == 0x04)
              && (option.Ip4Endpoint? ==>
                    option.endpoint == V4(data[pos + 4..pos + 8], if data[pos + 9] == 0x06 then TCP else UDP, At16(data, pos + 10)))
  {
  }

  function SdOptionsFrom(data: seq<byte>, pos: nat, left: int): Result<seq<SdOption>>
    decreases left
  {
    if left <= 0 then Ok([])
    else if pos + 4 > |data| then Err(StructError)
    else
      var first :- SdOptionAt(data, pos);
      var step := first.common.length + 3;
      var rest :- SdOptionsFrom(data, pos + step, left - step);
      Ok([first] + rest)
  }

  function SdEntryAt(data: seq<byte>, start: nat): Result<SdEntry> {
    if start + 12 > |data| then Err(StructError)
    else
      var head := HeadAt(data, start);
      if head.kind != 0x00 && head.kind != 0x01 && head.kind != 0x06 && head.kind != 0x07 then Err(ValueError)
      else if start + 16 > |data| then Err(StructError)
      else if head.kind == 0x00 || head.kind == 0x01 then Ok(ServiceEntry(head, At32(data, start + 12)))
      else Ok(EventGroupEntry(head, data[start + 13] >= 0x80, data[start + 13] % 0x10, At16(data, start + 14)))
  }

  function SdEntriesFrom(data: seq<byte>, i: nat, count: nat): Result<seq<SdEntry>>
    decreases count - i
  {
    if i >= count then Ok([])
    else
      var first :- SdEntryAt(data, ENTRIES_START + 16 * i);
      var rest :- SdEntriesFrom(data, i + 1, count);
      Ok([first] + rest)
  }

  function FromSdBuffer(data: seq<byte>): Result<SdHeader> {
    var header :- FromBuffer(data);
    if |data| < 24 then Err(StructError)
    else
      var lengthEntries := At32(data, 20);
      var entries :- SdEntriesFrom(data, 0, lengthEntries / 16);
      var pos := OptionsLengthPos(data);
      if pos + 4 > |data| then Err(StructError)
      else
        var options :- SdOptionsFrom(data, pos + 4, At32(data, pos));
        Ok(SdHeader(header, data[16] >= 0x80, data[16] % 0x80 >= 0x40, lengthEntries, At32(data, pos), entries, options))
  }

  // ----- Printing -----

  function SdEntryBytes(entry: SdEntry): (r: Result<seq<byte>>)
    ensures r.Ok? ==> |r.value| == 16
  {
    var head := entry.head;
    if !(InU8(head.index1) && InU8(head.index2) && InU16(head.serviceId) && InU16(head.instanceId)
         && InU8(head.majorVersion)) then Err(StructError)
    else if !(if entry.ServiceEntry? then InU32(entry.minorVersion) else InU16(entry.eventGroupId)) then Err(StructError)
    else
      Ok([head.kind, head.index1, head.index2, head.count1 * 0x10 + head.count2]
         + Be16(head.serviceId)
         + Be16(head.instanceId)
         + [head.majorVersion, head.ttl / 0x1_0000 % 0x100]
         + Be16(head.ttl % 0x1_0000)
         + SdEntryTail(entry))
  }

  function SdEntryTail(entry: SdEntry): (r: seq<byte>)
    requires if entry.ServiceEntry? then InU32(entry.minorVersion) else InU16(entry.eventGroupId)
    ensures |r| == 4
  {
    if entry.ServiceEntry? then Be32(entry.minorVersion)
    else [0, (if entry.initialDataRequested then 0x80 else 0) + entry.counter % 0x10] + Be16(entry.eventGroupId)
  }

  function SdEntriesBytes(entries: seq<SdEntry>): (r: Result<seq<byte>>)
    ensures r.Ok? ==> |r.value| == 16 * |entries|
  {
    if entries == [] then Ok([])
    else
      var first :- SdEntryBytes(entries[0]);
      var rest :- SdEntriesBytes(entries[1..]);
      Ok(first + rest)
  }

  function SdOptionSize(option: SdOption): nat {
    if option.Common? then 4 else 12
  }

  function SdOptionBytes(option: SdOption): (r: Result<seq<byte>>)
    ensures r.Ok? ==> |r.value| == SdOptionSize(option)
  {
    if !InU16(option.common.length) then Err(StructError)
    else
      var common := Be16(option.common.length) + [option.common.kind, if option.common.discardable then 0x80 else 0];
      if option.Common? then Ok(common)
      else if !InU16(option.endpoint.port) then Err(StructError)
      else Ok(common + option.endpoint.address4 + [0, option.endpoint.protocol.Code()] + Be16(option.endpoint.port))
  }

  function SdOptionsSize(options: seq<SdOption>): nat {
    if options == [] then 0 else SdOptionSize(options[0]) + SdOptionsSize(options[1..])
  }

  function SdOptionsBytes(options: seq<SdOption>): (r: Result<seq<byte>>)
    ensures r.Ok? ==> |r.value| == SdOptionsSize(options)
  {
    if options == [] then Ok([])
    else
      var first :- SdOptionBytes(options[0]);
      var rest :- SdOptionsBytes(options[1..]);
      Ok(first + rest)
  }

  function FlagByte(rebootFlag: bool, unicastFlag: bool): byte {
    (if rebootFlag then 0x80 else 0) + if unicastFlag then 0x40 else 0
  }

  /** The two array lengths are printed as the header object states them. */
  function ToSdBuffer(header: SdHeader): Result<seq<byte>> {
    var front :- header.header.ToBuffer();
    if !InU32(header.lengthEntries) then Err(StructError)
    else
      var entries :- SdEntriesBytes(header.entries);
      if !InU32(header.lengthOptions) then Err(StructError)
      else
        var options :- SdOptionsBytes(header.options);
        Ok(front + [FlagByte(header.rebootFlag, header.unicastFlag), 0, 0, 0] + Be32(header.lengthEntries) + entries
           + Be32(header.lengthOptions) + options)
  }

  // ----- Extractors -----

  function Ip4Endpoints(options: seq<SdOption>): (r: seq<V4Endpoint>) {
    if options == [] then []
    else if options[0].Ip4Endpoint? then [options[0].endpoint] + Ip4Endpoints(options[1..])
    else Ip4Endpoints(options[1..])
  }

  datatype SdSubscription = SdSubscription(serviceId: int, instanceId: int, majorVersion: int, ttl: int,
                                           initialDataRequested: bool, counter: int, eventGroupId: int,
                                           endpoint: V4Endpoint)

  /** One subscription per endpoint option of the entry's runs. An option of another kind
      has no sd_option_common attribute, so meeting one is an error. */
  function EntrySubscriptions(entry: SdEntry, options: seq<SdOption>): Result<seq<SdSubscription>>
    requires entry.EventGroupEntry?
  {
    if options == [] then Ok([])
    else if options[0].Common? then Err(AttributeError)
    else
      var rest :- EntrySubscriptions(entry, options[1..]);
      Ok([SdSubscription(entry.head.serviceId, entry.head.instanceId, entry.head.majorVersion, entry.head.ttl,
                         entry.initialDataRequested, entry.counter, entry.eventGroupId, options[0].endpoint)] + rest)
  }

  predicate IsSubscribe(entry: SdEntry) {
    entry.EventGroupEntry? && entry.head.kind == 0x06 && entry.head.ttl != 0
  }

  function SubscribeEntries(entries: seq<SdEntry>, options: seq<SdOption>): Result<seq<SdSubscription>> {
    if entries == [] then Ok([])
    else if !IsSubscribe(entries[0]) then SubscribeEntries(entries[1..], options)
    else
      var run :- ApplicableOptions(entries[0].head, options);
      var first :- EntrySubscriptions(entries[0], run);
      var rest :- SubscribeEntries(entries[1..], options);
      Ok(first + rest)
  }

  predicate IsAck(entry: SdEntry) {
    entry.EventGroupEntry? && entry.head.kind == 0x07 && entry.head.ttl != 0
  }

  function AckEntries(entries: seq<SdEntry>): seq<SdEntry> {
    if entries == [] then []
    else if IsAck(entries[0]) then [entries[0]] + AckEntries(entries[1..])
    else AckEntries(entries[1..])
  }

  /** The acknowledgements are the eventgroup entries of type 7 with a TTL, in order. */
  lemma {:induction false} AckEntriesExact(entries: seq<SdEntry>, more: seq<SdEntry>)
    ensures AckEntries(entries + more) == AckEntries(entries) + AckEntries(more)
    ensures forall e :: e in AckEntries(entries) <==>
              e in entries && e.EventGroupEntry? && e.head.kind == 0x07 && e.head.ttl != 0
    ensures (forall e :: e in entries ==> e.EventGroupEntry? && e.head.kind == 0x07 && e.head.ttl != 0)
            ==> AckEntries(entries) == entries
  {
    if entries == [] {
      assert entries + more == more;
    } else {
      AckEntriesExact(entries[1..], more);
      assert (entries + more)[1..] == entries[1..] + more;
      assert entries == [entries[0]] + entries[1..];
    }
  }

  /** Subscriptions come from one entry after the other, and only from eventgroup entries of type 6 with
      a TTL. */
  lemma {:induction false} SubscribeEntriesExact(entries: seq<SdEntry>, entry: SdEntry, more: seq<SdEntry>,
                                                 options: seq<SdOption>)
    ensures SubscribeEntries(entries + [entry] + more, options).Ok? <==>
            && SubscribeEntries(entries, options).Ok? && SubscribeEntries(more, options).Ok?
            && SubscribeEntries([entry], options).Ok?
    ensures SubscribeEntries(entries + [entry] + more, options).Ok? ==>
              SubscribeEntries(entries + [entry] + more, options).value
              == SubscribeEntries(entries, options).value + SubscribeEntries([entry], options).value
                 + SubscribeEntries(more, options).value
    ensures !(entry.EventGroupEntry? && entry.head.kind == 0x06 && entry.head.ttl != 0) ==>
              SubscribeEntries([entry], options) == Ok([])
  {
    SubscribeEntriesAppend(entries, [entry] + more, options);
    SubscribeEntriesAppend([entry], more, options);
    assert entries + [entry] + more == entries + ([entry] + more);
    assert [entry][1..] == [] && SubscribeEntries([], options) == Ok([]);
  }

  lemma {:induction false} SubscribeEntriesAppend(a: seq<SdEntry>, b: seq<SdEntry>, options: seq<SdOption>)
    ensures SubscribeEntries(a + b, options).Ok? <==> SubscribeEntries(a, options).Ok? && SubscribeEntries(b, options).Ok?
    ensures SubscribeEntries(a + b, options).Ok? ==>
              SubscribeEntries(a + b, options).value == SubscribeEntries(a, options).value + SubscribeEntries(b, options).value
  {
    hide IsSubscribe, ApplicableOptions, EntrySubscriptions;
    if a == [] {
      assert a + b == b;
    } else {
      SubscribeEntriesAppend(a[1..], b, options);
      assert (a + b)[1..] == a[1..] + b;
    }
  }

  /** One subscribe entry gives one subscription for each option of its runs, with the fields of the entry
      and the endpoint of the option; it fails at an option that is no IPv4 endpoint. */
  lemma {:induction false} EntrySubscriptionsExact(entry: SdEntry, options: seq<SdOption>)
    requires entry.EventGroupEntry?
    ensures EntrySubscriptions(entry, options).Ok? <==> forall i :: 0 <= i < |options| ==> options[i].Ip4Endpoint?
    ensures EntrySubscriptions(entry, options).Ok? ==>
              var xs := EntrySubscriptions(entry, options).value;
              && |xs| == |options|
              && forall i :: 0 <= i < |xs| ==>
                   xs[i] == SdSubscription(entry.head.serviceId, entry.head.instanceId, entry.head.majorVersion,
                                           entry.head.ttl, entry.initialDataRequested, entry.counter, entry.eventGroupId,
                                           options[i].endpoint)
  {
    if options != [] {
      EntrySubscriptionsExact(entry, options[1..]);
      forall i | 0 < i < |options| ensures options[i] == options[1..][i - 1] {
      }
      assert (forall i :: 0 <= i < |options| ==> options[i].Ip4Endpoint?) <==>
             options[0].Ip4Endpoint? && forall i :: 0 <= i < |options[1..]| ==> options[1..][i].Ip4Endpoint?;
    }
  }

  // ----- Loops -----

  /** The nested loops over subscribe entries and the options of their runs. */
  method ExtractSubscribeEntries(header: SdHeader) returns (r: Result<seq<SdSubscription>>)
    ensures r == SubscribeEntries(header.entries, header.options)
  {
    var entries, options := header.entries, header.options;
    var result: seq<SdSubscription> := [];
    PrependNone(SubscribeEntries(entries, options));
    assert entries[0..] == entries;
    for i := 0 to |entries|
      invariant SubscribeEntries(entries, options) == PrependAll(result, SubscribeEntries(entries[i..], options))
    {
      var entry := entries[i];
      ghost var rest := SubscribeEntries(entries[i + 1..], options);
      assert entries[i..][0] == entry && entries[i..][1..] == entries[i + 1..];
      if IsSubscribe(entry) {
        var run :- ApplicableOptions(entry.head, options);
        var found :- SubscriptionsOfRun(entry, run);
        assert rest.Ok? ==> result + (found + rest.value) == result + found + rest.value;
        result := result + found;
      }
    }
    assert result + [] == result;
    return Ok(result);
  }

  method SubscriptionsOfRun(entry: SdEntry, run: seq<SdOption>) returns (r: Result<seq<SdSubscription>>)
    requires entry.EventGroupEntry?
    ensures r == EntrySubscriptions(entry, run)
  {
    var result: seq<SdSubscription> := [];
    PrependNone(EntrySubscriptions(entry, run));
    assert run[0..] == run;
    for j := 0 to |run|
      invariant EntrySubscriptions(entry, run) == PrependAll(result, EntrySubscriptions(entry, run[j..]))
    {
      assert run[j..][0] == run[j] && run[j..][1..] == run[j + 1..];
      if run[j].Common? {
        return Err(AttributeError);
      }
      var subscription := SdSubscription(entry.head.serviceId, entry.head.instanceId, entry.head.majorVersion,
                                         entry.head.ttl, entry.initialDataRequested, entry.counter,
                                         entry.eventGroupId, run[j].endpoint);
      ghost var rest := EntrySubscriptions(entry, run[j + 1..]);
      assert rest.Ok? ==> result + ([subscription] + rest.value) == result + [subscription] + rest.value;
      result := result + [subscription];
    }
    assert result + [] == result;
    return Ok(result);
  }

  method ExtractAckEntries(header: SdHeader) returns (result: seq<SdEntry>)
    ensures result == AckEntries(header.entries)
  {
    var entries := header.entries;
    result := [];
    assert entries[0..] == entries;
    for i := 0 to |entries|
      invariant AckEntries(entries) == result + AckEntries(entries[i..])
    {
      assert entries[i..][0] == entries[i] && entries[i..][1..] == entries[i + 1..];
      if IsAck(entries[i]) {
        result := result + [entries[i]];
      }
    }
  }

  method WriteSdHeader(header: SdHeader) returns (r: Result<seq<byte>>)
    ensures r == ToSdBuffer(header)
  {
    var front :- header.header.ToBuffer();
    var out := front + [FlagByte(header.rebootFlag, header.unicastFlag), 0, 0, 0];
    if !InU32(header.lengthEntries) {
      return Err(StructError);
    }
    out := out + Be32(header.lengthEntries);
    var entries :- WriteEntries(header.entries);
    out := out + entries;
    if !InU32(header.lengthOptions) {
      return Err(StructError);
    }
    out := out + Be32(header.lengthOptions);
    var options :- WriteOptions(header.options);
    return Ok(out + options);
  }

  method WriteEntries(entries: seq<SdEntry>) returns (r: Result<seq<byte>>)
    ensures r == SdEntriesBytes(entries)
  {
    hide SdEntryBytes;
    var out: seq<byte> := [];
    PrependNone(SdEntriesBytes(entries));
    assert entries[0..] == entries;
    for i := 0 to |entries|
      invariant SdEntriesBytes(entries) == PrependAll(out, SdEntriesBytes(entries[i..]))
    {
      assert entries[i..][0] == entries[i] && entries[i..][1..] == entries[i + 1..];
      var bytes :- SdEntryBytes(entries[i]);
      ghost var rest := SdEntriesBytes(entries[i + 1..]);
      assert rest.Ok? ==> out + (bytes + rest.value) == out + bytes + rest.value;
      out := out + bytes;
    }
    assert out + [] == out;
    return Ok(out);
  }

  method WriteOptions(options: seq<SdOption>) returns (r: Result<seq<byte>>)
    ensures r == SdOptionsBytes(options)
  {
    hide SdOptionBytes;
    var out: seq<byte> := [];
    PrependNone(SdOptionsBytes(options));
    assert options[0..] == options;
    for i := 0 to |options|
      invariant SdOptionsBytes(options) == PrependAll(out, SdOptionsBytes(options[i..]))
    {
      assert options[i..][0] == options[i] && options[i..][1..] == options[i + 1..];
      var bytes :- SdOptionBytes(options[i]);
      ghost var rest := SdOptionsBytes(options[i + 1..]);
      assert rest.Ok? ==> out + (bytes + rest.value) == out + bytes + rest.value;
      out := out + bytes;
    }
    assert out + [] == out;
    return Ok(out);
  }

  /** The option cursor loop of the older parser. */
  method ReadOptions(data: seq<byte>, start: nat, length: nat) returns (r: Result<seq<SdOption>>)
    ensures r == SdOptionsFrom(data, start, length)
  {
    var options: seq<SdOption> := [];
    hide SdOptionAt;
    var pos: nat, left: int := start, length;
    PrependNone(SdOptionsFrom(data, pos, left));
    while left > 0
      invariant SdOptionsFrom(data, start, length) == PrependAll(options, SdOptionsFrom(data, pos, left))
    {
      if pos + 4 > |data| {
        return Err(StructError);
      }
      var option :- SdOptionAt(data, pos);
      var step := option.common.length + 3;
      ghost var rest := SdOptionsFrom(data, pos + step, left - step);
      assert rest.Ok? ==> options + ([option] + rest.value) == options + [option] + rest.value;
      options := options + [option];
      left := left - step;
      pos := pos + step;
    }
    assert options + [] == options;
    return Ok(options);
  }

  method ReadEntries(data: seq<byte>, count: nat) returns (r: Result<seq<SdEntry>>)
    ensures r == SdEntriesFrom(data, 0, count)
  {
    var entries: seq<SdEntry> := [];
    PrependNone(SdEntriesFrom(data, 0, count));
    for i := 0 to count
      invariant SdEntriesFrom(data, 0, count) == PrependAll(entries, SdEntriesFrom(data, i, count))
    {
      var entry :- SdEntryAt(data, ENTRIES_START + 16 * i);
      ghost var rest := SdEntriesFrom(data, i + 1, count);
      assert rest.Ok? ==> entries + ([entry] + rest.value) == entries + [entry] + rest.value;
      entries := entries + [entry];
    }
    assert entries + [] == entries;
    return Ok(entries);
  }

  method ReadSdHeader(data: seq<byte>) returns (r: Result<SdHeader>)
    ensures r == FromSdBuffer(data)
  {
    var header :- FromBuffer(data);
    if |data| < 24 {
      return Err(StructError);
    }
    var lengthEntries := At32(data, 20);
    var entries :- ReadEntries(data, lengthEntries / 16);
    var pos := 24 + lengthEntries;
    if pos + 4 > |data| {
      return Err(StructError);
    }
    var options :- ReadOptions(data, pos + 4, At32(data, pos));
    return Ok(SdHeader(header, data[16] >= 0x80, data[16] % 0x80 >= 0x40, lengthEntries, At32(data, pos), entries, options));
  }
}
