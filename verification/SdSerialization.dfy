/** The SD printer: one option table shared by all entries of a message, and
    entries that point into it by first index and count. */
module SdSerialization {
  import opened Bytes
  import opened SdMessages

  // ----- The option table -----

  function AddOptions(table: seq<EndpointOption>, endpoints: seq<EndpointOption>): seq<EndpointOption>
    decreases |endpoints|
  {
    if endpoints == [] then table
    else AddOptions(if endpoints[0] in table then table else table + [endpoints[0]], endpoints[1..])
  }

  /** The endpoints of all entries in order of first appearance. */
  function OptionTable(entries: seq<Entry>): seq<EndpointOption> {
    if entries == [] then []
    else AddOptions(OptionTable(entries[..|entries| - 1]), entries[|entries| - 1].Endpoints())
  }

  /** The position of the first table element that is one of the endpoints, or |table|. */
  function FirstOf(table: seq<EndpointOption>, endpoints: seq<EndpointOption>): (i: nat)
    ensures i <= |table|
    ensures i < |table| ==> table[i] in endpoints
    ensures forall j :: 0 <= j < i ==> table[j] !in endpoints
  {
    if table == [] || table[0] in endpoints then 0 else 1 + FirstOf(table[1..], endpoints)
  }

  // ----- Bytes of one entry and of one option -----

  /** index_first_option after an entry has been looked up. An offer starts at 0; a
      subscribe entry without endpoints keeps whatever an earlier entry left behind. */
  function IndexOfRun(entry: Entry, table: seq<EndpointOption>, carried: Option<nat>): Option<nat> {
    if !entry.HasEndpoints() then Some(0)
    else
      var first := FirstOf(table, entry.Endpoints());
      if first < |table| then Some(first)
      else if entry.IsService() then Some(0)
      else carried
  }

  predicate FieldsFit(entry: Entry) {
    && InU16(entry.serviceId)
    && InU16(entry.instanceId)
    && InU8(entry.majorVersion)
    && if entry.IsService() then InU32(entry.minorVersion) else InU16(entry.eventGroupId)
  }

  /** The twelve bytes common to both entry formats. */
  function HeadBytes(entry: Entry, index: nat): (r: seq<byte>)
    requires FieldsFit(entry) && InU8(index) && |entry.Endpoints()| <= 2
    ensures |r| == 12
  {
    [entry.WireType(), index, 0, |entry.Endpoints()| * 0x10]
    + Be16(entry.serviceId)
    + Be16(entry.instanceId)
    + [entry.majorVersion, entry.WireTtl() / 0x1_0000 % 0x100]
    + Be16(entry.WireTtl() % 0x1_0000)
  }

  function TailBytes(entry: Entry): (r: seq<byte>)
    requires FieldsFit(entry)
    ensures |r| == 4
  {
    if entry.IsService() then Be32(entry.minorVersion)
    else [0, entry.counter % 0x10] + Be16(entry.eventGroupId)
  }

  function EntryBytes(entry: Entry, index: Option<nat>): (r: Result<seq<byte>>)
    ensures r.Ok? ==> |r.value| == 16
  {
    if |entry.Endpoints()| > 2 then Err(ValueError)
    else if index.None? then Err(UnboundLocalError)
    else if !FieldsFit(entry) || !InU8(index.value) then Err(StructError)
    else Ok(HeadBytes(entry, index.value) + TailBytes(entry))
  }

  function EntriesBytes(entries: seq<Entry>, table: seq<EndpointOption>, carried: Option<nat>): (r: Result<seq<byte>>)
    ensures r.Ok? ==> |r.value| == 16 * |entries|
  {
    if entries == [] then Ok([])
    else
      var index := IndexOfRun(entries[0], table, carried);
      var first :- EntryBytes(entries[0], index);
      var rest :- EntriesBytes(entries[1..], table, index);
      Ok(first + rest)
  }

  function OptionSize(option: EndpointOption): nat {
    if option.V4? then 12 else 24
  }

  function OptionBytes(option: EndpointOption): (r: Result<seq<byte>>)
    ensures r.Ok? ==> |r.value| == OptionSize(option)
  {
    if !InU16(option.port) then Err(StructError)
    else if option.V4? then
      Ok([0, 0x09, 0x04, 0] + option.address4 + [0, option.protocol.Code()] + Be16(option.port))
    else
      Ok([0, 0x15, 0x06, 0] + option.address6 + [0, option.protocol.Code()] + Be16(option.port))
  }

  function OptionsSize(options: seq<EndpointOption>): nat {
    if options == [] then 0 else OptionSize(options[0]) + OptionsSize(options[1..])
  }

  function OptionsBytes(options: seq<EndpointOption>): (r: Result<seq<byte>>)
    ensures r.Ok? ==> |r.value| == OptionsSize(options)
  {
    if options == [] then Ok([])
    else
      var first :- OptionBytes(options[0]);
      var rest :- OptionsBytes(options[1..]);
      Ok(first + rest)
  }

  // ----- The whole message -----

  /** The SOME/IP header of an SD message whose header announces `length` further bytes. */
  function SdHeaderBytes(length: int, sessionId: int): (r: seq<byte>)
    requires InU32(length) && InU16(sessionId)
    ensures |r| == 16
  {
    [0xFF, 0xFF, 0x81, 0x00] + Be32(length) + [0, 0] + Be16(sessionId) + [1, 1, 2, 0]
  }

  /** Everything after the header, given the bytes of the entries and options. */
  function BodyBytes(flags: byte, entries: seq<byte>, options: seq<byte>): (r: seq<byte>)
    requires InU32(|entries|) && InU32(|options|)
    ensures |r| == 12 + |entries| + |options|
  {
    [flags, 0, 0, 0] + Be32(|entries|) + entries + Be32(|options|) + options
  }

  /** Reboot flag clear, unicast flag set. */
  const UNICAST_FLAGS: byte := 0x40

  function SdBytes(message: SdMessage): (r: Result<seq<byte>>) {
    if !InU16(message.sessionId) then Err(StructError)
    else if !InU32(16 * |message.entries|) then Err(StructError)
    else
      var table := OptionTable(message.entries);
      var entries :- EntriesBytes(message.entries, table, None);
      if !InU32(OptionsSize(table)) then Err(StructError)
      else
        var options :- OptionsBytes(table);
        var length := 20 + |entries| + |options|;
        if !InU32(length) then Err(StructError)
        else Ok(SdHeaderBytes(length, message.sessionId) + BodyBytes(UNICAST_FLAGS, entries, options))
  }

  /** Appending field by field gives the body as one piece. */
  lemma AppendedBody(head: seq<byte>, entries: seq<byte>, options: seq<byte>)
    requires InU32(|entries|) && InU32(|options|)
    ensures head + [UNICAST_FLAGS, 0, 0, 0] + Be32(|entries|) + entries + Be32(|options|) + options
         == head + BodyBytes(UNICAST_FLAGS, entries, options)
  {
  }

  /** Overwriting the length field of a header that announced 0. */
  lemma PatchedLength(output: seq<byte>, sessionId: int, body: seq<byte>, length: int)
    requires InU16(sessionId) && InU32(length)
    requires output == SdHeaderBytes(0, sessionId) + body
    ensures output[..4] + Be32(length) + output[8..] == SdHeaderBytes(length, sessionId) + body
  {
    var head := SdHeaderBytes(0, sessionId);
    assert head[..4] == [0xFF, 0xFF, 0x81, 0x00];
    assert output[..4] == head[..4];
    assert output[8..] == head[8..] + body;
    assert head[8..] == [0, 0] + Be16(sessionId) + [1, 1, 2, 0];
    assert SdHeaderBytes(length, sessionId) == head[..4] + Be32(length) + head[8..];
  }

  /** The first loop: collects each endpoint once, in order of first appearance. */
  method CollectOptions(entries: seq<Entry>) returns (options: seq<EndpointOption>)
    ensures options == OptionTable(entries)
  {
    options := [];
    var optionSet: set<EndpointOption> := {};
    for i := 0 to |entries|
      invariant options == OptionTable(entries[..i])
      invariant optionSet == set o | o in options
    {
      var endpoints := entries[i].Endpoints();
      assert entries[..i + 1][..i] == entries[..i];
      for j := 0 to |endpoints|
        invariant AddOptions(OptionTable(entries[..i]), endpoints) == AddOptions(options, endpoints[j..])
        invariant optionSet == set o | o in options
      {
        assert endpoints[j..][1..] == endpoints[j + 1..];
        if endpoints[j] !in optionSet {
          optionSet := optionSet + {endpoints[j]};
          options := options + [endpoints[j]];
        }
      }
      assert endpoints[|endpoints|..] == [];
    }
    assert entries[..|entries|] == entries;
  }

  /** The inner loop: the first option that belongs to the entry. */
  method FindFirstOption(options: seq<EndpointOption>, endpoints: seq<EndpointOption>) returns (index: Option<nat>)
    ensures index == if FirstOf(options, endpoints) < |options| then Some(FirstOf(options, endpoints)) else None
  {
    index := None;
    for i := 0 to |options|
      invariant index.None?
      invariant FirstOf(options, endpoints) == i + FirstOf(options[i..], endpoints)
    {
      assert options[i..][1..] == options[i + 1..];
      if options[i] in endpoints {
        index := Some(i);
        return;
      }
    }
  }

  lemma EntriesBytesStep(output: seq<byte>, entries: seq<Entry>, i: nat, table: seq<EndpointOption>, carried: Option<nat>)
    requires i < |entries|
    ensures var index := IndexOfRun(entries[i], table, carried);
            var first := EntryBytes(entries[i], index);
            PrependAll(output, EntriesBytes(entries[i..], table, carried))
            == if first.Err? then Err(first.error)
               else PrependAll(output + first.value, EntriesBytes(entries[i + 1..], table, index))
  {
    assert entries[i..][0] == entries[i] && entries[i..][1..] == entries[i + 1..];
    var index := IndexOfRun(entries[i], table, carried);
    var first := EntryBytes(entries[i], index);
    var rest := EntriesBytes(entries[i + 1..], table, index);
    if first.Ok? && rest.Ok? {
      assert output + (first.value + rest.value) == output + first.value + rest.value;
    }
  }

  /** The lookup of index_first_option for one entry. */
  method SelectIndex(entry: Entry, options: seq<EndpointOption>, carried: Option<nat>) returns (index: Option<nat>)
    ensures index == IndexOfRun(entry, options, carried)
  {
    index := carried;
    if entry.IsService() || !entry.HasEndpoints() {
      index := Some(0);
    }
    if entry.HasEndpoints() {
      var found := FindFirstOption(options, entry.v4 + entry.v6);
      if found.Some? {
        index := found;
      }
    }
  }

  method SerializeEntries(entries: seq<Entry>, options: seq<EndpointOption>) returns (r: Result<seq<byte>>)
    ensures r == EntriesBytes(entries, options, None)
  {
    var output: seq<byte> := [];
    var indexFirstOption: Option<nat> := None;
    assert entries[0..] == entries;
    PrependNone(EntriesBytes(entries, options, None));
    for i := 0 to |entries|
      invariant EntriesBytes(entries, options, None)
             == PrependAll(output, EntriesBytes(entries[i..], options, indexFirstOption))
    {
      EntriesBytesStep(output, entries, i, options, indexFirstOption);
      if entries[i].HasEndpoints() && |entries[i].v4| + |entries[i].v6| > 2 {
        return Err(ValueError);
      }
      indexFirstOption := SelectIndex(entries[i], options, indexFirstOption);
      var bytes :- EntryBytes(entries[i], indexFirstOption);
      output := output + bytes;
    }
    assert output + [] == output;
    return Ok(output);
  }

  method SerializeOptions(options: seq<EndpointOption>) returns (r: Result<seq<byte>>)
    ensures r == OptionsBytes(options)
  {
    var output: seq<byte> := [];
    assert options[0..] == options;
    PrependNone(OptionsBytes(options));
    for i := 0 to |options|
      invariant OptionsBytes(options) == PrependAll(output, OptionsBytes(options[i..]))
    {
      assert options[i..][0] == options[i] && options[i..][1..] == options[i + 1..];
      var bytes := OptionBytes(options[i]);
      if bytes.Err? {
        return Err(bytes.error);
      }
      ghost var rest := OptionsBytes(options[i + 1..]);
      assert rest.Ok? ==> output + (bytes.value + rest.value) == output + bytes.value + rest.value;
      output := output + bytes.value;
    }
    assert output + [] == output;
    return Ok(output);
  }

  method LengthOfOptions(options: seq<EndpointOption>) returns (length: nat)
    ensures length == OptionsSize(options)
  {
    length := 0;
    for i := 0 to |options|
      invariant OptionsSize(options) == length + OptionsSize(options[i..])
    {
      assert options[i..][0] == options[i] && options[i..][1..] == options[i + 1..];
      length := length + if options[i].V4? then 12 else 24;
    }
  }

  /** Prints the header with length 0 first and patches the length in at the end. */
  method SerializeSdMessage(message: SdMessage) returns (r: Result<seq<byte>>)
    ensures r == SdBytes(message)
  {
    if !InU16(message.sessionId) {
      return Err(StructError);
    }
    var head := SdHeaderBytes(0, message.sessionId);
    var output := head + [UNICAST_FLAGS, 0, 0, 0];
    var options := CollectOptions(message.entries);
    if !InU32(|message.entries| * 16) {
      return Err(StructError);
    }
    output := output + Be32(|message.entries| * 16);
    var entries :- SerializeEntries(message.entries, options);
    output := output + entries;
    var lengthOfOptions := LengthOfOptions(options);
    if !InU32(lengthOfOptions) {
      return Err(StructError);
    }
    output := output + Be32(lengthOfOptions);
    var optionBytes :- SerializeOptions(options);
    output := output + optionBytes;
    AppendedBody(head, entries, optionBytes);
    var totalLength := |output| - 8;
    if !InU32(totalLength) {
      return Err(StructError);
    }
    PatchedLength(output, message.sessionId, BodyBytes(UNICAST_FLAGS, entries, optionBytes), totalLength);
    output := output[..4] + Be32(totalLength) + output[8..];
    return Ok(output);
  }
}
