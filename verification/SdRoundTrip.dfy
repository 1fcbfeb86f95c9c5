/** What the newer parser makes of the bytes that the printer writes. */
module SdRoundTrip {
  import opened Bytes
  import opened SdMessages
  import opened SdSerialization
  import opened SdDeserialization

  // ----- The option table -----

  ghost predicate NoDuplicates<T>(s: seq<T>) {
    forall i, j :: 0 <= i < j < |s| ==> s[i] != s[j]
  }

  ghost predicate Disjoint<T(!new)>(s: seq<T>, t: seq<T>) {
    forall x :: !(x in s && x in t)
  }

  lemma {:induction false} AddOptionsProperties(table: seq<EndpointOption>, endpoints: seq<EndpointOption>)
    requires NoDuplicates(table)
    ensures var r := AddOptions(table, endpoints);
            NoDuplicates(r) && table <= r && forall o :: o in r <==> o in table || o in endpoints
    decreases |endpoints|
  {
    if endpoints != [] {
      var next := if endpoints[0] in table then table else table + [endpoints[0]];
      AddOptionsProperties(next, endpoints[1..]);
      assert endpoints == [endpoints[0]] + endpoints[1..];
    }
  }

  /** New endpoints are appended as they stand. */
  lemma {:induction false} AddOptionsAppends(table: seq<EndpointOption>, endpoints: seq<EndpointOption>)
    requires NoDuplicates(endpoints) && Disjoint(table, endpoints)
    ensures AddOptions(table, endpoints) == table + endpoints
    decreases |endpoints|
  {
    if endpoints == [] {
      assert table + endpoints == table;
    } else {
      assert endpoints[0] in endpoints;
      var next := table + [endpoints[0]];
      forall x ensures !(x in next && x in endpoints[1..]) {
        if x in endpoints[1..] {
          assert x in endpoints;
        }
      }
      AddOptionsAppends(next, endpoints[1..]);
      assert next + endpoints[1..] == table + endpoints;
    }
  }

  /** The table has no duplicates and holds exactly the endpoints of the entries. */
  lemma {:induction false} OptionTableProperties(entries: seq<Entry>)
    ensures NoDuplicates(OptionTable(entries))
    ensures forall o :: o in OptionTable(entries) <==> exists e :: e in entries && o in e.Endpoints()
  {
    if entries != [] {
      var last := |entries| - 1;
      OptionTableProperties(entries[..last]);
      AddOptionsProperties(OptionTable(entries[..last]), entries[last].Endpoints());
      assert entries == entries[..last] + [entries[last]];
    }
  }

  /** The table of a prefix of the entries is a prefix of the table. */
  lemma {:induction false} OptionTableGrows(entries: seq<Entry>, k: nat)
    requires k <= |entries|
    ensures OptionTable(entries[..k]) <= OptionTable(entries)
  {
    var last := |entries| - 1;
    if k == |entries| {
      assert entries[..k] == entries;
    } else {
      OptionTableGrows(entries[..last], k);
      assert entries[..last][..k] == entries[..k];
      OptionTableProperties(entries[..last]);
      AddOptionsProperties(OptionTable(entries[..last]), entries[last].Endpoints());
    }
  }

  // ----- Options on the wire -----

  /** The options the parser reads back for a printed table. */
  function Wrapped(options: seq<EndpointOption>): (r: seq<ParsedOption>)
    ensures |r| == |options|
    ensures forall i :: 0 <= i < |r| ==> r[i] == Endpoint(options[i])
  {
    seq(|options|, i requires 0 <= i < |options| => Endpoint(options[i]))
  }

  lemma OptionDecodes(data: seq<byte>, pos: nat, option: EndpointOption)
    requires OptionBytes(option).Ok?
    requires pos + OptionSize(option) <= |data|
    requires data[pos..pos + OptionSize(option)] == OptionBytes(option).value
    ensures At16(data, pos) + 3 == OptionSize(option)
    ensures OptionAt(data, pos) == Ok(Endpoint(option))
  {
    var bytes := OptionBytes(option).value;
    var size := OptionSize(option);
    var address := if option.V4? then option.address4 else option.address6;
    OptionFields(option, address);
    hide OptionBytes;
    SubSlice(data, pos, bytes, 0, 4);
    Quadruple(data, pos);
    SubSlice(data, pos, bytes, 4, size - 4);
    SubSlice(data, pos, bytes, size - 3, size - 2);
    SubSlice(data, pos, bytes, size - 2, size);
    At16Inverse(data, pos + size - 2, option.port);
  }

  lemma OptionFields(option: EndpointOption, address: seq<byte>)
    requires OptionBytes(option).Ok? && address == if option.V4? then option.address4 else option.address6
    ensures var bytes, size := OptionBytes(option).value, OptionSize(option);
            && bytes[..4] == [0, if option.V4? then 0x09 else 0x15, if option.V4? then 0x04 else 0x06, 0]
            && bytes[4..size - 4] == address
            && bytes[size - 3] == option.protocol.Code()
            && bytes[size - 2..] == Be16(option.port)
  {
  }

  lemma WrappedFirst(options: seq<EndpointOption>)
    requires options != []
    ensures Wrapped(options) == [Endpoint(options[0])] + Wrapped(options[1..])
  {
  }

  lemma {:induction false} OptionsDecode(data: seq<byte>, pos: nat, options: seq<EndpointOption>)
    requires OptionsBytes(options).Ok?
    requires pos + OptionsSize(options) <= |data|
    requires data[pos..pos + OptionsSize(options)] == OptionsBytes(options).value
    ensures OptionsFrom(data, pos, OptionsSize(options)) == Ok(Wrapped(options))
    decreases |options|
  {
    if options == [] {
      assert Wrapped(options) == [];
    } else {
      WrappedFirst(options);
      hide OptionBytes, OptionAt, At16, OptionsBytes, Wrapped;
      var size := OptionSize(options[0]);
      OptionsSplit(options);
      HasParts(data, pos, OptionBytes(options[0]).value, OptionsBytes(options[1..]).value);
      OptionDecodes(data, pos, options[0]);
      OptionsDecode(data, pos + size, options[1..]);
    }
  }

  lemma OptionsSplit(options: seq<EndpointOption>)
    requires options != [] && OptionsBytes(options).Ok?
    ensures OptionBytes(options[0]).Ok? && |OptionBytes(options[0]).value| == OptionSize(options[0])
    ensures OptionsBytes(options[1..]).Ok? && |OptionsBytes(options[1..]).value| == OptionsSize(options[1..])
    ensures OptionsBytes(options).value == OptionBytes(options[0]).value + OptionsBytes(options[1..]).value
  {
    hide OptionBytes, OptionSize;
  }

  // ----- Entries on the wire -----

  lemma HeadDecodes(data: seq<byte>, start: nat, entry: Entry, index: nat)
    requires start + 16 <= |data|
    requires EntryBytes(entry, Some(index)) == Ok(data[start..start + 16])
    ensures HeadAt(data, start)
         == EntryHead(entry.WireType(), index, 0, |entry.Endpoints()|, 0, entry.serviceId, entry.instanceId,
                      entry.majorVersion, entry.WireTtl() % 0x100_0000)
    ensures data[start + 12..start + 16] == TailBytes(entry)
  {
    hide HeadAt, TailBytes;
    var part := HeadBytes(entry, index) + TailBytes(entry);
    assert part[12..16] == TailBytes(entry);
    SubSlice(data, start, part, 12, 16);
    HeadFields(entry.WireType(), index, 0, |entry.Endpoints()|, 0, entry.serviceId, entry.instanceId,
               entry.majorVersion, entry.WireTtl(), TailBytes(entry));
    HeadFromFields(data, start, entry.WireType(), index, 0, |entry.Endpoints()|, 0, entry.serviceId, entry.instanceId,
                   entry.majorVersion, entry.WireTtl(), part);
  }

  /** The fields of a head, wherever the sixteen bytes of its entry stand. */
  lemma HeadFields(kind: byte, index1: byte, index2: byte, count1: nibble, count2: nibble, serviceId: int,
                   instanceId: int, majorVersion: byte, ttl: int, tail: seq<byte>)
    requires InU16(serviceId) && InU16(instanceId) && |tail| == 4
    ensures var part := [kind, index1, index2, count1 * 0x10 + count2] + Be16(serviceId) + Be16(instanceId)
                        + [majorVersion, ttl / 0x1_0000 % 0x100] + Be16(ttl % 0x1_0000) + tail;
            && part[..4] == [kind, index1, index2, count1 * 0x10 + count2]
            && part[4..6] == Be16(serviceId)
            && part[6..8] == Be16(instanceId)
            && part[8..12] == [majorVersion, ttl / 0x1_0000 % 0x100] + Be16(ttl % 0x1_0000)
  {
  }

  lemma HeadFromFields(data: seq<byte>, start: nat, kind: byte, index1: byte, index2: byte, count1: nibble,
                       count2: nibble, serviceId: int, instanceId: int, majorVersion: byte, ttl: int, part: seq<byte>)
    requires start + 16 <= |data| && |part| == 16 && data[start..start + 16] == part
    requires InU16(serviceId) && InU16(instanceId)
    requires part[..4] == [kind, index1, index2, count1 * 0x10 + count2]
    requires part[4..6] == Be16(serviceId) && part[6..8] == Be16(instanceId)
    requires part[8..12] == [majorVersion, ttl / 0x1_0000 % 0x100] + Be16(ttl % 0x1_0000)
    ensures HeadAt(data, start)
         == EntryHead(kind, index1, index2, count1, count2, serviceId, instanceId, majorVersion, ttl % 0x100_0000)
  {
    SubSlice(data, start, part, 0, 4);
    Quadruple(data, start);
    SubSlice(data, start, part, 4, 6);
    At16Inverse(data, start + 4, serviceId);
    SubSlice(data, start, part, 6, 8);
    At16Inverse(data, start + 6, instanceId);
    SubSlice(data, start, part, 8, 12);
    TtlDecodes(data, start + 8, majorVersion, ttl);
  }

  lemma Quadruple(data: seq<byte>, start: nat)
    requires start + 4 <= |data|
    ensures data[start..start + 4] == [data[start], data[start + 1], data[start + 2], data[start + 3]]
  {
  }

  /** A TTL cut into a high byte and a low word comes back modulo 2^24 when the
      32-bit field around it is masked. */
  lemma TtlDecodes(data: seq<byte>, at: nat, majorVersion: byte, ttl: int)
    requires at + 4 <= |data|
    requires data[at..at + 4] == [majorVersion, ttl / 0x1_0000 % 0x100] + Be16(ttl % 0x1_0000)
    ensures data[at] == majorVersion && At32(data, at) % 0x100_0000 == ttl % 0x100_0000
  {
    Quadruple(data, at);
    assert data[at + 1] == ttl / 0x1_0000 % 0x100;
    assert data[at + 2..at + 4] == Be16(ttl % 0x1_0000);
    At16Inverse(data, at + 2, ttl % 0x1_0000);
    TtlSplits(ttl, majorVersion);
  }

  /** Cutting a TTL into a high byte and a low word and masking the 32-bit field again. */
  lemma TtlSplits(ttl: int, majorVersion: byte)
    ensures (majorVersion as int * 0x100 + ttl / 0x1_0000 % 0x100) * 0x1_0000 + ttl % 0x1_0000
         == majorVersion as int * 0x100_0000 + ttl % 0x100_0000
    ensures (majorVersion as int * 0x100_0000 + ttl % 0x100_0000) % 0x100_0000 == ttl % 0x100_0000
  {
  }

  /** The index_first_option that the printer writes into entry k. */
  function IndexOfEntry(entries: seq<Entry>, table: seq<EndpointOption>, carried: Option<nat>, k: nat): Option<nat>
    requires k < |entries|
  {
    var index := IndexOfRun(entries[0], table, carried);
    if k == 0 then index else IndexOfEntry(entries[1..], table, index, k - 1)
  }

  lemma BlocksShift(entries: seq<Entry>, table: seq<EndpointOption>, carried: Option<nat>, k: nat, block: seq<byte>)
    requires EntriesBytes(entries, table, carried).Ok? && 1 <= k < |entries|
    requires var rest := EntriesBytes(entries[1..], table, IndexOfRun(entries[0], table, carried)).value;
             block == rest[16 * (k - 1)..16 * (k - 1) + 16]
    ensures block == EntriesBytes(entries, table, carried).value[16 * k..16 * k + 16]
  {
    var index := IndexOfRun(entries[0], table, carried);
    NextBlock(EntryBytes(entries[0], index).value, EntriesBytes(entries[1..], table, index).value, k);
  }

  /** Where entry k of a printed entries array stands. */
  lemma {:induction false} EntryPlace(entries: seq<Entry>, table: seq<EndpointOption>, carried: Option<nat>, k: nat)
    requires EntriesBytes(entries, table, carried).Ok? && k < |entries|
    ensures EntryBytes(entries[k], IndexOfEntry(entries, table, carried, k))
         == Ok(EntriesBytes(entries, table, carried).value[16 * k..16 * k + 16])
  {
    hide EntryBytes, IndexOfRun;
    var index := IndexOfRun(entries[0], table, carried);
    if k == 0 {
      var first := EntryBytes(entries[0], index).value;
      assert EntriesBytes(entries, table, carried).value[..16] == first;
    } else {
      EntryPlace(entries[1..], table, index, k - 1);
      assert entries[1..][k - 1] == entries[k];
      BlocksShift(entries, table, carried, k, EntryBytes(entries[k], IndexOfEntry(entries, table, carried, k)).value);
    }
  }

  lemma NextBlock(first: seq<byte>, rest: seq<byte>, k: nat)
    requires |first| == 16 && 1 <= k && 16 * k <= |rest|
    ensures (first + rest)[16 * k..16 * k + 16] == rest[16 * (k - 1)..16 * (k - 1) + 16]
  {
    var all := first + rest;
    assert all[16..] == rest;
    assert all[16..][16 * (k - 1)..16 * (k - 1) + 16] == all[16 * k..16 * k + 16];
  }

  // ----- The layout of a printed message -----

  lemma HeaderLayout(length: int, sessionId: int, body: seq<byte>, data: seq<byte>)
    requires InU32(length) && InU16(sessionId)
    requires data == SdHeaderBytes(length, sessionId) + body
    ensures At32(data, 4) == length && At16(data, 10) == sessionId
    ensures At16(data, 0) == 0xFFFF && At16(data, 2) == 0x8100 && At16(data, 8) == 0
    ensures data[12] == 1 && data[13] == 1 && data[14] == 2 && data[15] == 0
  {
    var head := SdHeaderBytes(length, sessionId);
    assert data[..16] == head;
    assert data[4..8] == Be32(length);
    At32Inverse(data, 4, length);
    assert data[10..12] == Be16(sessionId);
    At16Inverse(data, 10, sessionId);
  }

  lemma BodyLayout(head: seq<byte>, flags: byte, entries: seq<byte>, options: seq<byte>, data: seq<byte>)
    requires |head| == 16 && InU32(|entries|) && InU32(|options|)
    requires data == head + BodyBytes(flags, entries, options)
    ensures data[16] == flags && At32(data, 20) == |entries|
    ensures data[24..24 + |entries|] == entries
    ensures At32(data, 24 + |entries|) == |options|
    ensures data[28 + |entries|..] == options
  {
    var n := |entries|;
    var front := head + [flags, 0, 0, 0];
    assert data == front + Be32(n) + (entries + Be32(|options|) + options);
    Middle(front, Be32(n), entries + Be32(|options|) + options);
    At32Inverse(data, 20, n);
    assert data == (front + Be32(n)) + entries + (Be32(|options|) + options);
    Middle(front + Be32(n), entries, Be32(|options|) + options);
    assert data == (front + Be32(n) + entries) + Be32(|options|) + options;
    Middle(front + Be32(n) + entries, Be32(|options|), options);
    At32Inverse(data, 24 + n, |options|);
    assert data[16] == front[16];
  }

  /** The bytes of the entries array and of the options array of a printed message. */
  function EntriesPart(message: SdMessage): Result<seq<byte>> {
    EntriesBytes(message.entries, OptionTable(message.entries), None)
  }

  function OptionsPart(message: SdMessage): Result<seq<byte>> {
    OptionsBytes(OptionTable(message.entries))
  }

  lemma Parts(message: SdMessage, data: seq<byte>)
    requires SdBytes(message) == Ok(data)
    ensures EntriesPart(message).Ok? && OptionsPart(message).Ok?
    ensures var entries, options := EntriesPart(message).value, OptionsPart(message).value;
            && InU32(20 + |entries| + |options|) && InU16(message.sessionId)
            && data == SdHeaderBytes(20 + |entries| + |options|, message.sessionId)
                       + BodyBytes(UNICAST_FLAGS, entries, options)
  {
    hide EntriesBytes, OptionsBytes, OptionTable, SdHeaderBytes, BodyBytes;
  }

  lemma Layout(message: SdMessage, data: seq<byte>)
    requires SdBytes(message) == Ok(data)
    ensures EntriesPart(message).Ok? && OptionsPart(message).Ok?
    ensures var n, size := |EntriesPart(message).value|, |OptionsPart(message).value|;
            && |data| == 28 + n + size
            && data[16] == UNICAST_FLAGS
            && At32(data, 20) == n
            && data[24..24 + n] == EntriesPart(message).value
            && At32(data, 24 + n) == size
            && data[28 + n..28 + n + size] == OptionsPart(message).value
  {
    Parts(message, data);
    var entries, options := EntriesPart(message).value, OptionsPart(message).value;
    BodyLayout(SdHeaderBytes(20 + |entries| + |options|, message.sessionId), UNICAST_FLAGS, entries, options, data);
    assert data[28 + |entries|..] == data[28 + |entries|..28 + |entries| + |options|];
  }

  /** A printed message announces its own size and is accepted exactly when its session id is not 0. */
  lemma PrintedIsSdMessage(message: SdMessage, data: seq<byte>)
    requires SdBytes(message) == Ok(data)
    ensures At32(data, 4) == |data| - 8
    ensures At16(data, 10) == message.sessionId
    ensures IsSdMessage(data) <==> message.sessionId != 0
  {
    Parts(message, data);
    var entries, options := EntriesPart(message).value, OptionsPart(message).value;
    HeaderLayout(20 + |entries| + |options|, message.sessionId, BodyBytes(UNICAST_FLAGS, entries, options), data);
  }

  // ----- Decoding the entries of a printed message -----

  /** The index that the printer gives to a Find, Offer or StopOffer entry. */
  function RunIndex(entry: Entry, table: seq<EndpointOption>): nat {
    var first := FirstOf(table, entry.Endpoints());
    if entry.HasEndpoints() && first < |table| then first else 0
  }

  lemma {:induction false} ServiceIndex(entries: seq<Entry>, table: seq<EndpointOption>, carried: Option<nat>, k: nat)
    requires k < |entries| && entries[k].IsService()
    ensures IndexOfEntry(entries, table, carried, k) == Some(RunIndex(entries[k], table))
  {
    if k > 0 {
      ServiceIndex(entries[1..], table, IndexOfRun(entries[0], table, carried), k - 1);
    }
  }

  /** What the parser makes of a printed Find, Offer or StopOffer entry: it has the cut TTL
      and the options of its run, whatever they are. */
  function Seen(entry: Entry, table: seq<EndpointOption>): Result<Entry>
    requires entry.IsService()
  {
    var ttl := entry.WireTtl() % 0x100_0000;
    if entry.FindService? then
      Ok(FindService(entry.serviceId, entry.instanceId, entry.majorVersion, entry.minorVersion, ttl))
    else
      var run :- Run(Wrapped(table), RunIndex(entry, table), |entry.Endpoints()|);
      var v4, v6 := V4Endpoints(run), V6Endpoints(run);
      if ttl != 0 then
        Ok(OfferService(entry.serviceId, entry.instanceId, entry.majorVersion, entry.minorVersion, ttl, v4, v6))
      else
        Ok(StopOfferService(entry.serviceId, entry.instanceId, entry.majorVersion, entry.minorVersion, v4, v6))
  }

  predicate AllService(entries: seq<Entry>) {
    forall e :: e in entries ==> e.IsService()
  }

  function SeenAll(entries: seq<Entry>, table: seq<EndpointOption>): (r: Result<seq<Entry>>)
    requires AllService(entries)
    ensures r.Ok? ==> |r.value| == |entries|
  {
    if entries == [] then Ok([])
    else
      assert entries[0] in entries;
      var first :- Seen(entries[0], table);
      var rest :- SeenAll(entries[1..], table);
      Ok([first] + rest)
  }

  lemma EntryDecodes(data: seq<byte>, start: nat, entry: Entry, table: seq<EndpointOption>)
    requires start + 16 <= |data| && entry.IsService()
    requires EntryBytes(entry, Some(RunIndex(entry, table))) == Ok(data[start..start + 16])
    ensures var seen := Seen(entry, table);
            EntryAt(data, start, Wrapped(table)) == if seen.Err? then Err(seen.error) else Ok(Some(seen.value))
  {
    HeadDecodes(data, start, entry, RunIndex(entry, table));
    assert data[start + 12..start + 16] == Be32(entry.minorVersion);
    At32Inverse(data, start + 12, entry.minorVersion);
    var run := Run(Wrapped(table), RunIndex(entry, table), |entry.Endpoints()|);
    assert run.Ok? ==> run.value + [] == run.value;
  }

  lemma {:induction false} EntriesDecode(data: seq<byte>, entries: seq<Entry>, table: seq<EndpointOption>, i: nat)
    requires i <= |entries| && AllService(entries)
    requires |data| >= 24 + 16 * |entries|
    requires EntriesBytes(entries, table, None) == Ok(data[24..24 + 16 * |entries|])
    ensures EntriesFrom(data, i, |entries|, Wrapped(table)) == SeenAll(entries[i..], table)
    decreases |entries| - i
  {
    hide EntryAt, Seen, EntryBytes, IndexOfEntry, RunIndex, EntriesBytes;
    if i < |entries| {
      var all := data[24..24 + 16 * |entries|];
      ServiceIndex(entries, table, None, i);
      EntryPlace(entries, table, None, i);
      SubSlice(data, 24, all, 16 * i, 16 * i + 16);
      var start := ENTRIES_START + 16 * i;
      assert data[start..start + 16] == all[16 * i..16 * i + 16];
      EntryDecodes(data, start, entries[i], table);
      EntriesDecode(data, entries, table, i + 1);
      assert entries[i..][0] == entries[i] && entries[i..][1..] == entries[i + 1..];
    }
  }

  lemma ParsedFromParts(data: seq<byte>, n: nat, options: seq<ParsedOption>, entries: Result<seq<Entry>>)
    requires IsSdMessage(data) && |data| >= 28 + 16 * n
    requires At32(data, 20) == 16 * n
    requires OptionsFrom(data, 28 + 16 * n, At32(data, 24 + 16 * n)) == Ok(options)
    requires EntriesFrom(data, 0, n, options) == entries
    ensures Parsed(data) == if entries.Err? then Err(entries.error)
                            else Ok(ReceivedMessage(At16(data, 10), data[16] >= 0x80, entries.value))
  {
    hide OptionsFrom, EntriesFrom;
    assert OptionsLengthPos(data) == 24 + 16 * n;
    assert At32(data, 20) / 16 == n;
  }

  /** The parser's result on any printed message of Find, Offer and StopOffer entries. */
  lemma PrintedParses(message: SdMessage, data: seq<byte>)
    requires AllService(message.entries)
    requires SdBytes(message) == Ok(data) && message.sessionId != 0
    ensures var seen := SeenAll(message.entries, OptionTable(message.entries));
            Parsed(data) == if seen.Err? then Err(seen.error)
                            else Ok(ReceivedMessage(message.sessionId, false, seen.value))
  {
    hide EntryAt, Seen, SeenAll, EntryBytes, EntriesBytes, OptionsBytes, SdBytes, Parsed, OptionTable, IsSdMessage,
      OptionsFrom, EntriesFrom, OptionsSize;
    var table := OptionTable(message.entries);
    var n := |message.entries|;
    Layout(message, data);
    PrintedIsSdMessage(message, data);
    OptionsDecode(data, 28 + 16 * n, table);
    EntriesDecode(data, message.entries, table, 0);
    assert message.entries[0..] == message.entries;
    ParsedFromParts(data, n, Wrapped(table), SeenAll(message.entries, table));
  }

  // ----- The round trip -----

  /** The TTL survives its 24 bits, and an offer is not taken for a stop. */
  predicate TtlKept(entry: Entry) {
    match entry
    case FindService(_, _, _, _, ttl) => 0 <= ttl <= 0xFF_FFFF
    case OfferService(_, _, _, _, ttl, _, _) => 1 <= ttl <= 0xFF_FFFF
    case _ => true
  }

  /** The entry's endpoints stand next to each other at position i of the table, IPv4
      and IPv6 endpoints each in the entry's order. */
  predicate StandsAt(entry: Entry, table: seq<EndpointOption>, i: nat) {
    var count := |entry.Endpoints()|;
    && i + count <= |table|
    && entry.HasEndpoints()
    && V4Endpoints(Wrapped(table[i..i + count])) == entry.v4
    && V6Endpoints(Wrapped(table[i..i + count])) == entry.v6
  }

  ghost predicate Contiguous(entry: Entry, table: seq<EndpointOption>) {
    entry.HasEndpoints() ==> exists i :: StandsAt(entry, table, i)
  }

  lemma {:induction false} FilteredMembers(options: seq<EndpointOption>, o: EndpointOption)
    ensures o in V4Endpoints(Wrapped(options)) <==> o in options && o.V4?
    ensures o in V6Endpoints(Wrapped(options)) <==> o in options && o.V6?
  {
    if options != [] {
      assert Wrapped(options)[1..] == Wrapped(options[1..]);
      FilteredMembers(options[1..], o);
      assert options == [options[0]] + options[1..];
    }
  }

  /** A run that holds exactly the entry's endpoints is the one the printer points at. */
  lemma PrinterFindsRun(entry: Entry, table: seq<EndpointOption>, i: nat)
    requires NoDuplicates(table) && StandsAt(entry, table, i) && entry.Endpoints() != []
    ensures RunIndex(entry, table) == i
  {
    var run := table[i..i + |entry.Endpoints()|];
    forall o ensures o in run <==> o in entry.Endpoints() {
      FilteredMembers(run, o);
    }
    assert run[0] == table[i];
    assert table[i] in entry.Endpoints();
    var first := FirstOf(table, entry.Endpoints());
    assert first <= i;
    assert table[first] in run;
    var k :| 0 <= k < |run| && run[k] == table[first];
    assert run[k] == table[i + k];
  }

  /** The parser gathers an entry's own endpoints exactly when they are contiguous. */
  lemma RunUnchanged(entry: Entry, table: seq<EndpointOption>)
    requires entry.HasEndpoints() && NoDuplicates(table)
    ensures var run := Run(Wrapped(table), RunIndex(entry, table), |entry.Endpoints()|);
            (run.Ok? && V4Endpoints(run.value) == entry.v4 && V6Endpoints(run.value) == entry.v6)
            <==> Contiguous(entry, table)
  {
    if entry.Endpoints() == [] {
      assert Wrapped(table[0..0]) == [];
      assert StandsAt(entry, table, 0);
    } else {
      RunAtIndex(entry, table);
      hide Run, RunIndex, StandsAt, Wrapped, Entry.Endpoints, Entry.HasEndpoints, V4Endpoints, V6Endpoints, NoDuplicates;
      if Contiguous(entry, table) {
        var i :| StandsAt(entry, table, i);
        PrinterFindsRun(entry, table, i);
      }
    }
  }

  lemma RunAtIndex(entry: Entry, table: seq<EndpointOption>)
    requires entry.HasEndpoints() && entry.Endpoints() != []
    ensures var run := Run(Wrapped(table), RunIndex(entry, table), |entry.Endpoints()|);
            (run.Ok? && V4Endpoints(run.value) == entry.v4 && V6Endpoints(run.value) == entry.v6)
            <==> StandsAt(entry, table, RunIndex(entry, table))
  {
    var index, count := RunIndex(entry, table), |entry.Endpoints()|;
    hide V4Endpoints, V6Endpoints, RunIndex, Entry.Endpoints;
    if index + count <= |table| {
      assert Wrapped(table)[index..index + count] == Wrapped(table[index..index + count]);
    }
  }

  /** An entry comes back unchanged exactly when its TTL is kept and its endpoints are contiguous. */
  lemma SeenUnchanged(entry: Entry, table: seq<EndpointOption>)
    requires entry.IsService() && NoDuplicates(table)
    ensures Seen(entry, table) == Ok(entry) <==> TtlKept(entry) && Contiguous(entry, table)
  {
    hide Wrapped, V4Endpoints, V6Endpoints, RunIndex, StandsAt;
    if entry.HasEndpoints() {
      RunUnchanged(entry, table);
    }
  }

  lemma {:induction false} SeenAllUnchanged(entries: seq<Entry>, table: seq<EndpointOption>)
    requires AllService(entries)
    ensures SeenAll(entries, table) == Ok(entries) <==> forall e :: e in entries ==> Seen(e, table) == Ok(e)
  {
    if entries != [] {
      SeenAllUnchanged(entries[1..], table);
      assert entries == [entries[0]] + entries[1..];
      if Seen(entries[0], table).Ok? && SeenAll(entries[1..], table).Ok? {
        var seen := SeenAll(entries, table).value;
        assert seen[0] == Seen(entries[0], table).value && seen[1..] == SeenAll(entries[1..], table).value;
      }
    }
  }

  /** The SD round trip. A message of Find, Offer and StopOffer entries that the printer accepts
      and that has a session id is parsed back to the same entries exactly when every TTL
      is kept and every entry's endpoints are contiguous in the shared option table. */
  lemma RoundTrip(message: SdMessage, data: seq<byte>)
    requires AllService(message.entries)
    requires SdBytes(message) == Ok(data) && message.sessionId != 0
    ensures IsSdMessage(data) && At32(data, 4) == |data| - 8
    ensures Parsed(data) == Ok(ReceivedMessage(message.sessionId, false, message.entries))
       <==> forall e :: e in message.entries ==> TtlKept(e) && Contiguous(e, OptionTable(message.entries))
  {
    var table := OptionTable(message.entries);
    PrintedIsSdMessage(message, data);
    PrintedParses(message, data);
    OptionTableProperties(message.entries);
    SeenAllUnchanged(message.entries, table);
    forall e | e in message.entries
      ensures Seen(e, table) == Ok(e) <==> TtlKept(e) && Contiguous(e, table)
    {
      SeenUnchanged(e, table);
    }
  }

  // ----- When the printer accepts a message -----

  lemma {:induction false} OptionsPrint(options: seq<EndpointOption>)
    ensures OptionsBytes(options).Ok? <==> forall o :: o in options ==> InU16(o.port)
    ensures OptionsSize(options) <= 24 * |options|
  {
    if options != [] {
      OptionsPrint(options[1..]);
      assert options == [options[0]] + options[1..];
    }
  }

  /** At most two endpoints, fields in range, and a run that starts within the first 256 options. */
  predicate EntryFits(entry: Entry, table: seq<EndpointOption>) {
    |entry.Endpoints()| <= 2 && FieldsFit(entry) && InU8(RunIndex(entry, table))
  }

  lemma {:induction false} EntriesPrint(entries: seq<Entry>, table: seq<EndpointOption>, carried: Option<nat>)
    requires AllService(entries)
    ensures EntriesBytes(entries, table, carried).Ok? <==> forall e :: e in entries ==> EntryFits(e, table)
  {
    hide FieldsFit, HeadBytes, TailBytes, Entry.Endpoints;
    if entries != [] {
      var index := IndexOfRun(entries[0], table, carried);
      assert entries[0] in entries && entries == [entries[0]] + entries[1..];
      assert index == Some(RunIndex(entries[0], table));
      EntriesPrint(entries[1..], table, index);
    }
  }

  /** The printer accepts exactly the messages whose entries, ports and total length fit. */
  lemma PrintsExactly(message: SdMessage)
    requires AllService(message.entries)
    ensures var table := OptionTable(message.entries);
            SdBytes(message).Ok? <==>
              && InU16(message.sessionId)
              && (forall e :: e in message.entries ==> EntryFits(e, table))
              && (forall o :: o in table ==> InU16(o.port))
              && InU32(20 + 16 * |message.entries| + OptionsSize(table))
  {
    hide OptionTable, EntriesBytes, OptionsBytes, OptionsSize, EntryFits, SdHeaderBytes, BodyBytes;
    EntriesPrint(message.entries, OptionTable(message.entries), None);
    OptionsPrint(OptionTable(message.entries));
  }
}
