/** The two messages of a subscription, each printed by one daemon and parsed by the other:
    the subscribe goes through the newer printer, the acknowledgement through the older one,
    and both are read by the older parser. */
module SdHandshake {
  import opened Bytes
  import opened SdMessages
  import opened SdSerialization
  import opened SdDeserialization
  import opened SdRoundTrip
  import opened SdParsersAgree
  import opened SomeIpHeader
  import opened SomeIpSdHeader
  import HeaderCodec = SdHeaderRoundTrip

  // ----- Subscribe -----

  /** The ids a subscription is about. */
  datatype GroupId = GroupId(serviceId: int, instanceId: int, majorVersion: int, eventGroupId: int)

  function SubscribeEntry(id: GroupId, ttl: int, endpoints: seq<V4Endpoint>): Entry {
    SubscribeEventGroup(id.serviceId, id.instanceId, id.majorVersion, ttl, id.eventGroupId, 0, endpoints, [])
  }

  function SubscribeMessage(id: GroupId, ttl: int, endpoints: seq<V4Endpoint>, sessionId: int, rebootFlag: bool): SdMessage {
    SdMessage(sessionId, rebootFlag, [SubscribeEntry(id, ttl, endpoints)])
  }

  function Subscriptions(id: GroupId, ttl: int, endpoints: seq<V4Endpoint>): seq<SdSubscription> {
    if endpoints == [] then []
    else [SdSubscription(id.serviceId, id.instanceId, id.majorVersion, ttl, false, 0, id.eventGroupId, endpoints[0])]
         + Subscriptions(id, ttl, endpoints[1..])
  }

  /** A subscribe entry without endpoints cannot be printed: its option index was never set. */
  lemma SubscribeWithoutEndpoints(id: GroupId, ttl: int, sessionId: int, rebootFlag: bool)
    requires InU16(sessionId)
    ensures SdBytes(SubscribeMessage(id, ttl, [], sessionId, rebootFlag)) == Err(UnboundLocalError)
  {
    var entry := SubscribeEntry(id, ttl, []);
    assert entry.Endpoints() == [];
    assert [entry][..0] == [];
    assert OptionTable([entry]) == [];
    assert EntriesBytes([entry], [], None).Err?;
  }

  lemma SingleTable(entry: Entry)
    requires NoDuplicates(entry.Endpoints())
    ensures OptionTable([entry]) == entry.Endpoints()
    ensures entry.Endpoints() != [] ==> FirstOf(entry.Endpoints(), entry.Endpoints()) == 0
  {
    assert [entry][..0] == [];
    AddOptionsAppends([], entry.Endpoints());
    assert [] + entry.Endpoints() == entry.Endpoints();
    if entry.Endpoints() != [] {
      assert entry.Endpoints()[0] in entry.Endpoints();
    }
  }

  /** When a message with one entry and at most two different endpoints can be printed. */
  lemma MessagePrints(entry: Entry, sessionId: int, rebootFlag: bool)
    requires entry.HasEndpoints() && NoDuplicates(entry.Endpoints()) && |entry.Endpoints()| <= 2 && InU16(sessionId)
    ensures SdBytes(SdMessage(sessionId, rebootFlag, [entry])).Ok?
       <==> (entry.Endpoints() != [] || entry.IsService()) && FieldsFit(entry)
            && forall o :: o in entry.Endpoints() ==> InU16(o.port)
  {
    hide OptionTable, EntriesBytes, OptionsBytes, OptionsSize, SdHeaderBytes, BodyBytes, NoDuplicates, FieldsFit;
    SingleTable(entry);
    OptionsPrint(entry.Endpoints());
    SingleEntryPrints(entry);
    hide Entry.Endpoints;
  }

  lemma SingleEntryPrints(entry: Entry)
    requires entry.HasEndpoints() && |entry.Endpoints()| <= 2
    ensures EntriesBytes([entry], entry.Endpoints(), None).Ok?
       <==> (entry.Endpoints() != [] || entry.IsService()) && FieldsFit(entry)
  {
    hide HeadBytes, TailBytes, FieldsFit, Entry.Endpoints, FirstOf;
    var table := entry.Endpoints();
    var index := IndexOfRun(entry, table, None);
    assert index == if table == [] && !entry.IsService() then None else Some(0) by {
      FirstOfItself(table);
    }
    assert [entry][1..] == [];
    assert EntriesBytes([], table, index) == Ok([]);
  }

  lemma FirstOfItself(table: seq<EndpointOption>)
    ensures FirstOf(table, table) == 0
  {
    if table != [] {
      assert table[0] in table;
    }
  }

  /** The entry as the older parser reads it. */
  function SubscribeSeen(id: GroupId, ttl: int, count: nibble): SdEntry {
    EventGroupEntry(EntryHead(0x06, 0, 0, count, 0, id.serviceId, id.instanceId, id.majorVersion, ttl % 0x100_0000),
                    false, 0, id.eventGroupId)
  }

  lemma SubscribeEntryReads(data: seq<byte>, id: GroupId, ttl: int, endpoints: seq<V4Endpoint>)
    requires |data| >= 40 && |endpoints| <= 2
    requires EntryBytes(SubscribeEntry(id, ttl, endpoints), Some(0)) == Ok(data[24..40])
    ensures SdEntryAt(data, 24) == Ok(SubscribeSeen(id, ttl, |endpoints|))
  {
    hide HeadAt, TailBytes, HeadBytes, At16, At32;
    var entry := SubscribeEntry(id, ttl, endpoints);
    assert |entry.Endpoints()| == |endpoints| && FieldsFit(entry);
    hide EntryBytes;
    HeadDecodes(data, 24, entry, 0);
    SubscribeTail(data, id, ttl, endpoints);
  }

  lemma SubscribeTail(data: seq<byte>, id: GroupId, ttl: int, endpoints: seq<V4Endpoint>)
    requires |data| >= 40 && FieldsFit(SubscribeEntry(id, ttl, endpoints))
    requires data[36..40] == TailBytes(SubscribeEntry(id, ttl, endpoints))
    ensures data[37] == 0 && At16(data, 38) == id.eventGroupId
  {
    hide At16;
    assert data[36..40] == [0, 0] + Be16(id.eventGroupId);
    Quadruple(data, 36);
    assert data[38..40] == Be16(id.eventGroupId);
    At16Inverse(data, 38, id.eventGroupId);
  }

  lemma SubscribeParts(id: GroupId, ttl: int, endpoints: seq<V4Endpoint>, sessionId: int, rebootFlag: bool)
    requires endpoints != [] && NoDuplicates(SubscribeEntry(id, ttl, endpoints).Endpoints())
    ensures var message, entry := SubscribeMessage(id, ttl, endpoints, sessionId, rebootFlag), SubscribeEntry(id, ttl, endpoints);
            && EntriesPart(message) == EntriesBytes([entry], endpoints, None)
            && OptionsPart(message) == OptionsBytes(endpoints)
            && IndexOfRun(entry, endpoints, None) == Some(0)
  {
    var entry := SubscribeEntry(id, ttl, endpoints);
    assert entry.Endpoints() == endpoints;
    SingleTable(entry);
    hide OptionTable, EntriesBytes, OptionsBytes;
  }

  /** The parts of a printed subscribe message. */
  lemma SubscribeLayout(id: GroupId, ttl: int, endpoints: seq<V4Endpoint>, sessionId: int, rebootFlag: bool, data: seq<byte>)
    requires endpoints != [] && NoDuplicates(SubscribeEntry(id, ttl, endpoints).Endpoints())
    requires SdBytes(SubscribeMessage(id, ttl, endpoints, sessionId, rebootFlag)) == Ok(data)
    ensures |endpoints| <= 2
    ensures |data| >= 44 && At32(data, 20) == 16
    ensures EntryBytes(SubscribeEntry(id, ttl, endpoints), Some(0)) == Ok(data[24..40])
    ensures OptionsFrom(data, 44, At32(data, 40)) == Ok(Wrapped(endpoints))
  {
    var entry := SubscribeEntry(id, ttl, endpoints);
    var message := SubscribeMessage(id, ttl, endpoints, sessionId, rebootFlag);
    hide OptionTable, EntriesBytes, OptionsFrom, EntryBytes, SdBytes, OptionsBytes, IndexOfRun, NoDuplicates, OptionsSize;
    SubscribeParts(id, ttl, endpoints, sessionId, rebootFlag);
    Layout(message, data);
    hide EntriesPart, OptionsPart;
    SingleEntry(entry, endpoints);
    assert |entry.Endpoints()| == |endpoints|;
    OptionsDecode(data, 44, endpoints);
  }

  lemma SingleEntry(entry: Entry, table: seq<EndpointOption>)
    requires EntriesBytes([entry], table, None).Ok?
    ensures EntryBytes(entry, IndexOfRun(entry, table, None)) == EntriesBytes([entry], table, None)
    ensures |entry.Endpoints()| <= 2
  {
    hide IndexOfRun, FieldsFit, HeadBytes, TailBytes;
    assert [entry][1..] == [];
    var first := EntryBytes(entry, IndexOfRun(entry, table, None));
    assert first.value + [] == first.value;
  }

  lemma {:induction false} SubscriptionsOfEndpoints(id: GroupId, ttl: int, count: nibble, endpoints: seq<V4Endpoint>, options: seq<SdOption>)
    requires AllCorrespond(Wrapped(endpoints), options)
    ensures EntrySubscriptions(SubscribeSeen(id, ttl, count), options)
         == Ok(Subscriptions(id, ttl % 0x100_0000, endpoints))
    decreases |endpoints|
  {
    if endpoints != [] {
      assert Wrapped(endpoints)[0] == Endpoint(endpoints[0]);
      assert Corresponds(Wrapped(endpoints)[0], options[0]);
      assert Wrapped(endpoints[1..]) == Wrapped(endpoints)[1..];
      SubscriptionsOfEndpoints(id, ttl, count, endpoints[1..], options[1..]);
    }
  }

  lemma SubscribeExtracted(id: GroupId, ttl: int, endpoints: seq<V4Endpoint>, options: seq<SdOption>)
    requires |endpoints| <= 2 && AllCorrespond(Wrapped(endpoints), options)
    ensures SubscribeEntries([SubscribeSeen(id, ttl, |endpoints|)], options)
         == Ok(if ttl % 0x100_0000 == 0 then [] else Subscriptions(id, ttl % 0x100_0000, endpoints))
  {
    var entry := SubscribeSeen(id, ttl, |endpoints|);
    SubscriptionsOfEndpoints(id, ttl, |endpoints|, endpoints, options);
    assert [entry][1..] == [];
    assert options[0..|endpoints|] + [] == options;
    assert ApplicableOptions(entry.head, options) == Ok(options);
    hide EntrySubscriptions, ApplicableOptions;
    var found := Subscriptions(id, ttl % 0x100_0000, endpoints);
    assert found + [] == found;
  }

  lemma SubscribeRun(id: GroupId, ttl: int, endpoints: seq<V4Endpoint>, options: seq<SdOption>)
    requires |endpoints| <= 2 && AllCorrespond(Wrapped(endpoints), options)
    ensures ApplicableOptions(SubscribeSeen(id, ttl, |endpoints|).head, options) == Ok(options)
  {
    assert options[0..|endpoints|] + [] == options;
  }

  /** A printed subscribe with one or two different endpoints is read as one subscription per
      endpoint, in order, with the ids and the TTL modulo 2^24; with TTL 0 it is read as none. */
  lemma SubscribeArrives(id: GroupId, ttl: int, endpoints: seq<V4Endpoint>, sessionId: int, rebootFlag: bool, data: seq<byte>)
    requires endpoints != [] && NoDuplicates(SubscribeEntry(id, ttl, endpoints).Endpoints())
    requires SdBytes(SubscribeMessage(id, ttl, endpoints, sessionId, rebootFlag)) == Ok(data)
    ensures FromSdBuffer(data).Ok? && (FromSdBuffer(data).value.header.IsSdHeader() <==> sessionId != 0)
    ensures FromSdBuffer(data).value.header.sessionId == sessionId
    ensures SubscribeEntries(FromSdBuffer(data).value.entries, FromSdBuffer(data).value.options)
         == Ok(if ttl % 0x100_0000 == 0 then [] else Subscriptions(id, ttl % 0x100_0000, endpoints))
    ensures AckEntries(FromSdBuffer(data).value.entries) == []
    ensures FromSdBuffer(data).value.entries == [SubscribeSeen(id, ttl, |endpoints|)]
    ensures var options := FromSdBuffer(data).value.options;
            && ApplicableOptions(SubscribeSeen(id, ttl, |endpoints|).head, options) == Ok(options)
            && AllCorrespond(Wrapped(endpoints), options)
    ensures FromSdBuffer(data).value.unicastFlag && !FromSdBuffer(data).value.rebootFlag
  {
    hide *;
    assert |endpoints| <= 2 && |data| >= 44 && At32(data, 20) == 16 by {
      SubscribeLayout(id, ttl, endpoints, sessionId, rebootFlag, data);
    }
    var entry := SubscribeSeen(id, ttl, |endpoints|);
    assert SdEntriesFrom(data, 0, 1) == Ok([entry]) by {
      SubscribeLayout(id, ttl, endpoints, sessionId, rebootFlag, data);
      SubscribeEntryReads(data, id, ttl, endpoints);
      OneEntry(data, entry);
    }
    assert SdOptionsFrom(data, 44, At32(data, 40)).Ok?
        && AllCorrespond(Wrapped(endpoints), SdOptionsFrom(data, 44, At32(data, 40)).value) by {
      SubscribeLayout(id, ttl, endpoints, sessionId, rebootFlag, data);
      OptionsCorrespond(data, 44, At32(data, 40));
    }
    var options := SdOptionsFrom(data, 44, At32(data, 40)).value;
    PrintedHeader(SubscribeMessage(id, ttl, endpoints, sessionId, rebootFlag), data);
    HeaderCodec.FromSdParts(data, FieldsAt(data), 1, [entry], At32(data, 40), options);
    SubscribeExtracted(id, ttl, endpoints, options);
    SubscribeRun(id, ttl, endpoints, options);
    NoAcks(id, ttl, |endpoints|);
    PrintedFlags(SubscribeMessage(id, ttl, endpoints, sessionId, rebootFlag), data);
    SubscribeSession(id, ttl, endpoints, sessionId, rebootFlag);
  }

  lemma SubscribeSession(id: GroupId, ttl: int, endpoints: seq<V4Endpoint>, sessionId: int, rebootFlag: bool)
    ensures SubscribeMessage(id, ttl, endpoints, sessionId, rebootFlag).sessionId == sessionId
  {
  }

  lemma NoAcks(id: GroupId, ttl: int, count: nibble)
    ensures AckEntries([SubscribeSeen(id, ttl, count)]) == []
  {
  }

  lemma OneEntry(data: seq<byte>, entry: SdEntry)
    requires SdEntryAt(data, 24) == Ok(entry)
    ensures SdEntriesFrom(data, 0, 1) == Ok([entry])
  {
    hide SdEntryAt;
    assert SdEntriesFrom(data, 1, 1) == Ok([]);
    assert SdEntryAt(data, ENTRIES_START + 16 * 0) == Ok(entry);
    assert SdEntriesFrom(data, 0, 1) == Ok([entry] + []);
    assert [entry] + [] == [entry];
  }

  /** The unicast flag of every printed message is read as set, and its reboot flag as not set,
      whatever flag the message has. */
  lemma PrintedFlags(message: SdMessage, data: seq<byte>)
    requires SdBytes(message) == Ok(data)
    ensures |data| >= 28 && data[16] == 0x40
    ensures FromSdBuffer(data).Ok? ==> FromSdBuffer(data).value.unicastFlag && !FromSdBuffer(data).value.rebootFlag
    ensures Parsed(data).Ok? ==> !Parsed(data).value.rebootFlag
  {
    FlagByteIs(message, data);
    hide *;
    FlagsRead(data);
  }

  lemma FlagByteIs(message: SdMessage, data: seq<byte>)
    requires SdBytes(message) == Ok(data)
    ensures |data| >= 28 && data[16] == 0x40
  {
    hide SdBytes, EntriesPart, OptionsPart;
    Layout(message, data);
  }

  lemma FlagsRead(data: seq<byte>)
    requires |data| >= 28 && data[16] == 0x40
    ensures FromSdBuffer(data).Ok? ==> FromSdBuffer(data).value.unicastFlag && !FromSdBuffer(data).value.rebootFlag
    ensures Parsed(data).Ok? ==> !Parsed(data).value.rebootFlag
  {
    hide SdEntriesFrom, SdOptionsFrom, FromBuffer, EntriesFrom, OptionsFrom, IsSdMessage;
  }

  /** The older parser accepts the header of every printed message. */
  lemma PrintedHeader(message: SdMessage, data: seq<byte>)
    requires SdBytes(message) == Ok(data)
    ensures |data| >= 28 && FromBuffer(data) == Ok(FieldsAt(data))
    ensures FieldsAt(data).IsSdHeader() <==> message.sessionId != 0
    ensures FieldsAt(data).sessionId == message.sessionId && FieldsAt(data).length == |data| - 8
  {
    Parts(message, data);
    hide SdBytes, EntriesPart, OptionsPart, SdHeaderBytes, BodyBytes;
    var entries, options := EntriesPart(message).value, OptionsPart(message).value;
    HeaderLayout(20 + |entries| + |options|, message.sessionId, BodyBytes(UNICAST_FLAGS, entries, options), data);
  }

  // ----- Acknowledgement -----

  function AckEntry(id: GroupId, ttl: int): SdEntry {
    EventGroupEntry(EntryHead(0x07, 0, 0, 0, 0, id.serviceId, id.instanceId, id.majorVersion, ttl), false, 0, id.eventGroupId)
  }

  function AckHeader(id: GroupId, ttl: int, sessionId: int, rebootFlag: bool): SdHeader {
    SdHeader(Header(0xFFFF, 0x8100, 36, 0, sessionId, 1, 1, 2, 0), rebootFlag, true, 16, 0, [AckEntry(id, ttl)], [])
  }

  /** A printed acknowledgement is read as the same header, whose only entry is an
      acknowledgement of the same ids. */
  lemma AckArrives(id: GroupId, ttl: int, sessionId: int, rebootFlag: bool, data: seq<byte>)
    requires 1 <= ttl <= 0xFF_FFFF && sessionId != 0
    requires ToSdBuffer(AckHeader(id, ttl, sessionId, rebootFlag)) == Ok(data)
    ensures FromSdBuffer(data) == Ok(AckHeader(id, ttl, sessionId, rebootFlag))
    ensures AckHeader(id, ttl, sessionId, rebootFlag).header.IsSdHeader()
    ensures AckEntries(FromSdBuffer(data).value.entries) == [AckEntry(id, ttl)]
    ensures SubscribeEntries(FromSdBuffer(data).value.entries, FromSdBuffer(data).value.options) == Ok([])
  {
    HeaderCodec.SdHeaderRoundTrip(AckHeader(id, ttl, sessionId, rebootFlag), data);
    var entries := [AckEntry(id, ttl)];
    assert entries[1..] == [];
    assert AckEntries(entries) == entries;
    assert SubscribeEntries(entries, []) == Ok([]);
  }
}
