/** The bytes of SD messages as they go over the wire, without reading them back. */
module SdWire {
  import opened Bytes
  import opened SdMessages
  import opened SdSerialization
  import opened SdRoundTrip
  import opened SdHandshake
  import opened SomeIpHeader
  import opened SomeIpSdHeader

  /** The big-endian numbers at a position. */
  function Word(bytes: seq<byte>, at: nat): int
    requires at + 2 <= |bytes|
  {
    bytes[at] as int * 256 + bytes[at + 1]
  }

  function Long(bytes: seq<byte>, at: nat): int
    requires at + 4 <= |bytes|
  {
    ((bytes[at] as int * 256 + bytes[at + 1]) * 256 + bytes[at + 2]) * 256 + bytes[at + 3]
  }

  lemma WordOf(bytes: seq<byte>, at: nat, x: int)
    requires at + 2 <= |bytes| && InU16(x) && bytes[at..at + 2] == Be16(x)
    ensures Word(bytes, at) == x
  {
    assert bytes[at..at + 2] == [bytes[at], bytes[at + 1]];
  }

  lemma LongOf(bytes: seq<byte>, at: nat, x: int)
    requires at + 4 <= |bytes| && InU32(x) && bytes[at..at + 4] == Be32(x)
    ensures Long(bytes, at) == x
  {
    assert bytes[at..at + 4] == [bytes[at], bytes[at + 1], bytes[at + 2], bytes[at + 3]];
  }

  lemma LongIsAt32(bytes: seq<byte>, at: nat)
    requires at + 4 <= |bytes|
    ensures Long(bytes, at) == At32(bytes, at)
  {
  }

  /** The sixteen bytes of an entry: type, indices and option counts, ids, TTL in 24 bits, and minor
      version or counter and eventgroup. */
  predicate IsEntry(entry: Entry, index: int, bytes: seq<byte>) {
    && |bytes| == 16
    && bytes[0] == (match entry
         case FindService(_, _, _, _, _) => 0x00
         case OfferService(_, _, _, _, _, _, _) | StopOfferService(_, _, _, _, _, _) => 0x01
         case SubscribeEventGroup(_, _, _, _, _, _, _, _) | StopSubscribeEventGroup(_, _, _, _, _, _, _) => 0x06
         case SubscribeAck(_, _, _, _, _, _) | SubscribeNack(_, _, _, _, _) => 0x07)
    && bytes[1] == index && bytes[2] == 0 && bytes[3] == 16 * |entry.Endpoints()|
    && Word(bytes, 4) == entry.serviceId && Word(bytes, 6) == entry.instanceId && bytes[8] == entry.majorVersion
    && bytes[9] as int * 0x1_0000 + Word(bytes, 10) ==
       (if entry.StopOfferService? || entry.StopSubscribeEventGroup? || entry.SubscribeNack? then 0 else entry.ttl % 0x100_0000)
    && if entry.FindService? || entry.OfferService? || entry.StopOfferService? then Long(bytes, 12) == entry.minorVersion
       else bytes[12] == 0 && bytes[13] == entry.counter % 16 && Word(bytes, 14) == entry.eventGroupId
  }

  lemma EntryOnWire(entry: Entry, index: nat)
    requires EntryBytes(entry, Some(index)).Ok?
    ensures IsEntry(entry, index, EntryBytes(entry, Some(index)).value)
  {
    HeadOnWire(entry, index);
    TailOnWire(entry);
    EntryFromParts(entry, index, HeadBytes(entry, index), TailBytes(entry));
  }

  lemma EntryFromParts(entry: Entry, index: nat, head: seq<byte>, tail: seq<byte>)
    requires |head| == 12 && |tail| == 4
    requires head[0] == entry.WireType() && head[1] == index && head[2] == 0 && head[3] == 16 * |entry.Endpoints()|
    requires Word(head, 4) == entry.serviceId && Word(head, 6) == entry.instanceId && head[8] == entry.majorVersion
    requires head[9] as int * 0x1_0000 + Word(head, 10) == entry.WireTtl() % 0x100_0000
    requires if entry.FindService? || entry.OfferService? || entry.StopOfferService? then Long(tail, 0) == entry.minorVersion
             else tail[0] == 0 && tail[1] == entry.counter % 16 && Word(tail, 2) == entry.eventGroupId
    ensures IsEntry(entry, index, head + tail)
  {
    hide Entry.Endpoints;
    var bytes := head + tail;
    assert forall i :: 0 <= i < 12 ==> bytes[i] == head[i];
    assert bytes[12] == tail[0] && bytes[13] == tail[1] && bytes[14] == tail[2] && bytes[15] == tail[3];
  }

  lemma HeadOnWire(entry: Entry, index: nat)
    requires FieldsFit(entry) && InU8(index) && |entry.Endpoints()| <= 2
    ensures var head := HeadBytes(entry, index);
            && head[0] == entry.WireType() && head[1] == index && head[2] == 0 && head[3] == 16 * |entry.Endpoints()|
            && Word(head, 4) == entry.serviceId && Word(head, 6) == entry.instanceId && head[8] == entry.majorVersion
            && head[9] as int * 0x1_0000 + Word(head, 10) == entry.WireTtl() % 0x100_0000
  {
    var head, ttl := HeadBytes(entry, index), entry.WireTtl();
    hide Be16, Word, Entry.Endpoints, Entry.WireTtl, Entry.WireType;
    assert head[4..6] == Be16(entry.serviceId) && head[6..8] == Be16(entry.instanceId);
    assert head[10..12] == Be16(ttl % 0x1_0000);
    WordOf(head, 4, entry.serviceId);
    WordOf(head, 6, entry.instanceId);
    WordOf(head, 10, ttl % 0x1_0000);
    ThreeBytes(ttl);
  }

  lemma ThreeBytes(ttl: int)
    ensures ttl % 0x100_0000 == ttl / 0x1_0000 % 0x100 * 0x1_0000 + ttl % 0x1_0000
  {
    var high, low := ttl / 0x1_0000, ttl % 0x1_0000;
    var rest, byte_ := high / 0x100, high % 0x100;
    assert ttl == 0x100_0000 * rest + (0x1_0000 * byte_ + low);
  }

  lemma TailOnWire(entry: Entry)
    requires FieldsFit(entry)
    ensures var tail := TailBytes(entry);
            if entry.FindService? || entry.OfferService? || entry.StopOfferService? then Long(tail, 0) == entry.minorVersion
            else tail[0] == 0 && tail[1] == entry.counter % 16 && Word(tail, 2) == entry.eventGroupId
  {
    var tail := TailBytes(entry);
    if entry.IsService() {
      LongOf(tail, 0, entry.minorVersion);
    } else {
      WordOf(tail, 2, entry.eventGroupId);
    }
  }

  /** The bytes of an endpoint option: length, type, address, protocol and port. */
  predicate IsOption(option: EndpointOption, bytes: seq<byte>) {
    var size, code := if option.V4? then 12 else 24, if option.protocol.TCP? then 0x06 else 0x11;
    && |bytes| == size
    && bytes[..4] == (if option.V4? then [0, 9, 0x04, 0] else [0, 21, 0x06, 0])
    && bytes[4..size - 4] == (if option.V4? then option.address4 else option.address6)
    && bytes[size - 4] == 0 && bytes[size - 3] == code && Word(bytes, size - 2) == option.port
  }

  lemma OptionOnWire(option: EndpointOption)
    requires OptionBytes(option).Ok?
    ensures IsOption(option, OptionBytes(option).value)
  {
  }

  /** The i-th option stands behind those before it. */
  function OptionStart(options: seq<EndpointOption>, i: nat): nat
    requires i <= |options|
  {
    if i == 0 then 0 else OptionStart(options, i - 1) + if options[i - 1].V4? then 12 else 24
  }

  lemma {:induction false} OptionStartShift(options: seq<EndpointOption>, i: nat)
    requires 0 < i <= |options|
    ensures OptionStart(options, i) == OptionStart(options[1..], i - 1) + if options[0].V4? then 12 else 24
  {
    if i > 1 {
      OptionStartShift(options, i - 1);
    }
  }

  lemma FirstOption(options: seq<EndpointOption>)
    requires options != [] && OptionsBytes(options).Ok?
    ensures OptionBytes(options[0]).Ok? && OptionsBytes(options[1..]).Ok?
    ensures |OptionBytes(options[0]).value| == if options[0].V4? then 12 else 24
    ensures OptionsBytes(options).value == OptionBytes(options[0]).value + OptionsBytes(options[1..]).value
  {
    hide OptionsSize;
  }

  /** An option stands at a position. */
  predicate OptionAtPlace(option: EndpointOption, bytes: seq<byte>, at: nat) {
    var end := at + if option.V4? then 12 else 24;
    end <= |bytes| && IsOption(option, bytes[at..end])
  }

  lemma OptionMoves(option: EndpointOption, before: seq<byte>, bytes: seq<byte>, at: nat)
    requires OptionAtPlace(option, bytes, at)
    ensures OptionAtPlace(option, before + bytes, |before| + at)
  {
    hide IsOption;
    var end := at + if option.V4? then 12 else 24;
    assert (before + bytes)[|before| + at..|before| + end] == bytes[at..end];
  }

  lemma FirstAtPlace(option: EndpointOption, rest: seq<byte>)
    requires OptionBytes(option).Ok?
    ensures OptionAtPlace(option, OptionBytes(option).value + rest, 0)
  {
    OptionOnWire(option);
    var first := OptionBytes(option).value;
    assert |first| == if option.V4? then 12 else 24;
    hide IsOption, OptionBytes;
    assert (first + rest)[0..|first|] == first;
  }

  lemma {:induction false} OptionsOnWire(options: seq<EndpointOption>, i: nat)
    requires OptionsBytes(options).Ok? && i < |options|
    ensures OptionAtPlace(options[i], OptionsBytes(options).value, OptionStart(options, i))
  {
    FirstOption(options);
    hide OptionBytes, OptionsBytes, OptionAtPlace;
    if i == 0 {
      FirstAtPlace(options[0], OptionsBytes(options[1..]).value);
    } else {
      OptionsOnWire(options[1..], i - 1);
      OptionStartShift(options, i);
      OptionMoves(options[i], OptionBytes(options[0]).value, OptionsBytes(options[1..]).value, OptionStart(options[1..], i - 1));
    }
  }

  /** The header, the flags and the lengths of a printed message. */
  lemma MessageOnWire(message: SdMessage, data: seq<byte>)
    requires SdBytes(message) == Ok(data)
    ensures |data| >= 28 + 16 * |message.entries|
    ensures data[..4] == [0xFF, 0xFF, 0x81, 0x00] && Long(data, 4) == |data| - 8
    ensures data[8..10] == [0, 0] && Word(data, 10) == message.sessionId && data[12..16] == [1, 1, 2, 0]
    ensures data[16..20] == [0x40, 0, 0, 0] && Long(data, 20) == 16 * |message.entries|
    ensures Long(data, 24 + 16 * |message.entries|) == |data| - 28 - 16 * |message.entries|
  {
    hide *;
    Parts(message, data);
    EntriesSize(message);
    Layout(message, data);
    var entries, options := EntriesPart(message).value, OptionsPart(message).value;
    FrontOnWire(20 + |entries| + |options|, message.sessionId, entries, options, data);
    LongIsAt32(data, 20);
    LongIsAt32(data, 24 + |entries|);
  }

  lemma FrontOnWire(length: int, sessionId: int, entries: seq<byte>, options: seq<byte>, data: seq<byte>)
    requires InU32(length) && InU16(sessionId) && InU32(|entries|) && InU32(|options|)
    requires data == SdHeaderBytes(length, sessionId) + BodyBytes(UNICAST_FLAGS, entries, options)
    ensures data[..4] == [0xFF, 0xFF, 0x81, 0x00] && Long(data, 4) == length
    ensures data[8..10] == [0, 0] && Word(data, 10) == sessionId && data[12..16] == [1, 1, 2, 0]
    ensures data[16..20] == [0x40, 0, 0, 0]
  {
    var head, body := SdHeaderBytes(length, sessionId), BodyBytes(UNICAST_FLAGS, entries, options);
    assert head[..4] == [0xFF, 0xFF, 0x81, 0x00] && head[4..8] == Be32(length) && head[8..10] == [0, 0];
    assert head[10..12] == Be16(sessionId) && head[12..16] == [1, 1, 2, 0] && body[..4] == [0x40, 0, 0, 0];
    hide *;
    assert data[..4] == head[..4] && data[4..8] == head[4..8] && data[8..10] == head[8..10];
    assert data[10..12] == head[10..12] && data[12..16] == head[12..16] && data[16..20] == body[..4];
    LongOf(data, 4, length);
    WordOf(data, 10, sessionId);
  }

  lemma EntriesSize(message: SdMessage)
    ensures EntriesPart(message) == EntriesBytes(message.entries, OptionTable(message.entries), None)
    ensures OptionsPart(message) == OptionsBytes(OptionTable(message.entries))
    ensures EntriesPart(message).Ok? ==> |EntriesPart(message).value| == 16 * |message.entries|
  {
    hide OptionTable, OptionsBytes, EntriesBytes;
  }

  /** The k-th entry of a printed message, with the index its endpoints have been given. */
  lemma MessageEntryOnWire(message: SdMessage, data: seq<byte>, k: nat) returns (index: nat)
    requires SdBytes(message) == Ok(data) && k < |message.entries|
    ensures 24 + 16 * k + 16 <= |data|
    ensures IsEntry(message.entries[k], index, data[24 + 16 * k..24 + 16 * k + 16])
  {
    hide *;
    EntriesSize(message);
    Layout(message, data);
    index := EntryPlaceAny(message.entries, OptionTable(message.entries), None, k);
    EntryOnWire(message.entries[k], index);
    SubSlice(data, 24, EntriesPart(message).value, 16 * k, 16 * k + 16);
  }

  /** The i-th option of the shared table of a printed message. */
  lemma MessageOptionOnWire(message: SdMessage, data: seq<byte>, i: nat)
    requires SdBytes(message) == Ok(data) && i < |OptionTable(message.entries)|
    ensures var table := OptionTable(message.entries);
            OptionAtPlace(table[i], data, 28 + 16 * |message.entries| + OptionStart(table, i))
  {
    hide *;
    EntriesSize(message);
    Layout(message, data);
    var table, options, start := OptionTable(message.entries), OptionsPart(message).value, 28 + 16 * |message.entries|;
    OptionsOnWire(table, i);
    assert data == data[..start] + options;
    OptionMoves(table[i], data[..start], options, OptionStart(table, i));
  }

  lemma {:induction false} EntryPlaceAny(entries: seq<Entry>, table: seq<EndpointOption>, carried: Option<nat>, k: nat)
    returns (index: nat)
    requires EntriesBytes(entries, table, carried).Ok? && k < |entries|
    ensures EntryBytes(entries[k], Some(index)) == Ok(EntriesBytes(entries, table, carried).value[16 * k..16 * k + 16])
  {
    hide EntryBytes, IndexOfRun;
    var first := IndexOfRun(entries[0], table, carried);
    var bytes, rest := EntryBytes(entries[0], first).value, EntriesBytes(entries[1..], table, first).value;
    assert EntriesBytes(entries, table, carried).value == bytes + rest;
    if k == 0 {
      IndexIsThere(entries[0], first);
      index := first.value;
    } else {
      index := EntryPlaceAny(entries[1..], table, first, k - 1);
      SliceBehind(bytes, rest, 16 * (k - 1), 16 * (k - 1) + 16);
    }
  }

  lemma SliceBehind(a: seq<byte>, b: seq<byte>, i: nat, j: nat)
    requires i <= j <= |b|
    ensures (a + b)[|a| + i..|a| + j] == b[i..j]
  {
  }

  lemma IndexIsThere(entry: Entry, index: Option<nat>)
    requires EntryBytes(entry, index).Ok?
    ensures index.Some?
  {
  }

  // ----- The older printer -----

  predicate IsSdEntry(entry: SdEntry, bytes: seq<byte>) {
    && |bytes| == 16
    && bytes[0] == entry.head.kind && bytes[1] == entry.head.index1 && bytes[2] == entry.head.index2
    && bytes[3] == entry.head.count1 * 16 + entry.head.count2
    && Word(bytes, 4) == entry.head.serviceId && Word(bytes, 6) == entry.head.instanceId
    && bytes[8] == entry.head.majorVersion
    && bytes[9] as int * 0x1_0000 + Word(bytes, 10) == entry.head.ttl % 0x100_0000
    && if entry.ServiceEntry? then Long(bytes, 12) == entry.minorVersion
       else
         && bytes[12] == 0 && bytes[13] == entry.counter % 16 + (if entry.initialDataRequested then 128 else 0)
         && Word(bytes, 14) == entry.eventGroupId
  }

  lemma SdEntryOnWire(entry: SdEntry)
    requires SdEntryBytes(entry).Ok?
    ensures IsSdEntry(entry, SdEntryBytes(entry).value)
  {
    var bytes, head := SdEntryBytes(entry).value, entry.head;
    hide Be16, Be32, Word, Long;
    assert bytes[4..6] == Be16(head.serviceId) && bytes[6..8] == Be16(head.instanceId);
    assert bytes[10..12] == Be16(head.ttl % 0x1_0000);
    WordOf(bytes, 4, head.serviceId);
    WordOf(bytes, 6, head.instanceId);
    WordOf(bytes, 10, head.ttl % 0x1_0000);
    ThreeBytes(head.ttl);
    if entry.ServiceEntry? {
      assert bytes[12..16] == Be32(entry.minorVersion);
      LongOf(bytes, 12, entry.minorVersion);
    } else {
      assert bytes[14..16] == Be16(entry.eventGroupId);
      WordOf(bytes, 14, entry.eventGroupId);
    }
  }

  predicate IsSdOption(option: SdOption, bytes: seq<byte>) {
    && |bytes| == (if option.Ip4Endpoint? then 12 else 4)
    && Word(bytes, 0) == option.common.length && bytes[2] == option.common.kind
    && bytes[3] == (if option.common.discardable then 128 else 0)
    && (option.Ip4Endpoint? ==>
          && bytes[4..8] == option.endpoint.address4 && bytes[8] == 0
          && bytes[9] == (if option.endpoint.protocol.TCP? then 0x06 else 0x11)
          && Word(bytes, 10) == option.endpoint.port)
  }

  lemma SdOptionOnWire(option: SdOption)
    requires SdOptionBytes(option).Ok?
    ensures IsSdOption(option, SdOptionBytes(option).value)
  {
  }

  /** What the older printer makes of a header object: header, flags, and its two arrays behind the lengths
      that it states. */
  lemma SdHeaderOnWire(header: SdHeader)
    requires ToSdBuffer(header).Ok?
    ensures var data, n := ToSdBuffer(header).value, 16 * |header.entries|;
            && |data| >= 28 + n && header.header.ToBuffer() == Ok(data[..16])
            && data[16] == (if header.rebootFlag then 128 else 0) + (if header.unicastFlag then 64 else 0)
            && data[17..20] == [0, 0, 0] && Long(data, 20) == header.lengthEntries
            && SdEntriesBytes(header.entries) == Ok(data[24..24 + n]) && Long(data, 24 + n) == header.lengthOptions
            && SdOptionsBytes(header.options) == Ok(data[28 + n..])
  {
    hide Header.ToBuffer, SdEntriesBytes, SdOptionsBytes, Long, Be32;
    var data, n := ToSdBuffer(header).value, 16 * |header.entries|;
    var front, entries := header.header.ToBuffer().value, SdEntriesBytes(header.entries).value;
    var options := SdOptionsBytes(header.options).value;
    var flags := FlagByte(header.rebootFlag, header.unicastFlag);
    assert data == front + [flags, 0, 0, 0] + Be32(header.lengthEntries) + entries + Be32(header.lengthOptions) + options;
    assert data[..16] == front && data[16..20] == [flags, 0, 0, 0] && data[17..20] == data[16..20][1..] == [0, 0, 0];
    assert data[20..24] == Be32(header.lengthEntries) && data[24..24 + n] == entries;
    assert data[24 + n..28 + n] == Be32(header.lengthOptions) && data[28 + n..] == options;
    LongOf(data, 20, header.lengthEntries);
    LongOf(data, 24 + n, header.lengthOptions);
  }

  /** All 44 bytes of an acknowledgement. */
  lemma AckOnWire(id: GroupId, ttl: int, sessionId: int, rebootFlag: bool)
    requires InU16(sessionId)
    requires InU16(id.serviceId) && InU16(id.instanceId) && InU8(id.majorVersion) && InU16(id.eventGroupId)
    ensures var bytes := ToSdBuffer(AckHeader(id, ttl, sessionId, rebootFlag));
            bytes.Ok? && bytes.value ==
              [0xFF, 0xFF, 0x81, 0x00, 0, 0, 0, 36, 0, 0, sessionId / 256, sessionId % 256, 1, 1, 2, 0]
              + [if rebootFlag then 0xC0 else 0x40, 0, 0, 0, 0, 0, 0, 16]
              + [0x07, 0, 0, 0, id.serviceId / 256, id.serviceId % 256, id.instanceId / 256, id.instanceId % 256]
              + [id.majorVersion, ttl / 0x1_0000 % 256, ttl / 256 % 256, ttl % 256]
              + [0, 0, id.eventGroupId / 256, id.eventGroupId % 256, 0, 0, 0, 0]
  {
    var entry, front := AckEntry(id, ttl), AckHeader(id, ttl, sessionId, rebootFlag).header.ToBuffer();
    AckEntryOnWire(id, ttl);
    AckFrontOnWire(id, ttl, sessionId, rebootFlag);
    AckParts(id, ttl, sessionId, rebootFlag);
    hide *;
  }

  lemma AckFrontOnWire(id: GroupId, ttl: int, sessionId: int, rebootFlag: bool)
    requires InU16(sessionId)
    ensures var front := AckHeader(id, ttl, sessionId, rebootFlag).header.ToBuffer();
            && front.Ok?
            && front.value == [0xFF, 0xFF, 0x81, 0x00, 0, 0, 0, 36, 0, 0, sessionId / 256, sessionId % 256, 1, 1, 2, 0]
  {
  }

  lemma AckParts(id: GroupId, ttl: int, sessionId: int, rebootFlag: bool)
    requires AckHeader(id, ttl, sessionId, rebootFlag).header.ToBuffer().Ok? && SdEntryBytes(AckEntry(id, ttl)).Ok?
    ensures var bytes := ToSdBuffer(AckHeader(id, ttl, sessionId, rebootFlag));
            bytes.Ok? && bytes.value ==
              AckHeader(id, ttl, sessionId, rebootFlag).header.ToBuffer().value
              + [if rebootFlag then 0xC0 else 0x40, 0, 0, 0, 0, 0, 0, 16] + SdEntryBytes(AckEntry(id, ttl)).value + [0, 0, 0, 0]
  {
    hide SdEntryBytes, Header.ToBuffer;
    var entry := AckEntry(id, ttl);
    assert SdEntriesBytes([entry][1..]) == Ok([]);
    assert SdEntriesBytes([entry]).Ok? && SdEntriesBytes([entry]).value == SdEntryBytes(entry).value + [];
    assert Be32(16) == [0, 0, 0, 16] && Be32(0) == [0, 0, 0, 0] && SdOptionsBytes([]) == Ok([]);
  }

  lemma AckEntryOnWire(id: GroupId, ttl: int)
    requires InU16(id.serviceId) && InU16(id.instanceId) && InU8(id.majorVersion) && InU16(id.eventGroupId)
    ensures var bytes := SdEntryBytes(AckEntry(id, ttl));
            bytes.Ok? && bytes.value ==
              [0x07, 0, 0, 0, id.serviceId / 256, id.serviceId % 256, id.instanceId / 256, id.instanceId % 256]
              + [id.majorVersion, ttl / 0x1_0000 % 256, ttl / 256 % 256, ttl % 256]
              + [0, 0, id.eventGroupId / 256, id.eventGroupId % 256]
  {
    assert ttl % 0x1_0000 / 256 == ttl / 256 % 256 && ttl % 0x1_0000 % 256 == ttl % 256;
  }
}
