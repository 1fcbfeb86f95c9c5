/** The older codec is its own inverse on consistent headers. */
module SdHeaderRoundTrip {
  import opened Bytes
  import opened SomeIpHeader
  import opened SdDeserialization
  import opened SdRoundTrip
  import opened SomeIpSdHeader

  /** An entry whose format belongs to its type and whose fields fit their bits. */
  predicate EntryConsistent(entry: SdEntry) {
    && 0 <= entry.head.ttl <= 0xFF_FFFF
    && match entry
       case ServiceEntry(head, _) => head.kind == 0x00 || head.kind == 0x01
       case EventGroupEntry(head, _, counter, _) => (head.kind == 0x06 || head.kind == 0x07) && 0 <= counter < 0x10
  }

  /** An option that occupies the bytes its own length field announces. */
  predicate OptionConsistent(option: SdOption) {
    && option.common.length + 3 == SdOptionSize(option)
    && KnownOption(option.common.kind)
    && (option.common.kind == 0x04 <==> option.Ip4Endpoint?)
  }

  predicate Consistent(header: SdHeader) {
    && header.header.length >= 8
    && header.lengthEntries == 16 * |header.entries|
    && header.lengthOptions == SdOptionsSize(header.options)
    && (forall e :: e in header.entries ==> EntryConsistent(e))
    && forall o :: o in header.options ==> OptionConsistent(o)
  }

  // ----- Entries -----

  lemma TailReads(data: seq<byte>, at: nat, entry: SdEntry)
    requires at + 4 <= |data| && entry.EventGroupEntry? && InU16(entry.eventGroupId) && 0 <= entry.counter < 0x10
    requires data[at..at + 4] == SdEntryTail(entry)
    ensures data[at + 1] >= 0x80 <==> entry.initialDataRequested
    ensures data[at + 1] % 0x10 == entry.counter && At16(data, at + 2) == entry.eventGroupId
  {
    Quadruple(data, at);
    assert data[at + 2..at + 4] == Be16(entry.eventGroupId);
    At16Inverse(data, at + 2, entry.eventGroupId);
  }

  lemma SdEntryReads(data: seq<byte>, start: nat, entry: SdEntry)
    requires start + 16 <= |data| && EntryConsistent(entry)
    requires SdEntryBytes(entry) == Ok(data[start..start + 16])
    ensures SdEntryAt(data, start) == Ok(entry)
  {
    var part := data[start..start + 16];
    SdHeadReads(data, start, entry);
    assert part[12..16] == SdEntryTail(entry);
    SubSlice(data, start, part, 12, 16);
    hide HeadAt, SdEntryTail, SdEntryBytes;
    if entry.ServiceEntry? {
      ServiceTail(data, start + 12, entry);
    } else {
      TailReads(data, start + 12, entry);
    }
  }

  lemma SdHeadReads(data: seq<byte>, start: nat, entry: SdEntry)
    requires start + 16 <= |data| && 0 <= entry.head.ttl <= 0xFF_FFFF
    requires SdEntryBytes(entry) == Ok(data[start..start + 16])
    ensures HeadAt(data, start) == entry.head
  {
    var h := entry.head;
    HeadFields(h.kind, h.index1, h.index2, h.count1, h.count2, h.serviceId, h.instanceId, h.majorVersion, h.ttl,
               SdEntryTail(entry));
    HeadFromFields(data, start, h.kind, h.index1, h.index2, h.count1, h.count2, h.serviceId, h.instanceId,
                   h.majorVersion, h.ttl, data[start..start + 16]);
  }

  lemma ServiceTail(data: seq<byte>, at: nat, entry: SdEntry)
    requires at + 4 <= |data| && entry.ServiceEntry? && InU32(entry.minorVersion)
    requires data[at..at + 4] == SdEntryTail(entry)
    ensures At32(data, at) == entry.minorVersion
  {
    At32Inverse(data, at, entry.minorVersion);
  }

  lemma {:induction false} SdEntriesRead(data: seq<byte>, entries: seq<SdEntry>, i: nat)
    requires i <= |entries| && forall e :: e in entries ==> EntryConsistent(e)
    requires |data| >= 24 + 16 * |entries|
    requires SdEntriesBytes(entries[i..]) == Ok(data[24 + 16 * i..24 + 16 * |entries|])
    ensures SdEntriesFrom(data, i, |entries|) == Ok(entries[i..])
    decreases |entries| - i
  {
    hide SdEntryAt, SdEntryBytes, EntryConsistent;
    if i < |entries| {
      var start, end := 24 + 16 * i, 24 + 16 * |entries|;
      assert entries[i..][0] == entries[i] && entries[i..][1..] == entries[i + 1..];
      var first, rest := SdEntryBytes(entries[i]).value, SdEntriesBytes(entries[i + 1..]).value;
      SplitSlice(data, start, end, first, rest);
      SdEntryReads(data, start, entries[i]);
      SdEntriesRead(data, entries, i + 1);
      assert entries[i..] == [entries[i]] + entries[i + 1..];
    }
  }

  lemma SplitSlice(data: seq<byte>, start: nat, end: nat, first: seq<byte>, rest: seq<byte>)
    requires start <= end <= |data| && data[start..end] == first + rest
    ensures end == start + |first| + |rest|
    ensures data[start..start + |first|] == first && data[start + |first|..end] == rest
  {
    assert |data[start..end]| == end - start;
    SubSlice(data, start, first + rest, 0, |first|);
    SubSlice(data, start, first + rest, |first|, |first| + |rest|);
  }

  // ----- Options -----

  lemma SdOptionReads(data: seq<byte>, pos: nat, option: SdOption)
    requires OptionConsistent(option) && pos + SdOptionSize(option) <= |data|
    requires SdOptionBytes(option) == Ok(data[pos..pos + SdOptionSize(option)])
    ensures SdOptionAt(data, pos) == Ok(option)
  {
    var size := SdOptionSize(option);
    var part := data[pos..pos + size];
    CommonFields(option);
    SubSlice(data, pos, part, 0, 4);
    SubSlice(data, pos, part, 0, 2);
    Quadruple(data, pos);
    At16Inverse(data, pos, option.common.length);
    assert data[pos + 2] == option.common.kind && (data[pos + 3] >= 0x80 <==> option.common.discardable);
    if option.Ip4Endpoint? {
      EndpointFields(option);
      SubSlice(data, pos, part, 4, 8);
      SubSlice(data, pos, part, 9, 10);
      SubSlice(data, pos, part, 10, 12);
      At16Inverse(data, pos + 10, option.endpoint.port);
    }
  }

  lemma CommonFields(option: SdOption)
    requires SdOptionBytes(option).Ok?
    ensures var b := SdOptionBytes(option).value;
            && b[0..2] == Be16(option.common.length)
            && b[0..4] == Be16(option.common.length) + [option.common.kind, if option.common.discardable then 0x80 else 0]
  {
  }

  lemma EndpointFields(option: SdOption)
    requires SdOptionBytes(option).Ok? && option.Ip4Endpoint?
    ensures var b := SdOptionBytes(option).value;
            && b[4..8] == option.endpoint.address4 && b[9] == option.endpoint.protocol.Code()
            && b[10..12] == Be16(option.endpoint.port)
  {
  }

  lemma {:induction false} SdOptionsRead(data: seq<byte>, pos: nat, options: seq<SdOption>)
    requires forall o :: o in options ==> OptionConsistent(o)
    requires pos + SdOptionsSize(options) <= |data|
    requires SdOptionsBytes(options) == Ok(data[pos..pos + SdOptionsSize(options)])
    ensures SdOptionsFrom(data, pos, SdOptionsSize(options)) == Ok(options)
    decreases |options|
  {
    hide SdOptionAt, SdOptionBytes, KnownOption;
    if options != [] {
      var first, rest := SdOptionBytes(options[0]).value, SdOptionsBytes(options[1..]).value;
      SplitSlice(data, pos, pos + SdOptionsSize(options), first, rest);
      assert options[0] in options;
      SdOptionReads(data, pos, options[0]);
      SdOptionsRead(data, pos + SdOptionSize(options[0]), options[1..]);
      assert options == [options[0]] + options[1..];
    }
  }

  // ----- The whole header -----

  lemma SdHeaderLayout(header: SdHeader, data: seq<byte>)
    requires ToSdBuffer(header) == Ok(data) && header.lengthEntries == 16 * |header.entries|
    requires header.lengthOptions == SdOptionsSize(header.options)
    ensures var n, m := header.lengthEntries, header.lengthOptions;
            && |data| == 28 + n + m
            && FieldsAt(data) == header.header
            && data[16] == FlagByte(header.rebootFlag, header.unicastFlag)
            && At32(data, 20) == n
            && SdEntriesBytes(header.entries) == Ok(data[24..24 + n])
            && At32(data, 24 + n) == m
            && SdOptionsBytes(header.options) == Ok(data[28 + n..28 + n + m])
  {
    hide SdEntriesBytes, SdOptionsBytes, FieldsAt, FlagByte, Header.ToBuffer;
    var front := header.header.ToBuffer().value;
    var entries, options := SdEntriesBytes(header.entries).value, SdOptionsBytes(header.options).value;
    var flags := FlagByte(header.rebootFlag, header.unicastFlag);
    BodyLayout(front, flags, entries, options, data);
    assert data[28 + |entries|..] == data[28 + |entries|..28 + |entries| + |options|];
    assert data[..16] == front;
    HeaderInverse(header.header, data);
  }

  lemma FromSdParts(data: seq<byte>, front: Header, count: nat, entries: seq<SdEntry>, length: int, options: seq<SdOption>)
    requires |data| >= 28 + 16 * count && FromBuffer(data) == Ok(front)
    requires At32(data, 20) == 16 * count && At32(data, 24 + 16 * count) == length
    requires SdEntriesFrom(data, 0, count) == Ok(entries)
    requires SdOptionsFrom(data, 28 + 16 * count, length) == Ok(options)
    ensures FromSdBuffer(data)
         == Ok(SdHeader(front, data[16] >= 0x80, data[16] % 0x80 >= 0x40, 16 * count, length, entries, options))
  {
    hide FromBuffer, SdEntriesFrom, SdOptionsFrom;
    assert OptionsLengthPos(data) == 24 + 16 * count;
    assert At32(data, 20) / 16 == count;
  }

  lemma EntriesPartReads(data: seq<byte>, entries: seq<SdEntry>, n: nat)
    requires n == 16 * |entries| && |data| >= 24 + n && forall e :: e in entries ==> EntryConsistent(e)
    requires SdEntriesBytes(entries) == Ok(data[24..24 + n])
    ensures SdEntriesFrom(data, 0, |entries|) == Ok(entries)
  {
    hide SdEntriesBytes, SdEntriesFrom, EntryConsistent;
    assert entries[0..] == entries;
    SdEntriesRead(data, entries, 0);
  }

  lemma OptionsPartReads(data: seq<byte>, options: seq<SdOption>, pos: nat, m: nat)
    requires m == SdOptionsSize(options) && pos + m <= |data| && forall o :: o in options ==> OptionConsistent(o)
    requires SdOptionsBytes(options) == Ok(data[pos..pos + m])
    ensures SdOptionsFrom(data, pos, m) == Ok(options)
  {
    hide SdOptionsBytes, SdOptionsFrom, OptionConsistent, SdOptionsSize;
    SdOptionsRead(data, pos, options);
  }

  lemma PartsRead(header: SdHeader, data: seq<byte>)
    requires Consistent(header) && ToSdBuffer(header) == Ok(data)
    ensures SdEntriesFrom(data, 0, |header.entries|) == Ok(header.entries)
    ensures SdOptionsFrom(data, 28 + header.lengthEntries, header.lengthOptions) == Ok(header.options)
  {
    hide EntryConsistent, OptionConsistent, ToSdBuffer, SdOptionsSize;
    hide SdEntriesBytes, SdOptionsBytes, SdEntriesFrom, SdOptionsFrom, FieldsAt, FlagByte;
    var n, m := header.lengthEntries, header.lengthOptions;
    assert |data| == 28 + n + m by {
      SdHeaderLayout(header, data);
    }
    assert SdEntriesFrom(data, 0, |header.entries|) == Ok(header.entries) by {
      SdHeaderLayout(header, data);
      EntriesPartReads(data, header.entries, n);
    }
    assert SdOptionsFrom(data, 28 + n, m) == Ok(header.options) by {
      SdHeaderLayout(header, data);
      OptionsPartReads(data, header.options, 28 + n, m);
    }
  }

  lemma FieldsRead(header: SdHeader, data: seq<byte>)
    requires Consistent(header) && ToSdBuffer(header) == Ok(data)
    ensures |data| >= 28 + 16 * |header.entries|
    ensures FromBuffer(data) == Ok(header.header)
    ensures data[16] == FlagByte(header.rebootFlag, header.unicastFlag)
    ensures At32(data, 20) == 16 * |header.entries| == header.lengthEntries
    ensures At32(data, 24 + 16 * |header.entries|) == header.lengthOptions
  {
    SdHeaderLayout(header, data);
    assert header.lengthEntries == 16 * |header.entries| && header.header.length >= 8;
    hide *;
    HeaderLength(data);
  }

  /** Whatever a consistent header prints, the parser reads back as the same header. */
  lemma {:induction false} SdHeaderRoundTrip(header: SdHeader, data: seq<byte>)
    requires Consistent(header) && ToSdBuffer(header) == Ok(data)
    ensures FromSdBuffer(data) == Ok(header)
  {
    hide *;
    PartsRead(header, data);
    FieldsRead(header, data);
    FlagBits(header.rebootFlag, header.unicastFlag);
    FromSdParts(data, header.header, |header.entries|, header.entries, header.lengthOptions, header.options);
  }

  lemma FlagBits(rebootFlag: bool, unicastFlag: bool)
    ensures FlagByte(rebootFlag, unicastFlag) >= 0x80 <==> rebootFlag
    ensures FlagByte(rebootFlag, unicastFlag) % 0x80 >= 0x40 <==> unicastFlag
  {
  }

  lemma HeaderLength(data: seq<byte>)
    requires |data| >= 16
    ensures FieldsAt(data).length == At32(data, 4)
    ensures At32(data, 4) >= 8 ==> FromBuffer(data) == Ok(FieldsAt(data))
  {
  }
}
