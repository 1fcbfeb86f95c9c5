/** The daemon runs both SD parsers on every multicast datagram. They see the same offers. */
module SdParsersAgree {
  import opened Bytes
  import opened SdMessages
  import opened SdDeserialization
  import opened SomeIpHeader
  import opened SomeIpSdHeader

  /** An offer as a receiver acts on it. */
  datatype Offer = Offer(serviceId: int, instanceId: int, majorVersion: int, minorVersion: int, ttl: int,
                         endpoints: seq<V4Endpoint>)

  function OffersOf(entries: seq<Entry>): seq<Offer> {
    if entries == [] then []
    else if entries[0].OfferService? then
      var e := entries[0];
      [Offer(e.serviceId, e.instanceId, e.majorVersion, e.minorVersion, e.ttl, e.v4)] + OffersOf(entries[1..])
    else OffersOf(entries[1..])
  }

  predicate IsOffer(entry: SdEntry) {
    entry.ServiceEntry? && entry.head.kind == 0x01 && entry.head.ttl != 0
  }

  /** The offers of the older parser, with the IPv4 endpoint options of their option runs. */
  function HeaderOffersOf(entries: seq<SdEntry>, options: seq<SdOption>): Result<seq<Offer>> {
    if entries == [] then Ok([])
    else if !IsOffer(entries[0]) then HeaderOffersOf(entries[1..], options)
    else
      var head := entries[0].head;
      var run :- ApplicableOptions(head, options);
      var rest :- HeaderOffersOf(entries[1..], options);
      Ok([Offer(head.serviceId, head.instanceId, head.majorVersion, entries[0].minorVersion, head.ttl,
                Ip4Endpoints(run))] + rest)
  }

  // ----- Options correspond one to one -----

  predicate Corresponds(parsed: ParsedOption, option: SdOption) {
    if parsed.Endpoint? && parsed.endpoint.V4? then option.Ip4Endpoint? && option.endpoint == parsed.endpoint
    else option.Common?
  }

  predicate AllCorrespond(parsed: seq<ParsedOption>, options: seq<SdOption>) {
    |parsed| == |options| && forall i :: 0 <= i < |parsed| ==> Corresponds(parsed[i], options[i])
  }

  lemma OptionCorresponds(data: seq<byte>, pos: nat)
    requires pos + 4 <= |data| && OptionAt(data, pos).Ok?
    ensures SdOptionAt(data, pos).Ok? && SdOptionAt(data, pos).value.common.length == At16(data, pos)
    ensures Corresponds(OptionAt(data, pos).value, SdOptionAt(data, pos).value)
  {
  }

  /** What the stricter parser accepts as options, the older one reads alike. */
  lemma {:induction false} OptionsCorrespond(data: seq<byte>, pos: nat, left: int)
    requires OptionsFrom(data, pos, left).Ok?
    ensures SdOptionsFrom(data, pos, left).Ok?
    ensures AllCorrespond(OptionsFrom(data, pos, left).value, SdOptionsFrom(data, pos, left).value)
    decreases left
  {
    hide OptionAt, SdOptionAt, Corresponds;
    if left > 0 {
      OptionCorresponds(data, pos);
      var step := At16(data, pos) + 3;
      OptionsCorrespond(data, pos + step, left - step);
    }
  }

  lemma {:induction false} FilteredAlike(parsed: seq<ParsedOption>, options: seq<SdOption>)
    requires AllCorrespond(parsed, options)
    ensures V4Endpoints(parsed) == Ip4Endpoints(options)
  {
    if parsed != [] {
      FilteredAlike(parsed[1..], options[1..]);
    }
  }

  /** The runs of one entry fail together or select corresponding options. */
  lemma RunsCorrespond(head: EntryHead, parsed: seq<ParsedOption>, options: seq<SdOption>)
    requires AllCorrespond(parsed, options)
    ensures ApplicableOptions(head, parsed).Ok? <==> ApplicableOptions(head, options).Ok?
    ensures ApplicableOptions(head, parsed).Ok? ==>
              AllCorrespond(ApplicableOptions(head, parsed).value, ApplicableOptions(head, options).value)
  {
  }

  // ----- Entries -----

  predicate ServiceKind(data: seq<byte>, i: nat) {
    ENTRIES_START + 16 * i < |data|
    && (data[ENTRIES_START + 16 * i] == 0x00 || data[ENTRIES_START + 16 * i] == 0x01)
  }

  /** One entry accepted by both parsers is a Find or an Offer, with the same offer in it. */
  lemma EntryAgrees(data: seq<byte>, i: nat, parsed: seq<ParsedOption>, options: seq<SdOption>)
    requires AllCorrespond(parsed, options)
    requires EntryAt(data, ENTRIES_START + 16 * i, parsed).Ok? && SdEntryAt(data, ENTRIES_START + 16 * i).Ok?
    ensures var e := EntryAt(data, ENTRIES_START + 16 * i, parsed).value;
            var h := SdEntryAt(data, ENTRIES_START + 16 * i).value;
            && ServiceKind(data, i)
            && e.Some?
            && HeaderOffersOf([h], options) == Ok(OffersOf([e.value]))
  {
    var start := ENTRIES_START + 16 * i;
    var e, h := EntryAt(data, start, parsed).value, SdEntryAt(data, start).value;
    RunsCorrespond(h.head, parsed, options);
    if IsOffer(h) {
      FilteredAlike(ApplicableOptions(h.head, parsed).value, ApplicableOptions(h.head, options).value);
    }
    assert [h][1..] == [] && [e.value][1..] == [];
  }

  /** Prefixing an agreeing pair of entries to agreeing lists. */
  lemma AgreeStep(e: Entry, h: SdEntry, entries: seq<Entry>, headers: seq<SdEntry>, options: seq<SdOption>)
    requires HeaderOffersOf([h], options) == Ok(OffersOf([e]))
    requires HeaderOffersOf(headers, options) == Ok(OffersOf(entries))
    ensures HeaderOffersOf([h] + headers, options) == Ok(OffersOf([e] + entries))
  {
    hide ApplicableOptions, Ip4Endpoints;
    assert ([h] + headers)[1..] == headers && [h][1..] == [];
    assert ([e] + entries)[1..] == entries && [e][1..] == [];
    var offers := OffersOf([e]);
    assert OffersOf([e] + entries) == offers + OffersOf(entries);
    if IsOffer(h) {
      var run := ApplicableOptions(h.head, options);
      assert run.Ok?;
      assert HeaderOffersOf([h], options).value[0] == HeaderOffersOf([h] + headers, options).value[0];
      assert HeaderOffersOf([h] + headers, options).value[1..] == OffersOf(entries);
    }
  }

  lemma EntriesUnfold(data: seq<byte>, i: nat, count: nat, parsed: seq<ParsedOption>)
    requires i < count && EntriesFrom(data, i, count, parsed).Ok? && SdEntriesFrom(data, i, count).Ok?
    ensures var start := ENTRIES_START + 16 * i;
            && EntryAt(data, start, parsed).Ok? && SdEntryAt(data, start).Ok?
            && EntriesFrom(data, i + 1, count, parsed).Ok? && SdEntriesFrom(data, i + 1, count).Ok?
            && EntriesFrom(data, i, count, parsed).value
               == Collected(EntryAt(data, start, parsed).value, EntriesFrom(data, i + 1, count, parsed).value)
            && SdEntriesFrom(data, i, count).value
               == [SdEntryAt(data, start).value] + SdEntriesFrom(data, i + 1, count).value
  {
    hide EntryAt, SdEntryAt;
  }

  lemma NoEntriesAgree(data: seq<byte>, i: nat, count: nat, parsed: seq<ParsedOption>, options: seq<SdOption>)
    requires i >= count
    ensures EntriesFrom(data, i, count, parsed) == Ok([]) && SdEntriesFrom(data, i, count) == Ok([])
    ensures HeaderOffersOf([], options) == Ok(OffersOf([]))
  {
  }

  lemma {:induction false} EntriesAgree(data: seq<byte>, i: nat, count: nat, parsed: seq<ParsedOption>, options: seq<SdOption>)
    requires AllCorrespond(parsed, options)
    requires EntriesFrom(data, i, count, parsed).Ok? && SdEntriesFrom(data, i, count).Ok?
    ensures HeaderOffersOf(SdEntriesFrom(data, i, count).value, options)
         == Ok(OffersOf(EntriesFrom(data, i, count, parsed).value))
    ensures forall k :: i <= k < count ==> ServiceKind(data, k)
    decreases count - i
  {
    hide *;
    if i < count {
      EntriesUnfold(data, i, count, parsed);
      EntryAgrees(data, i, parsed, options);
      EntriesAgree(data, i + 1, count, parsed, options);
      var start := ENTRIES_START + 16 * i;
      var e, h := EntryAt(data, start, parsed).value, SdEntryAt(data, start).value;
      AgreeStep(e.value, h, EntriesFrom(data, i + 1, count, parsed).value, SdEntriesFrom(data, i + 1, count).value, options);
      CollectedSome(e, EntriesFrom(data, i + 1, count, parsed).value);
    } else {
      NoEntriesAgree(data, i, count, parsed, options);
    }
  }

  lemma CollectedSome(entry: Option<Entry>, entries: seq<Entry>)
    requires entry.Some?
    ensures Collected(entry, entries) == [entry.value] + entries
  {
  }

  lemma HeaderParts(data: seq<byte>)
    requires Parsed(data).Ok?
    ensures |data| >= 24 && OptionsLengthPos(data) + 4 <= |data| && FromBuffer(data).Ok?
    ensures var pos := OptionsLengthPos(data);
            var options := OptionsFrom(data, pos + 4, At32(data, pos));
            options.Ok? && EntriesFrom(data, 0, At32(data, 20) / 16, options.value) == Ok(Parsed(data).value.entries)
  {
  }

  /** The two parsers agree: a datagram both accept holds Find, Offer and StopOffer entries only,
      and both see the same offers in the same order, with the same IPv4 endpoints. */
  lemma {:induction false} ParsersAgree(data: seq<byte>)
    requires Parsed(data).Ok? && FromSdBuffer(data).Ok?
    ensures var header := FromSdBuffer(data).value;
            HeaderOffersOf(header.entries, header.options) == Ok(OffersOf(Parsed(data).value.entries))
    ensures forall k :: 0 <= k < At32(data, 20) / 16 ==> ServiceKind(data, k)
  {
    HeaderParts(data);
    hide Parsed, HeaderOffersOf, OffersOf, OptionsFrom, SdOptionsFrom, EntriesFrom, SdEntriesFrom, ServiceKind, AllCorrespond;
    var pos := OptionsLengthPos(data);
    OptionsCorrespond(data, pos + 4, At32(data, pos));
    EntriesAgree(data, 0, At32(data, 20) / 16,
                 OptionsFrom(data, pos + 4, At32(data, pos)).value, SdOptionsFrom(data, pos + 4, At32(data, pos)).value);
  }

  // ----- Which accepted datagrams the older parser accepts too -----

  lemma {:induction false} ServiceEntriesAccepted(data: seq<byte>, i: nat, count: nat)
    requires 24 + 16 * count <= |data|
    ensures (forall k :: i <= k < count ==> ServiceKind(data, k)) ==> SdEntriesFrom(data, i, count).Ok?
    decreases count - i
  {
    if i < count && forall k :: i <= k < count ==> ServiceKind(data, k) {
      assert ServiceKind(data, i);
      assert SdEntryAt(data, ENTRIES_START + 16 * i).Ok?;
      ServiceEntriesAccepted(data, i + 1, count);
    }
  }

  /** Of the datagrams the newer parser accepts, the older one accepts exactly those without
      entries of other types, which the newer parser skips. */
  lemma OlderParserAccepts(data: seq<byte>)
    requires Parsed(data).Ok?
    ensures FromSdBuffer(data).Ok? <==> forall k :: 0 <= k < At32(data, 20) / 16 ==> ServiceKind(data, k)
  {
    HeaderParts(data);
    var count := At32(data, 20) / 16;
    var pos := OptionsLengthPos(data);
    OptionsCorrespond(data, pos + 4, At32(data, pos));
    ServiceEntriesAccepted(data, 0, count);
    if FromSdBuffer(data).Ok? {
      ParsersAgree(data);
    }
  }

  /** The newer parser's check of the first bytes and the header object of the older one agree on what an
      SD message is, but for the length, which only the former looks at. */
  lemma RecognitionAgrees(data: seq<byte>)
    requires |data| >= 16
    ensures IsSdMessage(data) <==> FieldsAt(data).IsSdHeader() && 12 <= FieldsAt(data).length <= |data| - 8
  {
  }
}
