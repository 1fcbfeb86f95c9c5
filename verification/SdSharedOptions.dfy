/** When entries share endpoints: which messages the one option table serves, and one it does not. */
module SdSharedOptions {
  import opened Bytes
  import opened SdMessages
  import opened SdSerialization
  import opened SdDeserialization
  import opened SdRoundTrip

  /** Any two entries either have the same endpoint list or none in common, and no list repeats an endpoint. */
  ghost predicate EqualOrDisjoint(entries: seq<Entry>) {
    && (forall e :: e in entries ==> NoDuplicates(e.Endpoints()))
    && forall e, f :: e in entries && f in entries ==>
         e.Endpoints() == f.Endpoints() || Disjoint(e.Endpoints(), f.Endpoints())
  }

  /** The endpoints form one run of the table that starts at the printed index. */
  ghost predicate RunInTable(endpoints: seq<EndpointOption>, table: seq<EndpointOption>, i: nat) {
    i + |endpoints| <= |table| && table[i..i + |endpoints|] == endpoints
  }

  /** Endpoints that no earlier entry has are not in the table yet. */
  lemma FreshEndpoints(entries: seq<Entry>, k: nat)
    requires EqualOrDisjoint(entries) && k < |entries|
    requires forall j :: 0 <= j < k ==> entries[j].Endpoints() != entries[k].Endpoints()
    ensures Disjoint(OptionTable(entries[..k]), entries[k].Endpoints())
  {
    OptionTableProperties(entries[..k]);
    hide OptionTable;
    assert entries[k] in entries;
    forall e | e in entries[..k] ensures Disjoint(e.Endpoints(), entries[k].Endpoints()) {
      var j :| 0 <= j < k && entries[..k][j] == e;
      assert entries[j] == e && e in entries;
    }
  }

  lemma TableStep(entries: seq<Entry>, k: nat)
    requires k < |entries|
    ensures OptionTable(entries[..k + 1]) == AddOptions(OptionTable(entries[..k]), entries[k].Endpoints())
  {
    assert entries[..k + 1][..k] == entries[..k];
  }

  lemma RunOfPrefix(before: seq<EndpointOption>, endpoints: seq<EndpointOption>, table: seq<EndpointOption>)
    requires before + endpoints <= table
    ensures RunInTable(endpoints, table, |before|)
  {
    var upto := before + endpoints;
    assert table[..|upto|] == upto;
    assert table[|before|..|upto|] == upto[|before|..];
  }

  /** The run that entry k appends. */
  lemma AppendedRun(entries: seq<Entry>, k: nat)
    requires EqualOrDisjoint(entries) && k < |entries|
    requires Disjoint(OptionTable(entries[..k]), entries[k].Endpoints())
    ensures RunInTable(entries[k].Endpoints(), OptionTable(entries), |OptionTable(entries[..k])|)
  {
    assert NoDuplicates(entries[k].Endpoints()) by {
      assert entries[k] in entries;
    }
    hide EqualOrDisjoint, Disjoint, NoDuplicates, OptionTable, AddOptions, RunInTable;
    TableStep(entries, k);
    AddOptionsAppends(OptionTable(entries[..k]), entries[k].Endpoints());
    OptionTableGrows(entries, k + 1);
    RunOfPrefix(OptionTable(entries[..k]), entries[k].Endpoints(), OptionTable(entries));
  }

  lemma {:induction false} RunExists(entries: seq<Entry>, k: nat) returns (i: nat)
    requires EqualOrDisjoint(entries) && k < |entries|
    ensures RunInTable(entries[k].Endpoints(), OptionTable(entries), i)
    decreases k
  {
    hide OptionTable, EqualOrDisjoint;
    if j :| 0 <= j < k && entries[j].Endpoints() == entries[k].Endpoints() {
      i := RunExists(entries, j);
    } else {
      FreshEndpoints(entries, k);
      AppendedRun(entries, k);
      i := |OptionTable(entries[..k])|;
    }
  }

  lemma {:induction false} FilterOrdered(v4: seq<V4Endpoint>, v6: seq<V6Endpoint>)
    ensures V4Endpoints(Wrapped(v4 + v6)) == v4
    ensures V6Endpoints(Wrapped(v4 + v6)) == v6
    decreases |v4| + |v6|
  {
    if v4 != [] {
      FilterOrdered(v4[1..], v6);
      assert Wrapped(v4 + v6)[1..] == Wrapped(v4[1..] + v6);
    } else if v6 != [] {
      FilterOrdered(v4, v6[1..]);
      assert Wrapped(v4 + v6)[1..] == Wrapped(v4 + v6[1..]);
    } else {
      assert Wrapped(v4 + v6) == [];
    }
  }

  /** A run in the table makes an entry contiguous, and it is the run the printer points at. */
  lemma RunIsContiguous(entry: Entry, table: seq<EndpointOption>, i: nat)
    requires NoDuplicates(table) && RunInTable(entry.Endpoints(), table, i)
    ensures Contiguous(entry, table)
    ensures entry.Endpoints() != [] ==> RunIndex(entry, table) == i
  {
    if entry.HasEndpoints() {
      FilterOrdered(entry.v4, entry.v6);
      assert StandsAt(entry, table, i);
      if entry.Endpoints() != [] {
        PrinterFindsRun(entry, table, i);
      }
    }
  }

  /** With equal or disjoint endpoint lists the table has no duplicates, and each entry's
      endpoints are the run that starts at the index its bytes carry. */
  lemma SharedTable(entries: seq<Entry>, k: nat)
    requires EqualOrDisjoint(entries) && k < |entries|
    ensures NoDuplicates(OptionTable(entries))
    ensures Contiguous(entries[k], OptionTable(entries))
    ensures entries[k].HasEndpoints() ==>
              RunInTable(entries[k].Endpoints(), OptionTable(entries), RunIndex(entries[k], OptionTable(entries)))
  {
    var i := RunExists(entries, k);
    OptionTableProperties(entries);
    RunIsContiguous(entries[k], OptionTable(entries), i);
    if entries[k].Endpoints() == [] {
      var at := RunIndex(entries[k], OptionTable(entries));
      assert OptionTable(entries)[at..at] == [];
    }
  }

  /** The round trip for messages whose entries have equal or disjoint endpoint lists. */
  lemma SharedRoundTrip(message: SdMessage, data: seq<byte>)
    requires AllService(message.entries) && EqualOrDisjoint(message.entries)
    requires forall e :: e in message.entries ==> TtlKept(e)
    requires SdBytes(message) == Ok(data) && message.sessionId != 0
    ensures IsSdMessage(data) && At32(data, 4) == |data| - 8
    ensures Parsed(data) == Ok(ReceivedMessage(message.sessionId, false, message.entries))
  {
    RoundTrip(message, data);
    forall e | e in message.entries ensures Contiguous(e, OptionTable(message.entries)) {
      var k :| 0 <= k < |message.entries| && message.entries[k] == e;
      SharedTable(message.entries, k);
    }
  }

  /** The message is in range: at most 256 different endpoints, of which each entry has at most two. */
  ghost predicate InRange(message: SdMessage) {
    && 1 <= message.sessionId <= 0xFFFF && |message.entries| < 0x100_0000
    && (forall e :: e in message.entries ==> FieldsFit(e) && |e.Endpoints()| <= 2)
    && (forall e, o :: e in message.entries && o in e.Endpoints() ==> InU16(o.port))
    && |OptionTable(message.entries)| <= 256
  }

  lemma InRangePrints(message: SdMessage)
    requires AllService(message.entries) && InRange(message)
    ensures SdBytes(message).Ok?
  {
    var entries, table := message.entries, OptionTable(message.entries);
    hide SdBytes, OptionTable, OptionsSize, OptionsBytes, FieldsFit, Entry.Endpoints, EntryFits, AllService;
    forall e | e in entries ensures EntryFits(e, table) {
      InRangeFits(e, table);
    }
    forall o | o in table ensures InU16(o.port) {
      InTable(entries, o);
    }
    OptionsPrint(table);
    PrintsExactly(message);
  }

  lemma InRangeFits(e: Entry, table: seq<EndpointOption>)
    requires FieldsFit(e) && |e.Endpoints()| <= 2 && |table| <= 256
    ensures EntryFits(e, table)
  {
    RunIndexBelow(e, table);
  }

  lemma InTable(entries: seq<Entry>, o: EndpointOption)
    requires o in OptionTable(entries)
    ensures exists e :: e in entries && o in e.Endpoints()
  {
    OptionTableProperties(entries);
  }

  /** The same without asking the printer. */
  lemma SharedRoundTripInRange(message: SdMessage)
    requires AllService(message.entries) && EqualOrDisjoint(message.entries) && InRange(message)
    requires forall e :: e in message.entries ==> TtlKept(e)
    ensures SdBytes(message).Ok?
    ensures var data := SdBytes(message).value;
            && IsSdMessage(data) && At32(data, 4) == |data| - 8
            && Parsed(data) == Ok(ReceivedMessage(message.sessionId, false, message.entries))
  {
    assert message.sessionId != 0;
    hide *;
    InRangePrints(message);
    SharedRoundTrip(message, SdBytes(message).value);
  }

  lemma RunIndexBelow(entry: Entry, table: seq<EndpointOption>)
    ensures RunIndex(entry, table) == 0 || RunIndex(entry, table) < |table|
  {
  }

  function OfferOf(serviceId: int, endpoints: seq<V4Endpoint>): Entry {
    OfferService(serviceId, 1, 1, 0, 3, endpoints, [])
  }

  /** Three offers, of which the last shares one of its two endpoints with the first. */
  function ThreeOffers(a: V4Endpoint, b: V4Endpoint, c: V4Endpoint): SdMessage {
    SdMessage(1, false, [OfferOf(1, [a]), OfferOf(2, [c]), OfferOf(3, [a, b])])
  }

  /** Sharing one endpoint out of two can fail: with a third endpoint in between, the pair is
      not contiguous, and the last offer comes back with a stranger's endpoint. */
  lemma SharingOneEndpointFails(a: V4Endpoint, b: V4Endpoint, c: V4Endpoint)
    requires a != b && b != c && a != c && InU16(a.port) && InU16(b.port) && InU16(c.port)
    ensures var data := SdBytes(ThreeOffers(a, b, c));
            data.Ok? && Parsed(data.value) == Ok(ReceivedMessage(1, false, [OfferOf(1, [a]), OfferOf(2, [c]), OfferOf(3, [a, c])]))
  {
    var message := ThreeOffers(a, b, c);
    var e0, e1, e2, seen := OfferOf(1, [a]), OfferOf(2, [c]), OfferOf(3, [a, b]), OfferOf(3, [a, c]);
    assert message.sessionId == 1 && message.rebootFlag == false && message.entries == [e0, e1, e2];
    ThreeInRange(a, b, c);
    PairIsTorn(a, b, c);
    OnlyIsKept(a, b, c);
    hide *;
    InRangePrints(message);
    PrintedParses(message, SdBytes(message).value);
    SeenThree(e0, e1, e2, seen, OptionTable(message.entries));
  }

  lemma ThreeInRange(a: V4Endpoint, b: V4Endpoint, c: V4Endpoint)
    requires a != b && b != c && a != c && InU16(a.port) && InU16(b.port) && InU16(c.port)
    ensures AllService(ThreeOffers(a, b, c).entries) && InRange(ThreeOffers(a, b, c))
  {
    var e0, e1, e2 := OfferOf(1, [a]), OfferOf(2, [c]), OfferOf(3, [a, b]);
    assert e0.Endpoints() == [a] && e1.Endpoints() == [c] && e2.Endpoints() == [a, b];
    TableOfThree(e0, e1, e2, a, b, c);
    hide OptionTable, Entry.Endpoints;
  }

  lemma OnlyIsKept(a: V4Endpoint, b: V4Endpoint, c: V4Endpoint)
    requires a != b && b != c && a != c
    ensures var table := OptionTable(ThreeOffers(a, b, c).entries);
            Seen(OfferOf(1, [a]), table) == Ok(OfferOf(1, [a])) && Seen(OfferOf(2, [c]), table) == Ok(OfferOf(2, [c]))
  {
    var e0, e1, e2 := OfferOf(1, [a]), OfferOf(2, [c]), OfferOf(3, [a, b]);
    var table := OptionTable([e0, e1, e2]);
    assert e0.Endpoints() == [a] && e1.Endpoints() == [c] && e2.Endpoints() == [a, b];
    TableOfThree(e0, e1, e2, a, b, c);
    OptionTableProperties([e0, e1, e2]);
    hide OptionTable, Entry.Endpoints, Seen;
    assert table[0..1] == [a] && table[1..2] == [c];
    RunIsContiguous(e0, table, 0);
    RunIsContiguous(e1, table, 1);
    SeenUnchanged(e0, table);
    SeenUnchanged(e1, table);
  }

  lemma SeenThree(e0: Entry, e1: Entry, e2: Entry, seen: Entry, table: seq<EndpointOption>)
    requires e0.IsService() && e1.IsService() && e2.IsService()
    requires Seen(e0, table) == Ok(e0) && Seen(e1, table) == Ok(e1) && Seen(e2, table) == Ok(seen)
    ensures AllService([e0, e1, e2]) && SeenAll([e0, e1, e2], table) == Ok([e0, e1, seen])
  {
    assert [e0] + [e1, e2] == [e0, e1, e2] && [e1] + [e2] == [e1, e2] && [e2] + [] == [e2];
    assert [e0] + [e1, seen] == [e0, e1, seen] && [e1] + [seen] == [e1, seen] && [seen] + [] == [seen];
    assert SeenAll([], table) == Ok([]);
    hide *;
    SeenOne(e2, seen, [], [], table);
    SeenOne(e1, e1, [e2], [seen], table);
    SeenOne(e0, e0, [e1, e2], [e1, seen], table);
  }

  lemma SeenOne(e: Entry, seen: Entry, entries: seq<Entry>, rest: seq<Entry>, table: seq<EndpointOption>)
    requires e.IsService() && AllService(entries)
    requires Seen(e, table) == Ok(seen) && SeenAll(entries, table) == Ok(rest)
    ensures AllService([e] + entries) && SeenAll([e] + entries, table) == Ok([seen] + rest)
  {
    hide Seen, Entry.IsService;
    assert ([e] + entries)[1..] == entries;
  }

  lemma PairIsTorn(a: V4Endpoint, b: V4Endpoint, c: V4Endpoint)
    requires a != b && b != c && a != c
    ensures var table := OptionTable(ThreeOffers(a, b, c).entries);
            !Contiguous(OfferOf(3, [a, b]), table) && Seen(OfferOf(3, [a, b]), table) == Ok(OfferOf(3, [a, c]))
  {
    var e0, e1, e2 := OfferOf(1, [a]), OfferOf(2, [c]), OfferOf(3, [a, b]);
    var entries, table := [e0, e1, e2], [a, c, b];
    assert OptionTable(entries) == table by {
      assert e0.Endpoints() == [a] && e1.Endpoints() == [c] && e2.Endpoints() == [a, b];
      TableOfThree(e0, e1, e2, a, b, c);
    }
    hide OptionTable, Contiguous;
    assert RunIndex(e2, table) == 0;
    assert Wrapped(table)[0..2] == Wrapped([a, c] + []);
    FilterOrdered([a, c], []);
    OptionTableProperties(entries);
    SeenUnchanged(e2, table);
  }

  lemma OptionsOfThree(a: EndpointOption, b: EndpointOption, c: EndpointOption)
    requires a != b && b != c && a != c
    ensures AddOptions(AddOptions(AddOptions([], [a]), [c]), [a, b]) == [a, c, b]
  {
    AddOptionsAppends([], [a]);
    assert AddOptions([], [a]) == [a];
    AddOptionsAppends([a], [c]);
    assert AddOptions([a], [c]) == [a, c];
    AddOptionsAppends([a, c], [b]);
    assert AddOptions([a, c], [b]) == [a, c, b];
    assert [a, b][1..] == [b];
    assert AddOptions([a, c], [a, b]) == AddOptions([a, c], [b]);
  }

  lemma TableOfThree(e0: Entry, e1: Entry, e2: Entry, a: EndpointOption, b: EndpointOption, c: EndpointOption)
    requires a != b && b != c && a != c
    requires e0.Endpoints() == [a] && e1.Endpoints() == [c] && e2.Endpoints() == [a, b]
    ensures OptionTable([e0, e1, e2]) == [a, c, b]
  {
    OptionsOfThree(a, b, c);
    hide AddOptions;
    var entries := [e0, e1, e2];
    assert entries[..2] == [e0, e1] && [e0, e1][..1] == [e0] && [e0][..0] == [];
    assert OptionTable(entries) == AddOptions(OptionTable([e0, e1]), [a, b]);
    assert OptionTable([e0, e1]) == AddOptions(OptionTable([e0]), [c]);
    assert OptionTable([e0]) == AddOptions([], [a]);
  }
}
