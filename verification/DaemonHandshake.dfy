/** The subscribe handshake between two daemons: an offer makes one of them send a subscribe, the
    other answers with an acknowledgement, and that promotes the pending subscription. */
module DaemonHandshake {
  import opened Bytes
  import opened SdMessages
  import opened SdSerialization
  import opened SdDeserialization
  import opened SdParsersAgree
  import opened SdRoundTrip
  import opened SdHandshake
  import opened SomeIpSdHeader
  import opened OfferServiceStorage
  import opened SubscriptionStorage
  import opened SdAdvertise
  import opened SessionHandler
  import opened DaemonSubscriptions

  /** A received subscription identifies an eventgroup of an offered service. */
  predicate Subscribable(service: ServiceToOffer, x: SdSubscription) {
    && service.serviceId == x.serviceId && service.instanceId == x.instanceId
    && x.eventGroupId in service.EventGroupIds() && service.majorVersion == x.majorVersion
  }

  function AckGroup(service: ServiceToOffer, x: SdSubscription): GroupId {
    GroupId(service.serviceId, service.instanceId, service.majorVersion, x.eventGroupId)
  }

  function AckBytes(service: ServiceToOffer, x: SdSubscription, session: Session): Result<seq<byte>> {
    ToSdBuffer(AckHeader(AckGroup(service, x), x.ttl, session.sessionId, session.rebootFlag))
  }

  function EntryGroup(entry: SdEntry): GroupId
    requires entry.EventGroupEntry?
  {
    GroupId(entry.head.serviceId, entry.head.instanceId, entry.head.majorVersion, entry.eventGroupId)
  }

  lemma AckPrints(id: GroupId, ttl: int, sessionId: int, rebootFlag: bool)
    requires InU16(sessionId)
    requires InU16(id.serviceId) && InU16(id.instanceId) && InU8(id.majorVersion) && InU16(id.eventGroupId)
    ensures ToSdBuffer(AckHeader(id, ttl, sessionId, rebootFlag)).Ok?
  {
    var entries := [AckEntry(id, ttl)];
    assert entries[1..] == [];
    assert SdEntriesBytes(entries).Ok?;
  }

  /** The subscriptions read from a subscribe: one for each endpoint, all alike but for the protocol. */
  lemma {:induction false} SubscriptionsAlike(id: GroupId, ttl: int, endpoints: seq<V4Endpoint>)
    ensures |Subscriptions(id, ttl, endpoints)| == |endpoints|
    ensures forall i :: 0 <= i < |endpoints| ==>
              Subscriptions(id, ttl, endpoints)[i]
              == SdSubscription(id.serviceId, id.instanceId, id.majorVersion, ttl, false, 0, id.eventGroupId, endpoints[i])
  {
    if endpoints != [] {
      SubscriptionsAlike(id, ttl, endpoints[1..]);
    }
  }

  /** What arrives of a sent subscribe: for each protocol one subscription. */
  ghost predicate Arrives(k: Key, ttl: int, data: seq<byte>) {
    && FromSdBuffer(data).Ok?
    && var header := FromSdBuffer(data).value;
    && header.header.IsSdHeader()
    && AckEntries(header.entries) == []
    && var xs := SubscribeEntries(header.entries, header.options);
    && xs.Ok? && |xs.value| == |k.protocols|
    && (forall x :: x in xs.value ==>
          && x.serviceId == k.serviceId && x.instanceId == k.instanceId && x.majorVersion == k.majorVersion
          && x.eventGroupId == k.eventGroup.id && x.ttl == ttl
          && x.endpoint.address4 == k.clientEndpoint.ip && x.endpoint.port == k.clientEndpoint.port
          && x.endpoint.protocol in k.protocols)
    && forall p :: p in k.protocols ==> exists x :: x in xs.value && x.endpoint.protocol == p
  }

  lemma SubscribeParts(k: Key, ttl: int, session: Session)
    requires Printable(k) && InU16(session.sessionId)
    ensures SubscribeBytes(k, ttl, session).Ok?
    ensures SubscribeBytes(k, ttl, session)
         == SdBytes(SubscribeMessage(GroupOf(k), ttl, SubscriptionEndpoints(k), session.sessionId, session.rebootFlag))
    ensures SubscriptionEndpoints(k) != []
    ensures NoDuplicates(SubscribeEntry(GroupOf(k), ttl, SubscriptionEndpoints(k)).Endpoints())
  {
    hide SdBytes, SubscriptionEndpoints, NoDuplicates;
    PrintableExact(k, ttl, session);
    SubscriptionEndpointsProperties(k);
    assert SubscribeEntry(GroupOf(k), ttl, SubscriptionEndpoints(k)).Endpoints() == SubscriptionEndpoints(k);
  }

  lemma OneEndpointEach(k: Key)
    ensures |SubscriptionEndpoints(k)| == |k.protocols|
    ensures forall p :: p in k.protocols ==> exists i :: 0 <= i < |SubscriptionEndpoints(k)|
                                                         && SubscriptionEndpoints(k)[i].protocol == p
  {
    var endpoints := SubscriptionEndpoints(k);
    SubscriptionEndpointsProperties(k);
    hide SubscriptionEndpoints;
    var protocols := set e | e in endpoints :: e.protocol;
    forall p | p in k.protocols
      ensures p in protocols && exists i :: 0 <= i < |endpoints| && endpoints[i].protocol == p
    {
      var e: V4Endpoint := V4(k.clientEndpoint.ip, p, k.clientEndpoint.port);
      assert e in endpoints;
    }
    assert protocols == k.protocols;
    OneProtocolEach(endpoints, k.clientEndpoint);
  }

  lemma {:induction false} OneProtocolEach(endpoints: seq<V4Endpoint>, address: Address)
    requires NoDuplicates<EndpointOption>(endpoints)
    requires forall e :: e in endpoints ==> e.address4 == address.ip && e.port == address.port
    ensures |set e | e in endpoints :: e.protocol| == |endpoints|
  {
    var protocols := set e | e in endpoints :: e.protocol;
    if endpoints != [] {
      var rest := endpoints[1..];
      assert endpoints == [endpoints[0]] + rest;
      OneProtocolEach(rest, address);
      var others := set e | e in rest :: e.protocol;
      forall e | e in rest ensures e.protocol != endpoints[0].protocol {
        assert e != endpoints[0];
      }
      assert protocols == others + {endpoints[0].protocol};
    }
  }

  lemma AllProtocolsArrive(k: Key, ttl: int)
    ensures var xs := Subscriptions(GroupOf(k), ttl, SubscriptionEndpoints(k));
            && |xs| == |k.protocols|
            && (forall x :: x in xs ==>
                  && x.serviceId == k.serviceId && x.instanceId == k.instanceId && x.majorVersion == k.majorVersion
                  && x.eventGroupId == k.eventGroup.id && x.ttl == ttl
                  && x.endpoint.address4 == k.clientEndpoint.ip && x.endpoint.port == k.clientEndpoint.port
                  && x.endpoint.protocol in k.protocols)
            && forall p :: p in k.protocols ==> exists x :: x in xs && x.endpoint.protocol == p
  {
    var endpoints := SubscriptionEndpoints(k);
    SubscriptionEndpointsProperties(k);
    SubscriptionsAlike(GroupOf(k), ttl, endpoints);
    OneEndpointEach(k);
    hide SubscriptionEndpoints, Subscriptions;
    var xs := Subscriptions(GroupOf(k), ttl, endpoints);
    forall p | p in k.protocols ensures exists x :: x in xs && x.endpoint.protocol == p {
      var i :| 0 <= i < |endpoints| && endpoints[i].protocol == p;
      assert xs[i] in xs;
    }
  }

  /** A printable subscription is sent, and read as one subscription per protocol with the same ids,
      TTL and address. */
  lemma SubscribeIsRead(k: Key, ttl: int, session: Session)
    requires Printable(k) && 1 <= ttl <= 0xFF_FFFF && InU16(session.sessionId) && session.sessionId != 0
    ensures SubscribeBytes(k, ttl, session).Ok? && Arrives(k, ttl, SubscribeBytes(k, ttl, session).value)
    ensures FromSdBuffer(SubscribeBytes(k, ttl, session).value).value.header.sessionId == session.sessionId
  {
    hide *;
    SubscribeParts(k, ttl, session);
    SubscribeArrives(GroupOf(k), ttl, SubscriptionEndpoints(k), session.sessionId, session.rebootFlag,
                     SubscribeBytes(k, ttl, session).value);
    assert ttl % 0x100_0000 == ttl;
    ArrivesWith(k, ttl, SubscribeBytes(k, ttl, session).value);
  }

  lemma ArrivesWith(k: Key, ttl: int, data: seq<byte>)
    requires FromSdBuffer(data).Ok? && FromSdBuffer(data).value.header.IsSdHeader()
    requires AckEntries(FromSdBuffer(data).value.entries) == []
    requires SubscribeEntries(FromSdBuffer(data).value.entries, FromSdBuffer(data).value.options)
          == Ok(Subscriptions(GroupOf(k), ttl, SubscriptionEndpoints(k)))
    ensures Arrives(k, ttl, data)
  {
    hide FromSdBuffer, SubscribeEntries, AckEntries, SubscriptionEndpoints, Subscriptions;
    AllProtocolsArrive(k, ttl);
  }

  // ----- Stops -----

  /** What arrives of a sent stop: one subscribe entry with TTL 0, whose run of options is one IPv4
      endpoint for each protocol. */
  ghost predicate StopArrives(k: Key, data: seq<byte>) {
    && FromSdBuffer(data).Ok?
    && var header := FromSdBuffer(data).value;
    && header.header.IsSdHeader()
    && |header.entries| == 1 && header.entries[0].EventGroupEntry?
    && var entry := header.entries[0];
    && entry.head.kind == 0x06 && entry.head.ttl == 0 && entry.eventGroupId == k.eventGroup.id
    && entry.head.serviceId == k.serviceId && entry.head.instanceId == k.instanceId
    && entry.head.majorVersion == k.majorVersion
    && var run := ApplicableOptions(entry.head, header.options);
    && run.Ok? && |run.value| == |k.protocols|
    && (forall o :: o in run.value ==>
          && o.Ip4Endpoint? && o.endpoint.address4 == k.clientEndpoint.ip && o.endpoint.port == k.clientEndpoint.port
          && o.endpoint.protocol in k.protocols)
    && (forall p :: p in k.protocols ==> exists o :: o in run.value && o.Ip4Endpoint? && o.endpoint.protocol == p)
    && SubscribeEntries(header.entries, header.options) == Ok([])
  }

  /** A stop is printed like a subscribe with TTL 0. */
  lemma StopIsSubscribe(k: Key, session: Session)
    ensures StopBytes(k, session) == SubscribeBytes(k, 0, session)
  {
    var endpoints := SubscriptionEndpoints(k);
    var stop, subscribe := StopEntry(GroupOf(k), endpoints), SubscribeEntry(GroupOf(k), 0, endpoints);
    StopEntryIsSubscribe(GroupOf(k), endpoints, OptionTable([stop]));
    var id, flag := session.sessionId, session.rebootFlag;
    assert StopBytes(k, session) == SdBytes(SdMessage(id, flag, [stop]));
    assert SubscribeBytes(k, 0, session) == SdBytes(SdMessage(id, flag, [subscribe]));
    hide *;
    SameParts(stop, subscribe);
    SameBytes(id, flag, [stop], [subscribe]);
  }

  lemma SameBytes(sessionId: int, rebootFlag: bool, a: seq<Entry>, b: seq<Entry>)
    requires |a| == |b| && OptionTable(a) == OptionTable(b)
    requires EntriesBytes(a, OptionTable(a), None) == EntriesBytes(b, OptionTable(b), None)
    ensures SdBytes(SdMessage(sessionId, rebootFlag, a)) == SdBytes(SdMessage(sessionId, rebootFlag, b))
  {
    hide OptionTable, OptionsBytes, OptionsSize, SdHeaderBytes, BodyBytes, EntriesBytes;
  }

  lemma StopEntryIsSubscribe(id: GroupId, endpoints: seq<V4Endpoint>, table: seq<EndpointOption>)
    ensures var stop, subscribe := StopEntry(id, endpoints), SubscribeEntry(id, 0, endpoints);
            && stop.Endpoints() == subscribe.Endpoints()
            && EntryBytes(stop, IndexOfRun(stop, table, None)) == EntryBytes(subscribe, IndexOfRun(subscribe, table, None))
  {
    hide FirstOf, Be16;
    var stop, subscribe := StopEntry(id, endpoints), SubscribeEntry(id, 0, endpoints);
    assert stop.Endpoints() == subscribe.Endpoints() && FieldsFit(stop) == FieldsFit(subscribe);
  }

  lemma SameParts(a: Entry, b: Entry)
    requires a.Endpoints() == b.Endpoints()
    requires var table := OptionTable([a]); EntryBytes(a, IndexOfRun(a, table, None)) == EntryBytes(b, IndexOfRun(b, table, None))
    ensures OptionTable([a]) == OptionTable([b])
    ensures EntriesBytes([a], OptionTable([a]), None) == EntriesBytes([b], OptionTable([b]), None)
  {
    assert OptionTable([a]) == OptionTable([b]) by {
      assert [a][..0] == [b][..0] == [];
    }
    var table := OptionTable([a]);
    hide OptionTable, EntryBytes, IndexOfRun, Entry.Endpoints;
    assert [a][1..] == [b][1..] == [];
    assert forall carried: Option<nat> :: EntriesBytes([], table, carried) == Ok([]);
  }

  /** The stop of a printable subscription is sent, and read as the stop of the same ids, eventgroup
      and endpoints. */
  lemma StopIsRead(k: Key, session: Session)
    requires Printable(k) && InU16(session.sessionId) && session.sessionId != 0
    ensures StopBytes(k, session).Ok? && StopArrives(k, StopBytes(k, session).value)
    ensures FromSdBuffer(StopBytes(k, session).value).value.header.sessionId == session.sessionId
  {
    hide *;
    StopIsSubscribe(k, session);
    SubscribeParts(k, 0, session);
    SubscriptionEndpointsProperties(k);
    SubscribeArrives(GroupOf(k), 0, SubscriptionEndpoints(k), session.sessionId, session.rebootFlag,
                     StopBytes(k, session).value);
    StopArrivesWith(k, StopBytes(k, session).value);
  }

  lemma StopArrivesWith(k: Key, data: seq<byte>)
    requires FromSdBuffer(data).Ok? && FromSdBuffer(data).value.header.IsSdHeader()
    requires var header, count := FromSdBuffer(data).value, |SubscriptionEndpoints(k)|;
             && count <= 2 && header.entries == [SubscribeSeen(GroupOf(k), 0, count)]
             && ApplicableOptions(SubscribeSeen(GroupOf(k), 0, count).head, header.options) == Ok(header.options)
             && AllCorrespond(Wrapped(SubscriptionEndpoints(k)), header.options)
             && SubscribeEntries(header.entries, header.options) == Ok([])
    ensures StopArrives(k, data)
  {
    var endpoints, options := SubscriptionEndpoints(k), FromSdBuffer(data).value.options;
    SubscriptionEndpointsProperties(k);
    OneEndpointEach(k);
    hide FromSdBuffer, SubscribeEntries, SubscriptionEndpoints, ApplicableOptions;
    forall i | 0 <= i < |options| ensures options[i].Ip4Endpoint? && options[i].endpoint == endpoints[i] {
      assert Corresponds(Wrapped(endpoints)[i], options[i]);
    }
    forall o | o in options ensures o.Ip4Endpoint? && o.endpoint in endpoints {
    }
    forall p | p in k.protocols ensures exists o :: o in options && o.Ip4Endpoint? && o.endpoint.protocol == p {
      var i :| 0 <= i < |endpoints| && endpoints[i].protocol == p;
      assert options[i] in options;
    }
  }

  // ----- Acknowledgements -----

  /** The ids of a received subscription fit the wire, as those that come from it do. */
  predicate IdsFit(x: SdSubscription) {
    InU16(x.serviceId) && InU16(x.instanceId) && InU8(x.majorVersion) && InU16(x.eventGroupId)
  }

  /** The bytes are read as one acknowledgement of the subscription. */
  ghost predicate IsAckOf(x: SdSubscription, data: seq<byte>) {
    && FromSdBuffer(data).Ok?
    && var header := FromSdBuffer(data).value;
    && header.header.IsSdHeader() && SubscribeEntries(header.entries, header.options) == Ok([])
    && var acks := AckEntries(header.entries);
    && |acks| == 1 && acks[0].EventGroupEntry?
    && acks[0].head.serviceId == x.serviceId && acks[0].head.instanceId == x.instanceId
    && acks[0].head.majorVersion == x.majorVersion && acks[0].eventGroupId == x.eventGroupId
    && acks[0].head.ttl == x.ttl
  }

  /** The bytes are read with the session id and the reboot flag. */
  predicate CarriesSession(data: seq<byte>, session: Session) {
    && FromSdBuffer(data).Ok? && FromSdBuffer(data).value.header.sessionId == session.sessionId
    && FromSdBuffer(data).value.rebootFlag == session.rebootFlag
  }

  /** The acknowledgement of a received subscription is sent, and read as one for the same ids. */
  lemma AckIsRead(service: ServiceToOffer, x: SdSubscription, session: Session)
    requires Subscribable(service, x) && IdsFit(x) && 1 <= x.ttl <= 0xFF_FFFF
    requires InU16(session.sessionId) && session.sessionId != 0
    ensures AckBytes(service, x, session).Ok? && IsAckOf(x, AckBytes(service, x, session).value)
    ensures CarriesSession(AckBytes(service, x, session).value, session)
  {
    hide FromSdBuffer, SubscribeEntries, AckEntries, ToSdBuffer;
    var id := AckGroup(service, x);
    AckPrints(id, x.ttl, session.sessionId, session.rebootFlag);
    AckArrives(id, x.ttl, session.sessionId, session.rebootFlag, AckBytes(service, x, session).value);
  }

  /** An acknowledgement for the ids of a pending subscription makes a pending one of these ids
      active; if there is only one, it is that one. */
  lemma AckPromotes(s: Subs, k: Key, choice: Option<Key>, now: real)
    requires k in s.pending && Promotable(s, GroupOf(k), choice)
    ensures var t := AfterAck(s, choice, now);
            && choice.Some? && GroupOf(choice.value) == GroupOf(k)
            && choice.value in t.active && choice.value !in t.pending
            && t.active[choice.value] == Stamp(s.pending[choice.value].ttl, now)
            && ((forall l :: l in s.pending && GroupOf(l) == GroupOf(k) ==> l == k) ==> choice.value == k)
  {
  }

  // ----- What the handlers send -----

  datatype Datagram = Datagram(ip: Ip4, data: seq<byte>)

  /** The subscribes sent for an offer, and the unicast session behind them. */
  function SubscribeDatagrams(matches: seq<(Subscription, ClientId)>, offer: ServiceInstance, session: Session)
    : (seq<Datagram>, Session)
    decreases matches
  {
    if matches == [] then ([], session)
    else
      var next := Updated(session);
      var bytes := SubscribeBytes(PendingKey(offer, matches[0].0.key), matches[0].0.ttl, Given(session));
      if bytes.Err? then ([], next)
      else
        var (rest, last) := SubscribeDatagrams(matches[1..], offer, next);
        ([Datagram(offer.address.ip, bytes.value)] + rest, last)
  }

  lemma SubscribeStep(sent: seq<Datagram>, matches: seq<(Subscription, ClientId)>, i: nat, offer: ServiceInstance, session: Session)
    requires i < |matches|
    ensures var next, all := Updated(session), SubscribeDatagrams(matches[i..], offer, session);
            var bytes := SubscribeBytes(PendingKey(offer, matches[i].0.key), matches[i].0.ttl, Given(session));
            if bytes.Err? then sent + all.0 == sent && all.1 == next
            else
              && sent + all.0 == sent + [Datagram(offer.address.ip, bytes.value)]
                                 + SubscribeDatagrams(matches[i + 1..], offer, next).0
              && all.1 == SubscribeDatagrams(matches[i + 1..], offer, next).1
  {
    hide SubscribeBytes, PendingKey;
    assert matches[i..][0] == matches[i] && matches[i..][1..] == matches[i + 1..];
  }

  /** The acknowledgements sent for a received subscription. */
  function AckDatagrams(services: seq<ServiceToOffer>, x: SdSubscription, session: Session): (seq<Datagram>, Session) {
    if services == [] then ([], session)
    else if !Subscribable(services[0], x) then AckDatagrams(services[1..], x, session)
    else
      var next := Updated(session);
      var bytes := AckBytes(services[0], x, Given(session));
      if bytes.Err? then ([], next)
      else
        var (rest, last) := AckDatagrams(services[1..], x, next);
        ([Datagram(x.endpoint.address4, bytes.value)] + rest, last)
  }

  lemma AckStep(sent: seq<Datagram>, services: seq<ServiceToOffer>, i: nat, x: SdSubscription, session: Session)
    requires i < |services|
    ensures var all := AckDatagrams(services[i..], x, session);
            if !Subscribable(services[i], x) then
              all == AckDatagrams(services[i + 1..], x, session)
            else
              var next := Updated(session);
              var bytes := AckBytes(services[i], x, Given(session));
              bytes.Ok? ==>
                && sent + all.0 == sent + [Datagram(x.endpoint.address4, bytes.value)] + AckDatagrams(services[i + 1..], x, next).0
                && all.1 == AckDatagrams(services[i + 1..], x, next).1
  {
    hide AckBytes, Subscribable;
    assert services[i..][0] == services[i] && services[i..][1..] == services[i + 1..];
  }

  /** The stops sent for a stopped subscription, each with the server endpoint it goes to. */
  function StopDatagrams(order: seq<Key>, stopped: Key, session: Session): (seq<(Option<Address>, seq<byte>)>, Session) {
    if order == [] then ([], session)
    else if !SameTarget(order[0], stopped) then StopDatagrams(order[1..], stopped, session)
    else
      var bytes := StopBytes(order[0], Given(session));
      if bytes.Err? then ([], Updated(session))
      else
        var (rest, last) := StopDatagrams(order[1..], stopped, Updated(session));
        ([(order[0].serverEndpoint, bytes.value)] + rest, last)
  }

  /** The subscriptions that a stop sends a message for, in order. */
  function StoppedKeys(order: seq<Key>, stopped: Key): seq<Key> {
    if order == [] then []
    else if !SameTarget(order[0], stopped) then StoppedKeys(order[1..], stopped)
    else if !Printable(order[0]) then []
    else [order[0]] + StoppedKeys(order[1..], stopped)
  }

  /** They are those with the service, instance, major version, eventgroup id and client endpoint of the
      stopped one that can be printed and are not behind the cut. */
  lemma {:induction false} StoppedKeysMembers(order: seq<Key>, stopped: Key)
    requires forall i, j :: 0 <= i < j < |order| ==> order[i] != order[j]
    ensures forall k :: k in StoppedKeys(order, stopped) <==>
              && k in order && k !in Behind(order, stopped) && Printable(k)
              && k.serviceId == stopped.serviceId && k.instanceId == stopped.instanceId
              && k.majorVersion == stopped.majorVersion && k.eventGroup.id == stopped.eventGroup.id
              && k.clientEndpoint == stopped.clientEndpoint
  {
    hide Printable;
    if order != [] {
      assert order == [order[0]] + order[1..];
      assert order[0] !in order[1..];
      BehindWithin(order[1..], stopped);
      StoppedKeysMembers(order[1..], stopped);
    }
  }

  /** The message is the stop of this subscription, to its server endpoint, with this session id. */
  ghost predicate IsStopOf(k: Key, message: (Option<Address>, seq<byte>), sessionId: int) {
    && message.0 == k.serverEndpoint && StopArrives(k, message.1)
    && FromSdBuffer(message.1).value.header.sessionId == sessionId
  }

  /** One stop is sent for each of them, in order, to its server endpoint, with consecutive session ids,
      and nothing else is sent. */
  lemma {:induction false} StopsExact(order: seq<Key>, stopped: Key, session: Session)
    requires Usable(session)
    ensures var sent, keys := StopDatagrams(order, stopped, session).0, StoppedKeys(order, stopped);
            && |sent| == |keys|
            && forall j :: 0 <= j < |sent| ==> IsStopOf(keys[j], sent[j], Given(UpdatedTimes(session, j)).sessionId)
  {
    hide StopBytes, Printable, Usable, SameTarget, IsStopOf, Given, Updated;
    if order != [] {
      UpdatedUsable(session);
      PrintableExact(order[0], 0, Given(session));
      if !SameTarget(order[0], stopped) {
        StopsExact(order[1..], stopped, session);
      } else if Printable(order[0]) {
        FirstStop(order[0], session);
        StopsExact(order[1..], stopped, Updated(session));
        var sent, keys := StopDatagrams(order, stopped, session).0, StoppedKeys(order, stopped);
        forall j | 0 <= j < |sent| ensures IsStopOf(keys[j], sent[j], Given(UpdatedTimes(session, j)).sessionId) {
          if j > 0 {
            ShiftUpdates(session, j - 1);
          }
        }
      }
    }
  }

  lemma FirstStop(k: Key, session: Session)
    requires Printable(k) && Usable(session)
    ensures StopBytes(k, Given(session)).Ok?
    ensures IsStopOf(k, (k.serverEndpoint, StopBytes(k, Given(session)).value), Given(UpdatedTimes(session, 0)).sessionId)
  {
    UpdatedUsable(session);
    assert UpdatedTimes(session, 0) == session;
    hide StopBytes, StopArrives, FromSdBuffer, Printable;
    StopIsRead(k, Given(session));
  }

  lemma StopStep(sent: seq<(Option<Address>, seq<byte>)>, order: seq<Key>, i: nat, stopped: Key, session: Session)
    requires i < |order|
    ensures var all, bytes := StopDatagrams(order[i..], stopped, session), StopBytes(order[i], Given(session));
            if !SameTarget(order[i], stopped) then all == StopDatagrams(order[i + 1..], stopped, session)
            else if bytes.Err? then sent + all.0 == sent && all.1 == Updated(session)
            else
              var rest := StopDatagrams(order[i + 1..], stopped, Updated(session));
              sent + all.0 == sent + [(order[i].serverEndpoint, bytes.value)] + rest.0 && all.1 == rest.1
  {
    hide StopBytes, SameTarget;
    assert order[i..][0] == order[i] && order[i..][1..] == order[i + 1..];
  }

  lemma UpdatedUsable(session: Session)
    requires Usable(session)
    ensures Usable(Updated(session)) && Updated(session).sessionId != 0
    ensures InU16(Given(session).sessionId) && Given(session).sessionId != 0
  {
  }

  lemma {:induction false} SubscribesCounted(matches: seq<(Subscription, ClientId)>, offer: ServiceInstance, session: Session)
    requires Usable(session)
    requires forall m :: m in matches ==> Printable(PendingKey(offer, m.0.key))
    ensures |SubscribeDatagrams(matches, offer, session).0| == |matches|
    ensures SubscribeDatagrams(matches, offer, session).1 == UpdatedTimes(session, |matches|)
    decreases matches
  {
    hide SubscribeBytes, Printable;
    if matches != [] {
      UpdatedUsable(session);
      assert matches[0] in matches;
      PrintableExact(PendingKey(offer, matches[0].0.key), matches[0].0.ttl, Given(session));
      assert forall m :: m in matches[1..] ==> m in matches;
      SubscribesCounted(matches[1..], offer, Updated(session));
      ShiftUpdates(session, |matches| - 1);
    }
  }

  /** For every matching request that the loop of an offer reaches and can print, one subscribe is
      sent, in order, with consecutive session ids, none of them 0. */
  lemma {:induction false} OneSubscribeEach(matches: seq<(Subscription, ClientId)>, offer: ServiceInstance, session: Session,
                                            i: nat)
    requires Usable(session) && i < |matches|
    requires Reached(matches, offer, i) && Printable(PendingKey(offer, matches[i].0.key))
    ensures var sent, given := SubscribeDatagrams(matches, offer, session).0, Given(UpdatedTimes(session, i));
            && i < |sent| && InU16(given.sessionId) && given.sessionId != 0
            && SubscribeBytes(PendingKey(offer, matches[i].0.key), matches[i].0.ttl, given) == Ok(sent[i].data)
            && sent[i].ip == offer.address.ip
    decreases matches
  {
    hide SubscribeBytes, Printable, PendingKey;
    UpdatedUsable(session);
    assert Printable(PendingKey(offer, matches[0].0.key));
    PrintableExact(PendingKey(offer, matches[0].0.key), matches[0].0.ttl, Given(session));
    if i > 0 {
      ReachedShift(matches, offer);
      hide Reached;
      assert matches[1..][i - 1] == matches[i];
      OneSubscribeEach(matches[1..], offer, Updated(session), i - 1);
      ShiftUpdates(session, i - 1);
    }
  }

  lemma {:induction false} ShiftUpdates(session: Session, n: nat)
    ensures UpdatedTimes(Updated(session), n) == UpdatedTimes(session, n + 1)
  {
    if n > 0 {
      ShiftUpdates(session, n - 1);
    }
  }

  // ----- Who answers -----

  /** The services that answer a subscription, in order. */
  function Answering(services: seq<ServiceToOffer>, x: SdSubscription): seq<ServiceToOffer> {
    if services == [] then []
    else (if Subscribable(services[0], x) then [services[0]] else []) + Answering(services[1..], x)
  }

  /** These are exactly the ones with its ids and its eventgroup. */
  lemma {:induction false} AnsweringMembers(services: seq<ServiceToOffer>, x: SdSubscription)
    ensures forall service :: service in Answering(services, x) <==>
              && service in services
              && service.serviceId == x.serviceId && service.instanceId == x.instanceId
              && service.majorVersion == x.majorVersion
              && exists g :: g in service.eventGroups && g.id == x.eventGroupId
  {
    if services != [] {
      AnsweringMembers(services[1..], x);
      assert services == [services[0]] + services[1..];
    }
  }

  /** The datagram is an acknowledgement of the subscription to where it came from, in this session. */
  ghost predicate IsAckSent(x: SdSubscription, message: Datagram, session: Session) {
    message.ip == x.endpoint.address4 && IsAckOf(x, message.data) && CarriesSession(message.data, session)
  }

  /** Each of them sends one acknowledgement to where the subscription came from, in order, with
      consecutive session ids, and nobody else sends one. */
  lemma {:induction false} AcksExact(services: seq<ServiceToOffer>, x: SdSubscription, session: Session)
    requires Usable(session) && IdsFit(x) && 1 <= x.ttl <= 0xFF_FFFF
    ensures var sent := AckDatagrams(services, x, session).0;
            && |sent| == |Answering(services, x)|
            && forall j :: 0 <= j < |sent| ==> IsAckSent(x, sent[j], Given(UpdatedTimes(session, j)))
  {
    hide AckBytes, Subscribable, IsAckSent, IdsFit, Given, Updated, Usable;
    if services != [] {
      if Subscribable(services[0], x) {
        UpdatedUsable(session);
        FirstAck(services[0], x, session);
        AcksExact(services[1..], x, Updated(session));
        var sent := AckDatagrams(services, x, session).0;
        forall j | 0 <= j < |sent| ensures IsAckSent(x, sent[j], Given(UpdatedTimes(session, j))) {
          if j > 0 {
            ShiftUpdates(session, j - 1);
          }
        }
      } else {
        AcksExact(services[1..], x, session);
      }
    }
  }

  lemma FirstAck(service: ServiceToOffer, x: SdSubscription, session: Session)
    requires Subscribable(service, x) && Usable(session) && IdsFit(x) && 1 <= x.ttl <= 0xFF_FFFF
    ensures AckBytes(service, x, Given(session)).Ok?
    ensures IsAckSent(x, Datagram(x.endpoint.address4, AckBytes(service, x, Given(session)).value),
                      Given(UpdatedTimes(session, 0)))
  {
    UpdatedUsable(session);
    assert UpdatedTimes(session, 0) == session;
    hide AckBytes, IsAckOf, CarriesSession, Subscribable;
    AckIsRead(service, x, Given(session));
  }

  // ----- The handshake -----

  /** The handshake over bytes. One daemon gets an offer of an instance that clients have requested,
      and its loop reaches the i-th matching request; the other daemon offers a service with those ids
      and eventgroup. The subscribe is sent, arrives with one subscription per shared protocol, each is
      acknowledged to where it came from, and the acknowledgement promotes a pending subscription of
      the same ids. */
  lemma Handshake(s: Subs, offer: ServiceInstance, i: nat, now: real, start: Session,
                  services: seq<ServiceToOffer>, service: ServiceToOffer, x: SdSubscription, peer: Session)
    requires i < |MatchesOf(s, offer)| && Reached(MatchesOf(s, offer), offer, i)
    requires Printable(PendingKey(offer, MatchesOf(s, offer)[i].0.key))
    requires 1 <= MatchesOf(s, offer)[i].0.ttl <= 0xFF_FFFF
    requires Usable(start) && Usable(peer)
    requires service in services && service.serviceId == offer.serviceId && service.instanceId == offer.instanceId
    requires service.majorVersion == offer.majorVersion
    requires exists g :: g in service.eventGroups && g.id == MatchesOf(s, offer)[i].0.key.eventGroup.id
    ensures var m, sent := MatchesOf(s, offer)[i].0, SubscribeDatagrams(MatchesOf(s, offer), offer, start).0;
            var k, t := PendingKey(offer, m.key), AfterOffered(s, offer, now);
            && k in t.pending && i < |sent| && sent[i].ip == offer.address.ip && Arrives(k, m.ttl, sent[i].data)
            && (var header := FromSdBuffer(sent[i].data).value;
                x in SubscribeEntries(header.entries, header.options).value ==>
                  var acks := AckDatagrams(services, x, peer).0;
                  exists j :: 0 <= j < |acks| && acks[j].ip == x.endpoint.address4 && Answered(t, k, acks[j].data, now))
  {
    hide MatchingSubscriptions, MatchesOf, FromSdBuffer, SubscribeEntries, SubscribeBytes, AckBytes, Pend, SubscribeDatagrams,
         Answered, Reached, Printable, Arrives, UpdatedTimes, Given, Usable, AckDatagrams;
    var matches := MatchesOf(s, offer);
    var k, ttl := PendingKey(offer, matches[i].0.key), matches[i].0.ttl;
    assert k.serviceId == offer.serviceId && k.instanceId == offer.instanceId && k.majorVersion == offer.majorVersion;
    assert k.eventGroup == matches[i].0.key.eventGroup;
    hide PendingKey;
    OneSubscribeEach(matches, offer, start, i);
    SubscribeIsRead(k, ttl, Given(UpdatedTimes(start, i)));
    ReachedIsPending(s, offer, i, now);
    var data := SubscribeDatagrams(matches, offer, start).0[i].data;
    ArrivesParts(k, ttl, data);
    var header := FromSdBuffer(data).value;
    if x in SubscribeEntries(header.entries, header.options).value {
      PrintableFits(k);
      AnswerComes(services, service, x, peer, AfterOffered(s, offer, now), k, now);
    }
  }

  lemma AnswerComes(services: seq<ServiceToOffer>, service: ServiceToOffer, x: SdSubscription, peer: Session, t: Subs,
                    k: Key, now: real)
    requires service in services && service.serviceId == k.serviceId && service.instanceId == k.instanceId
    requires service.majorVersion == k.majorVersion && exists g :: g in service.eventGroups && g.id == k.eventGroup.id
    requires x.serviceId == k.serviceId && x.instanceId == k.instanceId && x.majorVersion == k.majorVersion
    requires x.eventGroupId == k.eventGroup.id && IdsFit(x) && 1 <= x.ttl <= 0xFF_FFFF
    requires Usable(peer) && k in t.pending
    ensures var acks := AckDatagrams(services, x, peer).0;
            exists j :: 0 <= j < |acks| && acks[j].ip == x.endpoint.address4 && Answered(t, k, acks[j].data, now)
  {
    hide Answering, AckDatagrams, Answered, IsAckOf, IdsFit, Usable;
    AcksExact(services, x, peer);
    AnsweringMembers(services, x);
    assert service in Answering(services, x);
    var acks := AckDatagrams(services, x, peer).0;
    assert IsAckSent(x, acks[0], Given(UpdatedTimes(peer, 0)));
    AnswerPromotes(t, k, x, acks[0].data, now);
  }

  function MatchesOf(s: Subs, offer: ServiceInstance): seq<(Subscription, ClientId)> {
    MatchingSubscriptions(s.requested, offer.serviceId, offer.instanceId, offer.majorVersion)
  }

  /** The answer is one acknowledgement, and whichever pending subscription it is taken for, that one
      has the ids of k and becomes active. */
  ghost predicate Answered(t: Subs, k: Key, answer: seq<byte>, now: real) {
    && FromSdBuffer(answer).Ok?
    && var acks := AckEntries(FromSdBuffer(answer).value.entries);
    && |acks| == 1 && acks[0].EventGroupEntry?
    && forall choice :: Promotable(t, EntryGroup(acks[0]), choice) ==>
         && choice.Some? && choice.value.serviceId == k.serviceId && choice.value.instanceId == k.instanceId
         && choice.value.majorVersion == k.majorVersion && choice.value.eventGroup.id == k.eventGroup.id
         && choice.value in AfterAck(t, choice, now).active
         && choice.value !in AfterAck(t, choice, now).pending
  }

  lemma AnswerPromotes(t: Subs, k: Key, x: SdSubscription, answer: seq<byte>, now: real)
    requires k in t.pending && IsAckOf(x, answer)
    requires x.serviceId == k.serviceId && x.instanceId == k.instanceId && x.majorVersion == k.majorVersion
    requires x.eventGroupId == k.eventGroup.id
    ensures Answered(t, k, answer, now)
  {
    hide FromSdBuffer, AckEntries, SubscribeEntries;
    var acks := AckEntries(FromSdBuffer(answer).value.entries);
    assert EntryGroup(acks[0]) == GroupOf(k);
    forall choice | Promotable(t, GroupOf(k), choice)
      ensures choice.Some? && GroupOf(choice.value) == GroupOf(k)
      ensures choice.value in AfterAck(t, choice, now).active && choice.value !in AfterAck(t, choice, now).pending
    {
      AckPromotes(t, k, choice, now);
    }
  }

  lemma ReachedIsPending(s: Subs, offer: ServiceInstance, i: nat, now: real)
    requires i < |MatchesOf(s, offer)| && Reached(MatchesOf(s, offer), offer, i)
    ensures PendingKey(offer, MatchesOf(s, offer)[i].0.key) in AfterOffered(s, offer, now).pending
  {
    hide MatchingSubscriptions, Pend, Reached, PendingKey;
    PendKeys(s.pending, MatchesOf(s, offer), offer, now);
  }

  lemma PrintableFits(k: Key)
    requires Printable(k)
    ensures InU16(k.serviceId) && InU16(k.instanceId) && InU8(k.majorVersion) && InU16(k.eventGroup.id)
  {
  }

  lemma ArrivesParts(k: Key, ttl: int, data: seq<byte>)
    requires Arrives(k, ttl, data)
    ensures FromSdBuffer(data).Ok?
    ensures var xs := SubscribeEntries(FromSdBuffer(data).value.entries, FromSdBuffer(data).value.options);
            && xs.Ok?
            && forall x :: x in xs.value ==>
                 && x.serviceId == k.serviceId && x.instanceId == k.instanceId && x.majorVersion == k.majorVersion
                 && x.eventGroupId == k.eventGroup.id && x.ttl == ttl
  {
    hide FromSdBuffer, SubscribeEntries;
  }
}
