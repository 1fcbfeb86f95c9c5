/** The subscriptions of the daemon's clients: requested by a client, pending once a subscribe has
    been sent for an offer, active once it has been acknowledged. */
module DaemonSubscriptions {
  import opened Bytes
  import opened SdMessages
  import opened SdSerialization
  import opened SdRoundTrip
  import opened SdHandshake
  import opened OfferServiceStorage
  import opened SubscriptionStorage
  import opened SdAdvertise
  import opened SessionHandler

  /** The part of a stored subscription that equality ignores. */
  datatype Stamp = Stamp(ttl: int, lastUpdate: real)

  datatype Subs = Subs(requested: seq<ClientList>, pending: map<Key, Stamp>, active: map<Key, Stamp>)

  const NO_SUBS := Subs([], map[], map[])

  function GroupOf(k: Key): GroupId {
    GroupId(k.serviceId, k.instanceId, k.majorVersion, k.eventGroup.id)
  }

  /** What a stop-subscribe compares, protocols aside. */
  predicate SameTarget(k: Key, l: Key) {
    GroupOf(k) == GroupOf(l) && k.clientEndpoint == l.clientEndpoint
  }

  // ----- The messages -----

  function ProtocolList(protocols: set<Protocol>): seq<Protocol> {
    (if UDP in protocols then [UDP] else []) + (if TCP in protocols then [TCP] else [])
  }

  function EndpointList(address: Address, protocols: seq<Protocol>): seq<V4Endpoint> {
    if protocols == [] then [] else [V4(address.ip, protocols[0], address.port)] + EndpointList(address, protocols[1..])
  }

  function SubscriptionEndpoints(k: Key): seq<V4Endpoint> {
    EndpointList(k.clientEndpoint, ProtocolList(k.protocols))
  }

  function SubscribeBytes(k: Key, ttl: int, session: Session): Result<seq<byte>> {
    SdBytes(SubscribeMessage(GroupOf(k), ttl, SubscriptionEndpoints(k), session.sessionId, session.rebootFlag))
  }

  function StopEntry(id: GroupId, endpoints: seq<V4Endpoint>): Entry {
    StopSubscribeEventGroup(id.serviceId, id.instanceId, id.majorVersion, id.eventGroupId, 0, endpoints, [])
  }

  function StopBytes(k: Key, session: Session): Result<seq<byte>> {
    SdBytes(SdMessage(session.sessionId, session.rebootFlag, [StopEntry(GroupOf(k), SubscriptionEndpoints(k))]))
  }

  /** The messages about a subscription can be printed: there is a protocol, and all fits the wire. */
  predicate Printable(k: Key) {
    && k.protocols != {}
    && InU16(k.serviceId) && InU16(k.instanceId) && InU8(k.majorVersion) && InU16(k.eventGroup.id)
    && InU16(k.clientEndpoint.port)
  }

  lemma SubscriptionEndpointsProperties(k: Key)
    ensures |SubscriptionEndpoints(k)| <= 2
    ensures SubscriptionEndpoints(k) == [] <==> k.protocols == {}
    ensures NoDuplicates<EndpointOption>(SubscriptionEndpoints(k))
    ensures forall e :: e in SubscriptionEndpoints(k) <==>
              e.address4 == k.clientEndpoint.ip && e.port == k.clientEndpoint.port && e.protocol in k.protocols
  {
    var address := k.clientEndpoint;
    var udp, tcp := V4(address.ip, UDP, address.port), V4(address.ip, TCP, address.port);
    assert SubscriptionEndpoints(k) == (if UDP in k.protocols then [udp] else []) + (if TCP in k.protocols then [tcp] else []) by {
      EndpointListAppend(address, if UDP in k.protocols then [UDP] else [], if TCP in k.protocols then [TCP] else []);
      assert [UDP][1..] == [] && [TCP][1..] == [];
    }
    if UDP !in k.protocols && TCP !in k.protocols {
      NoProtocols(k.protocols);
    }
    forall e: V4Endpoint
      ensures e in SubscriptionEndpoints(k) <==>
              e.address4 == address.ip && e.port == address.port && e.protocol in k.protocols
    {
      assert e == V4(e.address4, e.protocol, e.port);
      match e.protocol
      case UDP =>
      case TCP =>
    }
  }

  lemma NoProtocols(protocols: set<Protocol>)
    requires UDP !in protocols && TCP !in protocols
    ensures protocols == {}
  {
    forall p: Protocol ensures p !in protocols {
      match p
      case UDP =>
      case TCP =>
    }
  }

  lemma {:induction false} EndpointListAppend(address: Address, a: seq<Protocol>, b: seq<Protocol>)
    ensures EndpointList(address, a + b) == EndpointList(address, a) + EndpointList(address, b)
  {
    if a == [] {
      assert a + b == b;
    } else {
      EndpointListAppend(address, a[1..], b);
      assert (a + b)[1..] == a[1..] + b;
    }
  }

  /** Both messages about a subscription are printed exactly when it is printable. */
  lemma PrintableExact(k: Key, ttl: int, session: Session)
    requires InU16(session.sessionId)
    ensures SubscribeBytes(k, ttl, session).Ok? <==> Printable(k)
    ensures StopBytes(k, session).Ok? <==> Printable(k)
  {
    SubscriptionEndpointsProperties(k);
    var endpoints := SubscriptionEndpoints(k);
    var subscribe, stop := SubscribeEntry(GroupOf(k), ttl, endpoints), StopEntry(GroupOf(k), endpoints);
    assert subscribe.Endpoints() == endpoints == stop.Endpoints();
    hide SdBytes, SubscriptionEndpoints, NoDuplicates;
    MessagePrints(subscribe, session.sessionId, session.rebootFlag);
    MessagePrints(stop, session.sessionId, session.rebootFlag);
    if endpoints != [] {
      assert endpoints[0] in endpoints;
    }
  }

  // ----- What the handlers do to the subscriptions -----

  function AfterRequest(s: Subs, client: ClientId, subscription: Subscription): Subs {
    s.(requested := WithSubscription(s.requested, client, subscription))
  }

  function PendingKey(offer: ServiceInstance, requested: Key): Key {
    Key(offer.serviceId, offer.instanceId, offer.majorVersion, requested.eventGroup, requested.clientEndpoint,
        Some(offer.address), offer.protocols * requested.protocols)
  }

  /** set.add, which keeps an element that is already there. */
  function AddTo(set_: map<Key, Stamp>, k: Key, stamp: Stamp): map<Key, Stamp> {
    if k in set_ then set_ else set_[k := stamp]
  }

  /** One subscription after the other becomes pending, until a message cannot be printed. */
  function Pend(pending: map<Key, Stamp>, matches: seq<(Subscription, ClientId)>, offer: ServiceInstance, now: real)
    : map<Key, Stamp>
    decreases matches
  {
    if matches == [] then pending
    else
      var k := PendingKey(offer, matches[0].0.key);
      var added := AddTo(pending, k, Stamp(matches[0].0.ttl, now));
      if Printable(k) then Pend(added, matches[1..], offer, now) else added
  }

  function AfterOffered(s: Subs, offer: ServiceInstance, now: real): Subs {
    s.(pending := Pend(s.pending, MatchingSubscriptions(s.requested, offer.serviceId, offer.instanceId, offer.majorVersion), offer, now))
  }

  /** The active subscriptions after a stop has gone through them in some order; it ends early at
      one whose message cannot be printed. */
  function RemoveActive(active: map<Key, Stamp>, order: seq<Key>, stopped: Key): map<Key, Stamp>
    decreases order
  {
    if order == [] then active
    else if SameTarget(order[0], stopped) then
      if Printable(order[0]) then RemoveActive(active - {order[0]}, order[1..], stopped) else active - {order[0]}
    else RemoveActive(active, order[1..], stopped)
  }

  function AfterStop(s: Subs, client: ClientId, stopped: Key, order: seq<Key>): Subs {
    var requested := WithoutSubscription(s.requested, client, stopped);
    if ClientsWith(requested, stopped) == [] then
      Subs(requested, map k | k in s.pending && !SameTarget(k, stopped) :: s.pending[k], RemoveActive(s.active, order, stopped))
    else s.(requested := requested)
  }

  /** An acknowledgement promotes one pending subscription with its ids, if there is one. */
  predicate Promotable(s: Subs, id: GroupId, choice: Option<Key>) {
    match choice
    case Some(k) => k in s.pending && GroupOf(k) == id
    case None => forall k :: k in s.pending ==> GroupOf(k) != id
  }

  function AfterAck(s: Subs, choice: Option<Key>, now: real): Subs {
    match choice
    case None => s
    case Some(k) =>
      if k !in s.pending then s
      else s.(pending := s.pending - {k}, active := s.active[k := Stamp(s.pending[k].ttl, now)])
  }

  function AfterPendingExpiry(s: Subs, now: real): Subs {
    s.(pending := map k | k in s.pending && now - s.pending[k].lastUpdate <= 10.0 :: s.pending[k])
  }

  /** The expiry of active subscriptions may take out any of them. */
  function AfterActiveExpiry(s: Subs, gone: set<Key>): Subs {
    s.(active := s.active - gone)
  }

  function AfterClientGone(s: Subs, client: ClientId): Subs {
    s.(requested := WithoutClientList(s.requested, client))
  }

  // ----- Runs -----

  datatype Step =
    | Request(client: ClientId, subscription: Subscription)
    | Offered(offer: ServiceInstance, now: real)
    | Ack(id: GroupId, choice: Option<Key>, now: real)
    | Stop(client: ClientId, stopped: Key, order: seq<Key>)
    | PendingExpiry(now: real)
    | ActiveExpiry(gone: set<Key>)
    | ClientGone(client: ClientId)

  function After(s: Subs, step: Step): Subs {
    match step
    case Request(client, subscription) => AfterRequest(s, client, subscription)
    case Offered(offer, now) => AfterOffered(s, offer, now)
    case Ack(_, choice, now) => AfterAck(s, choice, now)
    case Stop(client, stopped, order) => AfterStop(s, client, stopped, order)
    case PendingExpiry(now) => AfterPendingExpiry(s, now)
    case ActiveExpiry(gone) => AfterActiveExpiry(s, gone)
    case ClientGone(client) => AfterClientGone(s, client)
  }

  /** Every element of the set, once. */
  ghost predicate Visits(order: seq<Key>, keys: set<Key>) {
    && (forall k :: k in order <==> k in keys)
    && forall i, j :: 0 <= i < j < |order| ==> order[i] != order[j]
  }

  /** The arbitrary choices of a step are possible ones. */
  ghost predicate Possible(s: Subs, step: Step) {
    match step
    case Ack(id, choice, _) => Promotable(s, id, choice)
    case Stop(_, _, order) => Visits(order, s.active.Keys)
    case _ => true
  }

  /** The part of the order that a stop does not reach: what lies behind the first subscription with
      its target whose message cannot be printed. */
  function Behind(order: seq<Key>, stopped: Key): seq<Key> {
    if order == [] then []
    else if SameTarget(order[0], stopped) && !Printable(order[0]) then order[1..]
    else Behind(order[1..], stopped)
  }

  /** A client unsubscribes before it disconnects, and a stop misses nothing with its target. */
  predicate Orderly(s: Subs, step: Step) {
    match step
    case Stop(_, stopped, order) => forall k :: k in Behind(order, stopped) ==> !SameTarget(k, stopped)
    case ClientGone(client) => SubscriptionsOf(s.requested, client) == []
    case _ => true
  }

  function Run(steps: seq<Step>): Subs {
    if steps == [] then NO_SUBS else After(Run(steps[..|steps| - 1]), steps[|steps| - 1])
  }

  ghost predicate PossibleRun(steps: seq<Step>) {
    steps != [] ==>
      PossibleRun(steps[..|steps| - 1]) && Possible(Run(steps[..|steps| - 1]), steps[|steps| - 1])
  }

  predicate OrderlyRun(steps: seq<Step>) {
    steps != [] ==>
      OrderlyRun(steps[..|steps| - 1]) && Orderly(Run(steps[..|steps| - 1]), steps[|steps| - 1])
  }

  // ----- Every pending and active subscription is backed -----

  predicate Backs(r: Key, k: Key) {
    && About(r, k.serviceId, k.instanceId, k.majorVersion)
    && r.eventGroup == k.eventGroup && r.clientEndpoint == k.clientEndpoint
  }

  /** Some client has requested it. */
  ghost predicate Backed(requested: seq<ClientList>, k: Key) {
    exists client, r :: Holds(requested, client, r) && Backs(r, k)
  }

  ghost predicate AllBacked(s: Subs) {
    forall k :: k in s.pending || k in s.active ==> Backed(s.requested, k)
  }

  /** Some other client has requested it. */
  ghost predicate BackedByOther(requested: seq<ClientList>, client: ClientId, k: Key) {
    exists c, r :: c != client && Holds(requested, c, r) && Backs(r, k)
  }

  /** What a step has to respect: nobody but the stopping client requests what its stop misses, and a
      client that leaves is not the only one to back something. */
  ghost predicate Respects(s: Subs, step: Step) {
    match step
    case Stop(client, stopped, order) =>
      var requested := WithoutSubscription(s.requested, client, stopped);
      ClientsWith(requested, stopped) == [] ==>
        forall k :: k in Behind(order, stopped) && SameTarget(k, stopped) ==> Backed(requested, k)
    case ClientGone(client) =>
      forall k :: k in s.pending || k in s.active ==> BackedByOther(s.requested, client, k)
    case _ => true
  }

  ghost predicate RespectingRun(steps: seq<Step>) {
    steps != [] ==>
      RespectingRun(steps[..|steps| - 1]) && Respects(Run(steps[..|steps| - 1]), steps[|steps| - 1])
  }

  /** No subscribe before this one ends the loop. */
  predicate Reached(matches: seq<(Subscription, ClientId)>, offer: ServiceInstance, i: nat)
    requires i < |matches|
  {
    forall j :: 0 <= j < i ==> Printable(PendingKey(offer, matches[j].0.key))
  }

  /** An offer makes pending what its loop reaches: the matching requests up to the first one whose
      subscribe cannot be printed. What was pending stays as it was. */
  lemma {:induction false} PendKeys(pending: map<Key, Stamp>, matches: seq<(Subscription, ClientId)>, offer: ServiceInstance,
                                    now: real)
    ensures forall k :: k in Pend(pending, matches, offer, now) <==>
              k in pending || exists i :: 0 <= i < |matches| && Reached(matches, offer, i) && k == PendingKey(offer, matches[i].0.key)
    ensures forall k :: k in pending ==> Pend(pending, matches, offer, now)[k] == pending[k]
    decreases matches
  {
    hide Printable, PendingKey;
    if matches != [] {
      var first := PendingKey(offer, matches[0].0.key);
      var added := AddTo(pending, first, Stamp(matches[0].0.ttl, now));
      PendKeys(added, matches[1..], offer, now);
      ReachedShift(matches, offer);
      forall k ensures k in Pend(pending, matches, offer, now) <==>
        k in pending || exists i :: 0 <= i < |matches| && Reached(matches, offer, i) && k == PendingKey(offer, matches[i].0.key)
      {
        PendStep(pending, matches, offer, now, k);
      }
    }
  }

  lemma ReachedShift(matches: seq<(Subscription, ClientId)>, offer: ServiceInstance)
    requires matches != []
    ensures Reached(matches, offer, 0)
    ensures forall i :: 0 < i < |matches| ==>
              (Reached(matches, offer, i)
               <==> Printable(PendingKey(offer, matches[0].0.key)) && Reached(matches[1..], offer, i - 1))
  {
    hide Printable, PendingKey;
    forall i | 0 < i < |matches|
      ensures Reached(matches, offer, i)
         <==> Printable(PendingKey(offer, matches[0].0.key)) && Reached(matches[1..], offer, i - 1)
    {
      assert forall j :: 0 < j < i ==> matches[j] == matches[1..][j - 1];
      if Printable(PendingKey(offer, matches[0].0.key)) && Reached(matches[1..], offer, i - 1) {
        forall j | 0 <= j < i ensures Printable(PendingKey(offer, matches[j].0.key)) {
          if j > 0 {
            assert Printable(PendingKey(offer, matches[1..][j - 1].0.key));
          }
        }
      }
      if Reached(matches, offer, i) {
        forall j | 0 <= j < i - 1 ensures Printable(PendingKey(offer, matches[1..][j].0.key)) {
          assert Printable(PendingKey(offer, matches[j + 1].0.key));
        }
      }
    }
  }

  lemma PendStep(pending: map<Key, Stamp>, matches: seq<(Subscription, ClientId)>, offer: ServiceInstance, now: real, k: Key)
    requires matches != []
    requires var added := AddTo(pending, PendingKey(offer, matches[0].0.key), Stamp(matches[0].0.ttl, now));
             k in Pend(added, matches[1..], offer, now) <==>
               k in added || exists i :: 0 <= i < |matches[1..]| && Reached(matches[1..], offer, i)
                                         && k == PendingKey(offer, matches[1..][i].0.key)
    ensures k in Pend(pending, matches, offer, now) <==>
      k in pending || exists i :: 0 <= i < |matches| && Reached(matches, offer, i) && k == PendingKey(offer, matches[i].0.key)
  {
    ReachedShift(matches, offer);
    hide Printable, PendingKey, Reached;
    if i :| 0 <= i < |matches| && Reached(matches, offer, i) && k == PendingKey(offer, matches[i].0.key) {
      if i > 0 {
        assert matches[1..][i - 1] == matches[i] && Reached(matches[1..], offer, i - 1);
      }
    }
    if i :| 0 <= i < |matches[1..]| && Reached(matches[1..], offer, i) && k == PendingKey(offer, matches[1..][i].0.key) {
      assert matches[1..][i] == matches[i + 1];
      if Printable(PendingKey(offer, matches[0].0.key)) {
        assert Reached(matches, offer, i + 1);
      }
    }
  }

  /** Whatever an offer makes pending is requested, also if its loop ends early. */
  lemma OfferedBacked(s: Subs, offer: ServiceInstance, now: real)
    requires WellFormed(s.requested) && AllBacked(s)
    ensures AllBacked(AfterOffered(s, offer, now))
  {
    hide Pend, MatchingSubscriptions, Holds, WellFormed, Reached;
    var matches := MatchingSubscriptions(s.requested, offer.serviceId, offer.instanceId, offer.majorVersion);
    PendKeys(s.pending, matches, offer, now);
    var t := AfterOffered(s, offer, now);
    forall k | k in t.pending ensures Backed(t.requested, k) {
      if k !in s.pending {
        var i :| 0 <= i < |matches| && Reached(matches, offer, i) && k == PendingKey(offer, matches[i].0.key);
        MatchHolds(s.requested, offer, matches[i]);
        assert Backs(matches[i].0.key, k);
      }
    }
  }

  lemma MatchHolds(requested: seq<ClientList>, offer: ServiceInstance, m: (Subscription, ClientId))
    requires WellFormed(requested)
    requires m in MatchingSubscriptions(requested, offer.serviceId, offer.instanceId, offer.majorVersion)
    ensures Holds(requested, m.1, m.0.key) && About(m.0.key, offer.serviceId, offer.instanceId, offer.majorVersion)
  {
    MatchingMembers(requested, offer.serviceId, offer.instanceId, offer.majorVersion, m);
  }

  /** The loop of a stop takes out exactly the active subscriptions with its target that it reaches. */
  lemma {:induction false} RemoveActiveKeys(active: map<Key, Stamp>, order: seq<Key>, stopped: Key)
    requires forall i, j :: 0 <= i < j < |order| ==> order[i] != order[j]
    ensures forall k :: k in RemoveActive(active, order, stopped) <==>
              k in active && (k in order && SameTarget(k, stopped) ==> k in Behind(order, stopped))
    ensures forall k :: k in RemoveActive(active, order, stopped) ==> RemoveActive(active, order, stopped)[k] == active[k]
    decreases order
  {
    hide Printable, SameTarget;
    if order != [] {
      assert order == [order[0]] + order[1..];
      assert order[0] !in order[1..];
      BehindWithin(order[1..], stopped);
      RemoveActiveKeys(if SameTarget(order[0], stopped) then active - {order[0]} else active, order[1..], stopped);
    }
  }

  lemma {:induction false} BehindWithin(order: seq<Key>, stopped: Key)
    ensures forall k :: k in Behind(order, stopped) ==> k in order
  {
    if order != [] {
      BehindWithin(order[1..], stopped);
      assert order == [order[0]] + order[1..];
    }
  }

  /** What a stop leaves pending or active: if nobody holds the stopped subscription any more, all
      but what it reaches. */
  lemma StopLeaves(s: Subs, client: ClientId, stopped: Key, order: seq<Key>)
    requires Visits(order, s.active.Keys)
    ensures var t := AfterStop(s, client, stopped, order);
            var last := ClientsWith(t.requested, stopped) == [];
            && t.requested == WithoutSubscription(s.requested, client, stopped)
            && (forall k :: k in t.pending <==> k in s.pending && !(last && SameTarget(k, stopped)))
            && (forall k :: k in t.active <==>
                  k in s.active && (last && SameTarget(k, stopped) ==> k in Behind(order, stopped)))
  {
    hide Printable, ClientsWith, WithoutSubscription, SameTarget;
    RemoveActiveKeys(s.active, order, stopped);
    hide RemoveActive;
  }

  /** What a stop keeps: whatever differs from it in service, instance, major version, eventgroup or
      client endpoint; and everything, if another client holds the stopped subscription. */
  lemma StopKeepsOthers(s: Subs, client: ClientId, stopped: Key, order: seq<Key>, k: Key)
    requires WellFormed(s.requested) && Visits(order, s.active.Keys)
    requires (exists c :: c != client && Holds(s.requested, c, stopped))
          || k.serviceId != stopped.serviceId || k.instanceId != stopped.instanceId
          || k.majorVersion != stopped.majorVersion || k.eventGroup.id != stopped.eventGroup.id
          || k.clientEndpoint != stopped.clientEndpoint
    ensures var t := AfterStop(s, client, stopped, order);
            && (k in t.pending <==> k in s.pending) && (k in t.active <==> k in s.active)
            && (k in t.pending ==> t.pending[k] == s.pending[k]) && (k in t.active ==> t.active[k] == s.active[k])
  {
    StopLeaves(s, client, stopped, order);
    RemoveActiveKeys(s.active, order, stopped);
    if c :| c != client && Holds(s.requested, c, stopped) {
      HoldsAfterRemoving(s.requested, client, stopped, c, stopped);
      var requested := WithoutSubscription(s.requested, client, stopped);
      RemovingWellFormed(s.requested, client, stopped);
      ClientsWithHolds(requested, stopped);
      assert c in ClientsWith(requested, stopped);
    }
    hide RemoveActive, WithoutSubscription, ClientsWith, Holds, WellFormed, Visits;
  }

  /** What a stop takes out, once no other client holds the stopped subscription: everything pending
      with its service, instance, major version, eventgroup and client endpoint, and everything active
      that is not behind the cut. */
  lemma StopTakesOut(s: Subs, client: ClientId, stopped: Key, order: seq<Key>, k: Key)
    requires WellFormed(s.requested) && Visits(order, s.active.Keys)
    requires forall c :: c != client ==> !Holds(s.requested, c, stopped)
    requires k.serviceId == stopped.serviceId && k.instanceId == stopped.instanceId
    requires k.majorVersion == stopped.majorVersion && k.eventGroup.id == stopped.eventGroup.id
    requires k.clientEndpoint == stopped.clientEndpoint
    ensures var t := AfterStop(s, client, stopped, order);
            k !in t.pending && (k in t.active <==> k in s.active && k in Behind(order, stopped))
  {
    StopLeaves(s, client, stopped, order);
    var requested := WithoutSubscription(s.requested, client, stopped);
    RemovingWellFormed(s.requested, client, stopped);
    ClientsWithHolds(requested, stopped);
    hide RemoveActive, AfterStop, WithoutSubscription, ClientsWith, WellFormed, Visits, Behind;
    if ClientsWith(requested, stopped) != [] {
      var c := ClientsWith(requested, stopped)[0];
      assert c in ClientsWith(requested, stopped);
      HoldsAfterRemoving(s.requested, client, stopped, c, stopped);
    }
  }

  lemma StopKeepsBacked(s: Subs, client: ClientId, stopped: Key, requested: seq<ClientList>, k: Key)
    requires WellFormed(s.requested) && requested == WithoutSubscription(s.requested, client, stopped)
    requires Backed(s.requested, k)
    requires ClientsWith(requested, stopped) == [] ==> !SameTarget(k, stopped)
    ensures Backed(requested, k)
  {
    RemovingWellFormed(s.requested, client, stopped);
    ClientsWithHolds(requested, stopped);
    var c, r :| Holds(s.requested, c, r) && Backs(r, k);
    hide ClientsWith, WithoutSubscription, Holds, WellFormed;
    HoldsAfterRemoving(s.requested, client, stopped, c, r);
    if c == client && r == stopped {
      assert SameTarget(k, stopped);
      var other := ClientsWith(requested, stopped)[0];
      assert other in ClientsWith(requested, stopped);
      assert Holds(requested, other, stopped);
    }
  }

  /** A stop keeps everything backed if and only if what it misses is requested by somebody still,
      with other protocols for instance. */
  lemma StopBacked(s: Subs, client: ClientId, stopped: Key, order: seq<Key>)
    requires WellFormed(s.requested) && AllBacked(s) && Visits(order, s.active.Keys)
    ensures AllBacked(AfterStop(s, client, stopped, order)) <==> Respects(s, Stop(client, stopped, order))
  {
    var t := AfterStop(s, client, stopped, order);
    StopLeaves(s, client, stopped, order);
    BehindWithin(order, stopped);
    hide Printable, AfterStop, ClientsWith, WithoutSubscription, WellFormed, SameTarget, Backed, Behind;
    forall k | (k in s.pending || k in s.active) && !(ClientsWith(t.requested, stopped) == [] && SameTarget(k, stopped))
      ensures Backed(t.requested, k)
    {
      StopKeepsBacked(s, client, stopped, t.requested, k);
    }
  }

  lemma RequestBacked(s: Subs, client: ClientId, subscription: Subscription)
    requires AllBacked(s)
    ensures AllBacked(AfterRequest(s, client, subscription))
  {
    var t := AfterRequest(s, client, subscription);
    hide WithSubscription, Holds;
    forall k | k in t.pending || k in t.active ensures Backed(t.requested, k) {
      var c, r :| Holds(s.requested, c, r) && Backs(r, k);
      HoldsAfterAdding(s.requested, client, subscription, c, r);
    }
  }

  /** A disconnect keeps everything backed if and only if the client was not the only one to back something. */
  lemma ClientGoneBacked(s: Subs, client: ClientId)
    requires WellFormed(s.requested)
    ensures AllBacked(AfterClientGone(s, client)) <==> Respects(s, ClientGone(client))
  {
    var t := AfterClientGone(s, client);
    hide WithoutClientList, WellFormed, SubscriptionsOf;
    forall k ensures Backed(t.requested, k) <==> BackedByOther(s.requested, client, k) {
      if c, r :| Holds(t.requested, c, r) && Backs(r, k) {
        ListsAfterClient(s.requested, client, c);
        assert c != client && Holds(s.requested, c, r);
      }
      if c, r :| c != client && Holds(s.requested, c, r) && Backs(r, k) {
        ListsAfterClient(s.requested, client, c);
        assert Holds(t.requested, c, r);
      }
    }
  }

  lemma StepWellFormed(s: Subs, step: Step)
    requires WellFormed(s.requested)
    ensures WellFormed(After(s, step).requested)
  {
    hide WellFormed, WithSubscription, WithoutSubscription, WithoutClientList, ClientsWith, Pend, RemoveActive, MatchingSubscriptions;
    match step
    case Request(client, subscription) => AddingWellFormed(s.requested, client, subscription);
    case Stop(client, stopped, order) => RemovingWellFormed(s.requested, client, stopped);
    case ClientGone(client) => WithoutClientListWellFormed(s.requested, client);
    case _ =>
  }

  /** In any run at all the requested subscriptions are well-formed lists. */
  lemma {:induction false} RequestsWellFormed(steps: seq<Step>)
    ensures WellFormed(Run(steps).requested)
  {
    if steps != [] {
      hide WellFormed, After;
      RequestsWellFormed(steps[..|steps| - 1]);
      StepWellFormed(Run(steps[..|steps| - 1]), steps[|steps| - 1]);
    }
  }

  /** One step keeps everything backed if and only if it respects the others' requests. */
  lemma StepBacked(s: Subs, step: Step)
    requires WellFormed(s.requested) && AllBacked(s) && Possible(s, step)
    ensures AllBacked(After(s, step)) <==> Respects(s, step)
  {
    hide WellFormed, Backed, BackedByOther, AfterRequest, AfterOffered, AfterStop, AfterClientGone, Visits;
    match step
    case Request(client, subscription) => RequestBacked(s, client, subscription);
    case Offered(offer, now) => OfferedBacked(s, offer, now);
    case Stop(client, stopped, order) => StopBacked(s, client, stopped, order);
    case ClientGone(client) =>
      ClientGoneBacked(s, client);
    case _ =>
  }

  ghost predicate BackedThroughout(steps: seq<Step>) {
    && AllBacked(Run(steps))
    && (steps != [] ==> BackedThroughout(steps[..|steps| - 1]))
  }

  /** Each pending or active subscription is requested, with the same ids, eventgroup and client
      endpoint, at every moment of a run, if and only if every step of the run respects the
      others' requests. */
  lemma {:induction false} BackedExactly(steps: seq<Step>)
    requires PossibleRun(steps)
    ensures BackedThroughout(steps) <==> RespectingRun(steps)
  {
    hide WellFormed, AllBacked, Possible, Respects, After;
    if steps != [] {
      var before, step := steps[..|steps| - 1], steps[|steps| - 1];
      BackedExactly(before);
      RequestsWellFormed(before);
      if BackedThroughout(before) {
        assert AllBacked(Run(before)) by { ThroughoutEnds(before); }
        StepBacked(Run(before), step);
      }
    } else {
      NothingBacked();
    }
  }

  lemma ThroughoutEnds(steps: seq<Step>)
    requires BackedThroughout(steps)
    ensures AllBacked(Run(steps))
  {
  }

  lemma NothingBacked()
    ensures AllBacked(NO_SUBS)
  {
  }

  lemma OrderlyRespects(s: Subs, step: Step)
    requires WellFormed(s.requested) && AllBacked(s) && Orderly(s, step)
    ensures Respects(s, step)
  {
    hide WellFormed, WithoutSubscription, Behind, SameTarget;
    if step.ClientGone? {
      forall k | k in s.pending || k in s.active ensures BackedByOther(s.requested, step.client, k) {
        var c, r :| Holds(s.requested, c, r) && Backs(r, k);
        assert c != step.client;
      }
    }
  }

  /** In a run where clients unsubscribe before they disconnect, and no stop is cut short before
      another subscription with its target, everything is backed throughout, whatever is offered. */
  lemma {:induction false} EverySubscriptionBacked(steps: seq<Step>)
    requires PossibleRun(steps) && OrderlyRun(steps)
    ensures AllBacked(Run(steps)) && BackedThroughout(steps)
  {
    hide WellFormed, AllBacked, Possible, Orderly, Respects, After;
    if steps != [] {
      var before, step := steps[..|steps| - 1], steps[|steps| - 1];
      EverySubscriptionBacked(before);
      RequestsWellFormed(before);
      OrderlyRespects(Run(before), step);
      StepBacked(Run(before), step);
    } else {
      NothingBacked();
    }
  }

  /** A stop is not cut short if every subscription with its target that has another one behind it
      can be printed. */
  lemma {:induction false} PrintableIsOrderly(order: seq<Key>, stopped: Key)
    requires forall i, j :: 0 <= i < j < |order| && SameTarget(order[i], stopped) && SameTarget(order[j], stopped) ==>
               Printable(order[i])
    ensures forall k :: k in Behind(order, stopped) ==> !SameTarget(k, stopped)
  {
    hide Printable, SameTarget;
    if order != [] {
      forall i, j | 0 <= i < j < |order[1..]| && SameTarget(order[1..][i], stopped) && SameTarget(order[1..][j], stopped)
        ensures Printable(order[1..][i])
      {
        assert order[1..][i] == order[i + 1] && order[1..][j] == order[j + 1];
      }
      PrintableIsOrderly(order[1..], stopped);
      forall j | 0 <= j < |order[1..]| ensures order[1..][j] == order[j + 1] {
      }
    }
  }

  // ----- How a subscription becomes active -----

  /** The step handles an offer of the subscription's service instance from its server endpoint, while a
      client requests the eventgroup at the client endpoint; the stamp has the TTL of that request and
      the time of the offer. */
  ghost predicate MadePending(before: Subs, step: Step, k: Key, stamp: Stamp) {
    step.Offered? &&
    exists r, client ::
      && (r, client) in MatchingSubscriptions(before.requested, step.offer.serviceId, step.offer.instanceId,
                                              step.offer.majorVersion)
      && k == Key(step.offer.serviceId, step.offer.instanceId, step.offer.majorVersion, r.key.eventGroup,
                  r.key.clientEndpoint, Some(step.offer.address), step.offer.protocols * r.key.protocols)
      && stamp == Stamp(r.ttl, step.now)
  }

  /** The step handles an acknowledgement of the ids that is taken for this subscription. */
  predicate AckedAs(step: Step, k: Key) {
    && step.Ack? && step.choice == Some(k)
    && step.id.serviceId == k.serviceId && step.id.instanceId == k.instanceId
    && step.id.majorVersion == k.majorVersion && step.id.eventGroupId == k.eventGroup.id
  }

  lemma {:induction false} PendStamps(pending: map<Key, Stamp>, matches: seq<(Subscription, ClientId)>,
                                      offer: ServiceInstance, now: real, k: Key)
    requires k in Pend(pending, matches, offer, now)
    ensures var stamp := Pend(pending, matches, offer, now)[k];
            || (k in pending && pending[k] == stamp)
            || exists m :: m in matches && k == PendingKey(offer, m.0.key) && stamp == Stamp(m.0.ttl, now)
    decreases matches
  {
    hide Printable, PendingKey;
    if matches != [] {
      var l := PendingKey(offer, matches[0].0.key);
      var added := AddTo(pending, l, Stamp(matches[0].0.ttl, now));
      if Printable(l) {
        PendStamps(added, matches[1..], offer, now, k);
      }
      assert matches == [matches[0]] + matches[1..];
    }
  }

  lemma MatchMakesPending(s: Subs, step: Step, m: (Subscription, ClientId))
    requires step.Offered?
    requires m in MatchingSubscriptions(s.requested, step.offer.serviceId, step.offer.instanceId, step.offer.majorVersion)
    ensures MadePending(s, step, PendingKey(step.offer, m.0.key), Stamp(m.0.ttl, step.now))
  {
    hide MatchingSubscriptions;
    var (r, client) := m;
    assert (r, client) in MatchingSubscriptions(s.requested, step.offer.serviceId, step.offer.instanceId,
                                                step.offer.majorVersion);
  }

  lemma StepPends(s: Subs, step: Step, k: Key)
    requires k in After(s, step).pending
    ensures var stamp := After(s, step).pending[k];
            (k in s.pending && s.pending[k] == stamp) || MadePending(s, step, k, stamp)
  {
    if step.Offered? {
      hide Pend, MatchingSubscriptions;
      var matches := MatchingSubscriptions(s.requested, step.offer.serviceId, step.offer.instanceId, step.offer.majorVersion);
      PendStamps(s.pending, matches, step.offer, step.now, k);
      if m :| m in matches && k == PendingKey(step.offer, m.0.key)
              && After(s, step).pending[k] == Stamp(m.0.ttl, step.now) {
        MatchMakesPending(s, step, m);
      }
    }
  }

  lemma {:induction false} RemoveActiveOnlyRemoves(active: map<Key, Stamp>, order: seq<Key>, stopped: Key)
    ensures forall k :: k in RemoveActive(active, order, stopped) ==>
              k in active && RemoveActive(active, order, stopped)[k] == active[k]
    decreases order
  {
    hide Printable, SameTarget;
    if order != [] {
      RemoveActiveOnlyRemoves(if SameTarget(order[0], stopped) then active - {order[0]} else active, order[1..], stopped);
    }
  }

  lemma StepActivates(s: Subs, step: Step, k: Key)
    requires Possible(s, step) && k in After(s, step).active
    ensures var stamp := After(s, step).active[k];
            || (k in s.active && s.active[k] == stamp)
            || (k in s.pending && AckedAs(step, k) && stamp == Stamp(s.pending[k].ttl, step.now))
  {
    if step.Stop? {
      RemoveActiveOnlyRemoves(s.active, step.order, step.stopped);
      hide RemoveActive;
    }
  }

  /** In any run, what is pending has been made so by an offer of its service instance for a request
      of that time, with whose TTL and at whose time it is stamped. */
  lemma {:induction false} PendingWasOffered(steps: seq<Step>, k: Key) returns (i: nat)
    requires PossibleRun(steps) && k in Run(steps).pending
    ensures i < |steps| && MadePending(Run(steps[..i]), steps[i], k, Run(steps).pending[k])
  {
    hide MadePending, After, Possible;
    var before := steps[..|steps| - 1];
    StepPends(Run(before), steps[|steps| - 1], k);
    if k in Run(before).pending && Run(before).pending[k] == Run(steps).pending[k] {
      i := PendingWasOffered(before, k);
      assert before[..i] == steps[..i];
    } else {
      i := |steps| - 1;
    }
  }

  /** In any run, nothing is active without such an offer and, later, an acknowledgement of its ids; it
      has the TTL of the request and the time of the acknowledgement. */
  lemma {:induction false} ActiveWasAcknowledged(steps: seq<Step>, k: Key) returns (i: nat, j: nat)
    requires PossibleRun(steps) && k in Run(steps).active
    ensures i < j < |steps| && AckedAs(steps[j], k) && Run(steps).active[k].lastUpdate == steps[j].now
    ensures steps[i].Offered? && MadePending(Run(steps[..i]), steps[i], k, Stamp(Run(steps).active[k].ttl, steps[i].now))
  {
    hide MadePending, After, Possible;
    var before := steps[..|steps| - 1];
    StepActivates(Run(before), steps[|steps| - 1], k);
    if k in Run(before).active && Run(before).active[k] == Run(steps).active[k] {
      i, j := ActiveWasAcknowledged(before, k);
      assert before[..i] == steps[..i];
    } else {
      i := PendingWasOffered(before, k);
      j := |steps| - 1;
      assert before[..i] == steps[..i];
      StampOf(Run(before[..i]), before[i], k, Run(before).pending[k]);
    }
  }

  lemma StampOf(s: Subs, step: Step, k: Key, stamp: Stamp)
    requires MadePending(s, step, k, stamp)
    ensures step.Offered? && stamp.lastUpdate == step.now
  {
  }

  /** After a check at a time nothing is pending whose offer is more than ten seconds old. */
  lemma PendingIsRecent(steps: seq<Step>, now: real, k: Key) returns (i: nat)
    requires PossibleRun(steps) && k in Run(steps + [PendingExpiry(now)]).pending
    ensures i < |steps| && steps[i].Offered? && now - steps[i].now <= 10.0
    ensures MadePending(Run(steps[..i]), steps[i], k, Run(steps).pending[k])
  {
    var all := steps + [PendingExpiry(now)];
    assert all[..|all| - 1] == steps;
    assert Run(all) == AfterPendingExpiry(Run(steps), now);
    i := PendingWasOffered(steps, k);
    StampOf(Run(steps[..i]), steps[i], k, Run(steps).pending[k]);
  }

  /** And what is not older stays pending. */
  lemma RecentStaysPending(s: Subs, now: real, k: Key)
    requires k in s.pending && now - s.pending[k].lastUpdate <= 10.0
    ensures k in After(s, PendingExpiry(now)).pending && After(s, PendingExpiry(now)).pending[k] == s.pending[k]
  {
  }

  // ----- Two ways to lose the backing -----

  function ExampleKey(ip: Ip4, server: Option<Address>, protocols: set<Protocol>): Key {
    Key(1, 2, 3, EventGroup(4, []), Address(ip, 5000), server, protocols)
  }

  function OneRequest(ip: Ip4): seq<ClientList> {
    [ClientList(1, [Subscription(ExampleKey(ip, None, {UDP}), 5)])]
  }

  /** A client that disconnects while a subscription is pending leaves it behind. */
  lemma DisconnectLeavesPending(ip: Ip4, server: Address)
    ensures var offer := ServiceInstance(1, 2, 3, 0, 5, server, {UDP});
            var request := Request(1, Subscription(ExampleKey(ip, None, {UDP}), 5));
            var s := Run([request, Offered(offer, 0.0), ClientGone(1)]);
            ExampleKey(ip, Some(server), {UDP}) in s.pending && s.requested == []
  {
    assert {UDP} * {UDP} == {UDP};
    OfferToOne(ip, map[], server, {UDP}, ExampleKey(ip, Some(server), {UDP}));
    ThreeSteps(Request(1, Subscription(ExampleKey(ip, None, {UDP}), 5)),
               Offered(ServiceInstance(1, 2, 3, 0, 5, server, {UDP}), 0.0), ClientGone(1));
  }

  lemma ThreeSteps(a: Step, b: Step, c: Step)
    ensures Run([a, b, c]) == After(After(After(NO_SUBS, a), b), c)
  {
    hide After;
    assert [a, b, c][..2] == [a, b] && [a, b][..1] == [a] && [a][..0] == [];
    assert Run([a]) == After(NO_SUBS, a);
    assert Run([a, b]) == After(Run([a]), b);
  }

  /** A stop ends at an active subscription without protocols, and leaves those behind it active
      although nobody requests them. */
  lemma UnprintableStopsTheStop(ip: Ip4, a: Address, b: Address)
    requires a != b
    ensures var bare, other := ExampleKey(ip, Some(a), {}), ExampleKey(ip, Some(b), {UDP});
            var steps := OfferedTwice(ip, a, b);
            var t := AfterStop(Run(steps), 1, ExampleKey(ip, None, {UDP}), [bare, other]);
            t.requested == [] && other in t.active && Run(steps).active.Keys == {bare, other}
  {
    var bare, other := ExampleKey(ip, Some(a), {}), ExampleKey(ip, Some(b), {UDP});
    var stopped := ExampleKey(ip, None, {UDP});
    BothActive(ip, a, b);
    assert RemoveKey([Subscription(stopped, 5)], stopped) == [];
    assert Subscription(stopped, 5) in [Subscription(stopped, 5)];
  }

  /** The service instance is offered without the requested protocol at one address and with it at
      another, and both subscribes are acknowledged. */
  function OfferedTwice(ip: Ip4, a: Address, b: Address): seq<Step> {
    var id := GroupId(1, 2, 3, 4);
    [Request(1, Subscription(ExampleKey(ip, None, {UDP}), 5)),
     Offered(ServiceInstance(1, 2, 3, 0, 5, a, {TCP}), 0.0),
     Offered(ServiceInstance(1, 2, 3, 0, 5, b, {UDP}), 0.0),
     Ack(id, Some(ExampleKey(ip, Some(a), {})), 0.0),
     Ack(id, Some(ExampleKey(ip, Some(b), {UDP})), 0.0)]
  }

  lemma BothActive(ip: Ip4, a: Address, b: Address)
    requires a != b
    ensures var bare, other := ExampleKey(ip, Some(a), {}), ExampleKey(ip, Some(b), {UDP});
            Run(OfferedTwice(ip, a, b)) == Subs(OneRequest(ip), map[], map[bare := Stamp(5, 0.0), other := Stamp(5, 0.0)])
  {
    var steps := OfferedTwice(ip, a, b);
    var bare, other := ExampleKey(ip, Some(a), {}), ExampleKey(ip, Some(b), {UDP});
    var lists := OneRequest(ip);
    var stamp := Stamp(5, 0.0);
    assert {TCP} * {UDP} == {} && {UDP} * {UDP} == {UDP};
    OfferToOne(ip, map[], a, {TCP}, bare);
    OfferToOne(ip, map[bare := stamp], b, {UDP}, other);
    var s3 := Subs(lists, map[bare := stamp, other := stamp], map[]);
    assert map[bare := stamp, other := stamp] == map[bare := stamp][other := stamp];
    assert After(s3, steps[3]) == Subs(lists, map[other := stamp], map[bare := stamp]);
    assert After(Subs(lists, map[other := stamp], map[bare := stamp]), steps[4])
        == Subs(lists, map[], map[bare := stamp, other := stamp]);
    hide After;
    ThreeSteps(steps[0], steps[1], steps[2]);
    assert steps[..4] == [steps[0], steps[1], steps[2], steps[3]] && steps[..4][..3] == [steps[0], steps[1], steps[2]];
    assert Run(steps[..4]) == After(Run([steps[0], steps[1], steps[2]]), steps[3]);
    assert Run(steps) == After(Run(steps[..4]), steps[4]);
  }

  lemma OfferToOne(ip: Ip4, pending: map<Key, Stamp>, address: Address, protocols: set<Protocol>, k: Key)
    requires k == ExampleKey(ip, Some(address), protocols * {UDP}) && k !in pending
    ensures After(Subs(OneRequest(ip), pending, map[]), Offered(ServiceInstance(1, 2, 3, 0, 5, address, protocols), 0.0))
         == Subs(OneRequest(ip), pending[k := Stamp(5, 0.0)], map[])
    ensures After(NO_SUBS, Request(1, Subscription(ExampleKey(ip, None, {UDP}), 5))) == Subs(OneRequest(ip), map[], map[])
  {
    var offer := ServiceInstance(1, 2, 3, 0, 5, address, protocols);
    var subscription := Subscription(ExampleKey(ip, None, {UDP}), 5);
    var lists, matches := OneRequest(ip), [(subscription, 1)];
    assert MatchingIn([subscription], 1, 1, 2, 3) == [(subscription, 1)] + MatchingIn([subscription][1..], 1, 1, 2, 3);
    assert MatchingSubscriptions(lists, 1, 2, 3) == [(subscription, 1)] + MatchingSubscriptions(lists[1..], 1, 2, 3);
    assert MatchingSubscriptions(lists, 1, 2, 3) == matches && matches[1..] == [];
    assert PendingKey(offer, subscription.key) == k;
    assert Pend(pending, matches, offer, 0.0) == pending[k := Stamp(5, 0.0)];
  }
}
