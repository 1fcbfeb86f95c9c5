/** Which clients a received event notification goes to. */
module EventDelivery {
  import opened Bytes
  import opened OfferServiceStorage
  import opened SubscriptionStorage
  import opened DaemonSubscriptions

  /** The messages the daemon queues for its clients. */
  datatype ClientMessage =
    | ReceivedEvent(serviceId: int, eventId: int, src: Address, payload: seq<byte>)
    | CallMethodResponse(serviceId: int, methodId: int, clientId: int, sessionId: int, returnCode: int, dst: Address,
                         payload: seq<byte>)
    | InboundSubscription(serviceId: int, instanceId: int, eventGroupId: int, subscriber: Address, ttl: int, isRenewal: bool)
    | SubscriptionStateChanged(serviceId: int, instanceId: int, eventGroupId: int, acknowledged: bool)

  /** One queue for each connected client. */
  type Queues = map<ClientId, seq<ClientMessage>>

  /** The event belongs to the eventgroup of the subscription, and comes from its server endpoint. */
  predicate IsEventOf(k: Key, serviceId: int, eventId: int, src: Address) {
    && (exists e :: e in k.eventGroup.events && e.id == eventId)
    && k.serverEndpoint == Some(src)
    && k.serviceId == serviceId
  }

  /** The client holds a requested subscription that matches the active one on service, instance,
      major version, eventgroup and client endpoint. */
  ghost predicate HoldsFor(requested: seq<ClientList>, client: ClientId, k: Key) {
    exists r :: Holds(requested, client, r) && Backs(r, k)
  }

  /** There is an active subscription to the service at the sender, with the event in its eventgroup,
      and a request of the client for the same instance, eventgroup and client endpoint. */
  ghost predicate Receives(s: Subs, client: ClientId, serviceId: int, eventId: int, src: Address) {
    exists k, r ::
      && k in s.active && k.serviceId == serviceId && k.serverEndpoint == Some(src)
      && (exists e :: e in k.eventGroup.events && e.id == eventId)
      && Holds(s.requested, client, r)
      && r.serviceId == k.serviceId && r.instanceId == k.instanceId && r.majorVersion == k.majorVersion
      && r.eventGroup == k.eventGroup && r.clientEndpoint == k.clientEndpoint
  }

  function Copies(message: ClientMessage, n: nat): seq<ClientMessage> {
    seq(n, _ => message)
  }

  /** Every queue has grown by as many copies of the message as the client occurs among the receivers;
      receivers without a queue get nothing. */
  ghost predicate Delivered(before: Queues, after: Queues, message: ClientMessage, receivers: multiset<ClientId>) {
    && after.Keys == before.Keys
    && forall c :: c in before ==> after[c] == before[c] + Copies(message, receivers[c])
  }

  lemma DeliveredNone(q: Queues, message: ClientMessage)
    ensures Delivered(q, q, message, multiset{})
  {
  }

  lemma DeliveredOne(q: Queues, client: ClientId, message: ClientMessage)
    ensures Delivered(q, if client in q then q[client := q[client] + [message]] else q, message, multiset{client})
  {
    assert Copies(message, 1) == [message] && Copies(message, 0) == [];
  }

  lemma DeliveredTwice(a: Queues, b: Queues, c: Queues, message: ClientMessage, first: multiset<ClientId>,
                       second: multiset<ClientId>)
    requires Delivered(a, b, message, first) && Delivered(b, c, message, second)
    ensures Delivered(a, c, message, first + second)
  {
    forall k | k in a ensures c[k] == a[k] + Copies(message, (first + second)[k]) {
      assert k in b;
      assert Copies(message, first[k]) + Copies(message, second[k]) == Copies(message, first[k] + second[k]);
    }
  }

  // ----- Who gets an event, and how often -----

  /** The holders of the requested subscriptions that match an active one, once for each of these. */
  function MatchHolders(all: seq<Subscription>, requested: seq<ClientList>, k: Key): multiset<ClientId> {
    if all == [] then multiset{}
    else (if Backs(all[0].key, k) then multiset(ClientsWith(requested, all[0].key)) else multiset{})
         + MatchHolders(all[1..], requested, k)
  }

  /** The receivers of an event, over the active subscriptions in some order. */
  function EventReceivers(order: seq<Key>, requested: seq<ClientList>, serviceId: int, eventId: int, src: Address)
    : multiset<ClientId>
  {
    if order == [] then multiset{}
    else (if IsEventOf(order[0], serviceId, eventId, src)
          then MatchHolders(AllSubscriptions(requested), requested, order[0]) else multiset{})
         + EventReceivers(order[1..], requested, serviceId, eventId, src)
  }

  /** The requesters of an eventgroup. */
  function Requesters(matches: seq<(Subscription, ClientId)>, eventGroupId: int): multiset<ClientId> {
    if matches == [] then multiset{}
    else (if matches[0].0.key.eventGroup.id == eventGroupId then multiset{matches[0].1} else multiset{})
         + Requesters(matches[1..], eventGroupId)
  }

  lemma {:induction false} RequestersMembers(matches: seq<(Subscription, ClientId)>, eventGroupId: int, client: ClientId)
    ensures client in Requesters(matches, eventGroupId) <==>
            exists m :: m in matches && m.1 == client && m.0.key.eventGroup.id == eventGroupId
  {
    if matches != [] {
      RequestersMembers(matches[1..], eventGroupId, client);
      assert matches == [matches[0]] + matches[1..];
    }
  }

  lemma {:induction false} MatchHoldersMembers(all: seq<Subscription>, requested: seq<ClientList>, k: Key, client: ClientId)
    ensures client in MatchHolders(all, requested, k) <==>
            exists r :: r in all && Backs(r.key, k) && client in ClientsWith(requested, r.key)
  {
    if all != [] {
      hide ClientsWith, Backs;
      MatchHoldersMembers(all[1..], requested, k, client);
      assert all == [all[0]] + all[1..];
      assert client in multiset(ClientsWith(requested, all[0].key)) <==> client in ClientsWith(requested, all[0].key);
    }
  }

  /** The clients that get an event are exactly those with a requested subscription that matches an
      active one of the sender's event. */
  lemma {:induction false} ReceiversExact(order: seq<Key>, s: Subs, serviceId: int, eventId: int, src: Address,
                                          client: ClientId)
    requires WellFormed(s.requested) && forall k :: k in order <==> k in s.active
    ensures client in EventReceivers(order, s.requested, serviceId, eventId, src) <==>
            Receives(s, client, serviceId, eventId, src)
  {
    ReceiversOf(order, s.requested, serviceId, eventId, src, client);
    hide Holds, MatchHolders, WellFormed, AllSubscriptions, EventReceivers;
  }

  lemma {:induction false} ReceiversOf(order: seq<Key>, requested: seq<ClientList>, serviceId: int, eventId: int,
                                       src: Address, client: ClientId)
    requires WellFormed(requested)
    ensures client in EventReceivers(order, requested, serviceId, eventId, src) <==>
            exists k :: k in order && IsEventOf(k, serviceId, eventId, src) && HoldsFor(requested, client, k)
  {
    hide IsEventOf, HoldsFor, MatchHolders, WellFormed, AllSubscriptions, ClientsWith;
    if order != [] {
      ReceiversOf(order[1..], requested, serviceId, eventId, src, client);
      assert order == [order[0]] + order[1..];
      HoldersOfMatches(requested, order[0], client);
      MatchHoldersMembers(AllSubscriptions(requested), requested, order[0], client);
    }
  }

  /** The clients whose lists contain a requested subscription that matches, whichever of them the
      search came across. */
  lemma HoldersOfMatches(requested: seq<ClientList>, k: Key, client: ClientId)
    requires WellFormed(requested)
    ensures HoldsFor(requested, client, k) <==>
            exists r :: r in AllSubscriptions(requested) && Backs(r.key, k) && client in ClientsWith(requested, r.key)
  {
    hide WellFormed, AllSubscriptions, ClientsWith, SubscriptionsOf;
    if HoldsFor(requested, client, k) {
      var key :| Holds(requested, client, key) && Backs(key, k);
      var r :| r in SubscriptionsOf(requested, client) && r.key == key;
      HeldIsListed(requested, client, r);
      ClientsWithHolds(requested, key);
    }
    forall r | r in AllSubscriptions(requested) && Backs(r.key, k) && client in ClientsWith(requested, r.key)
      ensures HoldsFor(requested, client, k)
    {
      ClientsWithHolds(requested, r.key);
    }
  }

  // ----- Duplicates -----

  function CountKey(subscriptions: seq<Subscription>, key: Key): nat {
    if subscriptions == [] then 0
    else (if subscriptions[0].key == key then 1 else 0) + CountKey(subscriptions[1..], key)
  }

  lemma {:induction false} CountAppend(a: seq<Subscription>, b: seq<Subscription>, key: Key)
    ensures CountKey(a + b, key) == CountKey(a, key) + CountKey(b, key)
  {
    if a == [] {
      assert a + b == b;
    } else {
      CountAppend(a[1..], b, key);
      assert (a + b)[1..] == a[1..] + b;
    }
  }

  lemma {:induction false} CountDistinct(subscriptions: seq<Subscription>, key: Key)
    requires DistinctKeys(subscriptions)
    ensures CountKey(subscriptions, key) == if HasKey(subscriptions, key) then 1 else 0
  {
    if subscriptions != [] {
      CountDistinct(subscriptions[1..], key);
      assert subscriptions == [subscriptions[0]] + subscriptions[1..];
      forall s | s in subscriptions[1..] ensures s.key != subscriptions[0].key {
      }
    }
  }

  /** A subscription is requested as often as it has holders. */
  lemma {:induction false} CountIsHolders(lists: seq<ClientList>, key: Key)
    requires WellFormed(lists)
    ensures CountKey(AllSubscriptions(lists), key) == |ClientsWith(lists, key)|
  {
    if lists != [] {
      CountIsHolders(lists[1..], key);
      CountDistinct(lists[0].subscriptions, key);
      CountAppend(lists[0].subscriptions, AllSubscriptions(lists[1..]), key);
    }
  }

  /** For each of a client's matching requests, how often it occurs among all requests. */
  function Occurrences(mine: seq<Subscription>, all: seq<Subscription>, k: Key): nat {
    if mine == [] then 0
    else (if Backs(mine[0].key, k) then CountKey(all, mine[0].key) else 0) + Occurrences(mine[1..], all, k)
  }

  lemma {:induction false} NoOccurrences(mine: seq<Subscription>, k: Key)
    ensures Occurrences(mine, [], k) == 0
  {
    if mine != [] {
      NoOccurrences(mine[1..], k);
    }
  }

  lemma {:induction false} OccurrencesStep(mine: seq<Subscription>, all: seq<Subscription>, k: Key)
    requires DistinctKeys(mine) && all != []
    ensures Occurrences(mine, all, k)
         == Occurrences(mine, all[1..], k) + if Backs(all[0].key, k) && HasKey(mine, all[0].key) then 1 else 0
  {
    if mine != [] {
      OccurrencesStep(mine[1..], all, k);
      hide Backs, Occurrences;
      assert mine == [mine[0]] + mine[1..];
      forall s | s in mine[1..] ensures s.key != mine[0].key {
      }
      OccurrencesOfFirst(mine, all, k);
      OccurrencesOfFirst(mine, all[1..], k);
      assert HasKey(mine, all[0].key) <==> mine[0].key == all[0].key || HasKey(mine[1..], all[0].key);
    }
  }

  lemma OccurrencesOfFirst(mine: seq<Subscription>, all: seq<Subscription>, k: Key)
    requires mine != []
    ensures Occurrences(mine, all, k)
         == (if Backs(mine[0].key, k) then CountKey(all, mine[0].key) else 0) + Occurrences(mine[1..], all, k)
  {
  }

  lemma {:induction false} OnceEach(list: seq<ClientId>, client: ClientId)
    requires forall i, j :: 0 <= i < j < |list| ==> list[i] != list[j]
    ensures multiset(list)[client] == if client in list then 1 else 0
  {
    if list != [] {
      OnceEach(list[1..], client);
      assert list == [list[0]] + list[1..];
    }
  }

  lemma {:induction false} MatchHoldersCount(all: seq<Subscription>, requested: seq<ClientList>, k: Key, client: ClientId)
    requires WellFormed(requested)
    ensures MatchHolders(all, requested, k)[client] == Occurrences(SubscriptionsOf(requested, client), all, k)
  {
    var mine := SubscriptionsOf(requested, client);
    hide WellFormed, ClientsWith, SubscriptionsOf, Backs, Occurrences;
    if all == [] {
      NoOccurrences(mine, k);
    } else {
      MatchHoldersCount(all[1..], requested, k, client);
      OwnKeysDistinct(requested, client);
      OccurrencesStep(mine, all, k);
      ClientsWithHolds(requested, all[0].key);
      OnceEach(ClientsWith(requested, all[0].key), client);
    }
  }

  lemma {:induction false} OwnKeysDistinct(requested: seq<ClientList>, client: ClientId)
    requires WellFormed(requested)
    ensures DistinctKeys(SubscriptionsOf(requested, client))
  {
    if requested != [] {
      OwnKeysDistinct(requested[1..], client);
    }
  }

  /** For each of a client's matching requests, how many clients hold an equal one. */
  function Sharers(mine: seq<Subscription>, requested: seq<ClientList>, k: Key): nat {
    if mine == [] then 0
    else (if Backs(mine[0].key, k) then |ClientsWith(requested, mine[0].key)| else 0) + Sharers(mine[1..], requested, k)
  }

  lemma {:induction false} OccurrencesAreSharers(mine: seq<Subscription>, requested: seq<ClientList>, k: Key)
    requires WellFormed(requested)
    ensures Occurrences(mine, AllSubscriptions(requested), k) == Sharers(mine, requested, k)
  {
    hide WellFormed, ClientsWith, AllSubscriptions, CountKey, Backs;
    if mine != [] {
      CountIsHolders(requested, mine[0].key);
      OccurrencesAreSharers(mine[1..], requested, k);
    }
  }

  /** For an active subscription a client gets an event once for every holder of each of its matching
      requests: clients that share a subscription all get it as often as there are such clients. */
  lemma CopiesExact(requested: seq<ClientList>, k: Key, client: ClientId)
    requires WellFormed(requested)
    ensures MatchHolders(AllSubscriptions(requested), requested, k)[client]
         == Sharers(SubscriptionsOf(requested, client), requested, k)
  {
    hide *;
    MatchHoldersCount(AllSubscriptions(requested), requested, k, client);
    OccurrencesAreSharers(SubscriptionsOf(requested, client), requested, k);
  }

  lemma {:induction false} NoSharers(mine: seq<Subscription>, requested: seq<ClientList>, k: Key)
    requires forall r :: r in mine ==> ClientsWith(requested, r.key) != []
    ensures Sharers(mine, requested, k) == 0 <==> forall j :: 0 <= j < |mine| ==> !Backs(mine[j].key, k)
  {
    hide ClientsWith, Backs;
    if mine != [] {
      assert mine[0] in mine;
      assert forall r :: r in mine[1..] ==> r in mine;
      NoSharers(mine[1..], requested, k);
      forall j | 0 < j < |mine| ensures mine[j] == mine[1..][j - 1] {
      }
      if forall j :: 0 <= j < |mine[1..]| ==> !Backs(mine[1..][j].key, k) {
        assert forall j :: 0 < j < |mine| ==> !Backs(mine[j].key, k);
      } else {
        var j :| 0 <= j < |mine[1..]| && Backs(mine[1..][j].key, k);
        assert Backs(mine[j + 1].key, k);
      }
    }
  }

  /** The only matching request of the list, with one holder. */
  ghost predicate SoleMatch(mine: seq<Subscription>, requested: seq<ClientList>, k: Key, i: nat)
    requires i < |mine|
  {
    && Backs(mine[i].key, k) && |ClientsWith(requested, mine[i].key)| == 1
    && forall j :: 0 <= j < |mine| && j != i ==> !Backs(mine[j].key, k)
  }

  lemma {:induction false} OneSharer(mine: seq<Subscription>, requested: seq<ClientList>, k: Key)
    requires forall r :: r in mine ==> ClientsWith(requested, r.key) != []
    ensures Sharers(mine, requested, k) == 1 <==> exists i :: 0 <= i < |mine| && SoleMatch(mine, requested, k, i)
  {
    hide ClientsWith, Backs;
    if mine != [] {
      assert mine[0] in mine;
      assert forall r :: r in mine[1..] ==> r in mine;
      NoSharers(mine[1..], requested, k);
      OneSharer(mine[1..], requested, k);
      forall j | 0 < j < |mine| ensures mine[j] == mine[1..][j - 1] {
      }
      if Backs(mine[0].key, k) {
        FirstMatches(mine, requested, k);
      } else {
        LaterMatches(mine, requested, k);
      }
    }
  }

  lemma FirstMatches(mine: seq<Subscription>, requested: seq<ClientList>, k: Key)
    requires mine != [] && Backs(mine[0].key, k)
    ensures (exists i :: 0 <= i < |mine| && SoleMatch(mine, requested, k, i)) <==>
            && |ClientsWith(requested, mine[0].key)| == 1
            && forall j :: 0 <= j < |mine[1..]| ==> !Backs(mine[1..][j].key, k)
  {
    hide ClientsWith, Backs;
    if forall j :: 0 <= j < |mine[1..]| ==> !Backs(mine[1..][j].key, k) {
      forall j | 0 < j < |mine| ensures !Backs(mine[j].key, k) {
        assert mine[j] == mine[1..][j - 1];
      }
      assert |ClientsWith(requested, mine[0].key)| == 1 ==> SoleMatch(mine, requested, k, 0);
    }
  }

  lemma LaterMatches(mine: seq<Subscription>, requested: seq<ClientList>, k: Key)
    requires mine != [] && !Backs(mine[0].key, k)
    ensures (exists i :: 0 <= i < |mine| && SoleMatch(mine, requested, k, i)) <==>
            exists i :: 0 <= i < |mine[1..]| && SoleMatch(mine[1..], requested, k, i)
  {
    hide ClientsWith, Backs;
    if i :| 0 <= i < |mine| && SoleMatch(mine, requested, k, i) {
      assert i > 0 && mine[1..][i - 1] == mine[i];
      assert SoleMatch(mine[1..], requested, k, i - 1);
    }
    if i :| 0 <= i < |mine[1..]| && SoleMatch(mine[1..], requested, k, i) {
      forall j | 0 <= j < |mine| && j != i + 1 ensures !Backs(mine[j].key, k) {
        assert j > 0 ==> mine[j] == mine[1..][j - 1];
      }
      assert mine[1..][i] == mine[i + 1] && SoleMatch(mine, requested, k, i + 1);
    }
  }

  /** A client gets an event once for an active subscription if and only if it has exactly one matching
      request, and no other client has an equal one. */
  lemma OneCopyExact(requested: seq<ClientList>, k: Key, client: ClientId)
    requires WellFormed(requested)
    ensures var mine := SubscriptionsOf(requested, client);
            MatchHolders(AllSubscriptions(requested), requested, k)[client] == 1 <==>
              exists i :: 0 <= i < |mine| && SoleMatch(mine, requested, k, i)
  {
    var mine := SubscriptionsOf(requested, client);
    hide WellFormed, ClientsWith, AllSubscriptions, MatchHolders, SubscriptionsOf;
    forall r | r in mine ensures ClientsWith(requested, r.key) != [] {
      assert Holds(requested, client, r.key);
      ClientsWithHolds(requested, r.key);
    }
    CopiesExact(requested, k, client);
    OneSharer(mine, requested, k);
  }
}
