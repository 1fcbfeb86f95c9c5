/** Subscriptions of the local clients: a dictionary of lists, in insertion order. */
module SubscriptionStorage {
  import opened Bytes
  import opened SdMessages
  import opened OfferServiceStorage

  /** What makes two subscriptions equal. */
  datatype Key = Key(serviceId: int, instanceId: int, majorVersion: int, eventGroup: EventGroup,
                     clientEndpoint: Address, serverEndpoint: Option<Address>, protocols: set<Protocol>)

  /** Equality of subscriptions ignores the lifetime; requested ones have no server endpoint. */
  datatype Subscription = Subscription(key: Key, ttl: int)

  datatype ClientList = ClientList(client: ClientId, subscriptions: seq<Subscription>)

  // ----- What the operations do -----

  function SubscriptionsOf(lists: seq<ClientList>, client: ClientId): seq<Subscription> {
    if lists == [] then []
    else if lists[0].client == client then lists[0].subscriptions
    else SubscriptionsOf(lists[1..], client)
  }

  predicate HasKey(subscriptions: seq<Subscription>, key: Key) {
    exists s :: s in subscriptions && s.key == key
  }

  function WithSubscription(lists: seq<ClientList>, client: ClientId, subscription: Subscription): seq<ClientList> {
    if lists == [] then [ClientList(client, [subscription])]
    else if lists[0].client == client then
      if HasKey(lists[0].subscriptions, subscription.key) then lists
      else [ClientList(client, lists[0].subscriptions + [subscription])] + lists[1..]
    else [lists[0]] + WithSubscription(lists[1..], client, subscription)
  }

  function RemoveKey(subscriptions: seq<Subscription>, key: Key): seq<Subscription> {
    if subscriptions == [] then []
    else if subscriptions[0].key == key then subscriptions[1..]
    else [subscriptions[0]] + RemoveKey(subscriptions[1..], key)
  }

  function WithoutSubscription(lists: seq<ClientList>, client: ClientId, key: Key): seq<ClientList> {
    if lists == [] then []
    else if lists[0].client == client then
      if !HasKey(lists[0].subscriptions, key) then lists
      else
        var rest := RemoveKey(lists[0].subscriptions, key);
        if rest == [] then lists[1..] else [ClientList(client, rest)] + lists[1..]
    else [lists[0]] + WithoutSubscription(lists[1..], client, key)
  }

  function WithoutClientList(lists: seq<ClientList>, client: ClientId): seq<ClientList> {
    if lists == [] then []
    else if lists[0].client == client then lists[1..]
    else [lists[0]] + WithoutClientList(lists[1..], client)
  }

  function AllSubscriptions(lists: seq<ClientList>): seq<Subscription> {
    if lists == [] then [] else lists[0].subscriptions + AllSubscriptions(lists[1..])
  }

  /** The clients that hold an equal subscription. */
  function ClientsWith(lists: seq<ClientList>, key: Key): seq<ClientId> {
    if lists == [] then []
    else (if HasKey(lists[0].subscriptions, key) then [lists[0].client] else []) + ClientsWith(lists[1..], key)
  }

  predicate About(key: Key, serviceId: int, instanceId: int, majorVersion: int) {
    key.serviceId == serviceId && key.instanceId == instanceId && key.majorVersion == majorVersion
  }

  function MatchingIn(subscriptions: seq<Subscription>, client: ClientId, serviceId: int, instanceId: int,
                      majorVersion: int): seq<(Subscription, ClientId)>
  {
    if subscriptions == [] then []
    else (if About(subscriptions[0].key, serviceId, instanceId, majorVersion) then [(subscriptions[0], client)] else [])
         + MatchingIn(subscriptions[1..], client, serviceId, instanceId, majorVersion)
  }

  /** The subscriptions to a service instance, with their clients. */
  function MatchingSubscriptions(lists: seq<ClientList>, serviceId: int, instanceId: int, majorVersion: int): seq<(Subscription, ClientId)> {
    if lists == [] then []
    else MatchingIn(lists[0].subscriptions, lists[0].client, serviceId, instanceId, majorVersion)
         + MatchingSubscriptions(lists[1..], serviceId, instanceId, majorVersion)
  }

  // ----- Lemmas in terms of the lists of all clients -----

  /** A client has one list, without equal subscriptions, and it is not empty. */
  ghost predicate WellFormed(lists: seq<ClientList>) {
    && (forall i, j :: 0 <= i < j < |lists| ==> lists[i].client != lists[j].client)
    && (forall i :: 0 <= i < |lists| ==> lists[i].subscriptions != [] && DistinctKeys(lists[i].subscriptions))
  }

  ghost predicate DistinctKeys(subscriptions: seq<Subscription>) {
    forall i, j :: 0 <= i < j < |subscriptions| ==> subscriptions[i].key != subscriptions[j].key
  }

  predicate Holds(lists: seq<ClientList>, client: ClientId, key: Key) {
    HasKey(SubscriptionsOf(lists, client), key)
  }

  lemma {:induction false} NoList(lists: seq<ClientList>, client: ClientId)
    requires forall i :: 0 <= i < |lists| ==> lists[i].client != client
    ensures SubscriptionsOf(lists, client) == []
  {
    if lists != [] {
      NoList(lists[1..], client);
    }
  }

  /** The first equal subscription goes; those before and behind it keep their order. */
  lemma {:induction false} RemoveKeyExact(before: seq<Subscription>, s: Subscription, behind: seq<Subscription>)
    requires !HasKey(before, s.key)
    ensures RemoveKey(before + [s] + behind, s.key) == before + behind
  {
    var all := before + [s] + behind;
    if before == [] {
      assert all[1..] == behind && before + behind == behind;
    } else {
      assert before[0] in before;
      assert forall t :: t in before[1..] ==> t in before;
      RemoveKeyExact(before[1..], s, behind);
      assert all[1..] == before[1..] + [s] + behind;
      assert before + behind == [before[0]] + (before[1..] + behind);
    }
  }

  lemma {:induction false} RemoveKeyMembers(subscriptions: seq<Subscription>, key: Key)
    requires DistinctKeys(subscriptions)
    ensures DistinctKeys(RemoveKey(subscriptions, key))
    ensures forall s :: s in RemoveKey(subscriptions, key) <==> s in subscriptions && s.key != key
  {
    if subscriptions != [] {
      RemoveKeyMembers(subscriptions[1..], key);
      assert subscriptions == [subscriptions[0]] + subscriptions[1..];
      forall s | s in subscriptions[1..] ensures s.key != subscriptions[0].key {
      }
    }
  }

  lemma {:induction false} HoldsAfterAdding(lists: seq<ClientList>, client: ClientId, subscription: Subscription,
                                            other: ClientId, key: Key)
    ensures Holds(WithSubscription(lists, client, subscription), other, key)
       <==> Holds(lists, other, key) || (other == client && key == subscription.key)
  {
    if lists == [] {
      var after := WithSubscription(lists, client, subscription);
      assert SubscriptionsOf(after[1..], other) == [];
      assert SubscriptionsOf(after, other) == if other == client then [subscription] else [];
      assert subscription in [subscription];
    } else if lists[0].client == client {
      var after := lists[0].subscriptions + [subscription];
      assert subscription in after;
      if s :| s in lists[0].subscriptions && s.key == key {
        assert s in after;
      }
    } else {
      HoldsAfterAdding(lists[1..], client, subscription, other, key);
    }
  }

  lemma {:induction false} AddingWellFormed(lists: seq<ClientList>, client: ClientId, subscription: Subscription)
    requires WellFormed(lists)
    ensures WellFormed(WithSubscription(lists, client, subscription))
    ensures forall l :: l in WithSubscription(lists, client, subscription) ==>
              l.client == client || exists m :: m in lists && m.client == l.client
  {
    if lists == [] {
    } else if lists[0].client == client {
      if !HasKey(lists[0].subscriptions, subscription.key) {
        AppendDistinct(lists[0].subscriptions, subscription);
      }
    } else {
      AddingWellFormed(lists[1..], client, subscription);
      var rest := WithSubscription(lists[1..], client, subscription);
      assert lists[0] in lists;
      forall i | 0 <= i < |rest| ensures rest[i].client != lists[0].client {
        assert rest[i] in rest;
      }
    }
  }

  lemma AppendDistinct(subscriptions: seq<Subscription>, subscription: Subscription)
    requires DistinctKeys(subscriptions) && !HasKey(subscriptions, subscription.key)
    ensures DistinctKeys(subscriptions + [subscription])
  {
    forall i | 0 <= i < |subscriptions| ensures subscriptions[i].key != subscription.key {
      assert subscriptions[i] in subscriptions;
    }
  }

  lemma {:induction false} HoldsAfterRemoving(lists: seq<ClientList>, client: ClientId, key: Key, other: ClientId, k: Key)
    requires WellFormed(lists)
    ensures Holds(WithoutSubscription(lists, client, key), other, k)
       <==> Holds(lists, other, k) && !(other == client && k == key)
  {
    if lists != [] {
      if lists[0].client == client {
        NoList(lists[1..], client);
        RemoveKeyMembers(lists[0].subscriptions, key);
        if s :| s in lists[0].subscriptions && s.key == k && k != key {
          assert s in RemoveKey(lists[0].subscriptions, key);
        }
      } else {
        HoldsAfterRemoving(lists[1..], client, key, other, k);
      }
    }
  }

  lemma {:induction false} RemovingWellFormed(lists: seq<ClientList>, client: ClientId, key: Key)
    requires WellFormed(lists)
    ensures WellFormed(WithoutSubscription(lists, client, key))
    ensures forall l :: l in WithoutSubscription(lists, client, key) ==> exists m :: m in lists && m.client == l.client
  {
    if lists != [] {
      assert lists[0] in lists;
      if lists[0].client == client {
        RemoveKeyMembers(lists[0].subscriptions, key);
        forall l | l in lists[1..] ensures l in lists {
        }
      } else {
        RemovingWellFormed(lists[1..], client, key);
        var rest := WithoutSubscription(lists[1..], client, key);
        forall i | 0 <= i < |rest| ensures rest[i].client != lists[0].client {
          assert rest[i] in rest;
        }
      }
    }
  }

  lemma {:induction false} ListsAfterClient(lists: seq<ClientList>, client: ClientId, other: ClientId)
    requires WellFormed(lists)
    ensures SubscriptionsOf(WithoutClientList(lists, client), other)
         == if other == client then [] else SubscriptionsOf(lists, other)
  {
    if lists != [] {
      if lists[0].client == client {
        NoList(lists[1..], client);
      } else {
        ListsAfterClient(lists[1..], client, other);
      }
    }
  }

  lemma {:induction false} WithoutClientListWellFormed(lists: seq<ClientList>, client: ClientId)
    requires WellFormed(lists)
    ensures WellFormed(WithoutClientList(lists, client))
    ensures forall l :: l in WithoutClientList(lists, client) ==> l in lists
  {
    hide DistinctKeys;
    if lists != [] && lists[0].client != client {
      WithoutClientListWellFormed(lists[1..], client);
      var rest := WithoutClientList(lists[1..], client);
      forall i | 0 <= i < |rest| ensures rest[i].client != lists[0].client {
        assert rest[i] in lists[1..];
      }
    }
  }

  /** get_client_ids returns the holders, each once. */
  lemma {:induction false} ClientsWithHolds(lists: seq<ClientList>, key: Key)
    requires WellFormed(lists)
    ensures forall client :: client in ClientsWith(lists, key) <==> Holds(lists, client, key)
    ensures forall i, j :: 0 <= i < j < |ClientsWith(lists, key)| ==> ClientsWith(lists, key)[i] != ClientsWith(lists, key)[j]
  {
    if lists != [] {
      ClientsWithHolds(lists[1..], key);
      NoList(lists[1..], lists[0].client);
      assert !Holds(lists[1..], lists[0].client, key);
    }
  }

  lemma {:induction false} HeldIsListed(lists: seq<ClientList>, client: ClientId, s: Subscription)
    requires s in SubscriptionsOf(lists, client)
    ensures s in AllSubscriptions(lists)
  {
    if lists[0].client != client {
      HeldIsListed(lists[1..], client, s);
    }
  }

  lemma {:induction false} MatchingInMembers(subscriptions: seq<Subscription>, client: ClientId, serviceId: int,
                                             instanceId: int, majorVersion: int)
    ensures forall p :: p in MatchingIn(subscriptions, client, serviceId, instanceId, majorVersion) <==>
              p.0 in subscriptions && p.1 == client && About(p.0.key, serviceId, instanceId, majorVersion)
  {
    if subscriptions != [] {
      MatchingInMembers(subscriptions[1..], client, serviceId, instanceId, majorVersion);
      assert subscriptions == [subscriptions[0]] + subscriptions[1..];
    }
  }

  /** has_subscriptions returns exactly the subscriptions to the instance, each with its client. */
  lemma {:induction false} MatchingMembers(lists: seq<ClientList>, serviceId: int, instanceId: int, majorVersion: int,
                                           p: (Subscription, ClientId))
    requires WellFormed(lists)
    ensures p in MatchingSubscriptions(lists, serviceId, instanceId, majorVersion) <==>
            p.0 in SubscriptionsOf(lists, p.1) && About(p.0.key, serviceId, instanceId, majorVersion)
  {
    if lists != [] {
      MatchingMembers(lists[1..], serviceId, instanceId, majorVersion, p);
      MatchingInMembers(lists[0].subscriptions, lists[0].client, serviceId, instanceId, majorVersion);
      NoList(lists[1..], lists[0].client);
    }
  }

  // ----- The storage -----

  class Storage {
    var lists: seq<ClientList>

    constructor ()
      ensures lists == []
    {
      lists := [];
    }

    method AddSubscription(client: ClientId, subscription: Subscription)
      modifies this
      ensures lists == WithSubscription(old(lists), client, subscription)
    {
      ghost var before := lists;
      assert lists[0..] == lists && lists[..0] == [];
      for i := 0 to |lists|
        invariant lists == before
        invariant WithSubscription(before, client, subscription) == before[..i] + WithSubscription(before[i..], client, subscription)
      {
        WithStep(before, i, client, subscription);
        if lists[i].client == client {
          if !HasKey(lists[i].subscriptions, subscription.key) {
            lists := lists[..i] + [ClientList(client, lists[i].subscriptions + [subscription])] + lists[i + 1..];
          }
          return;
        }
      }
      assert before[..|before|] == before && before[|before|..] == [];
      lists := lists + [ClientList(client, [subscription])];
    }

    method RemoveSubscription(client: ClientId, key: Key)
      modifies this
      ensures lists == WithoutSubscription(old(lists), client, key)
    {
      hide RemoveKey, HasKey;
      ghost var before := lists;
      assert lists[0..] == lists && lists[..0] == [];
      for i := 0 to |lists|
        invariant lists == before
        invariant WithoutSubscription(before, client, key) == before[..i] + WithoutSubscription(before[i..], client, key)
      {
        WithoutStep(before, i, client, key);
        if lists[i].client == client {
          if HasKey(lists[i].subscriptions, key) {
            var rest := RemoveKey(lists[i].subscriptions, key);
            if rest == [] {
              lists := lists[..i] + lists[i + 1..];
            } else {
              lists := lists[..i] + [ClientList(client, rest)] + lists[i + 1..];
            }
          }
          return;
        }
      }
      assert before[..|before|] == before && before[|before|..] == [];
    }

    method RemoveClient(client: ClientId)
      modifies this
      ensures lists == WithoutClientList(old(lists), client)
    {
      ghost var before := lists;
      assert lists[0..] == lists && lists[..0] == [];
      for i := 0 to |lists|
        invariant lists == before
        invariant WithoutClientList(before, client) == before[..i] + WithoutClientList(before[i..], client)
      {
        ClientStep(before, i, client);
        if lists[i].client == client {
          lists := lists[..i] + lists[i + 1..];
          return;
        }
      }
      assert before[..|before|] == before && before[|before|..] == [];
    }

    method Subscriptions() returns (all: seq<Subscription>)
      ensures all == AllSubscriptions(lists)
    {
      all := [];
      assert lists[0..] == lists;
      for i := 0 to |lists|
        invariant AllSubscriptions(lists) == all + AllSubscriptions(lists[i..])
      {
        assert lists[i..][0] == lists[i] && lists[i..][1..] == lists[i + 1..];
        all := all + lists[i].subscriptions;
      }
    }

    method GetClientIds(key: Key) returns (clients: seq<ClientId>)
      ensures clients == ClientsWith(lists, key)
    {
      clients := [];
      assert lists[0..] == lists;
      hide HasKey;
      for i := 0 to |lists|
        invariant ClientsWith(lists, key) == clients + ClientsWith(lists[i..], key)
      {
        ClientsWithStep(clients, lists, i, key);
        if HasKey(lists[i].subscriptions, key) {
          clients := clients + [lists[i].client];
        }
      }
    }

    method HasSubscriptions(serviceId: int, instanceId: int, majorVersion: int) returns (found: seq<(Subscription, ClientId)>)
      ensures found == MatchingSubscriptions(lists, serviceId, instanceId, majorVersion)
    {
      hide About;
      found := [];
      assert lists[0..] == lists;
      for i := 0 to |lists|
        invariant MatchingSubscriptions(lists, serviceId, instanceId, majorVersion)
               == found + MatchingSubscriptions(lists[i..], serviceId, instanceId, majorVersion)
      {
        assert lists[i..][0] == lists[i] && lists[i..][1..] == lists[i + 1..];
        var client, subscriptions := lists[i].client, lists[i].subscriptions;
        ghost var before := found;
        assert subscriptions[0..] == subscriptions;
        for j := 0 to |subscriptions|
          invariant before + MatchingIn(subscriptions, client, serviceId, instanceId, majorVersion)
                 == found + MatchingIn(subscriptions[j..], client, serviceId, instanceId, majorVersion)
        {
          assert subscriptions[j..][0] == subscriptions[j] && subscriptions[j..][1..] == subscriptions[j + 1..];
          if About(subscriptions[j].key, serviceId, instanceId, majorVersion) {
            found := found + [(subscriptions[j], client)];
          }
        }
        assert subscriptions[|subscriptions|..] == [];
        Associative(before, MatchingIn(subscriptions, client, serviceId, instanceId, majorVersion),
                    MatchingSubscriptions(lists[i + 1..], serviceId, instanceId, majorVersion));
      }
    }
  }

  lemma WithStep(lists: seq<ClientList>, i: nat, client: ClientId, subscription: Subscription)
    requires i < |lists|
    ensures lists[..i] + WithSubscription(lists[i..], client, subscription)
         == if lists[i].client == client then
              if HasKey(lists[i].subscriptions, subscription.key) then lists
              else lists[..i] + [ClientList(client, lists[i].subscriptions + [subscription])] + lists[i + 1..]
            else lists[..i + 1] + WithSubscription(lists[i + 1..], client, subscription)
  {
    hide HasKey;
    assert lists[i..][0] == lists[i] && lists[i..][1..] == lists[i + 1..];
    assert lists[..i + 1] == lists[..i] + [lists[i]];
    assert lists[..i] + lists[i..] == lists;
  }

  lemma WithoutStep(lists: seq<ClientList>, i: nat, client: ClientId, key: Key)
    requires i < |lists|
    ensures lists[..i] + WithoutSubscription(lists[i..], client, key)
         == if lists[i].client == client then
              if !HasKey(lists[i].subscriptions, key) then lists
              else
                var rest := RemoveKey(lists[i].subscriptions, key);
                if rest == [] then lists[..i] + lists[i + 1..] else lists[..i] + [ClientList(client, rest)] + lists[i + 1..]
            else lists[..i + 1] + WithoutSubscription(lists[i + 1..], client, key)
  {
    hide HasKey;
    assert lists[i..][0] == lists[i] && lists[i..][1..] == lists[i + 1..];
    assert lists[..i + 1] == lists[..i] + [lists[i]];
    assert lists[..i] + lists[i..] == lists;
  }

  lemma ClientStep(lists: seq<ClientList>, i: nat, client: ClientId)
    requires i < |lists|
    ensures lists[..i] + WithoutClientList(lists[i..], client)
         == if lists[i].client == client then lists[..i] + lists[i + 1..]
            else lists[..i + 1] + WithoutClientList(lists[i + 1..], client)
  {
    assert lists[i..][0] == lists[i] && lists[i..][1..] == lists[i + 1..];
    assert lists[..i + 1] == lists[..i] + [lists[i]];
  }

  lemma ClientsWithStep(clients: seq<ClientId>, lists: seq<ClientList>, i: nat, key: Key)
    requires i < |lists|
    ensures clients + ClientsWith(lists[i..], key)
         == (if HasKey(lists[i].subscriptions, key) then clients + [lists[i].client] else clients)
            + ClientsWith(lists[i + 1..], key)
  {
    hide HasKey;
    assert lists[i..][0] == lists[i] && lists[i..][1..] == lists[i + 1..];
  }
}
