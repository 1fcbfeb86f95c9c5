/** The port a client receives events on: bound for a subscription, stored with it, and found again by
    the stop. */
module ReceptionPorts {
  import opened Bytes
  import opened SdMessages
  import opened OfferServiceStorage
  import opened SomeipEndpointStorage
  import opened SubscriptionStorage
  import opened DaemonSubscriptions
  import opened UdpSockets
  import Udp = UdpSockets
  import Requests = SubscriptionStorage

  function WithPort(k: Key, port: int): Key {
    k.(clientEndpoint := Address(k.clientEndpoint.ip, port))
  }

  /** The port that a new subscription is received on. */
  function ReceptionPort(s: Sockets, client: ClientId, group: Key, chosen: int): int {
    if UDP in group.protocols then AfterSubscribe(s, client, group.clientEndpoint, chosen).1.address.port
    else group.clientEndpoint.port
  }

  /** The port a stop of a subscription refers to. */
  function StopPort(s: Sockets, client: ClientId, group: Key): int {
    if group.clientEndpoint.port != 0 then group.clientEndpoint.port
    else
      match FirstWithIp(EndpointsOf(s.client, client), group.clientEndpoint.ip)
      case Some(e) => e.address.port
      case None => 0
  }

  /** The key of a request that is received at an address. */
  function KeyAt(group: Key, address: Address): Key {
    Key(group.serviceId, group.instanceId, group.majorVersion, group.eventGroup, address, group.serverEndpoint,
        group.protocols)
  }

  /** A request with UDP is stored under the address of an open endpoint of the client: the requested
      one, or for port 0 one at the IP address. */
  lemma BoundPortStored(s: Sockets, u: Subs, client: ClientId, group: Key, ttl: int, chosen: int) returns (e: Endpoint)
    requires UDP in group.protocols && Udp.Inv(s) && Requests.WellFormed(u.requested)
    requires ChoiceIsFree(s, Udp.Subscribe(client, group.clientEndpoint, chosen))
    ensures var t := AfterSubscribe(s, client, group.clientEndpoint, chosen).0;
            && e in EndpointsOf(t.client, client) && e in t.open
            && e.address.ip == group.clientEndpoint.ip
            && (group.clientEndpoint.port != 0 ==> e.address == group.clientEndpoint)
    ensures var v := AfterRequest(u, client, Subscription(WithPort(group, ReceptionPort(s, client, group, chosen)), ttl));
            Requests.WellFormed(v.requested) && Holds(v.requested, client, KeyAt(group, e.address))
    ensures e == AfterSubscribe(s, client, group.clientEndpoint, chosen).1
  {
    e := AfterSubscribe(s, client, group.clientEndpoint, chosen).1;
    hide Udp.Inv, Requests.WellFormed, ChoiceIsFree, AfterSubscribe, WithSubscription, EndpointsOf, Holds;
    SubscribeKeeps(s, client, group.clientEndpoint, chosen);
    var subscription := Subscription(WithPort(group, ReceptionPort(s, client, group, chosen)), ttl);
    assert subscription.key == KeyAt(group, e.address);
    AddingWellFormed(u.requested, client, subscription);
    Requests.HoldsAfterAdding(u.requested, client, subscription, client, subscription.key);
  }

  // ----- A later stop -----

  function RunFrom(s: Sockets, steps: seq<Udp.Step>): Sockets {
    if steps == [] then s else Udp.After(RunFrom(s, steps[..|steps| - 1]), steps[|steps| - 1])
  }

  predicate PossibleFrom(s: Sockets, steps: seq<Udp.Step>) {
    steps != [] ==>
      && PossibleFrom(s, steps[..|steps| - 1])
      && ChoiceIsFree(RunFrom(s, steps[..|steps| - 1]), steps[|steps| - 1])
  }

  /** Whatever happens in between, the endpoint found for port 0 stays the same. */
  lemma {:induction false} AnyPortStaysInRuns(s: Sockets, steps: seq<Udp.Step>, client: ClientId, ip: Ip4)
    requires Udp.Inv(s) && PossibleFrom(s, steps) && FirstWithIp(EndpointsOf(s.client, client), ip).Some?
    ensures Udp.Inv(RunFrom(s, steps))
    ensures FirstWithIp(EndpointsOf(RunFrom(s, steps).client, client), ip) == FirstWithIp(EndpointsOf(s.client, client), ip)
  {
    if steps != [] {
      var before, step := steps[..|steps| - 1], steps[|steps| - 1];
      AnyPortStaysInRuns(s, before, client, ip);
      hide Udp.Inv, Udp.After, ChoiceIsFree, EndpointsOf, FirstWithIp;
      AnyPortStays(RunFrom(s, before), step, client, ip);
      Udp.StepKeeps(RunFrom(s, before), step);
    }
  }

  /** A stop that asks for what the subscribe asked for takes out what the subscribe stored, after any
      steps of the sockets and with any subscriptions in between. */
  lemma LaterStopRemoves(s: Sockets, client: ClientId, group: Key, chosen: int, between: seq<Udp.Step>, w: Subs,
                         order: seq<Key>)
    requires UDP in group.protocols && Udp.Inv(s) && Requests.WellFormed(w.requested)
    requires ChoiceIsFree(s, Udp.Subscribe(client, group.clientEndpoint, chosen))
    requires PossibleFrom(AfterSubscribe(s, client, group.clientEndpoint, chosen).0, between)
    ensures var (t, e) := AfterSubscribe(s, client, group.clientEndpoint, chosen);
            var stopped := WithPort(group, StopPort(RunFrom(t, between), client, group));
            !Holds(AfterStop(w, client, stopped, order).requested, client,
                   Key(group.serviceId, group.instanceId, group.majorVersion, group.eventGroup, e.address,
                       group.serverEndpoint, group.protocols))
  {
    var (t, e) := AfterSubscribe(s, client, group.clientEndpoint, chosen);
    SubscribeKeeps(s, client, group.clientEndpoint, chosen);
    var address := group.clientEndpoint;
    if address.port == 0 {
      assert address == Address(address.ip, 0);
      AnyPortIsFound(s, client, address.ip, chosen);
      AnyPortStaysInRuns(t, between, client, address.ip);
    }
    hide Udp.Inv, ChoiceIsFree, EndpointsOf, FirstWithIp, AfterSubscribe, RunFrom, WithoutSubscription, Holds, ClientsWith,
         RemoveActive, Requests.WellFormed;
    var stopped := WithPort(group, StopPort(RunFrom(t, between), client, group));
    assert stopped == KeyAt(group, e.address);
    Requests.HoldsAfterRemoving(w.requested, client, stopped, client, stopped);
  }

  /** A request without UDP that asks for any port is stored with port 0. A stop takes it out if and only
      if the client has no UDP endpoint at the IP address: otherwise it looks for the port of that. */
  lemma OtherStopExact(s: Sockets, w: Subs, client: ClientId, group: Key, chosen: int, order: seq<Key>)
    requires UDP !in group.protocols && group.clientEndpoint.port == 0
    requires Udp.Inv(s) && Requests.WellFormed(w.requested) && Holds(w.requested, client, group)
    ensures WithPort(group, ReceptionPort(s, client, group, chosen)) == group
    ensures var stopped := WithPort(group, StopPort(s, client, group));
            !Holds(AfterStop(w, client, stopped, order).requested, client, group) <==>
              forall e :: e in EndpointsOf(s.client, client) ==> e.address.ip != group.clientEndpoint.ip
  {
    var found := FirstWithIp(EndpointsOf(s.client, client), group.clientEndpoint.ip);
    FirstWithIpOwned(EndpointsOf(s.client, client), group.clientEndpoint.ip);
    if found.Some? {
      OwnedIsOpen(s, client, found.value);
    }
    hide Udp.Inv, EndpointsOf, FirstWithIp, AfterSubscribe, WithoutSubscription, Holds, ClientsWith, RemoveActive,
         Requests.WellFormed;
    var stopped := WithPort(group, StopPort(s, client, group));
    Requests.HoldsAfterRemoving(w.requested, client, stopped, client, group);
  }
}
