/** Subscriptions of other nodes: which services enter the subscriber, and which clients are told. */
module InboundSubscriptions {
  import opened SomeIpSdHeader
  import opened OfferServiceStorage
  import opened DaemonHandshake
  import opened EventDelivery
  import opened Subscribers
  import Lifetimes = Subscribers

  function ListFor(lists: map<ServiceToOffer, seq<EventGroupSubscriber>>, service: ServiceToOffer): seq<EventGroupSubscriber> {
    if service in lists then lists[service] else []
  }

  function WhoOf(x: SdSubscription): Who {
    Who(x.eventGroupId, Address(x.endpoint.address4, x.endpoint.port))
  }

  /** What a received subscription is for the subscribers of one service. */
  function SubscriberStep(matches: bool, x: SdSubscription, nowMs: int): Lifetimes.Step {
    if matches then Lifetimes.Subscribe(WhoOf(x), x.ttl, nowMs) else Lifetimes.Tick(nowMs)
  }

  function InboundMessage(service: ServiceToOffer, x: SdSubscription, isRenewal: bool): ClientMessage {
    InboundSubscription(service.serviceId, service.instanceId, x.eventGroupId, Address(x.endpoint.address4, x.endpoint.port),
                        x.ttl, isRenewal)
  }

  function Told(queues: Queues, service: ServiceToOffer, x: SdSubscription, isRenewal: bool): Queues {
    if service.client in queues
    then queues[service.client := queues[service.client] + [InboundMessage(service, x, isRenewal)]]
    else queues
  }

  /** The queues after every matching service has told its client. */
  function AfterInbound(queues: Queues, services: seq<ServiceToOffer>,
                        lists: map<ServiceToOffer, seq<EventGroupSubscriber>>, x: SdSubscription, nowMs: int): Queues
    decreases services
  {
    if services == [] then queues
    else if Subscribable(services[0], x) then
      AfterInbound(Told(queues, services[0], x, IsRenewal(ListFor(lists, services[0]), WhoOf(x), nowMs)),
                   services[1..], lists, x, nowMs)
    else AfterInbound(queues, services[1..], lists, x, nowMs)
  }

  /** The lists after all of them have been brought up to date, and the matching services among
      these have entered the subscriber. */
  ghost predicate Entered(before: map<ServiceToOffer, seq<EventGroupSubscriber>>,
                          after: map<ServiceToOffer, seq<EventGroupSubscriber>>, services: seq<ServiceToOffer>,
                          x: SdSubscription, nowMs: int)
  {
    forall service ::
      var step := SubscriberStep(service in services && Subscribable(service, x), x, nowMs);
      ListFor(after, service) == Lifetimes.After(ListFor(before, service), step)
  }

  lemma EnteredNone(before: map<ServiceToOffer, seq<EventGroupSubscriber>>, x: SdSubscription, nowMs: int)
    ensures Entered(before, map s | s in before :: Lifetimes.Updated(before[s], nowMs), [], x, nowMs)
  {
  }

  lemma EnteredSkip(before: map<ServiceToOffer, seq<EventGroupSubscriber>>,
                    after: map<ServiceToOffer, seq<EventGroupSubscriber>>, services: seq<ServiceToOffer>,
                    service: ServiceToOffer, x: SdSubscription, nowMs: int)
    requires Entered(before, after, services, x, nowMs) && !Subscribable(service, x)
    ensures Entered(before, after, services + [service], x, nowMs)
  {
    hide Subscribable, Lifetimes.After;
    forall s ensures (s in services && Subscribable(s, x)) == (s in services + [service] && Subscribable(s, x)) {
    }
  }

  lemma EnteredOne(before: map<ServiceToOffer, seq<EventGroupSubscriber>>,
                   after: map<ServiceToOffer, seq<EventGroupSubscriber>>, services: seq<ServiceToOffer>,
                   service: ServiceToOffer, x: SdSubscription, nowMs: int)
    requires Entered(before, after, services, x, nowMs) && Subscribable(service, x) && service !in services
    ensures ListFor(after, service) == Lifetimes.Updated(ListFor(before, service), nowMs)
    ensures Entered(before, after[service := WithSubscriber(ListFor(after, service), WhoOf(x), x.ttl, nowMs)],
                    services + [service], x, nowMs)
    ensures Lifetimes.Contains(ListFor(after, service), WhoOf(x)) == IsRenewal(ListFor(before, service), WhoOf(x), nowMs)
  {
    hide Subscribable, Lifetimes.Updated, WithSubscriber;
    forall s | s != service ensures (s in services) == (s in services + [service]) {
    }
    assert service in services + [service];
  }

  lemma InboundStep(queues: Queues, services: seq<ServiceToOffer>, i: nat,
                    lists: map<ServiceToOffer, seq<EventGroupSubscriber>>, x: SdSubscription, nowMs: int)
    requires i < |services|
    ensures AfterInbound(queues, services[i..], lists, x, nowMs)
         == AfterInbound(if Subscribable(services[i], x)
                         then Told(queues, services[i], x, IsRenewal(ListFor(lists, services[i]), WhoOf(x), nowMs))
                         else queues, services[i + 1..], lists, x, nowMs)
  {
    hide Subscribable, IsRenewal, Told;
    assert services[i..][0] == services[i] && services[i..][1..] == services[i + 1..];
  }

  lemma NoMoreInbound(queues: Queues, services: seq<ServiceToOffer>, lists: map<ServiceToOffer, seq<EventGroupSubscriber>>,
                      x: SdSubscription, nowMs: int)
    requires services == []
    ensures AfterInbound(queues, services, lists, x, nowMs) == queues
  {
  }

  lemma NotBefore(services: seq<ServiceToOffer>, i: nat)
    requires i < |services| && Distinct(services)
    ensures services[i] !in services[..i]
  {
  }

  // ----- In terms of ids and eventgroups -----

  /** A service enters the subscriber exactly when its ids are those of the subscription and one of its
      eventgroups has the id; every list is brought up to date. */
  lemma EnteredExactly(before: map<ServiceToOffer, seq<EventGroupSubscriber>>,
                       after: map<ServiceToOffer, seq<EventGroupSubscriber>>, services: seq<ServiceToOffer>,
                       x: SdSubscription, nowMs: int, service: ServiceToOffer)
    requires Entered(before, after, services, x, nowMs)
    ensures var live := Lifetimes.Updated(ListFor(before, service), nowMs);
            ListFor(after, service) ==
              if && service in services && service.serviceId == x.serviceId && service.instanceId == x.instanceId
                 && service.majorVersion == x.majorVersion
                 && exists g :: g in service.eventGroups && g.id == x.eventGroupId
              then WithSubscriber(live, Who(x.eventGroupId, Address(x.endpoint.address4, x.endpoint.port)), x.ttl, nowMs)
              else live
  {
    hide Lifetimes.Updated, WithSubscriber;
    assert Subscribable(service, x) <==>
           && service.serviceId == x.serviceId && service.instanceId == x.instanceId
           && service.majorVersion == x.majorVersion && exists g :: g in service.eventGroups && g.id == x.eventGroupId;
  }

  /** What a client is told: one message for each of its services that answer. */
  function MessagesFor(answering: seq<ServiceToOffer>, lists: map<ServiceToOffer, seq<EventGroupSubscriber>>,
                       x: SdSubscription, nowMs: int, client: ClientId): seq<ClientMessage>
  {
    if answering == [] then []
    else
      var service, subscriber := answering[0], Address(x.endpoint.address4, x.endpoint.port);
      (if service.client == client
       then [InboundSubscription(service.serviceId, service.instanceId, x.eventGroupId, subscriber, x.ttl,
                                 IsRenewal(ListFor(lists, service), Who(x.eventGroupId, subscriber), nowMs))]
       else [])
      + MessagesFor(answering[1..], lists, x, nowMs, client)
  }

  /** Every queue grows by what its client is told, and by nothing else. */
  lemma {:induction false} ToldExactly(queues: Queues, services: seq<ServiceToOffer>,
                                       lists: map<ServiceToOffer, seq<EventGroupSubscriber>>, x: SdSubscription, nowMs: int)
    ensures var after := AfterInbound(queues, services, lists, x, nowMs);
            && after.Keys == queues.Keys
            && forall c :: c in queues ==> after[c] == queues[c] + MessagesFor(Answering(services, x), lists, x, nowMs, c)
    decreases services
  {
    hide Subscribable, IsRenewal, ListFor;
    if services != [] {
      if Subscribable(services[0], x) {
        var told := Told(queues, services[0], x, IsRenewal(ListFor(lists, services[0]), WhoOf(x), nowMs));
        ToldExactly(told, services[1..], lists, x, nowMs);
        assert Answering(services, x)[1..] == Answering(services[1..], x);
      } else {
        ToldExactly(queues, services[1..], lists, x, nowMs);
        assert Answering(services, x) == Answering(services[1..], x);
      }
    }
  }
}
