/** The daemon: its fields, and the handlers that change them. What each handler does to a part of
    the state is a function of the module that proves the properties of that part. */
module Someipyd {
  import opened Bytes
  import opened SdMessages
  import opened SdSerialization
  import opened SdHandshake
  import opened SomeIpHeader
  import opened SomeIpSdHeader
  import opened OfferServiceStorage
  import opened SomeipEndpointStorage
  import opened SubscriptionStorage
  import opened SdAdvertise
  import opened SessionHandler
  import opened DaemonSubscriptions
  import opened DaemonHandshake
  import opened InboundSubscriptions
  import opened ReceptionPorts
  import opened EventDelivery
  import opened MethodCalls
  import opened FoundServices
  import opened Subscribers
  import opened UdpSockets
  import Offers = OfferServiceStorage
  import Endpoints = SomeipEndpointStorage
  import Requests = SubscriptionStorage
  import Timers = OfferTimers
  import Udp = UdpSockets
  import Found = FoundServices
  import Lifetimes = Subscribers

  class SomeipDaemon {
    var foundServices: seq<Found.Found>
    const servicesToOffer: Offers.Storage
    var offerTimers: set<int>
    var serviceSubscribers: map<ServiceToOffer, seq<EventGroupSubscriber>>
    const requestedSubscriptions: Requests.Storage
    var pendingSubscriptions: map<Key, Stamp>
    var activeSubscriptions: map<Key, Stamp>
    const mcastSession: Handler
    const unicastSession: Handler
    var txQueues: Queues
    const serverEndpoints: Endpoints.Storage
    const clientEndpoints: Endpoints.Storage
    var issuedMethodCalls: Calls

    /** The operating system's side: the sockets that are open, and how many there have been. */
    var openSockets: set<Endpoint>
    var socketsCreated: nat

    predicate Valid() {
      serverEndpoints != clientEndpoints
    }

    function SocketState(): Sockets
      reads this, serverEndpoints, clientEndpoints, servicesToOffer
    {
      Sockets(serverEndpoints.owners, clientEndpoints.owners, openSockets, socketsCreated, servicesToOffer.services)
    }

    function SubscriptionState(): Subs
      reads this, requestedSubscriptions
    {
      Subs(requestedSubscriptions.lists, pendingSubscriptions, activeSubscriptions)
    }

    function CallState(): MethodCalls.State
      reads this
    {
      MethodCalls.State(issuedMethodCalls, txQueues.Keys)
    }

    constructor ()
      ensures Valid()
      ensures SocketState() == NO_SOCKETS && SubscriptionState() == NO_SUBS
      ensures offerTimers == {} && foundServices == [] && CallState() == NO_CALLS
      ensures serviceSubscribers == map[]
      ensures mcastSession.View() == Session(0, true) && unicastSession.View() == Session(0, true)
    {
      foundServices, offerTimers, serviceSubscribers := [], {}, map[];
      pendingSubscriptions, activeSubscriptions := map[], map[];
      txQueues, issuedMethodCalls, openSockets, socketsCreated := map[], map[], {}, 0;
      servicesToOffer := new Offers.Storage();
      requestedSubscriptions := new Requests.Storage();
      mcastSession := new Handler(0);
      unicastSession := new Handler(0);
      serverEndpoints := new Endpoints.Storage();
      clientEndpoints := new Endpoints.Storage();
    }

    // ----- Endpoints -----

    /** Binding a socket: with port 0 the operating system chooses the port. */
    method CreateUdpEndpoint(address: Address, chosen: int) returns (e: Endpoint)
      modifies this`openSockets, this`socketsCreated
      ensures SocketState() == Opened(old(SocketState()), address, chosen)
      ensures e == NewEndpoint(old(SocketState()), address, chosen)
    {
      e := Endpoint(socketsCreated, if address.port == 0 then Address(address.ip, chosen) else address);
      openSockets := openSockets + {e};
      socketsCreated := socketsCreated + 1;
    }

    method FindUdpEndpointAt(address: Address) returns (found: Option<Endpoint>)
      ensures found == UdpEndpointAt(SocketState(), address)
    {
      found := serverEndpoints.GetEndpointByIpPort(address);
      if found == None {
        found := clientEndpoints.GetEndpointByIpPort(address);
      }
    }

    method EndpointInUse(e: Endpoint) returns (inUse: bool)
      ensures inUse == InUse(SocketState(), e)
    {
      var server := serverEndpoints.GetAllEndpoints();
      var client := clientEndpoints.GetAllEndpoints();
      return e in server || e in client;
    }

    /** The client gives up an endpoint it serves on; the socket stays open for other holders. */
    method ReleaseServerEndpoint(client: ClientId, e: Endpoint)
      requires Valid()
      modifies this`openSockets, serverEndpoints
      ensures SocketState() == ServerReleased(old(SocketState()), client, e)
    {
      var removed := serverEndpoints.RemoveEndpoint(client, e);
      var inUse := EndpointInUse(e);
      if !inUse {
        openSockets := openSockets - {e};
      }
    }

    method FindClientReceptionEndpoint(client: ClientId, address: Address) returns (found: Option<Endpoint>)
      ensures found == ReceptionEndpoint(SocketState(), client, address)
    {
      if address.port == 0 {
        var endpoints := clientEndpoints.GetEndpoints(client);
        assert endpoints[0..] == endpoints;
        for i := 0 to |endpoints|
          invariant FirstWithIp(endpoints, address.ip) == FirstWithIp(endpoints[i..], address.ip)
        {
          assert endpoints[i..][0] == endpoints[i] && endpoints[i..][1..] == endpoints[i + 1..];
          if endpoints[i].address.ip == address.ip {
            return Some(endpoints[i]);
          }
        }
        return None;
      }
      found := FindUdpEndpointAt(address);
    }

    // ----- Requests of clients -----

    /** The reception port goes into the stored subscription; it is the requested one, or the one the
        operating system chose. */
    method HandleSubscribeEventgroupRequest(client: ClientId, group: Key, ttl: int, chosen: int)
      requires Valid()
      modifies this`openSockets, this`socketsCreated, clientEndpoints, requestedSubscriptions
      ensures SocketState() == if UDP in group.protocols
                               then AfterSubscribe(old(SocketState()), client, group.clientEndpoint, chosen).0
                               else old(SocketState())
      ensures SubscriptionState() == AfterRequest(old(SubscriptionState()), client,
                Subscription(WithPort(group, ReceptionPort(old(SocketState()), client, group, chosen)), ttl))
      ensures UDP in group.protocols && Udp.Inv(old(SocketState())) && Requests.WellFormed(old(requestedSubscriptions.lists))
              && ChoiceIsFree(old(SocketState()), Udp.Subscribe(client, group.clientEndpoint, chosen)) ==>
                exists e ::
                  && e in EndpointsOf(clientEndpoints.owners, client) && e in openSockets
                  && e.address.ip == group.clientEndpoint.ip
                  && (group.clientEndpoint.port != 0 ==> e.address == group.clientEndpoint)
                  && Holds(requestedSubscriptions.lists, client,
                           Key(group.serviceId, group.instanceId, group.majorVersion, group.eventGroup, e.address,
                               group.serverEndpoint, group.protocols))
    {
      if UDP in group.protocols && Udp.Inv(SocketState()) && Requests.WellFormed(requestedSubscriptions.lists)
         && ChoiceIsFree(SocketState(), Udp.Subscribe(client, group.clientEndpoint, chosen)) {
        ghost var bound := BoundPortStored(SocketState(), SubscriptionState(), client, group, ttl, chosen);
      }
      hide Udp.Inv, Requests.WellFormed, ChoiceIsFree, WithSubscription, EndpointsOf, Holds, UdpEndpointAt, FirstWithIp;
      var receptionPort := group.clientEndpoint.port;
      if UDP in group.protocols {
        var existing := FindClientReceptionEndpoint(client, group.clientEndpoint);
        var e: Endpoint;
        if existing == None {
          e := CreateUdpEndpoint(group.clientEndpoint, chosen);
        } else {
          e := existing.value;
        }
        var held := clientEndpoints.GetEndpoints(client);
        if existing == None || e !in held {
          clientEndpoints.AddEndpoint(client, e);
        }
        receptionPort := e.address.port;
      }
      requestedSubscriptions.AddSubscription(client, Subscription(WithPort(group, receptionPort), ttl));
    }

    /** The visited order of the set of active subscriptions is Python's choice and is returned, with
        the messages sent. */
    method HandleStopSubscribeEventgroupRequest(client: ClientId, group: Key)
      returns (order: seq<Key>, sent: seq<(Option<Address>, seq<byte>)>)
      requires Valid() && Usable(unicastSession.View())
      modifies this`pendingSubscriptions, this`activeSubscriptions, requestedSubscriptions, unicastSession
      ensures Usable(unicastSession.View())
      ensures Visits(order, old(activeSubscriptions).Keys)
      ensures SubscriptionState() == AfterStop(old(SubscriptionState()), client,
                                               WithPort(group, StopPort(old(SocketState()), client, group)), order)
      ensures var stopped := WithPort(group, StopPort(old(SocketState()), client, group));
              (sent, unicastSession.View()) ==
                if ClientsWith(requestedSubscriptions.lists, stopped) == []
                then StopDatagrams(order, stopped, old(unicastSession.View()))
                else ([], old(unicastSession.View()))
      ensures var stopped := WithPort(group, StopPort(old(SocketState()), client, group));
              var keys := StoppedKeys(order, stopped);
              ClientsWith(requestedSubscriptions.lists, stopped) == [] ==>
                && |sent| == |keys|
                && forall j :: 0 <= j < |sent| ==>
                     IsStopOf(keys[j], sent[j], Given(UpdatedTimes(old(unicastSession.View()), j)).sessionId)
      ensures SocketState() == old(SocketState())
    {
      hide StopDatagrams, StoppedKeys, IsStopOf, UpdatedTimes, RemoveActive, SameTarget, WithoutSubscription, ClientsWith, FirstWithIp, EndpointsOf;
      sent := [];
      order := ListKeys(activeSubscriptions);
      var receptionPort := group.clientEndpoint.port;
      if receptionPort == 0 {
        var e := FindClientReceptionEndpoint(client, group.clientEndpoint);
        if e.Some? {
          receptionPort := e.value.address.port;
        }
      }
      var stopped := WithPort(group, receptionPort);
      requestedSubscriptions.RemoveSubscription(client, stopped);
      var clients := requestedSubscriptions.GetClientIds(stopped);
      if clients == [] {
        pendingSubscriptions := map k | k in pendingSubscriptions && !SameTarget(k, stopped) :: pendingSubscriptions[k];
        sent := StopActiveSubscriptions(order, stopped);
      }
    }

    /** The loop over the active subscriptions; an exception of the printer ends it. */
    method StopActiveSubscriptions(order: seq<Key>, stopped: Key) returns (sent: seq<(Option<Address>, seq<byte>)>)
      requires Usable(unicastSession.View())
      modifies this`activeSubscriptions, unicastSession
      ensures Usable(unicastSession.View())
      ensures activeSubscriptions == RemoveActive(old(activeSubscriptions), order, stopped)
      ensures (sent, unicastSession.View()) == StopDatagrams(order, stopped, old(unicastSession.View()))
      ensures |sent| == |StoppedKeys(order, stopped)|
      ensures forall j :: 0 <= j < |sent| ==>
                IsStopOf(StoppedKeys(order, stopped)[j], sent[j],
                         Given(UpdatedTimes(old(unicastSession.View()), j)).sessionId)
    {
      StopsExact(order, stopped, unicastSession.View());
      hide Printable, SameTarget, StopBytes, StopDatagrams, StoppedKeys, IsStopOf, UpdatedTimes;
      sent := [];
      ghost var session := unicastSession.View();
      assert order[0..] == order;
      for i := 0 to |order|
        invariant Usable(unicastSession.View())
        invariant RemoveActive(old(activeSubscriptions), order, stopped)
               == RemoveActive(activeSubscriptions, order[i..], stopped)
        invariant StopDatagrams(order, stopped, session).0
               == sent + StopDatagrams(order[i..], stopped, unicastSession.View()).0
        invariant StopDatagrams(order, stopped, session).1 == StopDatagrams(order[i..], stopped, unicastSession.View()).1
      {
        StopStep(sent, order, i, stopped, unicastSession.View());
        assert order[i..][0] == order[i] && order[i..][1..] == order[i + 1..];
        if SameTarget(order[i], stopped) {
          activeSubscriptions := activeSubscriptions - {order[i]};
          var id, reboot := unicastSession.UpdateSession();
          var bytes := StopBytes(order[i], Session(id, reboot));
          PrintableExact(order[i], 0, Session(id, reboot));
          if bytes.Err? {
            return;
          }
          sent := sent + [(order[i].serverEndpoint, bytes.value)];
        }
      }
      NoMoreStops(sent, order[|order|..], stopped, unicastSession.View());
    }

    // ----- Offers -----

    /** An offer up to the point where it may wait for its socket. */
    method AdmitOffer(service: ServiceToOffer)
      modifies servicesToOffer
      ensures servicesToOffer.services == Added(old(servicesToOffer.services), service)
    {
      var added := servicesToOffer.AddService(service);
    }

    method OpenServerEndpoint(service: ServiceToOffer, chosen: int)
      requires Valid()
      modifies this`openSockets, this`socketsCreated, serverEndpoints
      ensures var t := old(SocketState());
              SocketState() ==
                if !service.HasUdp() || EndpointAt(t.server, service.address).Some? then t
                else match UdpEndpointAt(t, service.address)
                  case Some(e) => t.(server := WithEndpoint(t.server, service.client, e))
                  case None =>
                    var e, u := NewEndpoint(t, service.address, chosen), Opened(t, service.address, chosen);
                    u.(server := WithEndpoint(u.server, service.client, e))
    {
      hide ServiceToOffer.HasUdp;
      if service.HasUdp() {
        var served := serverEndpoints.GetEndpointByIpPort(service.address);
        if served == None {
          var existing := FindUdpEndpointAt(service.address);
          var e: Endpoint;
          if existing == None {
            e := CreateUdpEndpoint(service.address, chosen);
          } else {
            e := existing.value;
          }
          serverEndpoints.AddEndpoint(service.client, e);
        }
      }
    }

    /** The rest of an offer, once its socket is there. */
    method ArmOfferTimer(delay: int)
      modifies this`offerTimers
      ensures offerTimers == old(offerTimers) + {delay}
    {
      if delay !in offerTimers {
        offerTimers := offerTimers + {delay};
      }
    }

    method HandleOfferServiceRequest(service: ServiceToOffer, chosen: int)
      requires Valid()
      modifies this`openSockets, this`socketsCreated, this`offerTimers, servicesToOffer, serverEndpoints
      ensures SocketState() == Udp.AfterOffer(old(SocketState()), service, chosen)
      ensures offerTimers == old(offerTimers) + {service.cyclicOfferDelay}
    {
      hide ServiceToOffer.HasUdp, Added, WithEndpoint, EndpointAt;
      AdmitOffer(service);
      OpenServerEndpoint(service, chosen);
      ArmOfferTimer(service.cyclicOfferDelay);
    }

    method CleanupUnusedTimers()
      modifies this`offerTimers
      ensures offerTimers == Timers.Cleaned(old(offerTimers), servicesToOffer.services)
    {
      hide WithDelay;
      var timersToStop: set<int> := {};
      var rest := offerTimers;
      while rest != {}
        invariant offerTimers == old(offerTimers) && rest <= offerTimers
        invariant timersToStop == set d | d in offerTimers - rest && WithDelay(servicesToOffer.services, d) == []
        decreases rest
      {
        SomeMember(rest);
        var interval :| interval in rest;
        var services := servicesToOffer.ServicesByCyclicOfferDelay(interval);
        if services == [] {
          timersToStop := timersToStop + {interval};
        }
        rest := rest - {interval};
      }
      offerTimers := offerTimers - timersToStop;
    }

    method IsStillOffered(address: Address) returns (stillOffered: bool)
      ensures stillOffered == StillOffered(servicesToOffer.services, address)
    {
      hide ServiceToOffer.HasUdp;
      var services := servicesToOffer.services;
      for i := 0 to |services|
        invariant forall j :: 0 <= j < i ==> !(services[j].HasUdp() && services[j].address == address)
      {
        if services[i].HasUdp() && services[i].address == address {
          assert services[i] in services;
          return true;
        }
      }
      return false;
    }

    /** If the message cannot be printed, the handler ends before it releases the socket. */
    method HandleStopOfferServiceRequest(service: ServiceToOffer) returns (bytes: Result<seq<byte>>)
      requires Valid() && Usable(mcastSession.View())
      modifies this`openSockets, this`offerTimers, servicesToOffer, serverEndpoints, mcastSession
      ensures SocketState() == AfterStopOffer(old(SocketState()), service)
      ensures offerTimers == Timers.Cleaned(old(offerTimers), servicesToOffer.services)
      ensures var given := Given(old(mcastSession.View()));
              && bytes == SdBytes(StopOfferMessage(service, given.sessionId, given.rebootFlag))
              && (Announceable(service) <==> bytes.Ok?)
              && (bytes.Ok? ==> StopOfferArrives(service, given.sessionId, bytes.value))
      ensures mcastSession.View() == SessionHandler.Updated(old(mcastSession.View())) && Usable(mcastSession.View())
    {
      hide ServiceToOffer.HasUdp, Removed, EndpointAt, StillOffered, ServerReleased, Announceable, EndpointsOf, SdBytes,
           StopOfferMessage, StopOfferArrives;
      var removed := servicesToOffer.RemoveService(service);
      CleanupUnusedTimers();
      var id, reboot := mcastSession.UpdateSession();
      bytes := SerializeSdMessage(StopOfferMessage(service, id, reboot));
      StopOfferPrints(service, id, reboot);
      if Announceable(service) {
        StopOfferIsRead(service, id, reboot);
      }
      if bytes.Err? {
        return;
      }
      if service.HasUdp() {
        var udpEndpoint := serverEndpoints.GetEndpointByIpPort(service.address);
        var stillOffered := IsStillOffered(service.address);
        if udpEndpoint.Some? && !stillOffered {
          var held := serverEndpoints.GetEndpoints(service.client);
          if udpEndpoint.value in held {
            ReleaseServerEndpoint(service.client, udpEndpoint.value);
          }
        }
      }
    }

    /** The client's endpoints in the client storage stay. */
    method ClientDisconnected(client: ClientId)
      requires Valid()
      modifies this`openSockets, this`offerTimers, this`txQueues, servicesToOffer, serverEndpoints, requestedSubscriptions
      ensures SocketState() == AfterDisconnect(old(SocketState()), client)
      ensures SubscriptionState() == AfterClientGone(old(SubscriptionState()), client)
      ensures offerTimers == Timers.Cleaned(old(offerTimers), servicesToOffer.services)
      ensures txQueues == old(txQueues) - {client}
      ensures CallState() == MethodCalls.After(old(CallState()), MethodCalls.Disconnect(client))
    {
      requestedSubscriptions.RemoveClient(client);
      txQueues := txQueues - {client};
      var removed := servicesToOffer.RemoveClient(client);
      CleanupUnusedTimers();
      var endpoints := serverEndpoints.GetEndpoints(client);
      ghost var s := SocketState();
      hide AllReleased, ServerReleased, EndpointsOf, WithoutClient;
      assert endpoints[0..] == endpoints;
      for i := 0 to |endpoints|
        modifies this`openSockets, serverEndpoints
        invariant servicesToOffer.services == s.services
        invariant requestedSubscriptions.lists == WithoutClientList(old(requestedSubscriptions.lists), client)
        invariant AllReleased(s, client, endpoints) == AllReleased(SocketState(), client, endpoints[i..])
      {
        AllReleasedStep(SocketState(), client, endpoints[i..]);
        assert endpoints[i..][0] == endpoints[i] && endpoints[i..][1..] == endpoints[i + 1..];
        ReleaseServerEndpoint(client, endpoints[i]);
      }
      AllReleasedStep(SocketState(), client, endpoints[|endpoints|..]);
    }

    // ----- Method calls -----

    /** A UDP call: it is sent from an endpoint at the client's address, and remembered under the port
        that endpoint really has. */
    method HandleOutboundCallMethodRequest(client: ClientId, key: CallKey, chosen: int)
      requires Valid()
      modifies this`openSockets, this`socketsCreated, this`issuedMethodCalls, clientEndpoints
      ensures SocketState() == AfterCall(old(SocketState()), client, key.src, chosen).0
      ensures var port := AfterCall(old(SocketState()), client, key.src, chosen).1.address.port;
              CallState() == MethodCalls.After(old(CallState()),
                                               MethodCalls.Issue(key.(src := Address(key.src.ip, port)), client))
    {
      hide EndpointAt, WithEndpoint;
      var shared: Option<Endpoint> := None;
      if key.src.port != 0 {
        shared := FindUdpEndpointAt(key.src);
      }
      var own := clientEndpoints.GetEndpointByIpPort(key.src);
      if shared.Some? && own == None {
        clientEndpoints.AddEndpoint(client, shared.value);
      }
      own := clientEndpoints.GetEndpointByIpPort(key.src);
      var e: Endpoint;
      if own == None {
        e := CreateUdpEndpoint(key.src, chosen);
        clientEndpoints.AddEndpoint(client, e);
      } else {
        e := own.value;
      }
      issuedMethodCalls := issuedMethodCalls[key.(src := Address(key.src.ip, e.address.port)) := client];
    }

    /** A received response; the error is that of a client whose queue is gone. */
    method HandleMethodResponse(header: Header, payload: seq<byte>, dst: Address) returns (failed: bool)
      modifies this`issuedMethodCalls, this`txQueues
      ensures var key := CallKey(header.serviceId, header.methodId, header.clientId, header.sessionId, dst);
              var outcome := Responded(old(CallState()), key);
              && CallState() == MethodCalls.After(old(CallState()), MethodCalls.Response(key))
              && (failed <==> outcome.Lost?)
              && txQueues == match outcome
                   case Forwarded(client) =>
                     old(txQueues)[client := old(txQueues)[client]
                       + [CallMethodResponse(header.serviceId, header.methodId, header.clientId, header.sessionId,
                                             header.returnCode, dst, payload)]]
                   case _ => old(txQueues)
    {
      var key := CallKey(header.serviceId, header.methodId, header.clientId, header.sessionId, dst);
      if key !in issuedMethodCalls {
        return false;
      }
      var client := issuedMethodCalls[key];
      issuedMethodCalls := issuedMethodCalls - {key};
      if client !in txQueues {
        return true;
      }
      var message := CallMethodResponse(header.serviceId, header.methodId, header.clientId, header.sessionId,
                                        header.returnCode, dst, payload);
      txQueues := txQueues[client := txQueues[client] + [message]];
      return false;
    }

    // ----- Events -----

    /** A notification is passed on only with return code 0 and client id 0. */
    method HandleNotification(header: Header, payload: seq<byte>, src: Address) returns (order: seq<Key>)
      modifies this`txQueues
      ensures Visits(order, activeSubscriptions.Keys)
      ensures if header.returnCode != 0 || header.clientId != 0 then txQueues == old(txQueues)
              else
                Delivered(old(txQueues), txQueues, ReceivedEvent(header.serviceId, header.methodId, src, payload),
                          EventReceivers(order, requestedSubscriptions.lists, header.serviceId, header.methodId, src))
    {
      order := ListKeys(activeSubscriptions);
      if header.returnCode != 0 || header.clientId != 0 {
        return;
      }
      var message := ReceivedEvent(header.serviceId, header.methodId, src, payload);
      ghost var before, requested, receivers := txQueues, requestedSubscriptions.lists, multiset{};
      DeliveredNone(before, message);
      assert order[0..] == order;
      hide Delivered, MatchHolders, IsEventOf, AllSubscriptions;
      for i := 0 to |order|
        invariant requestedSubscriptions.lists == requested && activeSubscriptions == old(activeSubscriptions)
        invariant Delivered(before, txQueues, message, receivers)
        invariant EventReceivers(order, requested, header.serviceId, header.methodId, src)
               == receivers + EventReceivers(order[i..], requested, header.serviceId, header.methodId, src)
      {
        assert order[i..][0] == order[i] && order[i..][1..] == order[i + 1..];
        if IsEventOf(order[i], header.serviceId, header.methodId, src) {
          ghost var q, more := txQueues, MatchHolders(AllSubscriptions(requested), requested, order[i]);
          DeliverFor(order[i], message);
          DeliveredTwice(before, q, txQueues, message, receivers, more);
          receivers := receivers + more;
        }
      }
    }

    /** The loop over the requested subscriptions for one active subscription. */
    method DeliverFor(k: Key, message: ClientMessage)
      modifies this`txQueues
      ensures var requested := requestedSubscriptions.lists;
              Delivered(old(txQueues), txQueues, message, MatchHolders(AllSubscriptions(requested), requested, k))
    {
      var all := requestedSubscriptions.Subscriptions();
      ghost var before, requested, receivers := txQueues, requestedSubscriptions.lists, multiset{};
      DeliveredNone(before, message);
      assert all[0..] == all;
      hide Delivered, ClientsWith, AllSubscriptions, Backs, Requests.WellFormed, MatchHolders;
      for i := 0 to |all|
        invariant requestedSubscriptions.lists == requested
        invariant Delivered(before, txQueues, message, receivers)
        invariant MatchHolders(all, requested, k) == receivers + MatchHolders(all[i..], requested, k)
      {
        HoldersStep(all, i, requested, k);
        if Backs(all[i].key, k) {
          var clients := requestedSubscriptions.GetClientIds(all[i].key);
          ghost var q := txQueues;
          DeliverToClients(clients, message);
          DeliveredTwice(before, q, txQueues, message, receivers, multiset(clients));
          receivers := receivers + multiset(clients);
        }
      }
      NoMoreHolders(all[|all|..], requested, k);
    }

    /** The loop over the clients that hold one requested subscription. */
    method DeliverToClients(clients: seq<ClientId>, message: ClientMessage)
      modifies this`txQueues
      ensures Delivered(old(txQueues), txQueues, message, multiset(clients))
    {
      ghost var before := txQueues;
      DeliveredNone(before, message);
      hide Delivered;
      for i := 0 to |clients|
        invariant Delivered(before, txQueues, message, multiset(clients[..i]))
      {
        assert clients[..i + 1] == clients[..i] + [clients[i]];
        ghost var q := txQueues;
        DeliveredOne(txQueues, clients[i], message);
        if clients[i] in txQueues {
          txQueues := txQueues[clients[i] := txQueues[clients[i]] + [message]];
        }
        DeliveredTwice(before, q, txQueues, message, multiset(clients[..i]), multiset{clients[i]});
      }
      assert clients[..|clients|] == clients;
    }

    // ----- Service discovery -----

    method FindIndex(instance: ServiceInstance) returns (index: nat)
      ensures index == IndexOf(foundServices, instance)
    {
      assert foundServices[0..] == foundServices;
      for i := 0 to |foundServices|
        invariant IndexOf(foundServices, instance) == i + IndexOf(foundServices[i..], instance)
      {
        assert foundServices[i..][0] == foundServices[i] && foundServices[i..][1..] == foundServices[i + 1..];
        if foundServices[i].instance == instance {
          return i;
        }
      }
      return |foundServices|;
    }

    /** An offer refreshes the cache, and makes the daemon subscribe for every matching request; an
        exception of the printer ends the loop. */
    method HandleOfferedService(offer: ServiceInstance, now: real) returns (sent: seq<Datagram>)
      requires Usable(unicastSession.View())
      modifies this`foundServices, this`pendingSubscriptions, unicastSession
      ensures foundServices == Found.AfterOffer(old(foundServices), offer, now)
      ensures SubscriptionState() == AfterOffered(old(SubscriptionState()), offer, now)
      ensures var matches := MatchingSubscriptions(requestedSubscriptions.lists, offer.serviceId, offer.instanceId,
                                                   offer.majorVersion);
              && sent == SubscribeDatagrams(matches, offer, old(unicastSession.View())).0
              && unicastSession.View() == SubscribeDatagrams(matches, offer, old(unicastSession.View())).1
      ensures Usable(unicastSession.View())
    {
      var index := FindIndex(offer);
      if index == |foundServices| {
        foundServices := foundServices + [Found.Found(offer, now)];
      } else {
        foundServices := foundServices[index := Found.Found(foundServices[index].instance, now)];
      }
      var matches := requestedSubscriptions.HasSubscriptions(offer.serviceId, offer.instanceId, offer.majorVersion);
      sent := SubscribeAll(matches, offer, now);
    }

    method SubscribeAll(matches: seq<(Subscription, ClientId)>, offer: ServiceInstance, now: real) returns (sent: seq<Datagram>)
      requires Usable(unicastSession.View())
      modifies this`pendingSubscriptions, unicastSession
      ensures pendingSubscriptions == Pend(old(pendingSubscriptions), matches, offer, now)
      ensures sent == SubscribeDatagrams(matches, offer, old(unicastSession.View())).0
      ensures unicastSession.View() == SubscribeDatagrams(matches, offer, old(unicastSession.View())).1
      ensures Usable(unicastSession.View())
    {
      hide Printable, SubscribeBytes, PendingKey, SubscribeDatagrams;
      sent := [];
      ghost var session := unicastSession.View();
      assert matches[0..] == matches;
      for i := 0 to |matches|
        invariant Usable(unicastSession.View())
        invariant Pend(old(pendingSubscriptions), matches, offer, now) == Pend(pendingSubscriptions, matches[i..], offer, now)
        invariant SubscribeDatagrams(matches, offer, session).0
               == sent + SubscribeDatagrams(matches[i..], offer, unicastSession.View()).0
        invariant SubscribeDatagrams(matches, offer, session).1
               == SubscribeDatagrams(matches[i..], offer, unicastSession.View()).1
      {
        SubscribeStep(sent, matches, i, offer, unicastSession.View());
        assert matches[i..][0] == matches[i] && matches[i..][1..] == matches[i + 1..];
        var id, reboot := unicastSession.UpdateSession();
        var k, ttl := PendingKey(offer, matches[i].0.key), matches[i].0.ttl;
        if k !in pendingSubscriptions {
          pendingSubscriptions := pendingSubscriptions[k := Stamp(ttl, now)];
        }
        var bytes := SubscribeBytes(k, ttl, Session(id, reboot));
        PrintableExact(k, ttl, Session(id, reboot));
        if bytes.Err? {
          return;
        }
        sent := sent + [Datagram(offer.address.ip, bytes.value)];
      }
      NoMoreSubscribes(sent, matches[|matches|..], offer, unicastSession.View());
    }

    /** The first pending subscription found with the ids becomes active; which one is Python's
        choice and is returned. */
    method HandleSubscribeAck(entry: SdEntry, now: real) returns (choice: Option<Key>)
      requires entry.EventGroupEntry?
      modifies this`pendingSubscriptions, this`activeSubscriptions, this`txQueues
      ensures Promotable(old(SubscriptionState()), EntryGroup(entry), choice)
      ensures SubscriptionState() == AfterAck(old(SubscriptionState()), choice, now)
      ensures StateDelivered(old(txQueues), txQueues, requestedSubscriptions.lists, EntryGroup(entry), true)
    {
      hide StateDelivered;
      choice := PromotePending(entry, now);
      NotifySubscriptionState(EntryGroup(entry), true);
    }

    /** A negative acknowledgement only tells the clients; what is pending stays pending. */
    method HandleSubscribeNack(entry: SdEntry)
      requires entry.EventGroupEntry?
      modifies this`txQueues
      ensures StateDelivered(old(txQueues), txQueues, requestedSubscriptions.lists, EntryGroup(entry), false)
    {
      NotifySubscriptionState(EntryGroup(entry), false);
    }

    method PromotePending(entry: SdEntry, now: real) returns (choice: Option<Key>)
      requires entry.EventGroupEntry?
      modifies this`pendingSubscriptions, this`activeSubscriptions
      ensures Promotable(old(SubscriptionState()), EntryGroup(entry), choice)
      ensures SubscriptionState() == AfterAck(old(SubscriptionState()), choice, now)
    {
      choice := None;
      var order := ListKeys(pendingSubscriptions);
      for i := 0 to |order|
        invariant pendingSubscriptions == old(pendingSubscriptions) && activeSubscriptions == old(activeSubscriptions)
        invariant forall j :: 0 <= j < i ==> GroupOf(order[j]) != EntryGroup(entry)
      {
        if GroupOf(order[i]) == EntryGroup(entry) {
          var stamp := Stamp(pendingSubscriptions[order[i]].ttl, now);
          activeSubscriptions := activeSubscriptions - {order[i]};
          activeSubscriptions := activeSubscriptions[order[i] := stamp];
          pendingSubscriptions := pendingSubscriptions - {order[i]};
          return Some(order[i]);
        }
      }
    }

    /** The clients that requested the eventgroup are told. */
    method NotifySubscriptionState(id: GroupId, acknowledged: bool)
      modifies this`txQueues
      ensures StateDelivered(old(txQueues), txQueues, requestedSubscriptions.lists, id, acknowledged)
    {
      var message := SubscriptionStateChanged(id.serviceId, id.instanceId, id.eventGroupId, acknowledged);
      var matches := requestedSubscriptions.HasSubscriptions(id.serviceId, id.instanceId, id.majorVersion);
      ghost var before, receivers := txQueues, multiset{};
      DeliveredNone(before, message);
      assert matches[0..] == matches;
      hide Delivered, MatchingSubscriptions;
      for i := 0 to |matches|
        invariant Delivered(before, txQueues, message, receivers)
        invariant Requesters(matches, id.eventGroupId) == receivers + Requesters(matches[i..], id.eventGroupId)
      {
        assert matches[i..][0] == matches[i] && matches[i..][1..] == matches[i + 1..];
        if matches[i].0.key.eventGroup.id == id.eventGroupId {
          ghost var q := txQueues;
          var client := matches[i].1;
          DeliveredOne(txQueues, client, message);
          if client in txQueues {
            txQueues := txQueues[client := txQueues[client] + [message]];
          }
          DeliveredTwice(before, q, txQueues, message, receivers, multiset{client});
          receivers := receivers + multiset{client};
        }
      }
    }

    /** A subscription of another node: every matching service acknowledges it, and its client is told
        whether it is a renewal. The ids come from the wire. */
    method HandleSubscription(x: SdSubscription, nowMs: int) returns (sent: seq<Datagram>)
      requires Usable(unicastSession.View()) && Distinct(servicesToOffer.services) && IdsFit(x)
      modifies this`serviceSubscribers, this`txQueues, unicastSession
      ensures Entered(old(serviceSubscribers), serviceSubscribers, servicesToOffer.services, x, nowMs)
      ensures txQueues == AfterInbound(old(txQueues), servicesToOffer.services, old(serviceSubscribers), x, nowMs)
      ensures (sent, unicastSession.View()) == AckDatagrams(servicesToOffer.services, x, old(unicastSession.View()))
      ensures Usable(unicastSession.View())
      ensures forall service :: service in Answering(servicesToOffer.services, x) <==>
                && service in servicesToOffer.services
                && service.serviceId == x.serviceId && service.instanceId == x.instanceId
                && service.majorVersion == x.majorVersion
                && exists g :: g in service.eventGroups && g.id == x.eventGroupId
      ensures forall service ::
                var live := Lifetimes.Updated(ListFor(old(serviceSubscribers), service), nowMs);
                ListFor(serviceSubscribers, service) ==
                  if service in Answering(servicesToOffer.services, x)
                  then WithSubscriber(live, Who(x.eventGroupId, Address(x.endpoint.address4, x.endpoint.port)), x.ttl, nowMs)
                  else live
      ensures txQueues.Keys == old(txQueues).Keys
      ensures forall c :: c in txQueues ==>
                txQueues[c] == old(txQueues)[c]
                               + MessagesFor(Answering(servicesToOffer.services, x), old(serviceSubscribers), x, nowMs, c)
      ensures 1 <= x.ttl <= 0xFF_FFFF ==>
                && |sent| == |Answering(servicesToOffer.services, x)|
                && forall j :: 0 <= j < |sent| ==>
                     IsAckSent(x, sent[j], Given(UpdatedTimes(old(unicastSession.View()), j)))
    {
      SubscriptionAnswered(servicesToOffer.services, serviceSubscribers, txQueues, x, unicastSession.View(), nowMs);
      hide *;
      sent := AnswerSubscription(x, nowMs);
    }

    /** The loops over the subscriber lists and the offered services. */
    method AnswerSubscription(x: SdSubscription, nowMs: int) returns (sent: seq<Datagram>)
      requires Usable(unicastSession.View()) && Distinct(servicesToOffer.services) && IdsFit(x)
      modifies this`serviceSubscribers, this`txQueues, unicastSession
      ensures Entered(old(serviceSubscribers), serviceSubscribers, servicesToOffer.services, x, nowMs)
      ensures txQueues == AfterInbound(old(txQueues), servicesToOffer.services, old(serviceSubscribers), x, nowMs)
      ensures (sent, unicastSession.View()) == AckDatagrams(servicesToOffer.services, x, old(unicastSession.View()))
      ensures Usable(unicastSession.View())
    {
      ghost var lists, queues, session := serviceSubscribers, txQueues, unicastSession.View();
      serviceSubscribers := map s | s in serviceSubscribers :: Lifetimes.Updated(serviceSubscribers[s], nowMs);
      EnteredNone(lists, x, nowMs);
      sent := [];
      var services := servicesToOffer.services;
      assert services[0..] == services && services[..0] == [];
      hide Subscribable, AckBytes, AckDatagrams, Lifetimes.Updated, WithSubscriber, Entered, Distinct, AfterInbound;
      for i := 0 to |services|
        invariant Usable(unicastSession.View())
        invariant Entered(lists, serviceSubscribers, services[..i], x, nowMs)
        invariant AfterInbound(queues, services, lists, x, nowMs) == AfterInbound(txQueues, services[i..], lists, x, nowMs)
        invariant AckDatagrams(services, x, session).0 == sent + AckDatagrams(services[i..], x, unicastSession.View()).0
        invariant AckDatagrams(services, x, session).1 == AckDatagrams(services[i..], x, unicastSession.View()).1
      {
        AckStep(sent, services, i, x, unicastSession.View());
        InboundStep(txQueues, services, i, lists, x, nowMs);
        OneMore(services, i);
        if Subscribable(services[i], x) {
          NotBefore(services, i);
          EnteredOne(lists, serviceSubscribers, services[..i], services[i], x, nowMs);
          var bytes := AcknowledgeSubscription(services[i], x, nowMs);
          sent := sent + [Datagram(x.endpoint.address4, bytes)];
        } else {
          EnteredSkip(lists, serviceSubscribers, services[..i], services[i], x, nowMs);
        }
      }
      assert services[..|services|] == services;
      NoMoreAcks(sent, services[|services|..], x, unicastSession.View());
      NoMoreInbound(txQueues, services[|services|..], lists, x, nowMs);
    }

    /** What one matching service does with a subscription. */
    method AcknowledgeSubscription(service: ServiceToOffer, x: SdSubscription, nowMs: int) returns (bytes: seq<byte>)
      requires Usable(unicastSession.View()) && Subscribable(service, x) && IdsFit(x)
      modifies this`serviceSubscribers, this`txQueues, unicastSession
      ensures var subscribers := ListFor(old(serviceSubscribers), service);
              && serviceSubscribers == old(serviceSubscribers)[service := WithSubscriber(subscribers, WhoOf(x), x.ttl, nowMs)]
              && txQueues == Told(old(txQueues), service, x, Lifetimes.Contains(subscribers, WhoOf(x)))
      ensures unicastSession.View() == SessionHandler.Updated(old(unicastSession.View())) && Usable(unicastSession.View())
      ensures AckBytes(service, x, Given(old(unicastSession.View()))) == Ok(bytes)
    {
      hide ToSdBuffer, WithSubscriber, Lifetimes.Contains;
      var id, reboot := unicastSession.UpdateSession();
      AckPrints(AckGroup(service, x), x.ttl, id, reboot);
      bytes := AckBytes(service, x, Session(id, reboot)).value;
      var subscribers := if service in serviceSubscribers then serviceSubscribers[service] else [];
      var isRenewal := Lifetimes.Contains(subscribers, WhoOf(x));
      serviceSubscribers := serviceSubscribers[service := WithSubscriber(subscribers, WhoOf(x), x.ttl, nowMs)];
      if service.client in txQueues {
        txQueues := txQueues[service.client := txQueues[service.client] + [InboundMessage(service, x, isRenewal)]];
      }
    }

    /** One turn of the TTL checker. Removing an expired active subscription raises, because of an
        attribute the log line reads, and the rest of the turn does not happen. */
    method CheckServiceTtl(now: real) returns (gone: Option<Key>)
      modifies this`pendingSubscriptions, this`activeSubscriptions, this`foundServices
      ensures match gone
              case None =>
                && SubscriptionState() == AfterPendingExpiry(old(SubscriptionState()), now)
                && foundServices == Pruned(old(foundServices), now)
                && forall k :: k in activeSubscriptions ==>
                     now - activeSubscriptions[k].lastUpdate <= activeSubscriptions[k].ttl as real
              case Some(k) =>
                && k in old(activeSubscriptions)
                && now - old(activeSubscriptions)[k].lastUpdate > old(activeSubscriptions)[k].ttl as real
                && SubscriptionState() == AfterActiveExpiry(AfterPendingExpiry(old(SubscriptionState()), now), {k})
                && foundServices == old(foundServices)
    {
      pendingSubscriptions := map k | k in pendingSubscriptions && now - pendingSubscriptions[k].lastUpdate <= 10.0
                                :: pendingSubscriptions[k];
      var order := ListKeys(activeSubscriptions);
      for i := 0 to |order|
        invariant pendingSubscriptions == AfterPendingExpiry(old(SubscriptionState()), now).pending
        invariant activeSubscriptions == old(activeSubscriptions) && foundServices == old(foundServices)
        invariant forall j :: 0 <= j < i ==>
                    now - activeSubscriptions[order[j]].lastUpdate <= activeSubscriptions[order[j]].ttl as real
      {
        if now - activeSubscriptions[order[i]].lastUpdate > activeSubscriptions[order[i]].ttl as real {
          activeSubscriptions := activeSubscriptions - {order[i]};
          return Some(order[i]);
        }
      }
      PruneFoundServices(now);
      return None;
    }

    method PruneFoundServices(now: real)
      modifies this`foundServices
      ensures foundServices == Pruned(old(foundServices), now)
    {
      var kept: seq<Found.Found> := [];
      assert foundServices[0..] == foundServices;
      for i := 0 to |foundServices|
        invariant foundServices == old(foundServices)
        invariant Pruned(foundServices, now) == kept + Pruned(foundServices[i..], now)
      {
        PrunedStep(kept, foundServices, i, now);
        if !(now - foundServices[i].timestamp > foundServices[i].instance.ttl as real) {
          kept := kept + [foundServices[i]];
        }
      }
      foundServices := kept;
    }

    method NewClientConnected(client: ClientId)
      modifies this`txQueues
      ensures txQueues == old(txQueues)[client := []]
      ensures CallState() == MethodCalls.After(old(CallState()), MethodCalls.Connect(client))
    {
      txQueues := txQueues[client := []];
    }
  }

  lemma AllReleasedStep(s: Sockets, client: ClientId, endpoints: seq<Endpoint>)
    ensures AllReleased(s, client, endpoints)
         == if endpoints == [] then s else AllReleased(ServerReleased(s, client, endpoints[0]), client, endpoints[1..])
  {
  }

  lemma SomeMember(s: set<int>)
    ensures s == {} || exists x :: x in s
  {
    if forall x :: x !in s {
      assert s == {};
    }
  }

  /** list(set): the keys in some order. */
  method ListKeys<T>(m: map<Key, T>) returns (order: seq<Key>)
    ensures Visits(order, m.Keys)
  {
    order := [];
    var rest := m.Keys;
    while rest != {}
      invariant rest <= m.Keys
      invariant Visits(order, m.Keys - rest)
      decreases rest
    {
      var k :| k in rest;
      rest := rest - {k};
      order := order + [k];
    }
  }

  lemma HoldersStep(all: seq<Subscription>, i: nat, requested: seq<ClientList>, k: Key)
    requires i < |all|
    ensures MatchHolders(all[i..], requested, k)
         == (if Backs(all[i].key, k) then multiset(ClientsWith(requested, all[i].key)) else multiset{})
            + MatchHolders(all[i + 1..], requested, k)
  {
    hide Backs, ClientsWith;
    assert all[i..][0] == all[i] && all[i..][1..] == all[i + 1..];
  }

  lemma NoMoreHolders(all: seq<Subscription>, requested: seq<ClientList>, k: Key)
    requires all == []
    ensures MatchHolders(all, requested, k) == multiset{}
  {
  }

  /** What the handling of a subscription comes to, in terms of ids and eventgroups. */
  lemma SubscriptionAnswered(services: seq<ServiceToOffer>, lists: map<ServiceToOffer, seq<EventGroupSubscriber>>,
                             queues: Queues, x: SdSubscription, session: Session, nowMs: int)
    requires Usable(session) && IdsFit(x)
    ensures forall service :: service in Answering(services, x) <==>
              && service in services && service.serviceId == x.serviceId && service.instanceId == x.instanceId
              && service.majorVersion == x.majorVersion
              && exists g :: g in service.eventGroups && g.id == x.eventGroupId
    ensures forall after, service {:trigger Entered(lists, after, services, x, nowMs), ListFor(after, service)} ::
              Entered(lists, after, services, x, nowMs) ==>
                var live := Lifetimes.Updated(ListFor(lists, service), nowMs);
                ListFor(after, service) ==
                  if service in Answering(services, x)
                  then WithSubscriber(live, Who(x.eventGroupId, Address(x.endpoint.address4, x.endpoint.port)), x.ttl, nowMs)
                  else live
    ensures var after := AfterInbound(queues, services, lists, x, nowMs);
            && after.Keys == queues.Keys
            && forall c :: c in queues ==> after[c] == queues[c] + MessagesFor(Answering(services, x), lists, x, nowMs, c)
    ensures var sent := AckDatagrams(services, x, session).0;
            1 <= x.ttl <= 0xFF_FFFF ==>
              && |sent| == |Answering(services, x)|
              && forall j :: 0 <= j < |sent| ==> IsAckSent(x, sent[j], Given(UpdatedTimes(session, j)))
  {
    hide *;
    AnsweringMembers(services, x);
    ToldExactly(queues, services, lists, x, nowMs);
    if 1 <= x.ttl <= 0xFF_FFFF {
      AcksExact(services, x, session);
    }
    forall after, service | Entered(lists, after, services, x, nowMs)
      ensures var live := Lifetimes.Updated(ListFor(lists, service), nowMs);
              ListFor(after, service) ==
                if service in Answering(services, x)
                then WithSubscriber(live, Who(x.eventGroupId, Address(x.endpoint.address4, x.endpoint.port)), x.ttl, nowMs)
                else live
    {
      EnteredExactly(lists, after, services, x, nowMs, service);
    }
  }

  lemma OneMore<T>(list: seq<T>, i: nat)
    requires i < |list|
    ensures list[..i + 1] == list[..i] + [list[i]]
  {
  }

  lemma NoMoreSubscribes(sent: seq<Datagram>, matches: seq<(Subscription, ClientId)>, offer: ServiceInstance, session: Session)
    requires matches == []
    ensures sent + SubscribeDatagrams(matches, offer, session).0 == sent
    ensures SubscribeDatagrams(matches, offer, session).1 == session
  {
  }

  lemma NoMoreStops(sent: seq<(Option<Address>, seq<byte>)>, order: seq<Key>, stopped: Key, session: Session)
    requires order == []
    ensures sent + StopDatagrams(order, stopped, session).0 == sent
    ensures StopDatagrams(order, stopped, session).1 == session
  {
  }

  /** Every connected client has been told once for each of its requests for the eventgroup. */
  ghost predicate StateDelivered(before: Queues, after: Queues, requested: seq<ClientList>, id: GroupId,
                                 acknowledged: bool)
  {
    Delivered(before, after, SubscriptionStateChanged(id.serviceId, id.instanceId, id.eventGroupId, acknowledged),
              Requesters(MatchingSubscriptions(requested, id.serviceId, id.instanceId, id.majorVersion), id.eventGroupId))
  }

  lemma NoMoreAcks(sent: seq<Datagram>, services: seq<ServiceToOffer>, x: SdSubscription, session: Session)
    requires services == []
    ensures sent + AckDatagrams(services, x, session).0 == sent
    ensures AckDatagrams(services, x, session).1 == session
  {
  }
}
