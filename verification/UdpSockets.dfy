/** The UDP sockets of the daemon: which are open, and who holds references to them in the two
    endpoint storages, over every run of the client handlers. */
module UdpSockets {
  import opened Bytes
  import opened SdMessages
  import opened OfferServiceStorage
  import opened SomeipEndpointStorage
  import opened SdAdvertise

  datatype Sockets = Sockets(server: seq<Owner>, client: seq<Owner>, open: set<Endpoint>, created: nat,
                             services: seq<ServiceToOffer>)

  const NO_SOCKETS := Sockets([], [], {}, 0, [])

  // ----- The parts of the handlers -----

  /** The endpoint at an address; those opened for services come first. */
  function UdpEndpointAt(s: Sockets, address: Address): Option<Endpoint> {
    var found := EndpointAt(s.server, address);
    if found.Some? then found else EndpointAt(s.client, address)
  }

  predicate InUse(s: Sockets, e: Endpoint) {
    e in AllEndpoints(s.server) || e in AllEndpoints(s.client)
  }

  /** The address a bind ends at: with port 0 the operating system chooses. */
  function Bound(address: Address, chosen: int): Address {
    if address.port == 0 then Address(address.ip, chosen) else address
  }

  function NewEndpoint(s: Sockets, address: Address, chosen: int): Endpoint {
    Endpoint(s.created, Bound(address, chosen))
  }

  function Opened(s: Sockets, address: Address, chosen: int): Sockets {
    s.(open := s.open + {NewEndpoint(s, address, chosen)}, created := s.created + 1)
  }

  /** Dropping one reference; the socket is closed once there are no others. */
  function ServerReleased(s: Sockets, client: ClientId, e: Endpoint): Sockets {
    var t := s.(server := WithoutEndpoint(s.server, client, e));
    if InUse(t, e) then t else t.(open := t.open - {e})
  }

  function AllReleased(s: Sockets, client: ClientId, endpoints: seq<Endpoint>): Sockets
    decreases endpoints
  {
    if endpoints == [] then s
    else AllReleased(ServerReleased(s, client, endpoints[0]), client, endpoints[1..])
  }

  /** A client asking for any port keeps the first endpoint it already has at that IP address. */
  function FirstWithIp(endpoints: seq<Endpoint>, ip: Ip4): Option<Endpoint> {
    if endpoints == [] then None
    else if endpoints[0].address.ip == ip then Some(endpoints[0])
    else FirstWithIp(endpoints[1..], ip)
  }

  function ReceptionEndpoint(s: Sockets, client: ClientId, address: Address): Option<Endpoint> {
    if address.port == 0 then FirstWithIp(EndpointsOf(s.client, client), address.ip) else UdpEndpointAt(s, address)
  }

  // ----- What the handlers do to the sockets -----

  /** The endpoint a subscription is received on, and the state with it. */
  function AfterSubscribe(s: Sockets, client: ClientId, address: Address, chosen: int): (Sockets, Endpoint) {
    match ReceptionEndpoint(s, client, address)
    case Some(e) =>
      (if e in EndpointsOf(s.client, client) then s else s.(client := WithEndpoint(s.client, client, e)), e)
    case None =>
      var e, t := NewEndpoint(s, address, chosen), Opened(s, address, chosen);
      (t.(client := WithEndpoint(t.client, client, e)), e)
  }

  function AfterOffer(s: Sockets, service: ServiceToOffer, chosen: int): Sockets {
    var t := s.(services := Added(s.services, service));
    if !service.HasUdp() || EndpointAt(t.server, service.address).Some? then t
    else
      match UdpEndpointAt(t, service.address)
      case Some(e) => t.(server := WithEndpoint(t.server, service.client, e))
      case None =>
        var e, u := NewEndpoint(t, service.address, chosen), Opened(t, service.address, chosen);
        u.(server := WithEndpoint(u.server, service.client, e))
  }

  predicate StillOffered(services: seq<ServiceToOffer>, address: Address) {
    exists s :: s in services && s.HasUdp() && s.address == address
  }

  /** A service whose stop cannot be announced is removed, but keeps its socket. */
  function AfterStopOffer(s: Sockets, service: ServiceToOffer): Sockets {
    var t := s.(services := Removed(s.services, service));
    var found := EndpointAt(t.server, service.address);
    if Announceable(service) && service.HasUdp() && found.Some? && !StillOffered(t.services, service.address)
       && found.value in EndpointsOf(t.server, service.client)
    then ServerReleased(t, service.client, found.value)
    else t
  }

  /** The endpoint a UDP method call is sent from, and the state with it. */
  function AfterCall(s: Sockets, client: ClientId, address: Address, chosen: int): (Sockets, Endpoint) {
    var shared := if address.port != 0 then UdpEndpointAt(s, address) else None;
    var t := if shared.Some? && EndpointAt(s.client, address) == None
             then s.(client := WithEndpoint(s.client, client, shared.value)) else s;
    match EndpointAt(t.client, address)
    case Some(e) => (t, e)
    case None =>
      var e, u := NewEndpoint(t, address, chosen), Opened(t, address, chosen);
      (u.(client := WithEndpoint(u.client, client, e)), e)
  }

  /** The endpoints a client received or called on stay behind. */
  function AfterDisconnect(s: Sockets, client: ClientId): Sockets {
    var t := s.(services := WithoutClient(s.services, client));
    AllReleased(t, client, EndpointsOf(t.server, client))
  }

  // ----- Runs -----

  datatype Step =
    | Subscribe(client: ClientId, address: Address, chosen: int)
    | Offer(service: ServiceToOffer, chosen: int)
    | StopOffer(service: ServiceToOffer)
    | Call(client: ClientId, address: Address, chosen: int)
    | Disconnect(client: ClientId)

  function After(s: Sockets, step: Step): Sockets {
    match step
    case Subscribe(client, address, chosen) => AfterSubscribe(s, client, address, chosen).0
    case Offer(service, chosen) => AfterOffer(s, service, chosen)
    case StopOffer(service) => AfterStopOffer(s, service)
    case Call(client, address, chosen) => AfterCall(s, client, address, chosen).0
    case Disconnect(client) => AfterDisconnect(s, client)
  }

  /** The address a step asks the operating system for, if it opens a socket at all. */
  function Requested(s: Sockets, step: Step): Option<Address> {
    match step
    case Subscribe(client, address, _) =>
      if ReceptionEndpoint(s, client, address) == None then Some(address) else None
    case Offer(service, _) =>
      if service.HasUdp() && UdpEndpointAt(s, service.address) == None then Some(service.address) else None
    case Call(_, address, _) =>
      if address.port == 0 || UdpEndpointAt(s, address) == None then Some(address) else None
    case _ => None
  }

  predicate Free(s: Sockets, address: Address) {
    forall e :: e in s.open ==> e.address != address
  }

  /** The operating system chooses a port that is not 0 and that no open socket has. */
  predicate ChoiceIsFree(s: Sockets, step: Step) {
    step.Subscribe? || step.Offer? || step.Call? ==>
      var ip := if step.Offer? then step.service.address.ip else step.address.ip;
      step.chosen != 0 && Free(s, Address(ip, step.chosen))
  }

  function Run(steps: seq<Step>): Sockets {
    if steps == [] then NO_SOCKETS else After(Run(steps[..|steps| - 1]), steps[|steps| - 1])
  }

  predicate Possible(steps: seq<Step>) {
    steps != [] ==>
      && Possible(steps[..|steps| - 1])
      && ChoiceIsFree(Run(steps[..|steps| - 1]), steps[|steps| - 1])
  }

  // ----- Ownership -----

  ghost predicate NoRepeats<T(!new)>(list: seq<T>) {
    forall i, j :: 0 <= i < j < |list| ==> list[i] != list[j]
  }

  ghost predicate Tidy(owners: seq<Owner>) {
    && WellFormed(owners)
    && forall client :: NoRepeats(EndpointsOf(owners, client))
  }

  ghost predicate SingleOwners(owners: seq<Owner>) {
    forall c, d, e :: e in EndpointsOf(owners, c) && e in EndpointsOf(owners, d) ==> c == d
  }

  /** No two open sockets share an address. */
  ghost predicate DistinctAddresses(open: set<Endpoint>) {
    forall e, f :: e in open && f in open && e.address == f.address ==> e == f
  }

  ghost predicate Numbered(open: set<Endpoint>, created: nat) {
    forall e :: e in open ==> e.address.port != 0 && e.id < created
  }

  /** A socket is open exactly when some client owns it in one of the two storages. */
  ghost predicate OpenIffOwned(s: Sockets) {
    forall e :: e in s.open <==> OwnedIn(s.server, e) || OwnedIn(s.client, e)
  }

  ghost predicate Inv(s: Sockets) {
    && Tidy(s.server) && Tidy(s.client) && SingleOwners(s.server)
    && OpenIffOwned(s) && DistinctAddresses(s.open) && Numbered(s.open, s.created) && Distinct(s.services)
  }

  lemma OwnedAfterAdding(owners: seq<Owner>, client: ClientId, e: Endpoint)
    requires Tidy(owners) && e !in EndpointsOf(owners, client)
    ensures Tidy(WithEndpoint(owners, client, e))
    ensures forall f :: OwnedIn(WithEndpoint(owners, client, e), f) <==> OwnedIn(owners, f) || f == e
  {
    var after := WithEndpoint(owners, client, e);
    WithEndpointWellFormed(owners, client, e);
    hide WellFormed, WithEndpoint, EndpointsOf;
    forall c
      ensures EndpointsOf(after, c) == EndpointsOf(owners, c) + if c == client then [e] else []
      ensures NoRepeats(EndpointsOf(after, c))
    {
      WithEndpointLists(owners, client, e, c);
      assert NoRepeats(EndpointsOf(owners, c));
    }
    forall f ensures OwnedIn(after, f) <==> OwnedIn(owners, f) || f == e {
      assert e in EndpointsOf(after, client);
      if c :| f in EndpointsOf(owners, c) {
        assert f in EndpointsOf(after, c);
      }
      if c :| f in EndpointsOf(after, c) {
        assert f == e || f in EndpointsOf(owners, c);
      }
    }
  }

  lemma ListsAfterRemoving(owners: seq<Owner>, client: ClientId, e: Endpoint)
    requires Tidy(owners)
    ensures Tidy(WithoutEndpoint(owners, client, e))
    ensures forall c, f :: f in EndpointsOf(WithoutEndpoint(owners, client, e), c)
                      <==> f in EndpointsOf(owners, c) && !(c == client && f == e)
  {
    var after := WithoutEndpoint(owners, client, e);
    WithoutEndpointWellFormed(owners, client, e);
    hide WellFormed, WithoutEndpoint, EndpointsOf, RemoveFirst;
    assert WellFormed(owners);
    forall c
      ensures NoRepeats(EndpointsOf(after, c))
      ensures forall f :: f in EndpointsOf(after, c) <==> f in EndpointsOf(owners, c) && !(c == client && f == e)
    {
      assert NoRepeats(EndpointsOf(owners, c));
      WithoutEndpointLists(owners, client, e, c);
      RemoveFirstMembers(EndpointsOf(owners, c), e);
    }
  }

  /** A further client may share an open socket. */
  lemma ClientShares(s: Sockets, client: ClientId, e: Endpoint)
    requires Inv(s) && e in s.open && e !in EndpointsOf(s.client, client)
    ensures Inv(s.(client := WithEndpoint(s.client, client, e)))
  {
    hide WithEndpoint, EndpointsOf, Tidy, SingleOwners, DistinctAddresses, Numbered, Distinct, OwnedIn;
    OwnedAfterAdding(s.client, client, e);
  }

  lemma SingleAfterAdding(owners: seq<Owner>, client: ClientId, e: Endpoint)
    requires SingleOwners(owners) && !OwnedIn(owners, e)
    ensures SingleOwners(WithEndpoint(owners, client, e))
  {
    hide WithEndpoint, EndpointsOf;
    var after := WithEndpoint(owners, client, e);
    forall c, d, f | f in EndpointsOf(after, c) && f in EndpointsOf(after, d) ensures c == d {
      WithEndpointLists(owners, client, e, c);
      WithEndpointLists(owners, client, e, d);
      if f == e {
        assert e !in EndpointsOf(owners, c) && e !in EndpointsOf(owners, d);
      }
    }
  }

  /** A service may be offered on a socket opened for a client. */
  lemma ServerShares(s: Sockets, client: ClientId, e: Endpoint)
    requires Inv(s) && e in s.open && !OwnedIn(s.server, e)
    ensures Inv(s.(server := WithEndpoint(s.server, client, e)))
  {
    hide WithEndpoint, EndpointsOf, Tidy, SingleOwners, DistinctAddresses, Numbered, Distinct;
    assert e !in EndpointsOf(s.server, client);
    OwnedAfterAdding(s.server, client, e);
    SingleAfterAdding(s.server, client, e);
    hide OwnedIn;
  }

  /** A new socket is not owned yet, and its address is free. */
  lemma NewIsNew(s: Sockets, address: Address, chosen: int)
    requires Inv(s) && chosen != 0 && Free(s, Bound(address, chosen))
    ensures var e := NewEndpoint(s, address, chosen);
            && !OwnedIn(s.server, e) && !OwnedIn(s.client, e)
            && var t := Opened(s, address, chosen);
            DistinctAddresses(t.open) && Numbered(t.open, t.created)
  {
    hide OwnedIn;
  }

  lemma ClientOpens(s: Sockets, client: ClientId, address: Address, chosen: int)
    requires Inv(s) && chosen != 0 && Free(s, Bound(address, chosen))
    ensures var e, t := NewEndpoint(s, address, chosen), Opened(s, address, chosen);
            Inv(t.(client := WithEndpoint(t.client, client, e)))
  {
    var e := NewEndpoint(s, address, chosen);
    NewIsNew(s, address, chosen);
    assert e !in EndpointsOf(s.client, client);
    OwnedAfterAdding(s.client, client, e);
    hide WithEndpoint, EndpointsOf, Tidy, SingleOwners, DistinctAddresses, Numbered, Distinct, OwnedIn;
  }

  lemma ServerOpens(s: Sockets, client: ClientId, address: Address, chosen: int)
    requires Inv(s) && chosen != 0 && Free(s, Bound(address, chosen))
    ensures var e, t := NewEndpoint(s, address, chosen), Opened(s, address, chosen);
            Inv(t.(server := WithEndpoint(t.server, client, e)))
  {
    var e := NewEndpoint(s, address, chosen);
    NewIsNew(s, address, chosen);
    assert e !in EndpointsOf(s.server, client);
    OwnedAfterAdding(s.server, client, e);
    SingleAfterAdding(s.server, client, e);
    hide WithEndpoint, EndpointsOf, Tidy, SingleOwners, DistinctAddresses, Numbered, Distinct, OwnedIn;
  }

  lemma OwnedAfterRemoving(owners: seq<Owner>, client: ClientId, e: Endpoint)
    requires Tidy(owners) && SingleOwners(owners) && e in EndpointsOf(owners, client)
    ensures Tidy(WithoutEndpoint(owners, client, e)) && SingleOwners(WithoutEndpoint(owners, client, e))
    ensures forall f :: OwnedIn(WithoutEndpoint(owners, client, e), f) <==> OwnedIn(owners, f) && f != e
  {
    var after := WithoutEndpoint(owners, client, e);
    ListsAfterRemoving(owners, client, e);
    hide WithoutEndpoint, EndpointsOf, Tidy;
    forall f ensures OwnedIn(after, f) <==> OwnedIn(owners, f) && f != e {
      if c :| f in EndpointsOf(owners, c) {
        assert f != e ==> f in EndpointsOf(after, c);
      }
    }
  }

  /** Releasing closes exactly the sockets nobody owns any more. */
  lemma ServerReleases(s: Sockets, client: ClientId, e: Endpoint)
    requires Inv(s) && e in EndpointsOf(s.server, client)
    ensures Inv(ServerReleased(s, client, e))
  {
    var t := s.(server := WithoutEndpoint(s.server, client, e));
    OwnedAfterRemoving(s.server, client, e);
    assert WellFormed(t.server) && WellFormed(t.client);
    AllEndpointsOwned(t.server, e);
    AllEndpointsOwned(t.client, e);
    assert InUse(t, e) <==> OwnedIn(t.server, e) || OwnedIn(t.client, e);
    hide WithoutEndpoint, EndpointsOf, AllEndpoints, Tidy, Distinct, SingleOwners, OwnedIn, InUse;
  }

  // ----- Every run -----

  lemma UdpEndpointIsOpen(s: Sockets, address: Address)
    requires Inv(s)
    ensures UdpEndpointAt(s, address) == None <==> Free(s, address)
    ensures UdpEndpointAt(s, address).Some? ==>
              UdpEndpointAt(s, address).value in s.open && UdpEndpointAt(s, address).value.address == address
    ensures EndpointAt(s.server, address) == None ==>
              UdpEndpointAt(s, address).Some? ==> !OwnedIn(s.server, UdpEndpointAt(s, address).value)
  {
    hide EndpointAt, EndpointsOf;
    if EndpointAt(s.server, address).Some? {
      var client := EndpointAtFound(s.server, address);
      assert OwnedIn(s.server, EndpointAt(s.server, address).value);
    } else if EndpointAt(s.client, address).Some? {
      var client := EndpointAtFound(s.client, address);
      assert OwnedIn(s.client, EndpointAt(s.client, address).value);
    }
    forall client, e | EndpointAt(s.server, address) == None && e in EndpointsOf(s.server, client)
      ensures e.address != address
    {
      EndpointAtNone(s.server, address, client, e);
    }
    forall client, e | EndpointAt(s.client, address) == None && e in EndpointsOf(s.client, client)
      ensures e.address != address
    {
      EndpointAtNone(s.client, address, client, e);
    }
  }

  lemma {:induction false} FirstWithIpOwned(endpoints: seq<Endpoint>, ip: Ip4)
    ensures match FirstWithIp(endpoints, ip)
            case Some(e) => e in endpoints && e.address.ip == ip
            case None => forall e :: e in endpoints ==> e.address.ip != ip
  {
    if endpoints != [] && endpoints[0].address.ip != ip {
      FirstWithIpOwned(endpoints[1..], ip);
      assert endpoints == [endpoints[0]] + endpoints[1..];
    }
  }

  /** A bind to a named port never collides with an open socket, and so every step keeps the invariant. */
  lemma RequestedIsFree(s: Sockets, step: Step)
    requires Inv(s) && Requested(s, step).Some? && Requested(s, step).value.port != 0
    ensures Free(s, Requested(s, step).value)
  {
    hide Inv, UdpEndpointAt, Free;
    UdpEndpointIsOpen(s, Requested(s, step).value);
  }

  lemma OwnedIsOpen(s: Sockets, client: ClientId, e: Endpoint)
    requires Inv(s) && (e in EndpointsOf(s.client, client) || e in EndpointsOf(s.server, client))
    ensures e in s.open && e.address.port != 0
  {
    if e in EndpointsOf(s.client, client) {
      assert OwnedIn(s.client, e);
    } else {
      assert OwnedIn(s.server, e);
    }
  }

  /** The client ends up owning an open endpoint at the address, or at any port of the IP address. */
  lemma SubscribeKeeps(s: Sockets, client: ClientId, address: Address, chosen: int)
    requires Inv(s) && ChoiceIsFree(s, Subscribe(client, address, chosen))
    ensures var (t, e) := AfterSubscribe(s, client, address, chosen);
            && Inv(t) && e in t.open && e in EndpointsOf(t.client, client) && e.address.ip == address.ip
            && (address.port != 0 ==> e.address == address)
            && t.server == s.server && t.services == s.services
            && t.open == s.open + {e}
  {
    hide Inv, Free;
    var found := ReceptionEndpoint(s, client, address);
    UdpEndpointIsOpen(s, address);
    FirstWithIpOwned(EndpointsOf(s.client, client), address.ip);
    if found.Some? {
      if address.port == 0 {
        OwnedIsOpen(s, client, found.value);
      }
      WithEndpointLists(s.client, client, found.value, client);
      if found.value !in EndpointsOf(s.client, client) {
        ClientShares(s, client, found.value);
      }
    } else {
      ClientOpens(s, client, address, chosen);
      WithEndpointLists(s.client, client, NewEndpoint(s, address, chosen), client);
    }
  }

  /** A call is sent from an open endpoint at the address, or at any port of the IP address. */
  lemma CallKeeps(s: Sockets, client: ClientId, address: Address, chosen: int)
    requires Inv(s) && ChoiceIsFree(s, Call(client, address, chosen))
    ensures var (t, e) := AfterCall(s, client, address, chosen);
            && Inv(t) && e in t.open && e.address.ip == address.ip
            && (address.port != 0 ==> e.address == address)
            && t.server == s.server && t.services == s.services
            && t.open == s.open + {e}
  {
    hide Inv, Free;
    UdpEndpointIsOpen(s, address);
    var own, shared := EndpointAt(s.client, address), UdpEndpointAt(s, address);
    if own.Some? {
      var owner := EndpointAtFoundIn(s, address);
      OwnedIsOpen(s, owner, own.value);
    } else if address.port != 0 && shared.Some? {
      if shared.value in EndpointsOf(s.client, client) {
        EndpointAtNone(s.client, address, client, shared.value);
      }
      ClientShares(s, client, shared.value);
      SharedIsFound(s.client, client, shared.value);
      var t := s.(client := WithEndpoint(s.client, client, shared.value));
      var owner := EndpointAtFoundIn(t, address);
      OwnedIsOpen(t, owner, EndpointAt(t.client, address).value);
    } else {
      ClientOpens(s, client, address, chosen);
    }
  }

  lemma EndpointAtFoundIn(s: Sockets, address: Address) returns (owner: ClientId)
    requires Inv(s) && EndpointAt(s.client, address).Some?
    ensures EndpointAt(s.client, address).value in EndpointsOf(s.client, owner)
    ensures EndpointAt(s.client, address).value.address == address
  {
    owner := EndpointAtFound(s.client, address);
  }

  lemma SharedIsFound(owners: seq<Owner>, client: ClientId, e: Endpoint)
    ensures EndpointAt(WithEndpoint(owners, client, e), e.address).Some?
  {
    var after := WithEndpoint(owners, client, e);
    WithEndpointLists(owners, client, e, client);
    if EndpointAt(after, e.address) == None {
      EndpointAtNone(after, e.address, client, e);
    }
  }

  lemma OfferKeeps(s: Sockets, service: ServiceToOffer, chosen: int)
    requires Inv(s) && ChoiceIsFree(s, Offer(service, chosen))
    ensures Inv(AfterOffer(s, service, chosen))
  {
    AddedProperties(s.services, service);
    var t := s.(services := Added(s.services, service));
    assert Inv(t);
    hide Inv, Free, ServiceToOffer.HasUdp, Added;
    UdpEndpointIsOpen(t, service.address);
    if service.HasUdp() && EndpointAt(t.server, service.address) == None {
      if UdpEndpointAt(t, service.address).Some? {
        ServerShares(t, service.client, UdpEndpointAt(t, service.address).value);
      } else {
        assert Free(t, Bound(service.address, chosen)) by {
          FreeAlike(s, t, Bound(service.address, chosen));
        }
        ServerOpens(t, service.client, service.address, chosen);
      }
    }
  }

  lemma FreeAlike(s: Sockets, t: Sockets, address: Address)
    requires s.open == t.open
    ensures Free(s, address) == Free(t, address)
  {
  }

  lemma StopOfferKeeps(s: Sockets, service: ServiceToOffer)
    requires Inv(s)
    ensures Inv(AfterStopOffer(s, service))
  {
    RemovedProperties(s.services, service);
    var t := s.(services := Removed(s.services, service));
    assert Inv(t);
    hide Inv, StillOffered, ServiceToOffer.HasUdp, ServerReleased, Removed;
    var found := EndpointAt(t.server, service.address);
    if found.Some? && found.value in EndpointsOf(t.server, service.client) {
      ServerReleases(t, service.client, found.value);
    }
  }

  /** Releasing the endpoints of a client one by one. */
  lemma {:induction false} AllReleasedKeeps(s: Sockets, client: ClientId, endpoints: seq<Endpoint>)
    requires Inv(s) && endpoints == EndpointsOf(s.server, client)
    ensures var t := AllReleased(s, client, endpoints);
            && Inv(t) && t.services == s.services && t.client == s.client
            && EndpointsOf(t.server, client) == []
            && forall other :: other != client ==> EndpointsOf(t.server, other) == EndpointsOf(s.server, other)
    decreases endpoints
  {
    if endpoints != [] {
      var e, t := endpoints[0], ServerReleased(s, client, endpoints[0]);
      ServerReleases(s, client, e);
      forall other
        ensures EndpointsOf(t.server, other) == if other == client then endpoints[1..] else EndpointsOf(s.server, other)
      {
        WithoutEndpointLists(s.server, client, e, other);
      }
      hide Inv, EndpointsOf, ServerReleased;
      AllReleasedKeeps(t, client, endpoints[1..]);
    }
  }

  lemma DisconnectKeeps(s: Sockets, client: ClientId)
    requires Inv(s)
    ensures var t := AfterDisconnect(s, client);
            && Inv(t) && EndpointsOf(t.server, client) == []
            && t.services == WithoutClient(s.services, client)
            && forall other :: other != client ==> EndpointsOf(t.server, other) == EndpointsOf(s.server, other)
  {
    WithoutClientProperties(s.services, client);
    var t := s.(services := WithoutClient(s.services, client));
    assert Inv(t);
    hide Inv, AllReleased, EndpointsOf;
    AllReleasedKeeps(t, client, EndpointsOf(t.server, client));
  }

  lemma StepKeeps(s: Sockets, step: Step)
    requires Inv(s) && ChoiceIsFree(s, step)
    ensures Inv(After(s, step))
  {
    hide Inv, AfterSubscribe, AfterOffer, AfterStopOffer, AfterCall, AfterDisconnect, EndpointsOf, ChoiceIsFree;
    match step
    case Subscribe(client, address, chosen) => SubscribeKeeps(s, client, address, chosen);
    case Offer(service, chosen) => OfferKeeps(s, service, chosen);
    case StopOffer(service) => StopOfferKeeps(s, service);
    case Call(client, address, chosen) => CallKeeps(s, client, address, chosen);
    case Disconnect(client) => DisconnectKeeps(s, client);
  }

  /** Socket ownership: after any run, the open UDP sockets are those with an owner in one of the two
      storages, they have distinct addresses, and a named port that is bound next is free. */
  lemma {:induction false} SocketOwnership(steps: seq<Step>)
    requires Possible(steps)
    ensures var s := Run(steps);
            && Inv(s)
            && OpenIffOwned(s) && DistinctAddresses(s.open)
            && forall step :: Requested(s, step).Some? && Requested(s, step).value.port != 0 ==>
                 Free(s, Requested(s, step).value)
  {
    if steps != [] {
      SocketOwnership(steps[..|steps| - 1]);
      StepKeeps(Run(steps[..|steps| - 1]), steps[|steps| - 1]);
    }
    var s := Run(steps);
    assert Inv(s);
    forall step | Requested(s, step).Some? && Requested(s, step).value.port != 0
      ensures Free(s, Requested(s, step).value)
    {
      RequestedIsFree(s, step);
    }
  }

  lemma {:induction false} AllReleasedOpensNone(s: Sockets, client: ClientId, endpoints: seq<Endpoint>)
    ensures AllReleased(s, client, endpoints).open <= s.open && AllReleased(s, client, endpoints).created == s.created
    decreases endpoints
  {
    if endpoints != [] {
      AllReleasedOpensNone(ServerReleased(s, client, endpoints[0]), client, endpoints[1..]);
    }
  }

  /** A step opens a socket exactly when it requests an address, and opens it there. */
  lemma OpensRequested(s: Sockets, step: Step)
    requires Inv(s) && ChoiceIsFree(s, step)
    ensures var t := After(s, step);
            match Requested(s, step)
            case None => t.open <= s.open
            case Some(address) => t.open == s.open + {NewEndpoint(s, address, step.chosen)} && t.created == s.created + 1
  {
    match step
    case Subscribe(client, address, chosen) =>
      hide EndpointAt, EndpointsOf, WithEndpoint, Inv;
      SubscribeKeeps(s, client, address, chosen);
    case Offer(service, chosen) =>
      hide EndpointAt, WithEndpoint, Inv, ServerReleased;
    case StopOffer(service) =>
    case Call(client, address, chosen) =>
      hide EndpointsOf, Inv, ChoiceIsFree, Free;
      UdpEndpointIsOpen(s, address);
      CallOpens(s, client, address, chosen);
    case Disconnect(client) =>
      var t := s.(services := WithoutClient(s.services, client));
      AllReleasedOpensNone(t, client, EndpointsOf(t.server, client));
  }

  lemma CallOpens(s: Sockets, client: ClientId, address: Address, chosen: int)
    requires Inv(s)
    ensures var t := AfterCall(s, client, address, chosen).0;
            if address.port == 0 || UdpEndpointAt(s, address) == None then
              t.open == s.open + {NewEndpoint(s, address, chosen)} && t.created == s.created + 1
            else t.open == s.open
  {
    var own, shared := EndpointAt(s.client, address), UdpEndpointAt(s, address);
    if own.Some? {
      var owner := EndpointAtFoundIn(s, address);
      OwnedIsOpen(s, owner, own.value);
    } else if address.port != 0 && shared.Some? {
      hide Inv;
      UdpEndpointIsOpen(s, address);
      SharedIsFound(s.client, client, shared.value);
    }
  }

  // ----- Offered services stay reachable -----

  /** The service's own client holds a server endpoint at its address. */
  predicate Served(s: Sockets, service: ServiceToOffer) {
    var found := EndpointAt(s.server, service.address);
    found.Some? && found.value in EndpointsOf(s.server, service.client)
  }

  predicate OffersAt(services: seq<ServiceToOffer>, client: ClientId, address: Address) {
    exists service :: service in services && service.client == client && service.HasUdp() && service.address == address
  }

  ghost predicate ServedAll(s: Sockets) {
    forall service :: service in s.services && service.HasUdp() ==> Served(s, service)
  }

  /** Whoever holds a server endpoint offers a service there. */
  ghost predicate NoIdleServer(s: Sockets) {
    forall client, e :: e in EndpointsOf(s.server, client) ==> OffersAt(s.services, client, e.address)
  }

  ghost predicate Reachable(s: Sockets) {
    ServedAll(s) && NoIdleServer(s)
  }

  /** A service with UDP names its port, and no other client offers one with UDP at the address. */
  predicate OffersAlone(services: seq<ServiceToOffer>, service: ServiceToOffer) {
    service.HasUdp() ==>
      && service.address.port != 0
      && forall other :: other in services && other.HasUdp() && other.address == service.address ==>
           other.client == service.client
  }

  /** With the ownership invariant, a server endpoint is found at an address exactly when some client
      holds it. */
  lemma ServerEndpointAt(s: Sockets, client: ClientId, e: Endpoint)
    requires Inv(s) && e in EndpointsOf(s.server, client)
    ensures EndpointAt(s.server, e.address) == Some(e)
    ensures forall other :: e in EndpointsOf(s.server, other) ==> other == client
  {
    hide EndpointAt, EndpointsOf, Tidy;
    OwnedIsOpen(s, client, e);
    if EndpointAt(s.server, e.address) == None {
      EndpointAtNone(s.server, e.address, client, e);
    } else {
      assert WellFormed(s.server) by { TidyIsWellFormed(s.server); }
      var owner := EndpointAtFound(s.server, e.address);
      OwnedIsOpen(s, owner, EndpointAt(s.server, e.address).value);
    }
  }

  lemma TidyIsWellFormed(owners: seq<Owner>)
    requires Tidy(owners)
    ensures WellFormed(owners)
  {
  }

  /** Reachability, in terms of who holds what. */
  lemma ServedMeans(s: Sockets, service: ServiceToOffer)
    requires Inv(s)
    ensures Served(s, service) <==>
            exists e :: e in EndpointsOf(s.server, service.client) && e.address == service.address
  {
    hide EndpointAt, EndpointsOf, Inv;
    if e :| e in EndpointsOf(s.server, service.client) && e.address == service.address {
      ServerEndpointAt(s, service.client, e);
    }
    if EndpointAt(s.server, service.address).Some? {
      FoundAtAddress(s, service.address);
    }
  }

  lemma FoundAtAddress(s: Sockets, address: Address)
    requires Inv(s) && EndpointAt(s.server, address).Some?
    ensures EndpointAt(s.server, address).value.address == address
  {
    var owner := EndpointAtFound(s.server, address);
  }

  /** A step that leaves the server endpoints and the services alone leaves reachability alone. */
  lemma ReachableAlike(s: Sockets, t: Sockets)
    requires s.server == t.server && s.services == t.services
    ensures Reachable(s) <==> Reachable(t)
  {
    hide EndpointAt, EndpointsOf, OffersAt;
    assert forall service :: Served(s, service) == Served(t, service);
  }

  predicate HoldsAt(s: Sockets, client: ClientId, address: Address) {
    exists e :: e in EndpointsOf(s.server, client) && e.address == address
  }

  /** Distinct clients never hold server endpoints at one address. */
  lemma OneHolder(s: Sockets, c: ClientId, d: ClientId, address: Address)
    requires Inv(s) && HoldsAt(s, c, address) && HoldsAt(s, d, address)
    ensures c == d && address.port != 0
  {
    var e :| e in EndpointsOf(s.server, c) && e.address == address;
    var f :| f in EndpointsOf(s.server, d) && f.address == address;
    hide Inv, EndpointsOf;
    OwnedIsOpen(s, c, e);
    ServerEndpointAt(s, c, e);
    ServerEndpointAt(s, d, f);
  }

  lemma ServedHolds(s: Sockets, service: ServiceToOffer)
    requires Inv(s)
    ensures Served(s, service) <==> HoldsAt(s, service.client, service.address)
  {
    hide Inv, EndpointsOf, Served;
    ServedMeans(s, service);
  }

  lemma HolderOffers(s: Sockets, client: ClientId, address: Address)
    requires Reachable(s) && HoldsAt(s, client, address)
    ensures OffersAt(s.services, client, address)
  {
    hide OffersAt, ServedAll, EndpointsOf;
  }

  /** The server endpoints after an offer: at most one more, for the offering client. */
  lemma OfferLists(s: Sockets, service: ServiceToOffer, chosen: int)
    requires Inv(s) && ChoiceIsFree(s, Offer(service, chosen))
    ensures var t := AfterOffer(s, service, chosen);
            var added := service.HasUdp() && EndpointAt(s.server, service.address) == None;
            forall client, address :: HoldsAt(t, client, address) <==>
              HoldsAt(s, client, address)
              || (added && client == service.client && address == Bound(service.address, chosen))
  {
    var t := AfterOffer(s, service, chosen);
    var u := s.(services := Added(s.services, service));
    var found := UdpEndpointAt(u, service.address);
    assert found == UdpEndpointAt(s, service.address);
    UdpEndpointIsOpen(s, service.address);
    var e := if found.Some? then found.value else NewEndpoint(s, service.address, chosen);
    if service.HasUdp() && EndpointAt(s.server, service.address) == None {
      assert t.server == WithEndpoint(s.server, service.client, e);
      assert e.address == Bound(service.address, chosen) by {
        if found.Some? {
          PortZeroNotFound(s, service.address);
        }
      }
      hide AfterOffer, EndpointsOf, WithEndpoint, Inv, ServiceToOffer.HasUdp;
      forall client, address
        ensures HoldsAt(t, client, address) <==>
                HoldsAt(s, client, address) || (client == service.client && address == e.address)
      {
        HoldsAfterAdding(s, t, service.client, e, client, address);
      }
    } else {
      assert t.server == s.server;
    }
  }

  lemma HoldsAfterAdding(s: Sockets, t: Sockets, owner: ClientId, e: Endpoint, client: ClientId, address: Address)
    requires t.server == WithEndpoint(s.server, owner, e)
    ensures HoldsAt(t, client, address) <==>
            HoldsAt(s, client, address) || (client == owner && address == e.address)
  {
    WithEndpointLists(s.server, owner, e, client);
    hide EndpointsOf, WithEndpoint;
    if f :| f in EndpointsOf(s.server, client) && f.address == address {
      assert f in EndpointsOf(t.server, client);
    }
    assert client == owner ==> e in EndpointsOf(t.server, client);
  }

  lemma PortZeroNotFound(s: Sockets, address: Address)
    requires Inv(s) && UdpEndpointAt(s, address).Some?
    ensures address.port != 0
  {
    UdpEndpointIsOpen(s, address);
  }

  lemma AddedMembers(services: seq<ServiceToOffer>, service: ServiceToOffer)
    ensures forall s :: s in Added(services, service) <==> s in services || s == service
  {
  }

  /** A server endpoint that is found has a holder. */
  lemma FoundIsHeld(s: Sockets, address: Address)
    requires Inv(s)
    ensures EndpointAt(s.server, address).Some? <==> exists client :: HoldsAt(s, client, address)
  {
    if EndpointAt(s.server, address).Some? {
      var client := EndpointAtFound(s.server, address);
      assert HoldsAt(s, client, address);
    }
    if client :| HoldsAt(s, client, address) {
      var e :| e in EndpointsOf(s.server, client) && e.address == address;
      ServerEndpointAt(s, client, e);
    }
  }

  /** What an offer adds: the service, and a server endpoint if its address had none. */
  ghost predicate OfferAdds(s: Sockets, t: Sockets, service: ServiceToOffer, chosen: int) {
    && Inv(s) && Inv(t)
    && (forall o :: o in t.services <==> o in s.services || o == service)
    && var added := service.HasUdp() && !exists client :: HoldsAt(s, client, service.address);
    forall client, address :: HoldsAt(t, client, address) <==>
      HoldsAt(s, client, address)
      || (added && client == service.client && address == Bound(service.address, chosen))
  }

  lemma OfferAddsThis(s: Sockets, service: ServiceToOffer, chosen: int)
    requires Inv(s) && ChoiceIsFree(s, Offer(service, chosen))
    ensures OfferAdds(s, AfterOffer(s, service, chosen), service, chosen)
  {
    OfferStores(s, service, chosen);
    hide Inv, AfterOffer, EndpointsOf, EndpointAt, HoldsAt, ChoiceIsFree, ServiceToOffer.HasUdp, Added;
    OfferKeeps(s, service, chosen);
    OfferLists(s, service, chosen);
    AddedMembers(s.services, service);
    FoundIsHeld(s, service.address);
  }

  lemma OfferStores(s: Sockets, service: ServiceToOffer, chosen: int)
    ensures AfterOffer(s, service, chosen).services == Added(s.services, service)
  {
    hide Added, EndpointAt, WithEndpoint, ServiceToOffer.HasUdp;
  }

  lemma OfferAloneServes(s: Sockets, t: Sockets, service: ServiceToOffer, chosen: int)
    requires Reachable(s) && OfferAdds(s, t, service, chosen) && OffersAlone(s.services, service)
    ensures Reachable(t)
  {
    hide Inv, HoldsAt, EndpointsOf, Served;
    forall o | o in t.services && o.HasUdp() ensures Served(t, o) {
      if o in s.services {
        ServedHolds(s, o);
      } else if client :| HoldsAt(s, client, service.address) {
        HolderOffers(s, client, service.address);
      }
      ServedHolds(t, o);
    }
    forall client, e | e in EndpointsOf(t.server, client) ensures OffersAt(t.services, client, e.address) {
      assert HoldsAt(t, client, e.address) by { HoldsIt(t, client, e); }
      if HoldsAt(s, client, e.address) {
        HolderOffers(s, client, e.address);
      }
    }
  }

  lemma HoldsIt(s: Sockets, client: ClientId, e: Endpoint)
    requires e in EndpointsOf(s.server, client)
    ensures HoldsAt(s, client, e.address)
  {
  }

  lemma OfferNotAlone(s: Sockets, t: Sockets, service: ServiceToOffer, chosen: int)
    requires Reachable(s) && OfferAdds(s, t, service, chosen) && !OffersAlone(s.services, service)
    ensures !Reachable(t)
  {
    hide Inv, HoldsAt, EndpointsOf, Served, NoIdleServer;
    if Reachable(t) {
      ServedHolds(t, service);
      OneHolder(t, service.client, service.client, service.address);
      var other :| other in s.services && other.HasUdp() && other.address == service.address
                   && other.client != service.client;
      ServedHolds(s, other);
      assert HoldsAt(t, other.client, service.address);
      OneHolder(t, service.client, other.client, service.address);
    }
  }

  /** An offer keeps every service reachable exactly when it names its port and no other client
      currently offers a UDP service at the address. */
  lemma OfferKeepsReachable(s: Sockets, service: ServiceToOffer, chosen: int)
    requires Inv(s) && Reachable(s) && ChoiceIsFree(s, Offer(service, chosen))
    ensures Reachable(AfterOffer(s, service, chosen)) <==> OffersAlone(s.services, service)
  {
    hide *;
    OfferAddsThis(s, service, chosen);
    if OffersAlone(s.services, service) {
      OfferAloneServes(s, AfterOffer(s, service, chosen), service, chosen);
    } else {
      OfferNotAlone(s, AfterOffer(s, service, chosen), service, chosen);
    }
  }

  /** The server endpoints after a stop of an offer: the last service at the address takes its
      client's endpoint with it. */
  lemma StopOfferLists(s: Sockets, service: ServiceToOffer)
    requires Inv(s)
    ensures var t := AfterStopOffer(s, service);
            forall client, address :: HoldsAt(t, client, address) <==>
              HoldsAt(s, client, address)
              && !(client == service.client && address == service.address
                   && Announceable(service) && service.HasUdp() && !StillOffered(t.services, address))
  {
    var t := AfterStopOffer(s, service);
    var found := EndpointAt(s.server, service.address);
    FoundIsHeld(s, service.address);
    if found.Some? {
      FoundAtAddress(s, service.address);
    }
    forall client, address
      ensures HoldsAt(t, client, address) <==>
              HoldsAt(s, client, address)
              && !(client == service.client && address == service.address
                   && Announceable(service) && service.HasUdp() && !StillOffered(t.services, address))
    {
      if t.server != s.server {
        HoldsAfterRemoving(s, t, service.client, found.value, client, address);
      } else if HoldsAt(s, client, address) && address == service.address && client == service.client {
        var e :| e in EndpointsOf(s.server, client) && e.address == address;
        ServerEndpointAt(s, client, e);
        UnchangedMeansKept(s, service, e);
      }
    }
  }

  lemma UnchangedMeansKept(s: Sockets, service: ServiceToOffer, e: Endpoint)
    requires Inv(s) && EndpointAt(s.server, service.address) == Some(e) && e in EndpointsOf(s.server, service.client)
    requires AfterStopOffer(s, service).server == s.server
    ensures !(Announceable(service) && service.HasUdp() && !StillOffered(Removed(s.services, service), service.address))
  {
    ListsAfterRemoving(s.server, service.client, e);
  }

  lemma HoldsAfterRemoving(s: Sockets, t: Sockets, owner: ClientId, e: Endpoint, client: ClientId, address: Address)
    requires Inv(s) && t.server == WithoutEndpoint(s.server, owner, e) && e in EndpointsOf(s.server, owner)
    ensures HoldsAt(t, client, address) <==> HoldsAt(s, client, address) && !(client == owner && address == e.address)
  {
    ListsAfterRemoving(s.server, owner, e);
    hide EndpointsOf, WithoutEndpoint;
    if f :| f in EndpointsOf(s.server, client) && f.address == address {
      if f == e {
        ServerEndpointAt(s, owner, e);
      } else {
        assert f in EndpointsOf(t.server, client);
      }
    }
    if f :| f in EndpointsOf(t.server, client) && f.address == address {
      assert f in EndpointsOf(s.server, client);
      if client == owner && address == e.address {
        ServerEndpointAt(s, client, f);
        ServerEndpointAt(s, client, e);
      }
    }
  }

  /** A stop can be announced, if it is one of the last UDP service at its address. */
  predicate StopFits(services: seq<ServiceToOffer>, service: ServiceToOffer) {
    service in services && service.HasUdp() && !StillOffered(Removed(services, service), service.address)
    ==> Announceable(service)
  }

  /** A stop keeps every service reachable, and leaves no server endpoint behind, exactly when it can
      be announced or is not the stop of the last UDP service at its address. */
  lemma StopOfferKeepsReachable(s: Sockets, service: ServiceToOffer)
    requires Inv(s) && Reachable(s)
    ensures Reachable(AfterStopOffer(s, service)) <==> StopFits(s.services, service)
  {
    hide *;
    if StopFits(s.services, service) {
      FittingStopKeeps(s, service);
    } else {
      OtherStopLeaves(s, service);
    }
  }

  lemma StopRemoves(s: Sockets, service: ServiceToOffer)
    ensures AfterStopOffer(s, service).services == Removed(s.services, service)
  {
    hide Removed, EndpointAt, EndpointsOf, WithoutEndpoint, InUse, ServiceToOffer.HasUdp, Announceable;
  }

  lemma FittingStopKeeps(s: Sockets, service: ServiceToOffer)
    requires Inv(s) && Reachable(s) && StopFits(s.services, service)
    ensures Reachable(AfterStopOffer(s, service))
  {
    var t := AfterStopOffer(s, service);
    assert Distinct(s.services);
    StopRemoves(s, service);
    hide Inv, AfterStopOffer, Removed, EndpointsOf, EndpointAt, HoldsAt, Served, Announceable;
    StopOfferKeeps(s, service);
    StopOfferLists(s, service);
    RemovedProperties(s.services, service);
    forall o | o in t.services && o.HasUdp() ensures Served(t, o) {
      ServedHolds(s, o);
      ServedHolds(t, o);
    }
    forall client, e | e in EndpointsOf(t.server, client) ensures OffersAt(t.services, client, e.address) {
      HoldsIt(t, client, e);
      HolderOffers(s, client, e.address);
      var o :| o in s.services && o.client == client && o.HasUdp() && o.address == e.address;
      if o == service {
        assert StillOffered(t.services, e.address);
        var p :| p in t.services && p.HasUdp() && p.address == e.address;
        ServedHolds(s, p);
        OneHolder(s, client, p.client, e.address);
      } else {
        assert o in t.services;
      }
    }
  }

  lemma OtherStopLeaves(s: Sockets, service: ServiceToOffer)
    requires Inv(s) && Reachable(s) && !StopFits(s.services, service)
    ensures !Reachable(AfterStopOffer(s, service))
  {
    var t := AfterStopOffer(s, service);
    StopRemoves(s, service);
    hide Inv, AfterStopOffer, Removed, EndpointsOf, EndpointAt, HoldsAt, Served, Announceable, ServiceToOffer.HasUdp;
    StopOfferLists(s, service);
    ServedHolds(s, service);
    assert HoldsAt(t, service.client, service.address);
    if Reachable(t) {
      HolderOffers(t, service.client, service.address);
    }
  }

  lemma DisconnectKeepsReachable(s: Sockets, client: ClientId)
    requires Inv(s) && Reachable(s)
    ensures Reachable(AfterDisconnect(s, client))
  {
    var t := AfterDisconnect(s, client);
    DisconnectKeeps(s, client);
    WithoutClientProperties(s.services, client);
    hide Inv, AfterDisconnect, WithoutClient, EndpointsOf, EndpointAt, Served, ServiceToOffer.HasUdp;
    forall o | o in t.services && o.HasUdp() ensures Served(t, o) {
      ServedHolds(s, o);
      ServedHolds(t, o);
      assert HoldsAt(s, o.client, o.address);
      var e :| e in EndpointsOf(s.server, o.client) && e.address == o.address;
      assert e in EndpointsOf(t.server, o.client);
    }
    forall other, e | e in EndpointsOf(t.server, other) ensures OffersAt(t.services, other, e.address) {
      assert e in EndpointsOf(s.server, other);
      assert OffersAt(s.services, other, e.address);
      var o :| o in s.services && o.client == other && o.HasUdp() && o.address == e.address;
      assert o in t.services;
    }
  }

  /** An offer names its port, at an address where only its client offers, and a stop that takes the
      last UDP service from an address can be announced. */
  predicate OffersApart(services: seq<ServiceToOffer>, step: Step) {
    match step
    case Offer(service, _) => OffersAlone(services, service)
    case StopOffer(service) => StopFits(services, service)
    case _ => true
  }

  predicate OffersApartRun(steps: seq<Step>) {
    steps != [] ==>
      && OffersApartRun(steps[..|steps| - 1])
      && OffersApart(Run(steps[..|steps| - 1]).services, steps[|steps| - 1])
  }

  /** One step keeps every service reachable exactly when it keeps offers apart. */
  lemma StepReachable(s: Sockets, step: Step)
    requires Inv(s) && Reachable(s) && ChoiceIsFree(s, step)
    ensures Reachable(After(s, step)) <==> OffersApart(s.services, step)
  {
    hide Inv, Reachable, ChoiceIsFree, AfterSubscribe, AfterOffer, AfterCall, AfterStopOffer, AfterDisconnect, EndpointsOf,
         OffersAlone, StopFits;
    match step
    case Subscribe(client, address, chosen) =>
      SubscribeKeeps(s, client, address, chosen);
      ReachableAlike(s, After(s, step));
    case Offer(service, chosen) => OfferKeepsReachable(s, service, chosen);
    case StopOffer(service) => StopOfferKeepsReachable(s, service);
    case Call(client, address, chosen) =>
      CallKeeps(s, client, address, chosen);
      ReachableAlike(s, After(s, step));
    case Disconnect(client) => DisconnectKeepsReachable(s, client);
  }

  ghost predicate ReachableThroughout(steps: seq<Step>) {
    && Reachable(Run(steps))
    && (steps != [] ==> ReachableThroughout(steps[..|steps| - 1]))
  }

  /** Every offered service is reachable, and no server endpoint idle, at every moment of a run, if
      and only if every step of the run keeps offers apart. */
  lemma {:induction false} ReachableExactly(steps: seq<Step>)
    requires Possible(steps)
    ensures ReachableThroughout(steps) <==> OffersApartRun(steps)
  {
    hide Inv, Reachable, Run, After, OffersApart, ChoiceIsFree;
    if steps != [] {
      var before, step := steps[..|steps| - 1], steps[|steps| - 1];
      ReachableExactly(before);
      SocketOwnership(before);
      LastStep(steps);
      if ReachableThroughout(before) {
        StepReachable(Run(before), step);
      }
    } else {
      NothingOffered();
    }
  }

  lemma NothingOffered()
    ensures Reachable(Run([]))
  {
  }

  lemma LastStep(steps: seq<Step>)
    requires steps != []
    ensures Run(steps) == After(Run(steps[..|steps| - 1]), steps[|steps| - 1])
  {
  }

  /** In a run where offers stay apart, every offered UDP service has exactly one open server endpoint
      at its address, which its own client and nobody else holds; and whoever holds a server endpoint
      still offers a UDP service there. */
  lemma OfferedServicesReachable(steps: seq<Step>)
    requires Possible(steps) && OffersApartRun(steps)
    ensures var s := Run(steps);
            && (forall service :: service in s.services && service.HasUdp() ==>
                  && EndpointAt(s.server, service.address).Some?
                  && var e := EndpointAt(s.server, service.address).value;
                  && e in s.open && e.address == service.address
                  && (forall f :: f in s.open && f.address == e.address ==> f == e)
                  && forall client :: e in EndpointsOf(s.server, client) <==> client == service.client)
            && forall client, e :: e in EndpointsOf(s.server, client) ==> OffersAt(s.services, client, e.address)
  {
    var s := Run(steps);
    SocketOwnership(steps);
    ReachableExactly(steps);
    hide Run, EndpointsOf, EndpointAt, OffersAt;
    forall service | service in s.services && service.HasUdp()
      ensures EndpointAt(s.server, service.address).Some?
      ensures var e := EndpointAt(s.server, service.address).value;
              && e in s.open && e.address == service.address
              && forall client :: e in EndpointsOf(s.server, client) <==> client == service.client
    {
      assert Served(s, service);
      var e := EndpointAt(s.server, service.address).value;
      FoundAtAddress(s, service.address);
      ServerEndpointAt(s, service.client, e);
      OwnedIsOpen(s, service.client, e);
    }
  }

  /** A service with one UDP method at port 5000 of an address. */
  function ServiceAt(client: ClientId, serviceId: int, ip: Ip4): ServiceToOffer {
    ServiceToOffer(client, 1, serviceId, 1, 0, 3, 100, Address(ip, 5000), [Method(1, UDP)], [])
  }

  /** Two clients at one address: the first holds the socket for both, and closes it when it leaves. */
  lemma SharedAddressFails(ip: Ip4)
    ensures var steps := [Offer(ServiceAt(1, 1, ip), 49152), Offer(ServiceAt(2, 2, ip), 49152), Disconnect(1)];
            var s := Run(steps);
            Possible(steps) && ServiceAt(2, 2, ip) in s.services && ServiceAt(2, 2, ip).HasUdp() && s.open == {}
  {
    var first, second := ServiceAt(1, 1, ip), ServiceAt(2, 2, ip);
    var e := Endpoint(0, Address(ip, 5000));
    var s1 := Sockets([Owner(1, [e])], [], {e}, 1, [first]);
    var s2 := Sockets([Owner(1, [e])], [], {e}, 1, [first, second]);
    var s3 := Sockets([], [], {}, 1, [second]);
    assert After(NO_SOCKETS, Offer(first, 49152)) == s1 by {
      assert first.methods[0] == Method(1, UDP);
      assert first.HasUdp();
    }
    assert After(s1, Offer(second, 49152)) == s2 by {
      assert EndpointAt(s1.server, second.address) == Some(e);
    }
    assert After(s2, Disconnect(1)) == s3 by {
      LastLeaves(first, second, e);
    }
    assert second.HasUdp() by {
      assert second.methods[0] == Method(1, UDP);
    }
    hide After, ServiceToOffer.HasUdp;
    ThreeSteps(Offer(first, 49152), Offer(second, 49152), Disconnect(1));
  }

  lemma LastLeaves(first: ServiceToOffer, second: ServiceToOffer, e: Endpoint)
    requires first.client == 1 && second.client == 2
    ensures AfterDisconnect(Sockets([Owner(1, [e])], [], {e}, 1, [first, second]), 1) == Sockets([], [], {}, 1, [second])
  {
    var t := Sockets([Owner(1, [e])], [], {e}, 1, [first, second]);
    var s := Sockets([Owner(1, [e])], [], {e}, 1, [second]);
    assert [first, second][1..] == [second] && [second][1..] == [] && [e][1..] == [];
    assert EndpointsOf(t.server, 1) == [e];
    assert WithoutClient([second], 1) == [second] + WithoutClient([], 1);
    assert WithoutClient(t.services, 1) == [second];
    assert RemoveFirst([e], e) == [];
    assert ServerReleased(s, 1, e) == Sockets([], [], {}, 1, [second]);
    assert AllReleased(s, 1, [e]) == AllReleased(ServerReleased(s, 1, e), 1, []);
  }

  lemma ThreeSteps(a: Step, b: Step, c: Step)
    ensures var s1 := After(NO_SOCKETS, a);
            var s2 := After(s1, b);
            && Run([a, b, c]) == After(s2, c)
            && (Possible([a, b, c]) <==> ChoiceIsFree(NO_SOCKETS, a) && ChoiceIsFree(s1, b) && ChoiceIsFree(s2, c))
  {
    hide After, ChoiceIsFree;
    assert [a, b, c][..2] == [a, b] && [a, b][..1] == [a] && [a][..0] == [];
    assert Run([a]) == After(NO_SOCKETS, a);
    assert Run([a, b]) == After(Run([a]), b);
    assert Possible([a]) <==> ChoiceIsFree(NO_SOCKETS, a);
    assert Possible([a, b]) <==> Possible([a]) && ChoiceIsFree(Run([a]), b);
  }

  /** A service id that does not fit the wire: the stop cannot be announced, and the socket stays. */
  lemma UnannounceableStopFails(ip: Ip4)
    ensures var service := ServiceAt(1, 0x1_0000, ip);
            var s := AfterStopOffer(AfterOffer(NO_SOCKETS, service, 49152), service);
            s.services == [] && s.open == {Endpoint(0, service.address)} && s.server == [Owner(1, [Endpoint(0, service.address)])]
  {
    var service := ServiceAt(1, 0x1_0000, ip);
    assert service.methods[0] == Method(1, UDP);
    assert service.HasUdp();
  }

  // ----- Subscriptions to any port -----

  lemma {:induction false} FirstStays(a: seq<Endpoint>, b: seq<Endpoint>, ip: Ip4)
    requires FirstWithIp(a, ip).Some?
    ensures FirstWithIp(a + b, ip) == FirstWithIp(a, ip)
  {
    if a[0].address.ip != ip {
      FirstStays(a[1..], b, ip);
      assert (a + b)[1..] == a[1..] + b;
    }
  }

  lemma {:induction false} FirstAdded(a: seq<Endpoint>, e: Endpoint, ip: Ip4)
    requires FirstWithIp(a, ip) == None && e.address.ip == ip
    ensures FirstWithIp(a + [e], ip) == Some(e)
  {
    if a == [] {
      assert a + [e] == [e];
    } else {
      FirstAdded(a[1..], e, ip);
      assert (a + [e])[1..] == a[1..] + [e];
    }
  }

  /** A client that subscribes with port 0 gets the endpoint that a stop with port 0 finds. */
  lemma AnyPortIsFound(s: Sockets, client: ClientId, ip: Ip4, chosen: int)
    ensures var (t, e) := AfterSubscribe(s, client, Address(ip, 0), chosen);
            FirstWithIp(EndpointsOf(t.client, client), ip) == Some(e)
  {
    var found := FirstWithIp(EndpointsOf(s.client, client), ip);
    FirstWithIpOwned(EndpointsOf(s.client, client), ip);
    hide EndpointsOf, WithEndpoint;
    if found == None {
      var e := NewEndpoint(s, Address(ip, 0), chosen);
      WithEndpointLists(s.client, client, e, client);
      FirstAdded(EndpointsOf(s.client, client), e, ip);
    }
  }

  lemma ClientListGrows(s: Sockets, step: Step, client: ClientId) returns (more: seq<Endpoint>)
    requires Inv(s)
    ensures EndpointsOf(After(s, step).client, client) == EndpointsOf(s.client, client) + more
  {
    var t := After(s, step);
    more := [];
    hide Inv, EndpointsOf, WithEndpoint, EndpointAt;
    match step
    case Subscribe(c, address, chosen) =>
      var e := AfterSubscribe(s, c, address, chosen).1;
      WithEndpointLists(s.client, c, e, client);
      if t.client != s.client && c == client {
        more := [e];
      }
    case Call(c, address, chosen) =>
      CallAdds(s, c, address, chosen);
      var e := AfterCall(s, c, address, chosen).1;
      WithEndpointLists(s.client, c, e, client);
      if t.client != s.client && c == client {
        more := [e];
      }
    case Disconnect(c) => DisconnectKeepsClients(s, c);
    case _ =>
  }

  lemma CallAdds(s: Sockets, client: ClientId, address: Address, chosen: int)
    requires Inv(s)
    ensures var (t, e) := AfterCall(s, client, address, chosen);
            t.client == s.client || t.client == WithEndpoint(s.client, client, e)
  {
    var shared := UdpEndpointAt(s, address);
    if address.port != 0 && shared.Some? && EndpointAt(s.client, address) == None {
      UdpEndpointIsOpen(s, address);
      var t := s.(client := WithEndpoint(s.client, client, shared.value));
      if shared.value in EndpointsOf(s.client, client) {
        EndpointAtNone(s.client, address, client, shared.value);
      }
      ClientShares(s, client, shared.value);
      SharedIsFound(s.client, client, shared.value);
      var owner := EndpointAtFoundIn(t, address);
      hide EndpointAt, WithEndpoint;
      OwnedIsOpen(t, owner, EndpointAt(t.client, address).value);
    }
  }

  lemma DisconnectKeepsClients(s: Sockets, client: ClientId)
    requires Inv(s)
    ensures AfterDisconnect(s, client).client == s.client
  {
    WithoutClientProperties(s.services, client);
    var t := s.(services := WithoutClient(s.services, client));
    assert Inv(t);
    hide Inv, AllReleased, EndpointsOf;
    AllReleasedKeeps(t, client, EndpointsOf(t.server, client));
  }

  /** The endpoint found for port 0 stays the same whatever happens in between. */
  lemma AnyPortStays(s: Sockets, step: Step, client: ClientId, ip: Ip4)
    requires Inv(s) && FirstWithIp(EndpointsOf(s.client, client), ip).Some?
    ensures FirstWithIp(EndpointsOf(After(s, step).client, client), ip) == FirstWithIp(EndpointsOf(s.client, client), ip)
  {
    hide Inv, After, EndpointsOf;
    var more := ClientListGrows(s, step, client);
    FirstStays(EndpointsOf(s.client, client), more, ip);
  }
}
