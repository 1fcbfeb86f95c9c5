/** Services that local clients offer. */
module OfferServiceStorage {
  import opened SdMessages

  datatype Address = Address(ip: Ip4, port: int)

  /** Methods and events compare by id and protocol. */
  datatype Method = Method(id: int, protocol: Protocol)
  datatype Event = Event(id: int, protocol: Protocol)
  datatype EventGroup = EventGroup(id: int, events: seq<Event>)

  type ClientId = int

  datatype ServiceToOffer = ServiceToOffer(
    client: ClientId, instanceId: int, serviceId: int, majorVersion: int, minorVersion: int, ttl: int,
    cyclicOfferDelay: int, address: Address, methods: seq<Method>, eventGroups: seq<EventGroup>)
  {
    predicate Uses(protocol: Protocol) {
      || (exists m :: m in methods && m.protocol == protocol)
      || (exists g :: g in eventGroups && exists e :: e in g.events && e.protocol == protocol)
    }

    predicate HasUdp() {
      Uses(UDP)
    }

    predicate HasTcp() {
      Uses(TCP)
    }

    function Protocols(): set<Protocol> {
      (if HasUdp() then {UDP} else {}) + (if HasTcp() then {TCP} else {})
    }

    function EventGroupIds(): set<int> {
      set g | g in eventGroups :: g.id
    }
  }

  // ----- What the operations do to the list -----

  function Added(services: seq<ServiceToOffer>, service: ServiceToOffer): seq<ServiceToOffer> {
    if service in services then services else services + [service]
  }

  function Removed(services: seq<ServiceToOffer>, service: ServiceToOffer): seq<ServiceToOffer> {
    if services == [] then []
    else if services[0] == service then services[1..]
    else [services[0]] + Removed(services[1..], service)
  }

  function WithoutClient(services: seq<ServiceToOffer>, client: ClientId): seq<ServiceToOffer> {
    if services == [] then []
    else if services[0].client == client then WithoutClient(services[1..], client)
    else [services[0]] + WithoutClient(services[1..], client)
  }

  function WithDelay(services: seq<ServiceToOffer>, delay: int): seq<ServiceToOffer> {
    if services == [] then []
    else if services[0].cyclicOfferDelay == delay then [services[0]] + WithDelay(services[1..], delay)
    else WithDelay(services[1..], delay)
  }

  ghost predicate Distinct(services: seq<ServiceToOffer>) {
    forall i, j :: 0 <= i < j < |services| ==> services[i] != services[j]
  }

  /** Adding keeps the list free of duplicates and adds nothing else. */
  lemma AddedProperties(services: seq<ServiceToOffer>, service: ServiceToOffer)
    requires Distinct(services)
    ensures Distinct(Added(services, service))
    ensures forall s :: s in Added(services, service) <==> s in services || s == service
  {
  }

  /** Removing from a list without duplicates takes out just that service. */
  lemma {:induction false} RemovedProperties(services: seq<ServiceToOffer>, service: ServiceToOffer)
    requires Distinct(services)
    ensures Distinct(Removed(services, service))
    ensures forall s :: s in Removed(services, service) <==> s in services && s != service
  {
    if services != [] {
      RemovedProperties(services[1..], service);
      assert services == [services[0]] + services[1..];
      assert services[0] !in services[1..];
    }
  }

  lemma {:induction false} WithoutClientProperties(services: seq<ServiceToOffer>, client: ClientId)
    requires Distinct(services)
    ensures Distinct(WithoutClient(services, client))
    ensures forall s :: s in WithoutClient(services, client) <==> s in services && s.client != client
  {
    if services != [] {
      WithoutClientProperties(services[1..], client);
      assert services == [services[0]] + services[1..];
      assert services[0] !in services[1..];
    }
  }

  /** An interval is in use exactly when some stored service has it. */
  lemma {:induction false} WithDelayMembers(services: seq<ServiceToOffer>, delay: int)
    ensures forall s :: s in WithDelay(services, delay) <==> s in services && s.cyclicOfferDelay == delay
  {
    if services != [] {
      WithDelayMembers(services[1..], delay);
      assert services == [services[0]] + services[1..];
    }
  }

  lemma RemovedStep(services: seq<ServiceToOffer>, i: nat, service: ServiceToOffer)
    requires i < |services|
    ensures services[..i] + Removed(services[i..], service)
         == if services[i] == service then services[..i] + services[i + 1..]
            else services[..i + 1] + Removed(services[i + 1..], service)
  {
    assert services[i..][0] == services[i] && services[i..][1..] == services[i + 1..];
    assert services[..i + 1] == services[..i] + [services[i]];
  }

  lemma WithoutClientStep(kept: seq<ServiceToOffer>, services: seq<ServiceToOffer>, i: nat, client: ClientId)
    requires i < |services|
    ensures kept + WithoutClient(services[i..], client)
         == (if services[i].client == client then kept else kept + [services[i]]) + WithoutClient(services[i + 1..], client)
  {
    assert services[i..][0] == services[i] && services[i..][1..] == services[i + 1..];
  }

  lemma WithDelayStep(found: seq<ServiceToOffer>, services: seq<ServiceToOffer>, i: nat, delay: int)
    requires i < |services|
    ensures found + WithDelay(services[i..], delay)
         == (if services[i].cyclicOfferDelay == delay then found + [services[i]] else found) + WithDelay(services[i + 1..], delay)
  {
    assert services[i..][0] == services[i] && services[i..][1..] == services[i + 1..];
  }

  class Storage {
    var services: seq<ServiceToOffer>

    constructor ()
      ensures services == []
    {
      services := [];
    }

    method AddService(service: ServiceToOffer) returns (added: bool)
      modifies this
      ensures services == Added(old(services), service)
      ensures added <==> service !in old(services)
    {
      if service in services {
        return false;
      }
      services := services + [service];
      return true;
    }

    method RemoveService(service: ServiceToOffer) returns (removed: bool)
      modifies this
      ensures services == Removed(old(services), service)
      ensures removed <==> service in old(services)
    {
      ghost var before := services;
      assert services[0..] == services;
      for i := 0 to |services|
        invariant services == before
        invariant service !in services[..i]
        invariant Removed(before, service) == before[..i] + Removed(before[i..], service)
      {
        RemovedStep(before, i, service);
        if services[i] == service {
          services := services[..i] + services[i + 1..];
          return true;
        }
      }
      assert services[..|services|] == services;
      assert before[|before|..] == [];
      return false;
    }

    method RemoveClient(client: ClientId) returns (removed: nat)
      modifies this
      ensures services == WithoutClient(old(services), client)
      ensures removed == |old(services)| - |services|
    {
      var kept: seq<ServiceToOffer> := [];
      assert services[0..] == services;
      for i := 0 to |services|
        invariant services == old(services)
        invariant |kept| <= i
        invariant WithoutClient(services, client) == kept + WithoutClient(services[i..], client)
      {
        WithoutClientStep(kept, services, i, client);
        if services[i].client != client {
          kept := kept + [services[i]];
        }
      }
      removed := |services| - |kept|;
      services := kept;
    }

    method ServicesByCyclicOfferDelay(delay: int) returns (found: seq<ServiceToOffer>)
      ensures found == WithDelay(services, delay)
    {
      found := [];
      assert services[0..] == services;
      for i := 0 to |services|
        invariant WithDelay(services, delay) == found + WithDelay(services[i..], delay)
      {
        WithDelayStep(found, services, i, delay);
        if services[i].cyclicOfferDelay == delay {
          found := found + [services[i]];
        }
      }
    }
  }
}
