/** Which client owns which UDP endpoints: a dictionary of lists, in insertion order. */
module SomeipEndpointStorage {
  import opened Bytes
  import opened OfferServiceStorage

  /** An endpoint object with its bound address; two of them are the same object exactly when
      their numbers agree. */
  datatype Endpoint = Endpoint(id: nat, address: Address)

  datatype Owner = Owner(client: ClientId, endpoints: seq<Endpoint>)

  // ----- What the operations do -----

  function EndpointsOf(owners: seq<Owner>, client: ClientId): seq<Endpoint> {
    if owners == [] then []
    else if owners[0].client == client then owners[0].endpoints
    else EndpointsOf(owners[1..], client)
  }

  function WithEndpoint(owners: seq<Owner>, client: ClientId, endpoint: Endpoint): seq<Owner> {
    if owners == [] then [Owner(client, [endpoint])]
    else if owners[0].client == client then [Owner(client, owners[0].endpoints + [endpoint])] + owners[1..]
    else [owners[0]] + WithEndpoint(owners[1..], client, endpoint)
  }

  /** list.remove: the first occurrence. */
  function RemoveFirst<T(==)>(list: seq<T>, x: T): seq<T> {
    if list == [] then []
    else if list[0] == x then list[1..]
    else [list[0]] + RemoveFirst(list[1..], x)
  }

  function WithoutEndpoint(owners: seq<Owner>, client: ClientId, endpoint: Endpoint): seq<Owner> {
    if owners == [] then []
    else if owners[0].client == client then
      if endpoint !in owners[0].endpoints then owners
      else
        var rest := RemoveFirst(owners[0].endpoints, endpoint);
        if rest == [] then owners[1..] else [Owner(client, rest)] + owners[1..]
    else [owners[0]] + WithoutEndpoint(owners[1..], client, endpoint)
  }

  function FirstAt(endpoints: seq<Endpoint>, address: Address): Option<Endpoint> {
    if endpoints == [] then None
    else if endpoints[0].address == address then Some(endpoints[0])
    else FirstAt(endpoints[1..], address)
  }

  /** The first endpoint at an address, whichever client owns it. */
  function EndpointAt(owners: seq<Owner>, address: Address): Option<Endpoint> {
    if owners == [] then None
    else
      var found := FirstAt(owners[0].endpoints, address);
      if found.Some? then found else EndpointAt(owners[1..], address)
  }

  function AllEndpoints(owners: seq<Owner>): seq<Endpoint> {
    if owners == [] then [] else owners[0].endpoints + AllEndpoints(owners[1..])
  }

  // ----- Lemmas in terms of the lists of all clients -----

  /** A dictionary has one list for each key, and the storage drops empty lists. */
  ghost predicate WellFormed(owners: seq<Owner>) {
    && (forall i, j :: 0 <= i < j < |owners| ==> owners[i].client != owners[j].client)
    && (forall i :: 0 <= i < |owners| ==> owners[i].endpoints != [])
  }

  lemma {:induction false} NoList(owners: seq<Owner>, client: ClientId)
    requires forall i :: 0 <= i < |owners| ==> owners[i].client != client
    ensures EndpointsOf(owners, client) == []
  {
    if owners != [] {
      NoList(owners[1..], client);
    }
  }

  lemma {:induction false} WithEndpointLists(owners: seq<Owner>, client: ClientId, endpoint: Endpoint, other: ClientId)
    ensures EndpointsOf(WithEndpoint(owners, client, endpoint), other)
         == EndpointsOf(owners, other) + if other == client then [endpoint] else []
  {
    if owners != [] && owners[0].client != client {
      WithEndpointLists(owners[1..], client, endpoint, other);
    }
  }

  lemma {:induction false} WithEndpointWellFormed(owners: seq<Owner>, client: ClientId, endpoint: Endpoint)
    requires WellFormed(owners)
    ensures WellFormed(WithEndpoint(owners, client, endpoint))
    ensures forall o :: o in WithEndpoint(owners, client, endpoint) ==>
              o.client == client || exists p :: p in owners && p.client == o.client
  {
    if owners != [] && owners[0].client != client {
      WithEndpointWellFormed(owners[1..], client, endpoint);
      var rest := WithEndpoint(owners[1..], client, endpoint);
      assert owners[0] in owners;
      forall i | 0 <= i < |rest| ensures rest[i].client != owners[0].client {
        assert rest[i] in rest;
      }
    }
  }

  lemma {:induction false} WithoutEndpointLists(owners: seq<Owner>, client: ClientId, endpoint: Endpoint, other: ClientId)
    requires WellFormed(owners)
    ensures EndpointsOf(WithoutEndpoint(owners, client, endpoint), other)
         == if other == client then RemoveFirst(EndpointsOf(owners, client), endpoint) else EndpointsOf(owners, other)
  {
    if owners != [] {
      if owners[0].client == client {
        NoList(owners[1..], client);
        if endpoint !in owners[0].endpoints {
          AbsentStays(owners[0].endpoints, endpoint);
        }
      } else {
        WithoutEndpointLists(owners[1..], client, endpoint, other);
      }
    }
  }

  lemma {:induction false} WithoutEndpointWellFormed(owners: seq<Owner>, client: ClientId, endpoint: Endpoint)
    requires WellFormed(owners)
    ensures WellFormed(WithoutEndpoint(owners, client, endpoint))
    ensures forall o :: o in WithoutEndpoint(owners, client, endpoint) ==> exists p :: p in owners && p.client == o.client
  {
    if owners != [] {
      assert owners[0] in owners;
      if owners[0].client != client {
        WithoutEndpointWellFormed(owners[1..], client, endpoint);
        var rest := WithoutEndpoint(owners[1..], client, endpoint);
        forall i | 0 <= i < |rest| ensures rest[i].client != owners[0].client {
          assert rest[i] in rest;
        }
      } else {
        forall o | o in owners[1..] ensures o in owners {
        }
      }
    }
  }

  lemma {:induction false} FirstAtFinds(endpoints: seq<Endpoint>, address: Address)
    ensures match FirstAt(endpoints, address)
            case Some(e) => e in endpoints && e.address == address
            case None => forall e :: e in endpoints ==> e.address != address
  {
    if endpoints != [] && endpoints[0].address != address {
      FirstAtFinds(endpoints[1..], address);
      assert endpoints == [endpoints[0]] + endpoints[1..];
    }
  }

  /** The owner of what a search returned. */
  lemma {:induction false} EndpointAtFound(owners: seq<Owner>, address: Address) returns (client: ClientId)
    requires WellFormed(owners) && EndpointAt(owners, address).Some?
    ensures EndpointAt(owners, address).value in EndpointsOf(owners, client)
    ensures EndpointAt(owners, address).value.address == address
    ensures exists o :: o in owners && o.client == client
  {
    FirstAtFinds(owners[0].endpoints, address);
    if FirstAt(owners[0].endpoints, address).Some? {
      client := owners[0].client;
    } else {
      client := EndpointAtFound(owners[1..], address);
    }
  }

  lemma {:induction false} EndpointAtNone(owners: seq<Owner>, address: Address, client: ClientId, e: Endpoint)
    requires EndpointAt(owners, address) == None && e in EndpointsOf(owners, client)
    ensures e.address != address
  {
    FirstAtFinds(owners[0].endpoints, address);
    if owners[0].client != client {
      EndpointAtNone(owners[1..], address, client, e);
    }
  }

  ghost predicate OwnedIn(owners: seq<Owner>, e: Endpoint) {
    exists client :: e in EndpointsOf(owners, client)
  }

  /** Everything in the lists of the clients, and nothing else. */
  lemma {:induction false} AllEndpointsOwned(owners: seq<Owner>, e: Endpoint)
    requires WellFormed(owners)
    ensures e in AllEndpoints(owners) <==> OwnedIn(owners, e)
  {
    if e in AllEndpoints(owners) {
      var client := OwnerOf(owners, e);
    }
    forall client | e in EndpointsOf(owners, client) ensures e in AllEndpoints(owners) {
      OwnedIsListed(owners, client, e);
    }
  }

  lemma {:induction false} OwnerOf(owners: seq<Owner>, e: Endpoint) returns (client: ClientId)
    requires WellFormed(owners) && e in AllEndpoints(owners)
    ensures e in EndpointsOf(owners, client)
    ensures exists o :: o in owners && o.client == client
  {
    if e in owners[0].endpoints {
      client := owners[0].client;
    } else {
      client := OwnerOf(owners[1..], e);
    }
  }

  lemma {:induction false} OwnedIsListed(owners: seq<Owner>, client: ClientId, e: Endpoint)
    requires e in EndpointsOf(owners, client)
    ensures e in AllEndpoints(owners)
  {
    if owners[0].client != client {
      OwnedIsListed(owners[1..], client, e);
    }
  }

  lemma {:induction false} RemoveFirstMembers<T>(list: seq<T>, x: T)
    requires forall i, j :: 0 <= i < j < |list| ==> list[i] != list[j]
    ensures var rest := RemoveFirst(list, x);
            && (forall y :: y in rest <==> y in list && y != x)
            && (forall i, j :: 0 <= i < j < |rest| ==> rest[i] != rest[j])
  {
    if list != [] {
      RemoveFirstMembers(list[1..], x);
      assert list == [list[0]] + list[1..];
      assert list[0] !in list[1..];
    }
  }

  // ----- The storage -----

  class Storage {
    var owners: seq<Owner>

    constructor ()
      ensures owners == []
    {
      owners := [];
    }

    method AddEndpoint(client: ClientId, endpoint: Endpoint)
      modifies this
      ensures owners == WithEndpoint(old(owners), client, endpoint)
    {
      ghost var before := owners;
      assert owners[0..] == owners && owners[..0] == [];
      for i := 0 to |owners|
        invariant owners == before
        invariant WithEndpoint(before, client, endpoint) == before[..i] + WithEndpoint(before[i..], client, endpoint)
      {
        WithStep(before, i, client, endpoint);
        if owners[i].client == client {
          owners := owners[..i] + [Owner(client, owners[i].endpoints + [endpoint])] + owners[i + 1..];
          return;
        }
      }
      assert before[..|before|] == before && before[|before|..] == [];
      owners := owners + [Owner(client, [endpoint])];
    }

    /** Whether there was something to remove. */
    method RemoveEndpoint(client: ClientId, endpoint: Endpoint) returns (removed: bool)
      modifies this
      ensures owners == WithoutEndpoint(old(owners), client, endpoint)
      ensures removed <==> endpoint in EndpointsOf(old(owners), client)
    {
      hide RemoveFirst;
      ghost var before := owners;
      assert owners[0..] == owners && owners[..0] == [];
      for i := 0 to |owners|
        invariant owners == before
        invariant EndpointsOf(before, client) == EndpointsOf(before[i..], client)
        invariant WithoutEndpoint(before, client, endpoint) == before[..i] + WithoutEndpoint(before[i..], client, endpoint)
      {
        WithoutStep(before, i, client, endpoint);
        if owners[i].client == client {
          if endpoint !in owners[i].endpoints {
            assert owners == owners[..i] + owners[i..];
            return false;
          }
          removed := true;
          var rest := RemoveFirst(owners[i].endpoints, endpoint);
          if rest == [] {
            owners := owners[..i] + owners[i + 1..];
          } else {
            owners := owners[..i] + [Owner(client, rest)] + owners[i + 1..];
          }
          return;
        }
      }
      assert before[..|before|] == before && before[|before|..] == [];
      return false;
    }

    method GetEndpoints(client: ClientId) returns (endpoints: seq<Endpoint>)
      ensures endpoints == EndpointsOf(owners, client)
    {
      assert owners[0..] == owners;
      for i := 0 to |owners|
        invariant EndpointsOf(owners, client) == EndpointsOf(owners[i..], client)
      {
        assert owners[i..][0] == owners[i] && owners[i..][1..] == owners[i + 1..];
        if owners[i].client == client {
          return owners[i].endpoints;
        }
      }
      return [];
    }

    method GetEndpointByIpPort(address: Address) returns (found: Option<Endpoint>)
      ensures found == EndpointAt(owners, address)
    {
      assert owners[0..] == owners;
      for i := 0 to |owners|
        invariant EndpointAt(owners, address) == EndpointAt(owners[i..], address)
      {
        assert owners[i..][0] == owners[i] && owners[i..][1..] == owners[i + 1..];
        var endpoints := owners[i].endpoints;
        assert endpoints[0..] == endpoints;
        for j := 0 to |endpoints|
          invariant FirstAt(endpoints, address) == FirstAt(endpoints[j..], address)
        {
          assert endpoints[j..][0] == endpoints[j] && endpoints[j..][1..] == endpoints[j + 1..];
          if endpoints[j].address == address {
            return Some(endpoints[j]);
          }
        }
        assert endpoints[|endpoints|..] == [];
      }
      return None;
    }

    method GetAllEndpoints() returns (endpoints: seq<Endpoint>)
      ensures endpoints == AllEndpoints(owners)
    {
      endpoints := [];
      assert owners[0..] == owners;
      for i := 0 to |owners|
        invariant AllEndpoints(owners) == endpoints + AllEndpoints(owners[i..])
      {
        assert owners[i..][0] == owners[i] && owners[i..][1..] == owners[i + 1..];
        endpoints := endpoints + owners[i].endpoints;
      }
    }
  }

  lemma {:induction false} AbsentStays<T>(list: seq<T>, x: T)
    requires x !in list
    ensures RemoveFirst(list, x) == list
  {
    if list != [] {
      AbsentStays(list[1..], x);
    }
  }

  lemma WithStep(owners: seq<Owner>, i: nat, client: ClientId, endpoint: Endpoint)
    requires i < |owners|
    ensures owners[..i] + WithEndpoint(owners[i..], client, endpoint)
         == if owners[i].client == client then
              owners[..i] + [Owner(client, owners[i].endpoints + [endpoint])] + owners[i + 1..]
            else owners[..i + 1] + WithEndpoint(owners[i + 1..], client, endpoint)
  {
    assert owners[i..][0] == owners[i] && owners[i..][1..] == owners[i + 1..];
    assert owners[..i + 1] == owners[..i] + [owners[i]];
  }

  lemma WithoutStep(owners: seq<Owner>, i: nat, client: ClientId, endpoint: Endpoint)
    requires i < |owners|
    ensures owners[..i] + WithoutEndpoint(owners[i..], client, endpoint)
         == if owners[i].client == client then
              if endpoint !in owners[i].endpoints then owners else
              var rest := RemoveFirst(owners[i].endpoints, endpoint);
              if rest == [] then owners[..i] + owners[i + 1..] else owners[..i] + [Owner(client, rest)] + owners[i + 1..]
            else owners[..i + 1] + WithoutEndpoint(owners[i + 1..], client, endpoint)
    ensures EndpointsOf(owners[i..], client)
         == if owners[i].client == client then owners[i].endpoints else EndpointsOf(owners[i + 1..], client)
  {
    assert owners[i..][0] == owners[i] && owners[i..][1..] == owners[i + 1..];
    assert owners[..i + 1] == owners[..i] + [owners[i]];
  }
}
