/** From offered services to an offer message, over the wire, to the service instances
    another daemon learns. */
module SdAdvertise {
  import opened Bytes
  import opened SdMessages
  import opened SdSerialization
  import opened SdDeserialization
  import opened SdRoundTrip
  import opened SdSharedOptions
  import opened OfferServiceStorage
  import SdHandshake

  // ----- Creating the message -----

  function OptionFor(address: Address, protocol: Protocol): V4Endpoint {
    V4(address.ip, protocol, address.port)
  }

  /** The UDP endpoint comes before the TCP endpoint. */
  function OfferEndpoints(service: ServiceToOffer): seq<V4Endpoint> {
    (if service.HasUdp() then [OptionFor(service.address, UDP)] else [])
    + if service.HasTcp() then [OptionFor(service.address, TCP)] else []
  }

  function OfferEntry(service: ServiceToOffer): Entry {
    OfferService(service.serviceId, service.instanceId, service.majorVersion, service.minorVersion, service.ttl,
                 OfferEndpoints(service), [])
  }

  function OfferEntries(services: seq<ServiceToOffer>): (r: seq<Entry>)
    ensures |r| == |services| && forall i :: 0 <= i < |r| ==> r[i] == OfferEntry(services[i])
  {
    seq(|services|, i requires 0 <= i < |services| => OfferEntry(services[i]))
  }

  /** The options of all services: what the first loop collects in a set. */
  ghost predicate AllOptions(services: seq<ServiceToOffer>, options: set<V4Endpoint>) {
    forall o :: o in options <==> exists s :: s in services && o in OfferEndpoints(s)
  }

  lemma AllOptionsStep(services: seq<ServiceToOffer>, service: ServiceToOffer, options: set<V4Endpoint>)
    requires AllOptions(services, options)
    ensures AllOptions(services + [service], options + set o | o in OfferEndpoints(service))
  {
    var more := services + [service];
    assert forall s :: s in more <==> s in services || s == service;
  }

  lemma EndpointSet(service: ServiceToOffer, options: set<V4Endpoint>)
    ensures var udp := if service.HasUdp() then options + {OptionFor(service.address, UDP)} else options;
            options + (set o | o in OfferEndpoints(service))
            == if service.HasTcp() then udp + {OptionFor(service.address, TCP)} else udp
  {
    hide ServiceToOffer.Uses;
  }

  method CollectServiceOptions(services: seq<ServiceToOffer>) returns (options: set<V4Endpoint>)
    ensures AllOptions(services, options)
  {
    options := {};
    for i := 0 to |services|
      invariant AllOptions(services[..i], options)
    {
      var service := services[i];
      assert services[..i + 1] == services[..i] + [service];
      hide ServiceToOffer.Uses, AllOptions;
      AllOptionsStep(services[..i], service, options);
      EndpointSet(service, options);
      if service.HasUdp() {
        options := options + {OptionFor(service.address, UDP)};
      }
      if service.HasTcp() {
        options := options + {OptionFor(service.address, TCP)};
      }
    }
    assert services[..|services|] == services;
  }

  /** list(options): every element once, in an order of Python's choice. */
  method ListOf(options: set<V4Endpoint>) returns (list: seq<V4Endpoint>)
    ensures NoDuplicates(list)
    ensures forall o :: o in list <==> o in options
  {
    list := [];
    var rest := options;
    while rest != {}
      invariant NoDuplicates(list) && rest <= options
      invariant forall o :: o in list <==> o in options && o !in rest
      decreases rest
    {
      var o :| o in rest;
      rest := rest - {o};
      list := list + [o];
    }
  }

  /** The options of one address and protocol: one at most, wherever it stands in the list. */
  method Matching(list: seq<V4Endpoint>, address: Address, protocol: Protocol) returns (found: seq<V4Endpoint>)
    requires NoDuplicates(list)
    ensures found == if OptionFor(address, protocol) in list then [OptionFor(address, protocol)] else []
  {
    found := [];
    for i := 0 to |list|
      invariant found == if OptionFor(address, protocol) in list[..i] then [OptionFor(address, protocol)] else []
    {
      assert list[..i + 1] == list[..i] + [list[i]];
      assert list[i] !in list[..i];
      if list[i].protocol == protocol && list[i].address4 == address.ip && list[i].port == address.port {
        assert list[i] == OptionFor(address, protocol);
        found := found + [list[i]];
      }
    }
    assert list[..|list|] == list;
  }

  /** The endpoints of one service, picked from the list of all options. */
  method EndpointsFor(service: ServiceToOffer, options: seq<V4Endpoint>) returns (endpoints: seq<V4Endpoint>)
    requires NoDuplicates(options)
    requires forall o :: o in OfferEndpoints(service) ==> o in options
    ensures endpoints == OfferEndpoints(service)
  {
    hide ServiceToOffer.Uses;
    endpoints := [];
    if service.HasUdp() {
      assert OptionFor(service.address, UDP) in OfferEndpoints(service);
      endpoints := Matching(options, service.address, UDP);
    }
    if service.HasTcp() {
      assert OptionFor(service.address, TCP) in OfferEndpoints(service);
      var tcp := Matching(options, service.address, TCP);
      endpoints := endpoints + tcp;
    }
  }

  method CreateOfferServiceMessage(services: seq<ServiceToOffer>, sessionId: int, rebootFlag: bool)
    returns (message: SdMessage)
    ensures message == SdMessage(sessionId, rebootFlag, OfferEntries(services))
  {
    hide ServiceToOffer.Uses, OfferEndpoints;
    var optionSet := CollectServiceOptions(services);
    var options := ListOf(optionSet);
    var entries: seq<Entry> := [];
    for i := 0 to |services|
      invariant entries == OfferEntries(services)[..i]
    {
      assert services[i] in services;
      var endpoints := EndpointsFor(services[i], options);
      var entry := OfferService(services[i].serviceId, services[i].instanceId, services[i].majorVersion,
                                services[i].minorVersion, services[i].ttl, endpoints, []);
      assert entry == OfferEntries(services)[i];
      entries := entries + [entry];
    }
    return SdMessage(sessionId, rebootFlag, entries);
  }

  // ----- The message that stops an offer -----

  function StopOfferMessage(service: ServiceToOffer, sessionId: int, rebootFlag: bool): SdMessage {
    SdMessage(sessionId, rebootFlag,
              [StopOfferService(service.serviceId, service.instanceId, service.majorVersion, service.minorVersion,
                                OfferEndpoints(service), [])])
  }

  /** The ids, versions and port of a service fit the wire. */
  predicate Announceable(service: ServiceToOffer) {
    && InU16(service.serviceId) && InU16(service.instanceId) && InU8(service.majorVersion) && InU32(service.minorVersion)
    && (service.HasUdp() || service.HasTcp() ==> InU16(service.address.port))
  }

  lemma StopOfferPrints(service: ServiceToOffer, sessionId: int, rebootFlag: bool)
    requires InU16(sessionId)
    ensures SdBytes(StopOfferMessage(service, sessionId, rebootFlag)).Ok? <==> Announceable(service)
  {
    hide SdBytes, ServiceToOffer.Uses;
    var endpoints := OfferEndpoints(service);
    var entry := StopOfferService(service.serviceId, service.instanceId, service.majorVersion, service.minorVersion,
                                  endpoints, []);
    assert entry.Endpoints() == endpoints;
    if endpoints != [] {
      assert endpoints[0] in endpoints;
    }
    SdHandshake.MessagePrints(entry, sessionId, rebootFlag);
  }

  predicate Carries(endpoints: seq<V4Endpoint>, p: Protocol) {
    exists e :: e in endpoints && e.protocol == p
  }

  /** What arrives of a sent stop of an offer: one entry for the service, with one IPv4 endpoint at its
      address for each protocol that one of its methods or events uses. */
  ghost predicate StopOfferArrives(service: ServiceToOffer, sessionId: int, data: seq<byte>) {
    && Parsed(data).Ok? && Parsed(data).value.sessionId == sessionId
    && |Parsed(data).value.entries| == 1
    && var entry := Parsed(data).value.entries[0];
    && entry.StopOfferService?
    && entry.serviceId == service.serviceId && entry.instanceId == service.instanceId
    && entry.majorVersion == service.majorVersion && entry.minorVersion == service.minorVersion
    && entry.v6 == [] && |entry.v4| <= 2 && (|entry.v4| == 2 ==> entry.v4[0] != entry.v4[1])
    && (forall e :: e in entry.v4 ==> e.address4 == service.address.ip && e.port == service.address.port)
    && forall p :: Carries(entry.v4, p) <==>
         || (exists m :: m in service.methods && m.protocol == p)
         || (exists g :: g in service.eventGroups && exists e :: e in g.events && e.protocol == p)
  }

  /** The stop of a service that can be announced is printed, and the newer parser reads it as such. */
  lemma StopOfferIsRead(service: ServiceToOffer, sessionId: int, rebootFlag: bool)
    requires Announceable(service) && 1 <= sessionId <= 0xFFFF
    ensures var bytes := SdBytes(StopOfferMessage(service, sessionId, rebootFlag));
            bytes.Ok? && StopOfferArrives(service, sessionId, bytes.value)
  {
    var message := StopOfferMessage(service, sessionId, rebootFlag);
    StopOfferShared(service, sessionId, rebootFlag);
    hide *;
    StopOfferPrints(service, sessionId, rebootFlag);
    SharedRoundTrip(message, SdBytes(message).value);
    StopOfferFields(service, sessionId, rebootFlag, SdBytes(message).value);
  }

  lemma StopOfferShared(service: ServiceToOffer, sessionId: int, rebootFlag: bool)
    requires 1 <= sessionId <= 0xFFFF
    ensures var message := StopOfferMessage(service, sessionId, rebootFlag);
            && AllService(message.entries) && EqualOrDisjoint(message.entries) && message.sessionId != 0
            && InU16(sessionId) && forall e :: e in message.entries ==> TtlKept(e)
  {
    var message := StopOfferMessage(service, sessionId, rebootFlag);
    var entry := message.entries[0];
    assert entry.Endpoints() == OfferEndpoints(service) + [];
    EndpointsDiffer(service);
    hide OfferEndpoints, ServiceToOffer.Uses;
  }

  lemma EndpointsDiffer(service: ServiceToOffer)
    ensures NoDuplicates(OfferEndpoints(service)) && NoDuplicates(OfferEndpoints(service) + [])
  {
    hide ServiceToOffer.Uses;
    assert OfferEndpoints(service) + [] == OfferEndpoints(service);
  }

  lemma StopOfferFields(service: ServiceToOffer, sessionId: int, rebootFlag: bool, data: seq<byte>)
    requires Parsed(data) == Ok(ReceivedMessage(StopOfferMessage(service, sessionId, rebootFlag).sessionId, false,
                                                StopOfferMessage(service, sessionId, rebootFlag).entries))
    ensures StopOfferArrives(service, sessionId, data)
  {
    hide Parsed;
    var endpoints := OfferEndpoints(service);
    var udp, tcp := OptionFor(service.address, UDP), OptionFor(service.address, TCP);
    assert endpoints == (if service.HasUdp() then [udp] else []) + (if service.HasTcp() then [tcp] else []);
    forall p: Protocol ensures Carries(endpoints, p) <==> service.Uses(p) {
      match p
      case UDP => assert service.HasUdp() ==> udp in endpoints;
      case TCP => assert service.HasTcp() ==> tcp in endpoints;
    }
    hide OfferEndpoints;
  }

  // ----- Learning instances -----

  /** A service as a daemon knows it; equality of instances ignores the time of the offer. */
  datatype ServiceInstance = ServiceInstance(serviceId: int, instanceId: int, majorVersion: int, minorVersion: int,
                                             ttl: int, address: Address, protocols: set<Protocol>)

  function ProtocolsOf(v4: seq<V4Endpoint>, v6: seq<V6Endpoint>): set<Protocol> {
    (set e | e in v4 :: e.protocol) + (set e | e in v6 :: e.protocol)
  }

  /** The instance an offer entry stands for; the first IPv4 endpoint must exist. */
  function InstanceOf(entry: Entry): Result<ServiceInstance>
    requires entry.OfferService?
  {
    if entry.v4 == [] then Err(IndexError)
    else Ok(ServiceInstance(entry.serviceId, entry.instanceId, entry.majorVersion, entry.minorVersion, entry.ttl,
                            Address(entry.v4[0].address4, entry.v4[0].port), ProtocolsOf(entry.v4, entry.v6)))
  }

  function Learned(entries: seq<Entry>): Result<seq<ServiceInstance>> {
    if entries == [] then Ok([])
    else if !entries[0].OfferService? then Learned(entries[1..])
    else
      var first :- InstanceOf(entries[0]);
      var rest :- Learned(entries[1..]);
      Ok([first] + rest)
  }

  /** The instances that have been learned when the loop ends, be it at an offer without IPv4 endpoint. */
  function Handled(entries: seq<Entry>): seq<ServiceInstance> {
    if entries == [] then []
    else if !entries[0].OfferService? then Handled(entries[1..])
    else
      match InstanceOf(entries[0])
      case Err(_) => []
      case Ok(first) => [first] + Handled(entries[1..])
  }

  lemma {:induction false} HandledIsLearned(entries: seq<Entry>)
    ensures Learned(entries).Ok? ==> Learned(entries) == Ok(Handled(entries))
  {
    hide InstanceOf;
    if entries != [] {
      HandledIsLearned(entries[1..]);
    }
  }

  lemma HandledStep(instances: seq<ServiceInstance>, entries: seq<Entry>, i: nat)
    requires i < |entries|
    ensures var e, all, rest := entries[i], entries[i..], entries[i + 1..];
            if !e.OfferService? then Handled(all) == Handled(rest) && Learned(all).Ok? == Learned(rest).Ok?
            else
              match InstanceOf(e)
              case Err(_) => instances + Handled(all) == instances && Learned(all).Err?
              case Ok(first) =>
                instances + Handled(all) == instances + [first] + Handled(rest) && Learned(all).Ok? == Learned(rest).Ok?
  {
    hide InstanceOf;
    assert entries[i..][0] == entries[i] && entries[i..][1..] == entries[i + 1..];
  }

  lemma NoneHandled(instances: seq<ServiceInstance>, entries: seq<Entry>)
    requires entries == []
    ensures instances + Handled(entries) == instances && Learned(entries).Ok?
  {
  }

  /** The loop over the offer entries of a received message; each instance is handled at once, and an
      offer without IPv4 endpoint ends the loop. */
  method LearnInstances(entries: seq<Entry>) returns (instances: seq<ServiceInstance>, complete: bool)
    ensures instances == Handled(entries)
    ensures complete <==> Learned(entries).Ok?
  {
    instances := [];
    hide Learned, Handled, ProtocolsOf;
    assert entries[0..] == entries && [] + Handled(entries) == Handled(entries);
    for i := 0 to |entries|
      invariant Handled(entries) == instances + Handled(entries[i..])
      invariant Learned(entries).Ok? == Learned(entries[i..]).Ok?
    {
      HandledStep(instances, entries, i);
      if entries[i].OfferService? {
        var protocols := CollectProtocols(entries[i].v4, entries[i].v6);
        if entries[i].v4 == [] {
          return instances, false;
        }
        instances := instances + [ServiceInstance(entries[i].serviceId, entries[i].instanceId, entries[i].majorVersion,
                                                  entries[i].minorVersion, entries[i].ttl,
                                                  Address(entries[i].v4[0].address4, entries[i].v4[0].port), protocols)];
      }
    }
    NoneHandled(instances, entries[|entries|..]);
    return instances, true;
  }

  /** The two loops over the endpoints of one offer. */
  method CollectProtocols(v4: seq<V4Endpoint>, v6: seq<V6Endpoint>) returns (protocols: set<Protocol>)
    ensures protocols == ProtocolsOf(v4, v6)
  {
    protocols := {};
    for j := 0 to |v4|
      invariant protocols == ProtocolsOf(v4[..j], [])
    {
      protocols := protocols + {v4[j].protocol};
    }
    assert v4[..|v4|] == v4;
    for j := 0 to |v6|
      invariant protocols == ProtocolsOf(v4, v6[..j])
    {
      protocols := protocols + {v6[j].protocol};
    }
    assert v6[..|v6|] == v6;
  }

  // ----- Advertise, then learn -----

  function InstanceOffered(service: ServiceToOffer): ServiceInstance {
    ServiceInstance(service.serviceId, service.instanceId, service.majorVersion, service.minorVersion, service.ttl,
                    service.address, service.Protocols())
  }

  function InstancesOffered(services: seq<ServiceToOffer>): seq<ServiceInstance> {
    if services == [] then [] else [InstanceOffered(services[0])] + InstancesOffered(services[1..])
  }

  /** What the receiver needs of one service: a protocol, a TTL that fits and is not 0, and, for a
      service with both protocols, that the option after its first one has the other protocol. */
  predicate Learnable(service: ServiceToOffer, table: seq<EndpointOption>) {
    var i := FirstOf(table, OfferEndpoints(service));
    && (service.HasUdp() || service.HasTcp())
    && 1 <= service.ttl <= 0xFF_FFFF
    && (service.HasUdp() && service.HasTcp() ==>
          i + 1 < |table| && table[i + 1].protocol != table[i].protocol)
  }

  /** All options of the table are IPv4 endpoints, those of the service among them. */
  predicate Covers(table: seq<EndpointOption>, service: ServiceToOffer) {
    && (forall o :: o in table ==> o.V4?)
    && forall o :: o in OfferEndpoints(service) ==> o in table
  }

  lemma {:induction false} AllV4(options: seq<EndpointOption>)
    requires forall o :: o in options ==> o.V4?
    ensures V4Endpoints(Wrapped(options)) == options && V6Endpoints(Wrapped(options)) == []
  {
    if options != [] {
      assert Wrapped(options)[1..] == Wrapped(options[1..]);
      assert options[0] in options;
      AllV4(options[1..]);
    }
  }

  /** The learned form of one offered service, if its entry is seen as an offer at all. */
  function Relearned(service: ServiceToOffer, table: seq<EndpointOption>): Result<Option<ServiceInstance>> {
    var seen :- Seen(OfferEntry(service), table);
    if !seen.OfferService? then Ok(None)
    else
      var instance :- InstanceOf(seen);
      Ok(Some(instance))
  }

  /** The first option of a service is in the table, and it is where the printer points. */
  lemma FirstOption(service: ServiceToOffer, table: seq<EndpointOption>)
    requires Covers(table, service)
    ensures OfferEntry(service).Endpoints() == OfferEndpoints(service)
    ensures var i := FirstOf(table, OfferEndpoints(service));
            && (OfferEndpoints(service) == [] ==> RunIndex(OfferEntry(service), table) == 0)
            && (OfferEndpoints(service) != [] ==>
                  i < |table| && table[i] in OfferEndpoints(service) && RunIndex(OfferEntry(service), table) == i)
  {
    hide ServiceToOffer.Uses;
    var endpoints := OfferEndpoints(service);
    if endpoints == [] {
      assert FirstOf(table, endpoints) == |table|;
    } else {
      assert endpoints[0] in endpoints;
      assert endpoints[0] in table;
    }
  }

  /** Options i, ..., i + n - 1 of the table, for a receiver: none without endpoints, an error
      past the end of the table. */
  function OptionsRead(service: ServiceToOffer, table: seq<EndpointOption>): (r: Result<seq<EndpointOption>>) {
    var i, n := FirstOf(table, OfferEndpoints(service)), |OfferEndpoints(service)|;
    if n == 0 then Ok([])
    else if i + n > |table| then Err(IndexError)
    else Ok(table[i..i + n])
  }

  lemma RunOfTable(table: seq<EndpointOption>, i: nat, n: nat)
    requires i + n <= |table| && forall o :: o in table ==> o.V4?
    ensures V4Endpoints(Wrapped(table)[i..i + n]) == table[i..i + n]
    ensures V6Endpoints(Wrapped(table)[i..i + n]) == []
    ensures forall o :: o in table[i..i + n] ==> o.V4?
  {
    assert Wrapped(table)[i..i + n] == Wrapped(table[i..i + n]);
    forall o | o in table[i..i + n] ensures o.V4? {
      assert o in table;
    }
    AllV4(table[i..i + n]);
  }

  lemma ReadRun(service: ServiceToOffer, table: seq<EndpointOption>)
    requires Covers(table, service)
    ensures var run, read := Run(Wrapped(table), RunIndex(OfferEntry(service), table), |OfferEndpoints(service)|),
                             OptionsRead(service, table);
            if read.Err? then run == Err(read.error)
            else run.Ok? && V4Endpoints(run.value) == read.value && V6Endpoints(run.value) == []
                 && forall o :: o in read.value ==> o.V4?
  {
    assert forall o :: o in table ==> o.V4?;
    FirstOption(service, table);
    hide RunIndex, FirstOf, OfferEndpoints, OfferEntry, Covers, Wrapped, V4Endpoints, V6Endpoints, Run;
    var i, n := FirstOf(table, OfferEndpoints(service)), |OfferEndpoints(service)|;
    RunCases(table, i, n);
  }

  lemma RunCases(table: seq<EndpointOption>, i: nat, n: nat)
    requires forall o :: o in table ==> o.V4?
    ensures n == 0 ==> Run(Wrapped(table), 0, n) == Ok([]) && V4Endpoints([]) == [] && V6Endpoints([]) == []
    ensures n > 0 && i + n > |table| ==> Run(Wrapped(table), i, n) == Err(IndexError)
    ensures n > 0 && i + n <= |table| ==>
              var run := Run(Wrapped(table), i, n);
              run.Ok? && V4Endpoints(run.value) == table[i..i + n] && V6Endpoints(run.value) == []
              && forall o :: o in table[i..i + n] ==> o.V4?
  {
    if n > 0 && i + n <= |table| {
      RunOfTable(table, i, n);
    }
  }

  /** What a receiver learns from one printed offer, in closed form. */
  lemma RelearnedForm(service: ServiceToOffer, table: seq<EndpointOption>)
    requires Covers(table, service)
    ensures OptionsRead(service, table).Ok? ==> forall o :: o in OptionsRead(service, table).value ==> o.V4?
    ensures var read, ttl := OptionsRead(service, table), service.ttl % 0x100_0000;
            Relearned(service, table)
            == if read.Err? then Err(read.error)
               else if ttl == 0 then Ok(None)
               else if read.value == [] then Err(IndexError)
               else Ok(Some(ServiceInstance(service.serviceId, service.instanceId, service.majorVersion,
                                            service.minorVersion, ttl,
                                            Address(read.value[0].address4, read.value[0].port),
                                            ProtocolsOf(read.value, []))))
  {
    FirstOption(service, table);
    ReadRun(service, table);
    hide Run, RunIndex, V4Endpoints, V6Endpoints, Wrapped, OfferEndpoints, OptionsRead, Covers, ProtocolsOf;
  }

  /** When the options read are those of an address, the learned instance has that address. */
  lemma InstanceFields(service: ServiceToOffer, read: seq<V4Endpoint>, ttl: int)
    requires read != [] && read[0] in OfferEndpoints(service)
    ensures ServiceInstance(service.serviceId, service.instanceId, service.majorVersion, service.minorVersion, ttl,
                            Address(read[0].address4, read[0].port), ProtocolsOf(read, []))
            == InstanceOffered(service)
       <==> ttl == service.ttl && ProtocolsOf(read, []) == service.Protocols()
  {
    EndpointCases(service);
    hide OfferEndpoints, ServiceToOffer.Uses, ServiceToOffer.Protocols, ProtocolsOf;
  }

  lemma OptionsReadCases(service: ServiceToOffer, table: seq<EndpointOption>)
    requires OptionsRead(service, table).Ok? && OfferEndpoints(service) != []
    ensures var i, n := FirstOf(table, OfferEndpoints(service)), |OfferEndpoints(service)|;
            i + n <= |table| && OptionsRead(service, table).value == table[i..i + n]
  {
    hide FirstOf, OfferEndpoints, ServiceToOffer.Uses, OptionFor;
  }

  lemma ReadOne(service: ServiceToOffer, table: seq<EndpointOption>)
    requires Covers(table, service) && OptionsRead(service, table).Ok? && |OfferEndpoints(service)| == 1
    requires forall o :: o in OptionsRead(service, table).value ==> o.V4?
    ensures var read := OptionsRead(service, table).value;
            read != [] && read[0] in OfferEndpoints(service) && ProtocolsOf(read, []) == service.Protocols()
  {
    OptionsReadCases(service, table);
    FirstOption(service, table);
    EndpointCases(service);
    hide *;
    var i := FirstOf(table, OfferEndpoints(service));
    assert table[i..i + 1] == [table[i]];
    ProtocolsOfRun(table[i], table[i]);
  }

  lemma ReadPair(service: ServiceToOffer, table: seq<EndpointOption>)
    requires Covers(table, service) && OptionsRead(service, table).Ok? && |OfferEndpoints(service)| == 2
    requires forall o :: o in OptionsRead(service, table).value ==> o.V4?
    ensures var i, read := FirstOf(table, OfferEndpoints(service)), OptionsRead(service, table).value;
            && i + 1 < |table| && read != [] && read[0] in OfferEndpoints(service)
            && (ProtocolsOf(read, []) == service.Protocols() <==> table[i + 1].protocol != table[i].protocol)
  {
    OptionsReadCases(service, table);
    FirstOption(service, table);
    EndpointCases(service);
    hide *;
    PairProtocols(table, FirstOf(table, OfferEndpoints(service)));
  }

  /** What a receiver must read for the learned instance to be the offered one. */
  ghost predicate ReadsRight(service: ServiceToOffer, read: Result<seq<EndpointOption>>) {
    && read.Ok? && read.value != []
    && (forall o :: o in read.value ==> o.V4?)
    && read.value[0] in OfferEndpoints(service)
    && ProtocolsOf(read.value, []) == service.Protocols()
  }

  lemma LearnableReads(service: ServiceToOffer, table: seq<EndpointOption>)
    requires Covers(table, service)
    requires OptionsRead(service, table).Ok? ==> forall o :: o in OptionsRead(service, table).value ==> o.V4?
    ensures Learnable(service, table)
       <==> 1 <= service.ttl <= 0xFF_FFFF && ReadsRight(service, OptionsRead(service, table))
  {
    EndpointCases(service);
    FirstOption(service, table);
    var read := OptionsRead(service, table);
    var n := |OfferEndpoints(service)|;
    if n == 0 || read.Err? {
      hide FirstOf, OfferEndpoints, ServiceToOffer.Uses, ProtocolsOf, Covers, RunIndex;
    } else if n == 1 {
      ReadOne(service, table);
      hide FirstOf, OfferEndpoints, ServiceToOffer.Uses, ProtocolsOf, Covers, RunIndex, OptionsRead;
    } else {
      ReadPair(service, table);
      hide FirstOf, OfferEndpoints, ServiceToOffer.Uses, ProtocolsOf, Covers, RunIndex, OptionsRead;
    }
  }

  lemma RelearnedReads(service: ServiceToOffer, table: seq<EndpointOption>)
    requires Covers(table, service)
    ensures OptionsRead(service, table).Ok? ==> forall o :: o in OptionsRead(service, table).value ==> o.V4?
    ensures Relearned(service, table) == Ok(Some(InstanceOffered(service)))
       <==> service.ttl % 0x100_0000 == service.ttl && service.ttl != 0
            && ReadsRight(service, OptionsRead(service, table))
  {
    RelearnedForm(service, table);
    var read := OptionsRead(service, table);
    if read.Ok? && read.value != [] {
      FirstRead(service, table);
      InstanceFields(service, read.value, service.ttl % 0x100_0000);
    }
    hide Relearned, OfferEndpoints, ServiceToOffer.Protocols, ProtocolsOf, Covers, OptionsRead;
    assert InstanceOffered(service).ttl == service.ttl;
  }

  lemma FirstRead(service: ServiceToOffer, table: seq<EndpointOption>)
    requires Covers(table, service) && OptionsRead(service, table).Ok? && OptionsRead(service, table).value != []
    ensures OptionsRead(service, table).value[0] in OfferEndpoints(service)
  {
    FirstOption(service, table);
    hide FirstOf, OfferEndpoints;
  }

  /** One service is learned as it was offered exactly when it is learnable. */
  lemma RelearnedExactly(service: ServiceToOffer, table: seq<EndpointOption>)
    requires Covers(table, service)
    ensures Relearned(service, table) == Ok(Some(InstanceOffered(service))) <==> Learnable(service, table)
  {
    hide *;
    RelearnedReads(service, table);
    LearnableReads(service, table);
  }

  lemma PairProtocols(table: seq<EndpointOption>, i: nat)
    requires i + 2 <= |table| && forall o :: o in table[i..i + 2] ==> o.V4?
    ensures table[i..i + 2] != [] && table[i..i + 2][0] == table[i]
    ensures ProtocolsOf(table[i..i + 2], []) == {UDP, TCP} <==> table[i + 1].protocol != table[i].protocol
  {
    assert table[i..i + 2] == [table[i], table[i + 1]];
    assert table[i] in table[i..i + 2] && table[i + 1] in table[i..i + 2];
    ProtocolsOfRun(table[i], table[i + 1]);
    TwoProtocols(table[i].protocol, table[i + 1].protocol);
  }

  lemma ProtocolsOfRun(a: V4Endpoint, b: V4Endpoint)
    ensures ProtocolsOf([a], []) == {a.protocol} && ProtocolsOf([a, b], []) == {a.protocol, b.protocol}
  {
    assert a in [a] && a in [a, b] && b in [a, b];
  }

  /** How many endpoints a service has, and at which address. */
  lemma EndpointCases(service: ServiceToOffer)
    ensures |OfferEndpoints(service)|
         == (if service.HasUdp() then 1 else 0) + if service.HasTcp() then 1 else 0
    ensures forall o :: o in OfferEndpoints(service) ==>
              o.address4 == service.address.ip && o.port == service.address.port && o.protocol in service.Protocols()
    ensures |OfferEndpoints(service)| == 1 ==>
              forall o :: o in OfferEndpoints(service) ==> service.Protocols() == {o.protocol}
    ensures |OfferEndpoints(service)| == 2 ==> service.Protocols() == {UDP, TCP}
  {
    hide ServiceToOffer.Uses;
  }

  lemma TwoProtocols(p: Protocol, q: Protocol)
    ensures {p, q} == {UDP, TCP} <==> p != q
  {
    if p == q {
      assert {p, q} == {p};
      assert UDP in {UDP, TCP} && TCP in {UDP, TCP};
    } else if p.UDP? {
      assert q == TCP;
    } else {
      assert p == TCP && q == UDP;
    }
  }

  /** A receiver never learns more instances than there are entries. */
  lemma {:induction false} LearnedCount(entries: seq<Entry>)
    ensures Learned(entries).Ok? ==> |Learned(entries).value| <= |entries|
  {
    if entries != [] {
      LearnedCount(entries[1..]);
    }
  }

  lemma {:induction false} RelearnedAll(services: seq<ServiceToOffer>, table: seq<EndpointOption>)
    requires NoDuplicates(table) && forall s :: s in services ==> Covers(table, s)
    ensures AllService(OfferEntries(services))
    ensures var seen := SeenAll(OfferEntries(services), table);
            (seen.Ok? && Learned(seen.value) == Ok(InstancesOffered(services)))
            <==> forall s :: s in services ==> Learnable(s, table)
  {
    hide Seen, Learnable;
    if services != [] {
      var entries := OfferEntries(services);
      var first, rest := Seen(OfferEntry(services[0]), table), SeenAll(OfferEntries(services[1..]), table);
      assert entries[1..] == OfferEntries(services[1..]);
      assert services == [services[0]] + services[1..];
      RelearnedAll(services[1..], table);
      RelearnedExactly(services[0], table);
      if first.Ok? && rest.Ok? {
        RelearnedStep(services, table, first.value, rest.value);
      }
    } else {
      assert OfferEntries(services) == [];
    }
  }

  lemma {:induction false} RelearnedStep(services: seq<ServiceToOffer>, table: seq<EndpointOption>, first: Entry, rest: seq<Entry>)
    requires services != [] && |rest| == |services| - 1
    requires Seen(OfferEntry(services[0]), table) == Ok(first)
    ensures Learned([first] + rest) == Ok(InstancesOffered(services))
       <==> Relearned(services[0], table) == Ok(Some(InstanceOffered(services[0])))
            && Learned(rest) == Ok(InstancesOffered(services[1..]))
  {
    assert ([first] + rest)[1..] == rest;
    var all := InstancesOffered(services);
    assert all[0] == InstanceOffered(services[0]) && all[1..] == InstancesOffered(services[1..]);
    InstancesCount(services);
    LearnedCount(rest);
    var learned := Learned([first] + rest);
    if first.OfferService? && learned.Ok? {
      assert learned.value[0] == InstanceOf(first).value && learned.value[1..] == Learned(rest).value;
    }
  }

  lemma {:induction false} InstancesCount(services: seq<ServiceToOffer>)
    ensures |InstancesOffered(services)| == |services|
  {
    if services != [] {
      InstancesCount(services[1..]);
    }
  }

  /** The instances a receiver should learn, one for each service in order: its ids, versions, TTL and
      address, and the protocols that its methods and events use. */
  lemma {:induction false} InstancesOfferedFields(services: seq<ServiceToOffer>, i: nat)
    requires i < |services|
    ensures i < |InstancesOffered(services)|
    ensures var instance, service := InstancesOffered(services)[i], services[i];
            && instance.serviceId == service.serviceId && instance.instanceId == service.instanceId
            && instance.majorVersion == service.majorVersion && instance.minorVersion == service.minorVersion
            && instance.ttl == service.ttl && instance.address == service.address
            && forall p :: p in instance.protocols <==>
                 || (exists m :: m in service.methods && m.protocol == p)
                 || (exists g :: g in service.eventGroups && exists e :: e in g.events && e.protocol == p)
  {
    if i == 0 {
      forall p ensures p in services[0].Protocols() <==> services[0].Uses(p) {
        match p
        case UDP =>
        case TCP =>
      }
    } else {
      InstancesOfferedFields(services[1..], i - 1);
    }
  }

  lemma OfferTable(services: seq<ServiceToOffer>)
    ensures NoDuplicates(OptionTable(OfferEntries(services)))
    ensures forall s :: s in services ==> Covers(OptionTable(OfferEntries(services)), s)
  {
    var entries := OfferEntries(services);
    OptionTableProperties(entries);
    hide OptionTable;
    forall s, o | s in services && o in OfferEndpoints(s) ensures o in OptionTable(entries) {
      var i :| 0 <= i < |services| && services[i] == s;
      assert entries[i] in entries && o in entries[i].Endpoints();
    }
    forall o | o in OptionTable(entries) ensures o.V4? {
      var e :| e in entries && o in e.Endpoints();
    }
  }

  /** Advertise, then learn: a receiver of the printed offer message learns exactly the offered
      services, in order, if and only if every one of them is learnable from the option table. */
  lemma AdvertiseThenLearn(services: seq<ServiceToOffer>, sessionId: int, rebootFlag: bool, data: seq<byte>)
    requires SdBytes(SdMessage(sessionId, rebootFlag, OfferEntries(services))) == Ok(data) && sessionId != 0
    ensures IsSdMessage(data)
    ensures (Parsed(data).Ok? && Learned(Parsed(data).value.entries) == Ok(InstancesOffered(services)))
       <==> forall s :: s in services ==> Learnable(s, OptionTable(OfferEntries(services)))
  {
    var message := SdMessage(sessionId, rebootFlag, OfferEntries(services));
    var table := OptionTable(OfferEntries(services));
    OfferTable(services);
    RelearnedAll(services, table);
    PrintedIsSdMessage(message, data);
    PrintedParses(message, data);
  }

  /** Services at one address use the same protocols. */
  ghost predicate SameProtocolsPerAddress(services: seq<ServiceToOffer>) {
    forall s, t :: s in services && t in services && s.address == t.address ==>
      s.HasUdp() == t.HasUdp() && s.HasTcp() == t.HasTcp()
  }

  lemma PairEqualOrDisjoint(s: ServiceToOffer, t: ServiceToOffer, e: seq<EndpointOption>, f: seq<EndpointOption>)
    requires s.address == t.address ==> s.HasUdp() == t.HasUdp() && s.HasTcp() == t.HasTcp()
    requires e == OfferEndpoints(s) && f == OfferEndpoints(t)
    ensures NoDuplicates(e)
    ensures e == f || Disjoint(e, f)
  {
    EndpointCases(s);
    EndpointCases(t);
    hide ServiceToOffer.Uses, ServiceToOffer.Protocols;
  }

  lemma EntryOf(services: seq<ServiceToOffer>, entry: Entry) returns (service: ServiceToOffer)
    requires entry in OfferEntries(services)
    ensures service in services && entry.Endpoints() == OfferEndpoints(service)
  {
    hide OfferEndpoints;
    var i :| 0 <= i < |services| && OfferEntries(services)[i] == entry;
    service := services[i];
    assert entry.Endpoints() == OfferEndpoints(service) + [];
  }

  lemma EndpointsEqualOrDisjoint(services: seq<ServiceToOffer>)
    requires SameProtocolsPerAddress(services)
    ensures EqualOrDisjoint(OfferEntries(services))
  {
    hide OfferEndpoints, NoDuplicates, Disjoint, OfferEntries, ServiceToOffer.Uses;
    forall e, f | e in OfferEntries(services) && f in OfferEntries(services)
      ensures NoDuplicates(e.Endpoints())
      ensures e.Endpoints() == f.Endpoints() || Disjoint(e.Endpoints(), f.Endpoints())
    {
      var s := EntryOf(services, e);
      var t := EntryOf(services, f);
      PairEqualOrDisjoint(s, t, e.Endpoints(), f.Endpoints());
    }
  }

  lemma LearnableFromRun(service: ServiceToOffer, table: seq<EndpointOption>)
    requires RunInTable(OfferEntry(service).Endpoints(), table, RunIndex(OfferEntry(service), table))
    requires Covers(table, service)
    requires (service.HasUdp() || service.HasTcp()) && 1 <= service.ttl <= 0xFF_FFFF
    ensures Learnable(service, table)
  {
    FirstOption(service, table);
    hide FirstOf, RunIndex, ServiceToOffer.Uses;
    var i := RunIndex(OfferEntry(service), table);
    if service.HasUdp() && service.HasTcp() {
      assert table[i..i + 2] == OfferEndpoints(service);
      assert table[i] == table[i..i + 2][0] && table[i + 1] == table[i..i + 2][1];
    }
  }

  lemma SharedRun(services: seq<ServiceToOffer>, k: nat)
    requires k < |services| && EqualOrDisjoint(OfferEntries(services))
    ensures var table := OptionTable(OfferEntries(services));
            RunInTable(OfferEntry(services[k]).Endpoints(), table, RunIndex(OfferEntry(services[k]), table))
  {
    hide EqualOrDisjoint, OptionTable, RunInTable, RunIndex, OfferEndpoints;
    SharedTable(OfferEntries(services), k);
  }

  lemma SharedLearnable(services: seq<ServiceToOffer>, k: nat)
    requires k < |services| && EqualOrDisjoint(OfferEntries(services))
    requires (services[k].HasUdp() || services[k].HasTcp()) && 1 <= services[k].ttl <= 0xFF_FFFF
    ensures Learnable(services[k], OptionTable(OfferEntries(services)))
  {
    OfferTable(services);
    SharedRun(services, k);
    assert services[k] in services;
    hide *;
    LearnableFromRun(services[k], OptionTable(OfferEntries(services)));
  }

  /** If services at one address use the same protocols, every service with a protocol and a
      TTL from 1 to 0xFFFFFF is learned as it was offered. */
  lemma AdvertiseThenLearnShared(services: seq<ServiceToOffer>, sessionId: int, rebootFlag: bool, data: seq<byte>)
    requires SameProtocolsPerAddress(services)
    requires forall s :: s in services ==> (s.HasUdp() || s.HasTcp()) && 1 <= s.ttl <= 0xFF_FFFF
    requires SdBytes(SdMessage(sessionId, rebootFlag, OfferEntries(services))) == Ok(data) && sessionId != 0
    ensures Parsed(data).Ok?
    ensures Learned(Parsed(data).value.entries) == Ok(InstancesOffered(services))
  {
    var entries := OfferEntries(services);
    var table := OptionTable(entries);
    EndpointsEqualOrDisjoint(services);
    OfferTable(services);
    hide *;
    forall s | s in services ensures Learnable(s, table) {
      var k :| 0 <= k < |services| && services[k] == s;
      SharedLearnable(services, k);
    }
    AdvertiseThenLearn(services, sessionId, rebootFlag, data);
  }

  /** The same without asking the printer: all numbers fit, and there are at most 256 different endpoints. */
  lemma AdvertiseThenLearnInRange(services: seq<ServiceToOffer>, sessionId: int, rebootFlag: bool)
    requires SameProtocolsPerAddress(services)
    requires forall s :: s in services ==> (s.HasUdp() || s.HasTcp()) && 1 <= s.ttl <= 0xFF_FFFF && Announceable(s)
    requires 1 <= sessionId <= 0xFFFF && |services| < 0x100_0000 && |OptionTable(OfferEntries(services))| <= 256
    ensures var bytes := SdBytes(SdMessage(sessionId, rebootFlag, OfferEntries(services)));
            bytes.Ok? && Parsed(bytes.value).Ok? && Learned(Parsed(bytes.value).value.entries) == Ok(InstancesOffered(services))
  {
    var message := SdMessage(sessionId, rebootFlag, OfferEntries(services));
    assert message.sessionId == sessionId && message.rebootFlag == rebootFlag && message.entries == OfferEntries(services);
    OffersInRange(services, sessionId, rebootFlag);
    hide *;
    InRangePrints(message);
    AdvertiseThenLearnShared(services, sessionId, rebootFlag, SdBytes(message).value);
  }

  lemma OffersInRange(services: seq<ServiceToOffer>, sessionId: int, rebootFlag: bool)
    requires forall s :: s in services ==> (s.HasUdp() || s.HasTcp()) && 1 <= s.ttl <= 0xFF_FFFF && Announceable(s)
    requires 1 <= sessionId <= 0xFFFF && |services| < 0x100_0000 && |OptionTable(OfferEntries(services))| <= 256
    ensures AllService(OfferEntries(services)) && InRange(SdMessage(sessionId, rebootFlag, OfferEntries(services)))
  {
    var entries := OfferEntries(services);
    hide OptionTable, OfferEndpoints, ServiceToOffer.Uses;
    forall e | e in entries
      ensures FieldsFit(e) && |e.Endpoints()| <= 2
      ensures forall o :: o in e.Endpoints() ==> InU16(o.port)
    {
      var i :| 0 <= i < |services| && entries[i] == e;
      assert services[i] in services && e == OfferEntry(services[i]);
      assert e.Endpoints() == OfferEndpoints(services[i]) + [];
      EndpointCases(services[i]);
    }
  }
}
