/** The entries, endpoint options and messages of service discovery (SD), as
    both daemons hold them in memory. Python integers are unbounded, so every
    numeric field is an int; what does not fit the wire is an error of the printer. */
module SdMessages {
  import opened Bytes

  datatype Protocol = TCP | UDP {
    function Code(): byte {
      if TCP? then 0x06 else 0x11
    }
  }

  /** TransportLayerProtocol(value), which raises for any other number. */
  function ProtocolOf(code: byte): (r: Result<Protocol>)
    ensures r.Ok? <==> exists p: Protocol :: p.Code() == code
    ensures r.Ok? ==> r.value.Code() == code
  {
    if code == 0x06 then
      assert TCP.Code() == code;
      Ok(TCP)
    else if code == 0x11 then
      assert UDP.Code() == code;
      Ok(UDP)
    else
      Err(ValueError)
  }

  /** An IPv4 address is its four packed bytes, an IPv6 address its sixteen. */
  type Ip4 = a: seq<byte> | |a| == 4 witness [0, 0, 0, 0]
  type Ip6 = a: seq<byte> | |a| == 16 witness [0, 0, 0, 0, 0, 0, 0, 0, 0, 0, 0, 0, 0, 0, 0, 0]

  datatype EndpointOption =
    | V4(address4: Ip4, protocol: Protocol, port: int)
    | V6(address6: Ip6, protocol: Protocol, port: int)

  type V4Endpoint = e: EndpointOption | e.V4? witness V4([0, 0, 0, 0], UDP, 0)
  type V6Endpoint = e: EndpointOption | e.V6?
    witness V6([0, 0, 0, 0, 0, 0, 0, 0, 0, 0, 0, 0, 0, 0, 0, 0], UDP, 0)

  datatype Entry =
    | FindService(serviceId: int, instanceId: int, majorVersion: int, minorVersion: int, ttl: int)
    | OfferService(serviceId: int, instanceId: int, majorVersion: int, minorVersion: int, ttl: int,
                   v4: seq<V4Endpoint>, v6: seq<V6Endpoint>)
    | StopOfferService(serviceId: int, instanceId: int, majorVersion: int, minorVersion: int,
                       v4: seq<V4Endpoint>, v6: seq<V6Endpoint>)
    | SubscribeEventGroup(serviceId: int, instanceId: int, majorVersion: int, ttl: int,
                          eventGroupId: int, counter: int, v4: seq<V4Endpoint>, v6: seq<V6Endpoint>)
    | StopSubscribeEventGroup(serviceId: int, instanceId: int, majorVersion: int,
                              eventGroupId: int, counter: int, v4: seq<V4Endpoint>, v6: seq<V6Endpoint>)
    | SubscribeAck(serviceId: int, instanceId: int, majorVersion: int, ttl: int, eventGroupId: int, counter: int)
    | SubscribeNack(serviceId: int, instanceId: int, majorVersion: int, eventGroupId: int, counter: int)
  {
    predicate HasEndpoints() {
      OfferService? || StopOfferService? || SubscribeEventGroup? || StopSubscribeEventGroup?
    }

    /** Entries of the service format; the others are of the eventgroup format. */
    predicate IsService() {
      FindService? || OfferService? || StopOfferService?
    }

    /** The endpoints an entry carries, in the order the printer visits them. */
    function Endpoints(): seq<EndpointOption> {
      if HasEndpoints() then v4 + v6 else []
    }

    /** The TTL the printer writes, before it is cut to 24 bits. */
    function WireTtl(): int {
      if StopOfferService? || StopSubscribeEventGroup? || SubscribeNack? then 0 else ttl
    }

    function WireType(): byte {
      if FindService? then 0x00
      else if IsService() then 0x01
      else if SubscribeAck? || SubscribeNack? then 0x07
      else 0x06
    }
  }

  /** A message to send; the printer ignores the reboot flag. */
  datatype SdMessage = SdMessage(sessionId: int, rebootFlag: bool, entries: seq<Entry>)
}
