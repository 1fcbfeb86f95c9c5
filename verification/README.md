# someipy: service discovery, sockets, subscriptions and payloads

someipy is a SOME/IP stack. Clients talk to a daemon, which does service discovery (SD) with other nodes, shares
UDP sockets between its clients, and passes on events and method calls. This project models that logic in Dafny and
proves what it keeps, over all inputs and all runs. Wire formats follow the AUTOSAR documents PRS SOME/IP Protocol
and PRS SOME/IP Service Discovery Protocol, R22-11, as far as the repository implements them.

`dafny verify dfyconfig.toml` checks the whole project. No proof relies on automatic induction.

## How the project is laid out

Each part of the state has a module with the functions that say what one handler does to it (`After...`), the steps
of a run, and the theorems over every run. Loops and objects of the repository are methods and classes whose
postconditions equate their results with those functions.

| files | about |
|---|---|
| `Bytes`, `SdMessages` | byte strings, exceptions as results, entries and options |
| `SdSerialization`, `SdDeserialization`, `SdRoundTrip`, `SdSharedOptions` | the SD printer with its shared option table, the newer parser, and the round trip |
| `SdWire` | the bytes of printed messages, entries and options, without reading them back |
| `SomeIpHeader`, `SomeIpSdHeader`, `SdHeaderRoundTrip`, `SdParsersAgree` | the older codec, its round trip, and where the two parsers agree |
| `OfferServiceStorage`, `SdAdvertise` | offered services, and what a receiver learns from an offer message |
| `SdHandshake`, `DaemonHandshake`, `SessionHandler` | subscribe and acknowledgement over bytes, between two daemons |
| `SomeipDataProcessor` | reassembly of messages from a stream |
| `Serialization`, `PayloadBytes`, `PayloadRoundTrip` | payload datatypes, what their bytes are, and their round trip |
| `SomeipEndpointStorage`, `UdpSockets`, `ReceptionPorts` | who owns which UDP socket, and the port stored with a request |
| `SubscriptionStorage`, `DaemonSubscriptions`, `EventDelivery`, `InboundSubscriptions` | requested, pending and active subscriptions, who gets an event, and subscriptions of other nodes |
| `FoundServices`, `MethodCalls`, `OfferTimers`, `Subscribers`, `ClientServiceInstance` | the other parts of daemon and client state |
| `Someipyd` | the daemon as one class; every handler is tied to the functions above |

## What does not hold, and exactly when it does

- An SD message loses endpoints when an entry shares only some of its endpoints with others
  (`SdSharedOptions.SharingOneEndpointFails`). The round trip holds if and only if every entry's endpoints are
  contiguous in the shared option table and every TTL fits its 24 bits (`SdRoundTrip.RoundTrip`).
- A string that ends in NUL, a fixed string without room for its terminator, a dynamic array of zero-length elements
  (which ends in a division by zero) and a non-empty dynamic array without length field are not given back; every other
  value is, to a receiver of its shape (`PayloadRoundTrip.PayloadRoundTrip`). Shape includes the width of the characters
  of fixed strings. One struct deeper, a member of variable size is cut when the receiver's slot is shorter than the
  value (`PayloadRoundTrip.NestedDynamicFails`); with slots of the value's lengths the round trip holds at any depth
  (`PayloadRoundTrip.RoundTrip`).
- A dynamic string that has lost as many of its last bytes as its length field has, or fewer, is taken for a shorter one
  (`PayloadBytes.CutStringAccepted`).
- A message whose length is below 8 blocks its stream (`SomeipDataProcessor.ShortLengthRaises`).
- Two clients that offer at one UDP address share the socket of the first, and lose it with the first
  (`UdpSockets.SharedAddressFails`). An offer keeps every service reachable if and only if its port is not 0 and no
  other client offers a UDP service there (`UdpSockets.OfferKeepsReachable`). A stop that cannot be printed leaves the
  socket behind (`UdpSockets.UnannounceableStopFails`); a stop does so if and only if it takes the last UDP service from
  the address and cannot be printed (`UdpSockets.StopOfferKeepsReachable`). Over a whole run these conditions are
  exact together (`UdpSockets.ReachableExactly`).
- Pending and active subscriptions outlive a client that disconnects without unsubscribing
  (`DaemonSubscriptions.DisconnectLeavesPending`); nothing does if and only if another client requests all of them
  (`DaemonSubscriptions.ClientGoneBacked`). A subscription whose offer shares no protocol with the request has no
  protocol, its stop message cannot be printed, and the stop ends there (`DaemonSubscriptions.UnprintableStopsTheStop`);
  it leaves something that nobody requests if and only if another subscription with its target lies behind in the
  order of the set, and nobody else requests that (`DaemonSubscriptions.StopBacked`). Over a whole run these are the only
  two ways (`DaemonSubscriptions.BackedExactly`).
- Clients that request the same subscription get every event as often as there are such clients
  (`EventDelivery.CopiesExact`); a client gets it once if and only if it has one matching request and shares it with
  nobody (`EventDelivery.OneCopyExact`).
- A response for a client that has gone is removed and then lost (`MethodCalls.GoneClientLosesResponse`); the
  conservation law of method calls counts it, and nothing is lost if and only if whoever waits for a response is
  connected when it comes (`MethodCalls.NothingLost`).
- The reboot flag of a message is never printed (`SdHandshake.PrintedFlags`); only acknowledgements carry it.
- A request without UDP that asks for port 0 stays stored after its stop if the client has a UDP endpoint at the IP
  address, because the stop looks for the port of that; otherwise it is taken out (`ReceptionPorts.OtherStopExact`).
- A renewed subscriber keeps its first TTL (`Subscribers.RenewalKeepsTtl`). The renewal flag is exact for the TTL in
  force (`Subscribers.RenewalExact`), and for the announced one if and only if that is in force or the subscription has
  run out by both (`Subscribers.FlagExact`).
- The session id of a client's method calls is counted modulo 0xFFFF, so it can be 0 although the comment at
  src/someipy/client_service_instance.py:233 says it starts from 1.
- An offer that fails while it waits for its socket leaves a stored service without a timer
  (`OfferTimers.FailedOfferHasNoTimer`), if and only if its interval has no timer and no other waiting offer
  (`OfferTimers.FailExact`).
- The first active subscription that expires ends the TTL checker with an exception, because the log line at
  src/someipy/someipyd.py:466-469 reads an attribute the class does not have (`Someipyd.SomeipDaemon.CheckServiceTtl`).

## Assumptions

- Handlers are atomic, except in `OfferTimers`, where offers of different clients interleave at the point where they
  wait, and the messages of one client are handled in turn.
- The operating system grants every bind. A port it chooses is not 0 and not that of an open socket. That a second
  bind to an open address never happens is proved, so it does not matter whether the system would refuse it.
- The order in which Python visits a set is a parameter or a result of the model; the theorems hold for every order.
- Time is a parameter that does not decrease. Seconds are real numbers, the milliseconds of `Subscribers` integers.
- The unicast transport is there, so every message is printed; a message that cannot be printed ends its handler.

## Model

| member | source | states |
|---|---|---|
| SdSerialization.SerializeSdMessage | src/someipy/_internal/_sd/deserialization/sd_serialization.py:83-281 | the printer, loop by loop, returns the specified bytes or the specified exception for every message |
| SdSerialization.CollectOptions | src/someipy/_internal/_sd/deserialization/sd_serialization.py:118-135 | the loop over entries and endpoints builds the option table: every endpoint once, in order of first appearance |
| SdSerialization.FindFirstOption | src/someipy/_internal/_sd/deserialization/sd_serialization.py:172-175 | the search finds the first table position whose option belongs to the entry |
| SdSerialization.SelectIndex | src/someipy/_internal/_sd/deserialization/sd_serialization.py:160-175 | which first index an entry carries, including the stale index that a subscribe entry without endpoints inherits |
| SdSerialization.SerializeEntries | src/someipy/_internal/_sd/deserialization/sd_serialization.py:142-258 | the entry loop appends sixteen bytes for each entry, or ends in the exception of the first entry that does not fit |
| SdSerialization.SerializeOptions | src/someipy/_internal/_sd/deserialization/sd_serialization.py:270-274 | the option loop appends each option, or ends in the exception of the first port that does not fit |
| SdSerialization.LengthOfOptions | src/someipy/_internal/_sd/deserialization/sd_serialization.py:260-268 | the counted length of the options array is the size of the option bytes |
| SdWire.EntryOnWire | src/someipy/_internal/_sd/deserialization/sd_serialization.py:178-258 | the sixteen bytes of every kind of entry: type, indices and counts, ids, TTL in 24 bits or 0 for a stop, minor version or counter and eventgroup |
| SdWire.OptionOnWire | src/someipy/_internal/_sd/deserialization/sd_serialization.py:55-81 | the 12 or 24 bytes of an endpoint option: length, type, address, protocol and port |
| SdWire.MessageOnWire | src/someipy/_internal/_sd/deserialization/sd_serialization.py:83-116 | header, flags, length fields and sizes of a printed message, byte by byte |
| SdWire.MessageEntryOnWire | src/someipy/_internal/_sd/deserialization/sd_serialization.py:142-258 | the k-th entry stands at 24 + 16 k |
| SdWire.MessageOptionOnWire | src/someipy/_internal/_sd/deserialization/sd_serialization.py:260-281 | the i-th option of the shared table stands behind those before it |
| SdDeserialization.DeserializeSdMessage | src/someipy/_internal/_sd/deserialization/sd_deserialization.py:230-373 | the parser returns the specified message or exception for every byte string |
| SdDeserialization.ParseOptions | src/someipy/_internal/_sd/deserialization/sd_deserialization.py:276-330 | the cursor loop, moved by option length plus 3, reads exactly the specified options |
| SdDeserialization.OptionAtExact | src/someipy/_internal/_sd/deserialization/sd_deserialization.py:276-330 | which options the newer parser reads, and how endpoints are |
| SdDeserialization.CollectRun | src/someipy/_internal/_sd/deserialization/sd_deserialization.py:350-358 | the loop over one run picks the options from the first index on, or fails outside the table |
| SdDeserialization.ApplicableExact | src/someipy/_internal/_sd/deserialization/sd_deserialization.py:350-358 | an entry has the options of its first run and then those of its second, if both lie within the list |
| SdDeserialization.ParseEntry | src/someipy/_internal/_sd/deserialization/sd_deserialization.py:338-420 | one entry is read by its type and TTL, with the endpoints of its two runs sorted by address family |
| SdDeserialization.ParseEntries | src/someipy/_internal/_sd/deserialization/sd_deserialization.py:332-420 | the entry loop collects the known entries in order and skips the others |
| SdRoundTrip.OptionTableProperties | src/someipy/_internal/_sd/deserialization/sd_serialization.py:118-135 | the shared table has no duplicates and holds exactly the endpoints of all entries |
| SdRoundTrip.OptionTableGrows | src/someipy/_internal/_sd/deserialization/sd_serialization.py:121-135 | later entries only append to the table, so indices already given stay valid |
| SdRoundTrip.PrintsExactly | src/someipy/_internal/_sd/deserialization/sd_serialization.py:83-281 | the printer accepts a message of Find, Offer and StopOffer entries if and only if session id, fields, endpoint counts, first indices, ports and total length fit |
| SdRoundTrip.Layout | src/someipy/_internal/_sd/deserialization/sd_serialization.py:137-281 | where the lengths, the entries and the options stand in a printed message |
| SdRoundTrip.PrintedIsSdMessage | src/someipy/_internal/_sd/deserialization/sd_deserialization.py:89-119 | a printed message with a session id is recognized, and its header length is its size minus 8 |
| SdRoundTrip.HeadDecodes | src/someipy/_internal/_sd/deserialization/sd_deserialization.py:142-167 | reading the twelve common bytes of a printed entry gives its type, index, count, ids and TTL back |
| SdRoundTrip.OptionsDecode | src/someipy/_internal/_sd/deserialization/sd_deserialization.py:276-330 | the cursor loop over printed options gives the table back |
| SdRoundTrip.PrintedParses | src/someipy/_internal/_sd/deserialization/sd_deserialization.py:230-420 | what the parser makes of any printed message: every entry with the options of its run, whatever they are |
| SdRoundTrip.SeenUnchanged | src/someipy/_internal/_sd/deserialization/sd_deserialization.py:342-406 | one entry survives if and only if its TTL is kept and its endpoints are contiguous in the table |
| SdRoundTrip.RoundTrip | src/someipy/_internal/_sd/deserialization/sd_serialization.py:83-281 | a printed message is parsed back to the same entries if and only if every TTL is kept and every entry's endpoints are contiguous in the shared table |
| SdSharedOptions.SharedTable | src/someipy/_internal/_sd/deserialization/sd_serialization.py:118-175 | with equal or disjoint endpoint lists every entry's endpoints are one run that starts at the index the entry carries |
| SdSharedOptions.SharedRoundTrip | src/someipy/_internal/_sd/deserialization/sd_deserialization.py:230-420 | with equal or disjoint endpoint lists and kept TTLs the round trip always succeeds |
| SdSharedOptions.SharedRoundTripInRange | src/someipy/_internal/_sd/deserialization/sd_serialization.py:83-281 | the same for all messages in range with at most 256 endpoints, without presupposing that printing succeeds |
| SdSharedOptions.SharingOneEndpointFails | src/someipy/_internal/_sd/deserialization/sd_serialization.py:166-175 | two offers that share only one of two endpoints: printed and parsed, the last offer comes back with the endpoint of a third |
| SomeIpHeader.HeaderInverse | src/someipy/_internal/someip_header.py:68-91 | sixteen bytes are the print of a header if and only if reading them gives that header |
| SomeIpHeader.HeaderReads | src/someipy/_internal/someip_header.py:68-91 | a printed header is read back, whatever follows, if and only if its length is at least 8 |
| SomeIpSdHeader.ReadSdHeader | src/someipy/_internal/someip_sd_header.py:333-412 | the older parser returns the specified header or exception for every byte string |
| SomeIpSdHeader.ReadOptions | src/someipy/_internal/someip_sd_header.py:379-402 | the option cursor loop of the older parser |
| SomeIpSdHeader.SdOptionAtExact | src/someipy/_internal/someip_sd_header.py:379-402 | which option types are read, and how an IPv4 endpoint is |
| SomeIpSdHeader.ReadEntries | src/someipy/_internal/someip_sd_header.py:345-368 | the entry loop of the older parser, which rejects unknown types |
| SomeIpSdHeader.WriteSdHeader | src/someipy/_internal/someip_sd_header.py:414-427 | the older printer, with the two array lengths the header object states |
| SomeIpSdHeader.WriteEntries | src/someipy/_internal/someip_sd_header.py:422-423 | the loop over the entries of the older printer |
| SomeIpSdHeader.WriteOptions | src/someipy/_internal/someip_sd_header.py:425-426 | the loop over the options of the older printer |
| SdWire.SdEntryOnWire | src/someipy/_internal/someip_sd_header.py:129-182 | the sixteen bytes of an entry of the older printer |
| SdWire.SdOptionOnWire | src/someipy/_internal/someip_sd_option.py:59-88 | the bytes of an option of the older printer |
| SdWire.SdHeaderOnWire | src/someipy/_internal/someip_sd_header.py:414-427 | header, flags and the two arrays behind the lengths the header object states |
| SomeIpSdHeader.ExtractSubscribeEntries | src/someipy/_internal/someip_sd_extractors.py:83-114 | the nested loops give one subscription per endpoint option of each subscribe entry with a TTL |
| SomeIpSdHeader.SubscriptionsOfRun | src/someipy/_internal/someip_sd_extractors.py:92-113 | the loop over the options of one subscribe entry |
| SomeIpSdHeader.ExtractAckEntries | src/someipy/_internal/someip_sd_extractors.py:117-129 | the loop keeps exactly the acknowledgements with a TTL, in order |
| SomeIpSdHeader.AckEntriesExact | src/someipy/_internal/someip_sd_extractors.py:117-129 | the extraction keeps order and takes exactly the eventgroup entries of type 7 with a TTL |
| SomeIpSdHeader.SubscribeEntriesExact | src/someipy/_internal/someip_sd_extractors.py:83-114 | subscriptions come from entry after entry, and only from eventgroup entries of type 6 with a TTL |
| SomeIpSdHeader.EntrySubscriptionsExact | src/someipy/_internal/someip_sd_extractors.py:92-113 | one subscription for each option of the runs, with all fields of the entry and the endpoint of the option; a failure at any other option |
| SdHeaderRoundTrip.SdHeaderRoundTrip | src/someipy/_internal/someip_sd_header.py:333-427 | whatever a consistent header object prints, the older parser reads back as the same object |
| SdParsersAgree.ParsersAgree | src/someipy/_internal/someip_sd_extractors.py:31-45 | on every datagram both parsers accept they see the same offers in the same order, with the same IPv4 endpoints from the option runs |
| SdParsersAgree.OlderParserAccepts | src/someipy/_internal/someip_sd_header.py:345-402 | of the datagrams the newer parser accepts, the older one accepts exactly those without entries of other types |
| SdParsersAgree.RecognitionAgrees | src/someipy/_internal/_sd/deserialization/sd_deserialization.py:89-119 | both parsers recognize the same headers as SD, but for the length that only the newer one looks at |
| OfferServiceStorage.Storage.AddService | src/someipy/_internal/_daemon/offer_service_storage.py:123-129 | a service is appended unless an equal one is stored, and the result says which |
| OfferServiceStorage.Storage.RemoveService | src/someipy/_internal/_daemon/offer_service_storage.py:131-138 | the first equal service is taken out, nothing else changes |
| OfferServiceStorage.Storage.RemoveClient | src/someipy/_internal/_daemon/offer_service_storage.py:140-149 | exactly the services of the client go, the others keep their order, and the count is returned |
| OfferServiceStorage.Storage.ServicesByCyclicOfferDelay | src/someipy/_internal/_daemon/offer_service_storage.py:151-159 | the services with that delay, in order |
| OfferServiceStorage.RemovedProperties | src/someipy/_internal/_daemon/offer_service_storage.py:131-138 | without duplicates, removal takes out just that service |
| OfferServiceStorage.WithoutClientProperties | src/someipy/_internal/_daemon/offer_service_storage.py:140-149 | removal of a client leaves exactly the services of the others |
| OfferServiceStorage.WithDelayMembers | src/someipy/_internal/_daemon/offer_service_storage.py:151-159 | an interval is in use exactly when a stored service has it |
| SdAdvertise.CreateOfferServiceMessage | src/someipy/_internal/_sd/sd_message_creator.py:26-90 | whatever order the set of options is listed in, every service becomes one offer entry with its UDP endpoint before its TCP endpoint |
| SdAdvertise.CollectServiceOptions | src/someipy/_internal/_sd/sd_message_creator.py:30-49 | the set of options is the union of the services' endpoints |
| SdAdvertise.StopOfferPrints | src/someipy/_internal/_sd/sd_message_creator.py:93-156 | the message that stops an offer can be printed if and only if ids, versions and port fit the wire |
| SdAdvertise.StopOfferIsRead | src/someipy/_internal/_sd/sd_message_creator.py:93-156 | the printed stop of an offer is read as one StopOffer entry with its ids, versions and one endpoint at its address per protocol in use |
| SdAdvertise.InstancesOfferedFields | src/someipy/_internal/_sd/service_instance.py:20-40 | which ids, versions, TTL, address and protocols a learned instance has |
| SdAdvertise.LearnInstances | src/someipy/someipyd.py:1881-1910 | the loop over received offers: the instances handled, up to an offer without IPv4 endpoint, and whether there was one |
| SdAdvertise.AdvertiseThenLearn | src/someipy/someipyd.py:1881-1910 | a receiver learns exactly the offered services, in order, if and only if each has a protocol, a TTL from 1 to 0xFFFFFF and, with two protocols, its options adjacent |
| SdAdvertise.AdvertiseThenLearnShared | src/someipy/someipyd.py:1881-1910 | if services at one address use the same protocols, all of them are learned with ids, versions, TTL, address and exact protocol set |
| SdAdvertise.AdvertiseThenLearnInRange | src/someipy/_internal/_sd/sd_message_creator.py:26-90 | the same for all services in range with at most 256 endpoints, without presupposing that printing succeeds |
| SdHandshake.MessagePrints | src/someipy/_internal/_sd/deserialization/sd_serialization.py:197-258 | a message with one endpoint entry can be printed if and only if fields and ports fit and a subscribe entry has an endpoint |
| SdHandshake.SubscribeWithoutEndpoints | src/someipy/_internal/_sd/deserialization/sd_serialization.py:209-222 | a subscribe entry without endpoints raises because its option index is unset |
| SdHandshake.SubscribeArrives | src/someipy/_internal/someip_sd_extractors.py:83-114 | a printed subscribe is read by the older parser as one entry with its ids and its endpoints in the run, and as one subscription per endpoint with the TTL modulo 2^24 |
| SdHandshake.AckArrives | src/someipy/_internal/someip_sd_builder.py:28-70 | a printed acknowledgement is read as one acknowledgement of the same ids |
| SdWire.AckOnWire | src/someipy/_internal/someip_sd_builder.py:28-70 | all 44 bytes of an acknowledgement |
| SdHandshake.PrintedFlags | src/someipy/_internal/_sd/deserialization/sd_serialization.py:109-116 | every printed message carries the unicast flag and no reboot flag, whatever flag it has, and is read so |
| DaemonHandshake.SubscribeIsRead | src/someipy/someipyd.py:1605-1677 | a subscription that can be printed arrives as one subscription per protocol, with the same ids, TTL and address |
| DaemonHandshake.StopIsRead | src/someipy/someipyd.py:799-834 | the stop of a subscription that can be printed arrives as one subscribe entry with TTL 0, the same ids and eventgroup, and one endpoint per protocol |
| DaemonHandshake.StoppedKeysMembers | src/someipy/someipyd.py:775-834 | which active subscriptions a stop sends a message for, in their fields |
| DaemonHandshake.StopsExact | src/someipy/someipyd.py:795-834 | one stop is sent for each of them, in order, to its server endpoint, with consecutive session ids, and nothing else |
| DaemonHandshake.AckIsRead | src/someipy/someipyd.py:1702-1729 | the acknowledgement of a received subscription arrives as one for the same ids, eventgroup and TTL |
| DaemonHandshake.AckPromotes | src/someipy/someipyd.py:1831-1853 | an acknowledgement for the ids of a pending subscription makes a pending one of these ids active, that one if it is the only one |
| DaemonHandshake.AnsweringMembers | src/someipy/someipyd.py:1695-1704 | a service answers a subscription if and only if ids and major version are equal and one of its eventgroups has the id |
| DaemonHandshake.AcksExact | src/someipy/someipyd.py:1709-1774 | each answering service sends one acknowledgement of the same ids to where the subscription came from, in order, with consecutive session ids and the reboot flag on the first message only, and nobody else sends one |
| DaemonHandshake.Handshake | src/someipy/someipyd.py:1587-1677 | from an offer to the active subscription over bytes, for every matching request that the loop of the offer reaches and can print, with a peer that offers the instance and the eventgroup id |
| DaemonHandshake.OneSubscribeEach | src/someipy/someipyd.py:1605-1677 | one subscribe for every matching request that the loop reaches and can print, in order, with consecutive session ids that are never 0 |
| SessionHandler.SessionIds | src/someipy/_internal/session_handler.py:26-44 | session ids run through 1 to 0xFFFF and are never 0; the reboot flag is only on the first message |
| SessionHandler.Handler.UpdateSession | src/someipy/_internal/session_handler.py:26-44 | the next id and the flag as it was before |
| SomeipDataProcessor.Processor.ProcessData | src/someipy/_internal/someip_data_processor.py:39-71 | the state machine delivers, waits or raises as a function of the buffered bytes alone, in every state it can be in |
| SomeipDataProcessor.StreamConservation | src/someipy/_internal/someip_data_processor.py:39-71 | under any chunking the bytes of the delivered messages followed by the buffer are the bytes fed in |
| SomeipDataProcessor.DeliveredThenBuffer | src/someipy/_internal/someip_data_processor.py:39-71 | what is delivered and what the buffer still holds together parse as the whole stream, whatever follows |
| SomeipDataProcessor.DeliveredPrefix | src/someipy/_internal/someip_data_processor.py:39-71 | delivered messages are a prefix of the reference parse, and all of it after a call that returned False |
| SomeipDataProcessor.PulledStep | src/someipy/_internal/someip_data_processor.py:43-71 | a read of at most expected_bytes keeps at most 15 bytes before the size is known and never passes the end of the message |
| SomeipDataProcessor.PullReader | src/someipy/_internal/someip_endpoint.py:251-268 | as long as reads ask for expected_bytes, every whole message is delivered by the read that completes it |
| SomeipDataProcessor.MessagesArrive | src/someipy/_internal/someip_data_processor.py:39-71 | messages sent one after the other are delivered as they are, however the stream is cut |
| SomeipDataProcessor.ShortLengthRaises | src/someipy/_internal/someip_data_processor.py:56-71 | a length below 8 raises once the announced bytes are there, and nothing behind it is ever delivered |
| Serialization.Serialize | src/someipy/serialization.py:441-525 | serialization of every value tree, with the loops of structs and arrays |
| Serialization.SerializeMembers | src/someipy/serialization.py:592-603 | the loop that appends the bytes of members or elements |
| Serialization.StructLength | src/someipy/serialization.py:468-483 | the loop of the struct's length |
| Serialization.Deserialize | src/someipy/serialization.py:494-525 | deserialization into every receiver, driven by the shape the receiver has |
| Serialization.DeserializeFields | src/someipy/serialization.py:509-525 | the member loop: slices by the length the receiver has, or all that remains for members of variable size |
| Serialization.DeserializeInto | src/someipy/serialization.py:617-625 | the loop of fixed-size arrays |
| Serialization.DeserializeFrom | src/someipy/serialization.py:757-765 | the loop of dynamic arrays, with a fresh element each |
| Serialization.BeInverse | src/someipy/serialization.py:111-121 | big-endian integers of any width are read back |
| PayloadBytes.BeDigits | src/someipy/serialization.py:111-121 | the bytes of a big-endian number are its digits in base 256, highest first |
| PayloadBytes.IntBytes | src/someipy/serialization.py:109-121 | an integer is serialized if and only if its type has it, to the bytes that are its digits rounded down, which is two's complement |
| PayloadBytes.MarkIsFeff | src/someipy/serialization.py:868-876 | in UTF-16 the byte order mark is U+FEFF in that byte order |
| PayloadBytes.DynamicStringBytes | src/someipy/serialization.py:1039-1076 | a dynamic string is its byte count, the mark, its code units in order and byte order, and a NUL |
| PayloadBytes.FixedStringBytes | src/someipy/serialization.py:883-919 | a fixed string is the mark, its code units in order and byte order, and NULs up to its size |
| PayloadBytes.StringsPrint | src/someipy/serialization.py:854-893 | a string is serialized if and only if its characters take one code unit each and it fits its size or length field |
| PayloadBytes.CutStringAccepted | src/someipy/serialization.py:1095-1110 | the first m bytes of a UTF-8 string are accepted if and only if there are as many as announced, not counting the length field, and the mark is complete |
| PayloadBytes.MemberBytes | src/someipy/serialization.py:592-603 | members and elements stand one after the other, each behind the lengths of those before it |
| PayloadBytes.ArrayBytes | src/someipy/serialization.py:720-745 | a dynamic array is the byte count of its elements, then the elements at equal distances |
| Serialization.DynamicSizeString.SetData | src/someipy/serialization.py:952-958 | the setter brings the length up to date |
| Serialization.DynamicSizeString.SetEncoding | src/someipy/serialization.py:977-987 | the setter brings the length up to date for the new encoding |
| Serialization.DynamicSizeString.SetLengthFieldLength | src/someipy/serialization.py:965-970 | only 1, 2 and 4 are accepted, and the length is up to date again |
| Serialization.DynamicSizeString.Deserialize | src/someipy/serialization.py:1077-1140 | the fields after deserialization; an error keeps text and length field |
| PayloadRoundTrip.LenIsByteCount | src/someipy/serialization.py:468-483 | the length of every sound value is the number of its bytes |
| PayloadRoundTrip.BitsInverse | src/someipy/serialization.py:109-121 | two's complement loses nothing |
| PayloadRoundTrip.FixedStringExact | src/someipy/serialization.py:883-919 | a fixed string comes back if and only if it does not end in NUL and leaves room for the terminator |
| PayloadRoundTrip.DynamicStringExact | src/someipy/serialization.py:1077-1140 | a dynamic string of any encoding comes back if and only if it does not end in NUL |
| PayloadRoundTrip.CountRead | src/someipy/serialization.py:746-756 | the length field of a dynamic array gives the number of its elements |
| PayloadRoundTrip.RoundTrip | src/someipy/serialization.py:494-525 | any receiver whose slots have the value's lengths is given the value if and only if the value is clean |
| PayloadRoundTrip.DirectFits | src/someipy/serialization.py:494-525 | with members of variable size in the outermost struct only, every receiver of the same shape has fitting slots |
| PayloadRoundTrip.PayloadRoundTrip | src/someipy/serialization.py:494-525 | the bytes of such a struct, followed by anything, give it back to any receiver of its shape, if and only if it is clean |
| PayloadRoundTrip.NestedDynamicFails | src/someipy/serialization.py:514-524 | one struct deeper the receiver's old length cuts a string short |
| SomeipEndpointStorage.Storage.AddEndpoint | src/someipy/_internal/someip_endpoint_storage.py:25-41 | the endpoint is appended to the client's list |
| SomeipEndpointStorage.Storage.RemoveEndpoint | src/someipy/_internal/someip_endpoint_storage.py:43-54 | one occurrence is removed, an empty list is dropped, and the result says whether there was one |
| SomeipEndpointStorage.Storage.GetEndpoints | src/someipy/_internal/someip_endpoint_storage.py:62-63 | the list of the client |
| SomeipEndpointStorage.Storage.GetEndpointByIpPort | src/someipy/_internal/someip_endpoint_storage.py:80-95 | the first endpoint at the address over all clients |
| SomeipEndpointStorage.Storage.GetAllEndpoints | src/someipy/_internal/someip_endpoint_storage.py:121-125 | all lists, one after the other |
| SomeipEndpointStorage.EndpointAtFound | src/someipy/_internal/someip_endpoint_storage.py:80-95 | what a search returns has an owner and the address |
| SomeipEndpointStorage.EndpointAtNone | src/someipy/_internal/someip_endpoint_storage.py:80-95 | if a search returns nothing, no client has an endpoint there |
| SomeipEndpointStorage.AllEndpointsOwned | src/someipy/_internal/someip_endpoint_storage.py:121-125 | an endpoint is listed exactly when some client owns it |
| UdpSockets.UdpEndpointIsOpen | src/someipy/someipyd.py:577-589 | the search over both storages finds nothing exactly when the address is free, and otherwise an open socket |
| UdpSockets.ServerReleases | src/someipy/someipyd.py:591-604 | releasing one reference closes the socket exactly when nobody else owns it |
| UdpSockets.SubscribeKeeps | src/someipy/someipyd.py:633-678 | after a subscribe the client owns an open socket at the address, or at some port of the IP address |
| UdpSockets.CallKeeps | src/someipy/someipyd.py:1064-1107 | a call is sent from an open socket at the address, or at some port of the IP address |
| UdpSockets.RequestedIsFree | src/someipy/someipyd.py:577-589 | a bind to a named port never collides with an open socket |
| UdpSockets.OpensRequested | src/someipy/_internal/someip_endpoint_factory.py:52-64 | a handler opens a socket exactly when it requests an address, one, and there |
| UdpSockets.SocketOwnership | src/someipy/someipyd.py:577-631 | after any run the open sockets are those with an owner in a storage, their addresses differ, and the next named port is free |
| UdpSockets.OfferKeepsReachable | src/someipy/someipyd.py:869-891 | an offer keeps every service reachable if and only if it names its port and no other client offers a UDP service there |
| UdpSockets.StopOfferKeepsReachable | src/someipy/someipyd.py:922-990 | a stop keeps every service reachable and leaves no idle server endpoint if and only if it can be announced or is not the stop of the last UDP service at its address |
| UdpSockets.DisconnectKeepsReachable | src/someipy/someipyd.py:229-259 | a disconnect keeps the services of the others reachable |
| UdpSockets.ReachableExactly | src/someipy/someipyd.py:869-990 | in any run every offered service stays reachable at every moment if and only if every offer and every stop meets the condition of its step |
| UdpSockets.OfferedServicesReachable | src/someipy/someipyd.py:869-990 | in every such run each offered UDP service has exactly one open server socket, held by its own client alone, and every holder still offers there |
| UdpSockets.SharedAddressFails | src/someipy/someipyd.py:252-259 | two clients at one address: when the first leaves, the second one's service has no socket |
| UdpSockets.UnannounceableStopFails | src/someipy/someipyd.py:964-990 | a stop whose message cannot be printed leaves the socket behind |
| UdpSockets.AnyPortIsFound | src/someipy/someipyd.py:612-627 | a stop with port 0 resolves to the port the subscribe with port 0 got |
| UdpSockets.AnyPortStays | src/someipy/someipyd.py:710-730 | and it does so whatever happens in between |
| ReceptionPorts.BoundPortStored | src/someipy/someipyd.py:641-707 | a request with UDP is stored under the address of an open socket of the client, the requested one or for port 0 one at the IP address |
| ReceptionPorts.LaterStopRemoves | src/someipy/someipyd.py:710-760 | a stop that asks for the same takes out what the subscribe stored, whatever happens in between |
| ReceptionPorts.OtherStopExact | src/someipy/someipyd.py:718-730 | a request without UDP and with port 0 is taken out by its stop if and only if the client has no UDP endpoint at the IP address |
| SubscriptionStorage.Storage.AddSubscription | src/someipy/_internal/_daemon/subscription_storage.py:27-33 | appended to the client's list unless an equal one is there |
| SubscriptionStorage.Storage.RemoveSubscription | src/someipy/_internal/_daemon/subscription_storage.py:35-42 | the equal subscription of that client goes, and an empty list with it |
| SubscriptionStorage.Storage.RemoveClient | src/someipy/_internal/_daemon/subscription_storage.py:94-96 | the client's list goes |
| SubscriptionStorage.Storage.Subscriptions | src/someipy/_internal/_daemon/subscription_storage.py:43-51 | all lists, one after the other |
| SubscriptionStorage.Storage.GetClientIds | src/someipy/_internal/_daemon/subscription_storage.py:62-70 | the clients whose list has an equal subscription |
| SubscriptionStorage.Storage.HasSubscriptions | src/someipy/_internal/_daemon/subscription_storage.py:72-92 | the subscriptions to the instance, each with its client |
| SubscriptionStorage.RemoveKeyExact | src/someipy/_internal/_daemon/subscription_storage.py:35-42 | the first equal subscription goes, and those before and behind it keep their order |
| SubscriptionStorage.HoldsAfterAdding | src/someipy/_internal/_daemon/subscription_storage.py:27-33 | who holds what after adding |
| SubscriptionStorage.HoldsAfterRemoving | src/someipy/_internal/_daemon/subscription_storage.py:35-42 | who holds what after removing |
| SubscriptionStorage.ClientsWithHolds | src/someipy/_internal/_daemon/subscription_storage.py:62-70 | the returned clients are exactly the holders, each once |
| SubscriptionStorage.MatchingMembers | src/someipy/_internal/_daemon/subscription_storage.py:72-92 | the returned pairs are exactly the subscriptions to the instance with their clients |
| DaemonSubscriptions.PrintableExact | src/someipy/_internal/_sd/deserialization/sd_serialization.py:197-258 | the subscribe and the stop message of a subscription are printed if and only if it has a protocol and its numbers fit |
| DaemonSubscriptions.PendKeys | src/someipy/someipyd.py:1587-1671 | an offer makes exactly those matching requests pending that its loop reaches before a subscribe cannot be printed, and keeps what was pending, as set.add does |
| DaemonSubscriptions.RemoveActiveKeys | src/someipy/someipyd.py:775-793 | the loop of a stop takes out exactly the active subscriptions with its target that it reaches, for every order of the set |
| DaemonSubscriptions.StopBacked | src/someipy/someipyd.py:753-793 | a stop leaves nothing pending or active that nobody requests, if and only if what it misses is requested by others |
| DaemonSubscriptions.StopKeepsOthers | src/someipy/someipyd.py:753-793 | a stop keeps what differs from it in service, instance, major version, eventgroup id or client endpoint, and everything if another client holds the stopped subscription |
| DaemonSubscriptions.StopTakesOut | src/someipy/someipyd.py:753-793 | otherwise it takes out what agrees with it in these, up to what lies behind the cut |
| DaemonSubscriptions.ClientGoneBacked | src/someipy/someipyd.py:229-239 | a disconnect leaves nothing pending or active that nobody requests, if and only if everything is requested by another client too |
| DaemonSubscriptions.RequestsWellFormed | src/someipy/_internal/_daemon/subscription_storage.py:27-96 | in any run the requests of a client are one list without equal ones |
| DaemonSubscriptions.OfferedBacked | src/someipy/someipyd.py:1587-1671 | what an offer makes pending is requested, whatever is offered |
| DaemonSubscriptions.EverySubscriptionBacked | src/someipy/someipyd.py:753-793 | in every run where clients unsubscribe before they leave and no stop is cut short before another subscription with its target, each pending or active subscription is requested with the same ids, eventgroup and client endpoint, at every moment |
| DaemonSubscriptions.BackedExactly | src/someipy/someipyd.py:753-834 | the same in any run at all, if and only if each stop and each disconnect respects what others request |
| DaemonSubscriptions.PrintableIsOrderly | src/someipy/someipyd.py:775-834 | a stop is not cut short if every subscription with its target that has another one behind it can be printed |
| DaemonSubscriptions.ActiveWasAcknowledged | src/someipy/someipyd.py:1847-1853 | nothing is active without an offer from its server endpoint for a request of that time and, later, an acknowledgement for its ids, in any run; it has the TTL of that request and the time of the acknowledgement |
| DaemonSubscriptions.PendingWasOffered | src/someipy/someipyd.py:1655-1671 | what is pending was made so by an offer for a request of that time, with whose TTL and at whose time it is stamped, in any run |
| DaemonSubscriptions.PendingIsRecent | src/someipy/someipyd.py:471-479 | after a check nothing is pending whose offer is more than ten seconds old |
| DaemonSubscriptions.RecentStaysPending | src/someipy/someipyd.py:471-479 | and nothing else has gone |
| DaemonSubscriptions.DisconnectLeavesPending | src/someipy/someipyd.py:238-239 | a disconnect without unsubscribing leaves a pending subscription behind |
| DaemonSubscriptions.UnprintableStopsTheStop | src/someipy/someipyd.py:775-834 | a stop ends at an active subscription without protocols, and the one behind it stays active |
| EventDelivery.HoldersOfMatches | src/someipy/someipyd.py:408-452 | the clients found through matching requests are exactly those that hold a matching request |
| EventDelivery.ReceiversExact | src/someipy/someipyd.py:408-452 | the clients that get an event are exactly those with a request matching an active subscription of the sender's event |
| EventDelivery.CopiesExact | src/someipy/someipyd.py:423-452 | for one active subscription a client gets an event once for every holder of each of its matching requests |
| EventDelivery.OneCopyExact | src/someipy/someipyd.py:423-452 | it gets the event once if and only if it has exactly one matching request and no other client has an equal one |
| EventDelivery.RequestersMembers | src/someipy/someipyd.py:1776-1804 | who is told about an acknowledgement |
| InboundSubscriptions.EnteredExactly | src/someipy/someipyd.py:1687-1744 | a service enters the subscriber if and only if ids and major version are equal and one of its eventgroups has the id; all lists are brought up to date |
| InboundSubscriptions.ToldExactly | src/someipy/someipyd.py:1748-1763 | every client is told once for each of its answering services, with ids, subscriber, TTL and renewal flag, and no other queue changes |
| FoundServices.OfferMembers | src/someipy/someipyd.py:1579-1584 | an offer stores the instance once, with the new time, and keeps the others |
| FoundServices.PrunedMembers | src/someipy/someipyd.py:281-290 | pruning keeps exactly what has not expired |
| FoundServices.CacheRefinesHistory | src/someipy/someipyd.py:281-290 | after pruning at t the cache has no duplicates and holds exactly the instances whose latest offer x satisfies t - x <= ttl |
| MethodCalls.CallConservation | src/someipy/someipyd.py:359-389 | for each key: issued = forwarded + lost + overwritten + outstanding |
| MethodCalls.NothingLost | src/someipy/someipyd.py:373-389 | no response to a key is lost if and only if at every response the client that waits for it is connected |
| MethodCalls.PatientLosesNothing | src/someipy/someipyd.py:359-389 | in a run where no client disconnects while it waits nothing is lost |
| MethodCalls.GoneClientLosesResponse | src/someipy/someipyd.py:373-389 | a client that disconnects while it waits: the key is consumed and the response reaches nobody |
| MethodCalls.ForwardedToLastIssuer | src/someipy/someipyd.py:373-389 | a response is forwarded exactly to the client that last issued its key, if that client is connected and has had no response since, and lost exactly when it has gone |
| MethodCalls.SecondResponseUnknown | src/someipy/someipyd.py:369-374 | without a new call a second response is never forwarded |
| OfferTimers.CleanedMembers | src/someipy/someipyd.py:481-492 | cleaning keeps exactly the timers whose interval some service has |
| OfferTimers.StepKeeps | src/someipy/someipyd.py:836-948 | every interleaved piece of a handler keeps timers and services in step, up to offers that wait or have failed |
| OfferTimers.TimersMatchOffers | src/someipy/someipyd.py:911-920 | in every interleaving timers have intervals of stored services, and miss only delays of waiting and failed offers |
| OfferTimers.FailExact | src/someipy/someipyd.py:869-891 | an offer that fails while it waits does no harm if and only if its interval has a timer or another waiting offer |
| OfferTimers.TimedExactly | src/someipy/someipyd.py:869-920 | timers and services are in step at every moment of a run if and only if every failing offer has its interval covered |
| OfferTimers.CoveredTimersMatch | src/someipy/someipyd.py:911-920 | in such a run, whenever no offer waits the running intervals are exactly the cyclic delays of the stored services |
| OfferTimers.FailedOfferHasNoTimer | src/someipy/someipyd.py:882-891 | the run in which the only offer with its interval fails: its service stays without timer |
| Subscribers.List.Update | src/someipy/_internal/subscribers.py:45-56 | exactly the live subscribers stay, in order |
| Subscribers.List.AddSubscriber | src/someipy/_internal/subscribers.py:58-65 | an equal subscriber is refreshed and keeps its TTL, a new one is appended |
| Subscribers.WithMembers | src/someipy/_internal/subscribers.py:58-65 | who is in the list after adding, with which TTL and time |
| Subscribers.RenewalExact | src/someipy/someipyd.py:1741-1749 | in every run the list has no equal subscribers, and a renewal is reported exactly when the previous subscription is still live by the TTL in force |
| Subscribers.FlagExact | src/someipy/someipyd.py:1741-1749 | the renewal flag is the one the announced TTL calls for, from then on, if and only if that TTL is in force or the subscription has run out by both |
| Subscribers.OneTtlInForce | src/someipy/_internal/subscribers.py:58-65 | a subscriber that always announces the same TTL has it in force |
| Subscribers.RenewalKeepsTtl | src/someipy/_internal/subscribers.py:58-65 | a renewal with a longer TTL keeps the old one, so it runs out too early |
| ClientServiceInstance.Instance.StartCall | src/someipy/client_service_instance.py:233-268 | the session id advances modulo 0xFFFF and the future is stored under the call's key |
| ClientServiceInstance.Instance.MethodCallDataReceived | src/someipy/client_service_instance.py:193-216 | an unknown key is ignored, a known one completes its future; an unknown return code or a completed future raises |
| ClientServiceInstance.SessionsDiffer | src/someipy/client_service_instance.py:233-235 | calls fewer than 65535 apart have different session ids, calls 65535 apart the same |
| ClientServiceInstance.CallsSeparate | src/someipy/client_service_instance.py:233-289 | every waiting call finds its own future under its own key |
| ClientServiceInstance.ResponseReachesItsCall | src/someipy/client_service_instance.py:193-216 | a response completes exactly the one waiting call with its key, if its return code is known |
| ClientServiceInstance.CompletesOnce | src/someipy/client_service_instance.py:193-216 | with a daemon that consumes keys no response finds its call already answered, and only an unknown return code raises |
| Someipyd.SomeipDaemon.CreateUdpEndpoint | src/someipy/_internal/someip_endpoint_factory.py:52-64 | one new socket, at the address or at the port the operating system chose |
| Someipyd.SomeipDaemon.FindUdpEndpointAt | src/someipy/someipyd.py:577-589 | the server storage is searched before the client storage |
| Someipyd.SomeipDaemon.EndpointInUse | src/someipy/someipyd.py:591-596 | whether either storage still lists the endpoint |
| Someipyd.SomeipDaemon.ReleaseServerEndpoint | src/someipy/someipyd.py:598-604 | the sockets and storages after a release |
| Someipyd.SomeipDaemon.FindClientReceptionEndpoint | src/someipy/someipyd.py:612-631 | port 0 reuses the client's first endpoint at the IP address, a named port any open one |
| Someipyd.SomeipDaemon.HandleSubscribeEventgroupRequest | src/someipy/someipyd.py:633-708 | sockets and requested subscriptions afterwards; the key stored has the port of an open socket of the client |
| Someipyd.SomeipDaemon.HandleStopSubscribeEventgroupRequest | src/someipy/someipyd.py:710-834 | requested, pending and active subscriptions afterwards, the stops that arrive at which server endpoints, and the session behind them, for the order in which the set was visited |
| Someipyd.SomeipDaemon.StopActiveSubscriptions | src/someipy/someipyd.py:775-834 | the loop over active subscriptions with the stops it sends, ended by an exception of the printer |
| Someipyd.SomeipDaemon.AdmitOffer | src/someipy/someipyd.py:869 | the part of an offer before it may wait |
| Someipyd.SomeipDaemon.OpenServerEndpoint | src/someipy/someipyd.py:872-891 | the server socket of a service: kept, shared or opened |
| Someipyd.SomeipDaemon.ArmOfferTimer | src/someipy/someipyd.py:911-920 | one timer for the interval |
| Someipyd.SomeipDaemon.HandleOfferServiceRequest | src/someipy/someipyd.py:836-920 | sockets, services and timers after an offer |
| Someipyd.SomeipDaemon.CleanupUnusedTimers | src/someipy/someipyd.py:481-492 | the intervals that stay are those some service has |
| Someipyd.SomeipDaemon.IsStillOffered | src/someipy/someipyd.py:976-979 | whether a UDP service is stored at the address |
| Someipyd.SomeipDaemon.HandleStopOfferServiceRequest | src/someipy/someipyd.py:922-990 | sockets, services, timers and session of a stop, and what its message is read as; also when it cannot be printed |
| Someipyd.SomeipDaemon.ClientDisconnected | src/someipy/someipyd.py:229-261 | sockets, subscriptions, timers and queues after a client has gone |
| Someipyd.SomeipDaemon.HandleOutboundCallMethodRequest | src/someipy/someipyd.py:1064-1202 | sockets after a UDP call, and the key under which it is remembered |
| Someipyd.SomeipDaemon.HandleMethodResponse | src/someipy/someipyd.py:359-389 | the key is consumed, and the response with all its fields queued for its client, or lost |
| Someipyd.SomeipDaemon.HandleNotification | src/someipy/someipyd.py:391-452 | every queue grows by exactly the copies of the event that the active and requested subscriptions call for, and no other changes |
| Someipyd.SomeipDaemon.DeliverFor | src/someipy/someipyd.py:422-452 | the loop over requests for one active subscription, with the number of copies for every client |
| Someipyd.SomeipDaemon.HandleOfferedService | src/someipy/someipyd.py:1576-1677 | cache, pending subscriptions and the subscribes sent for an offer |
| Someipyd.SomeipDaemon.SubscribeAll | src/someipy/someipyd.py:1587-1677 | the loop over matching requests, ended by an exception of the printer |
| Someipyd.SomeipDaemon.FindIndex | src/someipy/someipyd.py:1579-1583 | the first equal instance, timestamps aside |
| Someipyd.SomeipDaemon.HandleSubscribeAck | src/someipy/someipyd.py:1806-1857 | one pending subscription with the ids is promoted, if there is one, and the requesters are told |
| Someipyd.SomeipDaemon.HandleSubscribeNack | src/someipy/someipyd.py:1859-1865 | the requesters are told, and what is pending stays pending |
| Someipyd.SomeipDaemon.NotifySubscriptionState | src/someipy/someipyd.py:1776-1804 | every connected client is told once for each of its requests for the eventgroup |
| Someipyd.SomeipDaemon.HandleSubscription | src/someipy/someipyd.py:1679-1774 | which services answer, in their ids and eventgroups; the subscriber lists, what each client is told, and the acknowledgements that arrive |
| Someipyd.SomeipDaemon.AcknowledgeSubscription | src/someipy/someipyd.py:1709-1774 | what one matching service does with a subscription |
| Someipyd.SomeipDaemon.CheckServiceTtl | src/someipy/someipyd.py:276-290 | pending and found entries that expire; the exception that the first expired active subscription ends in |
| Someipyd.SomeipDaemon.PruneFoundServices | src/someipy/someipyd.py:286-290 | exactly the unexpired instances stay |

## Left out

- TCP endpoints, connections and their release in a stop of an offer: the storages of the model hold UDP endpoints only.
- Sockets, asyncio tasks, JSON, base64, logging and configuration: queues are sequences, payloads are byte strings.
- UdpSockets.SocketOwnership: endpoints in the client storage are never released by the source, so no step of the model closes them; a bind refused by the system is a failed offer in OfferTimers only.
- DaemonSubscriptions.ActiveWasAcknowledged: says nothing about the endpoint an acknowledgement comes from, which the source does not look at.
- SdDeserialization.DeserializeSdMessage: the fields source, port, multicast and unicast flag that the parser passes through are not in the result.
- SdDeserialization.ParseOptions: multicast, SD endpoint and load-balancing options occupy their place in the option list, their fields are not kept.
- SomeIpSdHeader.WriteSdHeader: an entry object states at most 15 options in each of its two counts, as every one the repository builds or reads does.
- SomeIpSdHeader.WriteEntries: the same bound on the two option counts.
- Serialization.Serialize: a string with characters of several code units fails, as it does in the source unless its length was read from the wire before.
- Serialization.Deserialize: values are not updated in place, so what a failed deserialization leaves in a receiver is not captured, except for the dynamic string, which is an object; nor is an element whose deserialize returns None; bytes that decode to characters of several code units are an error.
- Serialization.DynamicSizeString.Deserialize: bytes that decode to characters of several code units are an error.
- PayloadRoundTrip.PayloadRoundTrip: a receiver whose fixed string holds an encoding of the other width is not of the value's shape; for such receivers only the general condition of RoundTrip applies.
- SomeipEndpointStorage.Storage.GetEndpoints: a client without endpoints has the empty list, where the source has None; every caller treats both alike.
- SomeipEndpointStorage.Storage.GetEndpointByIpPort: the protocol argument is always UDP.
- ClientServiceInstance.Instance.StartCall: the service is found, the method exists, and the request sent to the daemon is not in the contract.
- Someipyd.SomeipDaemon.OpenServerEndpoint: the UDP endpoint only.
- Someipyd.SomeipDaemon.HandleOfferServiceRequest: the UDP endpoint only.
- Someipyd.SomeipDaemon.HandleStopOfferServiceRequest: the UDP endpoint only.
- Someipyd.SomeipDaemon.ClientDisconnected: the UDP endpoints only.
- Someipyd.SomeipDaemon.HandleOutboundCallMethodRequest: calls over UDP, without the bytes of the request.
- Someipyd.SomeipDaemon.HandleOfferedService: the TCP client endpoint opened for a match is not there.
- Someipyd.SomeipDaemon.SubscribeAll: the TCP client endpoint opened for a match is not there.
- ReceptionPorts.OtherStopExact: TCP endpoints of the client, which the stop looks for after UDP ones, are not in the model.
- Someipyd.SomeipDaemon.CheckServiceTtl: whether the checker runs again after the exception is not modelled.
- Floating-point values beyond their bytes, fields whose names start with an underscore, and hash values.
- Configuration options and eventgroup entries in the newer parser: both end in an exception, whose kind is not distinguished.
- The kind of exception where Python would raise before or after another one; only that an exception ends the call is kept.
- Requests of other nodes for methods, events sent by local clients, and the search for services with wildcards and probes: loops over the same storages without state of their own.
- The extraction of negative acknowledgements and of the list of offered services from older headers.
- The frame reader between client and daemon, which has a fixed header and no state across frames.
- Events on subscriptions are sent to every subscriber of a service, whatever its eventgroup; no claim is made about that loop.
