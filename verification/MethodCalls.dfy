/** Method calls that clients have issued through the daemon and that have not been answered. */
module MethodCalls {
  import opened Bytes
  import opened OfferServiceStorage

  datatype CallKey = CallKey(serviceId: int, methodId: int, clientId: int, sessionId: int, src: Address)

  type Calls = map<CallKey, ClientId>

  /** A response is forwarded to the client the key maps to. The key is removed first, so that a
      response for a client that has gone is lost. */
  datatype Outcome = Unknown | Forwarded(client: ClientId) | Lost

  function OutcomeOf(calls: Calls, key: CallKey, connected: set<ClientId>): Outcome {
    if key !in calls then Unknown
    else if calls[key] in connected then Forwarded(calls[key])
    else Lost
  }

  function AfterIssue(calls: Calls, key: CallKey, client: ClientId): Calls {
    calls[key := client]
  }

  function AfterResponse(calls: Calls, key: CallKey): Calls {
    calls - {key}
  }

  // ----- Runs -----

  /** The outstanding calls, and the clients that have a queue. */
  datatype State = State(calls: Calls, connected: set<ClientId>)

  const NO_CALLS := State(map[], {})

  datatype Step =
    | Connect(client: ClientId)
    | Disconnect(client: ClientId)
    | Issue(key: CallKey, client: ClientId)
    | Response(key: CallKey)

  function After(s: State, step: Step): State {
    match step
    case Connect(client) => s.(connected := s.connected + {client})
    case Disconnect(client) => s.(connected := s.connected - {client})
    case Issue(key, client) => s.(calls := AfterIssue(s.calls, key, client))
    case Response(key) => s.(calls := AfterResponse(s.calls, key))
  }

  function Run(steps: seq<Step>): State {
    if steps == [] then NO_CALLS else After(Run(steps[..|steps| - 1]), steps[|steps| - 1])
  }

  function Responded(s: State, key: CallKey): Outcome {
    OutcomeOf(s.calls, key, s.connected)
  }

  predicate ForwardsAt(steps: seq<Step>, i: nat, key: CallKey)
    requires i < |steps|
  {
    steps[i] == Response(key) && Responded(Run(steps[..i]), key).Forwarded?
  }

  predicate LosesAt(steps: seq<Step>, i: nat, key: CallKey)
    requires i < |steps|
  {
    steps[i] == Response(key) && Responded(Run(steps[..i]), key).Lost?
  }

  predicate IssuesAt(steps: seq<Step>, i: nat, key: CallKey)
    requires i < |steps|
  {
    steps[i].Issue? && steps[i].key == key
  }

  predicate OverwritesAt(steps: seq<Step>, i: nat, key: CallKey)
    requires i < |steps|
  {
    IssuesAt(steps, i, key) && key in Run(steps[..i]).calls
  }

  function IssuedCount(steps: seq<Step>, key: CallKey): nat {
    if steps == [] then 0
    else IssuedCount(steps[..|steps| - 1], key) + if IssuesAt(steps, |steps| - 1, key) then 1 else 0
  }

  function ForwardedCount(steps: seq<Step>, key: CallKey): nat {
    if steps == [] then 0
    else ForwardedCount(steps[..|steps| - 1], key) + if ForwardsAt(steps, |steps| - 1, key) then 1 else 0
  }

  function LostCount(steps: seq<Step>, key: CallKey): nat {
    if steps == [] then 0
    else LostCount(steps[..|steps| - 1], key) + if LosesAt(steps, |steps| - 1, key) then 1 else 0
  }

  function OverwrittenCount(steps: seq<Step>, key: CallKey): nat {
    if steps == [] then 0
    else OverwrittenCount(steps[..|steps| - 1], key) + if OverwritesAt(steps, |steps| - 1, key) then 1 else 0
  }

  /** Conservation: every call issued with a key has been answered and forwarded, answered and lost,
      or overwritten, except for at most one that is outstanding. */
  lemma {:induction false} CallConservation(steps: seq<Step>, key: CallKey)
    ensures IssuedCount(steps, key)
         == ForwardedCount(steps, key) + LostCount(steps, key) + OverwrittenCount(steps, key)
            + if key in Run(steps).calls then 1 else 0
  {
    if steps != [] {
      CallConservation(steps[..|steps| - 1], key);
    }
  }

  // ----- What the history says -----

  /** The client of the last call with the key, as long as no response to it has come. */
  function Waiting(steps: seq<Step>, key: CallKey): Option<ClientId> {
    if steps == [] then None
    else
      match steps[|steps| - 1]
      case Issue(k, client) => if k == key then Some(client) else Waiting(steps[..|steps| - 1], key)
      case Response(k) => if k == key then None else Waiting(steps[..|steps| - 1], key)
      case _ => Waiting(steps[..|steps| - 1], key)
  }

  /** The client has connected, and not disconnected since. */
  predicate IsConnected(steps: seq<Step>, client: ClientId) {
    steps != [] &&
    match steps[|steps| - 1]
    case Connect(c) => c == client || IsConnected(steps[..|steps| - 1], client)
    case Disconnect(c) => c != client && IsConnected(steps[..|steps| - 1], client)
    case _ => IsConnected(steps[..|steps| - 1], client)
  }

  lemma {:induction false} RunRefinesHistory(steps: seq<Step>, key: CallKey, client: ClientId)
    ensures Waiting(steps, key) == if key in Run(steps).calls then Some(Run(steps).calls[key]) else None
    ensures IsConnected(steps, client) <==> client in Run(steps).connected
  {
    if steps != [] {
      RunRefinesHistory(steps[..|steps| - 1], key, client);
    }
  }

  /** A response is forwarded exactly to the connected client that last issued its key and has had no
      response since; it is lost exactly when that client has gone. */
  lemma ForwardedToLastIssuer(steps: seq<Step>, key: CallKey)
    ensures Responded(Run(steps), key) ==
            match Waiting(steps, key)
            case None => Unknown
            case Some(client) => if IsConnected(steps, client) then Forwarded(client) else Lost
  {
    hide Run, Waiting, IsConnected;
    forall client ensures IsConnected(steps, client) <==> client in Run(steps).connected {
      RunRefinesHistory(steps, key, client);
    }
    RunRefinesHistory(steps, key, 0);
  }

  /** Whoever waits for a response to the key is still connected. */
  predicate WaiterConnected(steps: seq<Step>, key: CallKey) {
    Waiting(steps, key).Some? ==> IsConnected(steps, Waiting(steps, key).value)
  }

  /** Nothing is lost if and only if, at every response, the client that waits for it is connected. */
  lemma {:induction false} NothingLost(steps: seq<Step>, key: CallKey)
    ensures LostCount(steps, key) == 0 <==>
            forall i :: 0 <= i < |steps| && steps[i] == Response(key) ==> WaiterConnected(steps[..i], key)
  {
    hide Run, Waiting, IsConnected, Responded;
    if steps != [] {
      var n := |steps| - 1;
      var before := steps[..n];
      forall i | 0 <= i < n ensures steps[..i] == before[..i] && steps[i] == before[i] {
      }
      NothingLost(before, key);
      ForwardedToLastIssuer(before, key);
      assert LosesAt(steps, n, key) <==> steps[n] == Response(key) && !WaiterConnected(before, key);
      if forall i :: 0 <= i < n && before[i] == Response(key) ==> WaiterConnected(before[..i], key) {
        forall i | 0 <= i < n && steps[i] == Response(key) ensures WaiterConnected(steps[..i], key) {
        }
      } else {
        var i :| 0 <= i < n && before[i] == Response(key) && !WaiterConnected(before[..i], key);
        assert steps[i] == Response(key) && !WaiterConnected(steps[..i], key);
      }
    }
  }

  predicate WaitsFor(steps: seq<Step>, key: CallKey, client: ClientId) {
    Waiting(steps, key) == Some(client)
  }

  ghost predicate WaitsForNothing(steps: seq<Step>, client: ClientId) {
    forall key :: !WaitsFor(steps, key, client)
  }

  /** Calls come from connected clients, and no client disconnects while it waits. */
  ghost predicate Patient(steps: seq<Step>) {
    steps != [] ==>
      && Patient(steps[..|steps| - 1])
      && match steps[|steps| - 1]
         case Issue(_, client) => IsConnected(steps[..|steps| - 1], client)
         case Disconnect(client) => WaitsForNothing(steps[..|steps| - 1], client)
         case _ => true
  }

  lemma {:induction false} PatientWaiters(steps: seq<Step>, key: CallKey)
    requires Patient(steps)
    ensures WaiterConnected(steps, key)
  {
    if steps != [] {
      var before, step := steps[..|steps| - 1], steps[|steps| - 1];
      PatientWaiters(before, key);
      if step.Disconnect? {
        assert !WaitsFor(before, key, step.client);
      }
    }
  }

  /** So nothing is lost in a run of patient clients. */
  lemma PatientLosesNothing(steps: seq<Step>, key: CallKey)
    requires Patient(steps)
    ensures LostCount(steps, key) == 0
  {
    NothingLost(steps, key);
    hide WaiterConnected, LostCount, Patient;
    forall i | 0 <= i < |steps| ensures WaiterConnected(steps[..i], key) {
      PatientPrefix(steps, i);
      PatientWaiters(steps[..i], key);
    }
  }

  lemma {:induction false} PatientPrefix(steps: seq<Step>, i: nat)
    requires i <= |steps| && Patient(steps)
    ensures Patient(steps[..i])
  {
    if i == |steps| {
      assert steps[..i] == steps;
    } else {
      PatientPrefix(steps[..|steps| - 1], i);
      assert steps[..|steps| - 1][..i] == steps[..i];
    }
  }

  /** A client that goes while it waits: the key is consumed, and the response reaches nobody. */
  lemma GoneClientLosesResponse(key: CallKey, client: ClientId)
    ensures var steps := [Connect(client), Issue(key, client), Disconnect(client), Response(key)];
            LostCount(steps, key) == 1 && ForwardedCount(steps, key) == 0 && Run(steps).calls == map[]
  {
    var a, b, c, d := Connect(client), Issue(key, client), Disconnect(client), Response(key);
    var steps := [a, b, c, d];
    assert steps[..3] == [a, b, c] && [a, b, c][..2] == [a, b] && [a, b][..1] == [a] && [a][..0] == [];
    assert Run([a]) == State(map[], {client});
    assert Run([a, b]) == State(map[key := client], {client});
    assert Run([a, b, c]) == State(map[key := client], {});
    assert LosesAt(steps, 3, key) && !ForwardsAt(steps, 3, key);
    assert LostCount([a], key) == 0 && ForwardedCount([a], key) == 0;
    assert LostCount([a, b], key) == 0 && ForwardedCount([a, b], key) == 0;
    assert LostCount([a, b, c], key) == 0 && ForwardedCount([a, b, c], key) == 0;
  }

  /** After one response, and without a new call, a further response is unknown. */
  lemma {:induction false} SecondResponseUnknown(steps: seq<Step>, key: CallKey, i: nat)
    requires i < |steps| && steps[i] == Response(key)
    requires forall j :: i < j < |steps| ==> !IssuesAt(steps, j, key)
    ensures Responded(Run(steps), key) == Unknown
  {
    var n := |steps| - 1;
    if i < n {
      forall j | i < j < n ensures !IssuesAt(steps[..n], j, key) {
        assert !IssuesAt(steps, j, key);
      }
      SecondResponseUnknown(steps[..n], key, i);
      assert !IssuesAt(steps, n, key);
    }
  }
}
