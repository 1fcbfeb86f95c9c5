/** Method calls of one client instance: session ids, and the futures that wait for responses. */
module ClientServiceInstance {
  import opened Bytes

  datatype CallKey = CallKey(serviceId: int, methodId: int, clientId: int, sessionId: int)

  datatype MethodResult = MethodResult(returnCode: int, payload: seq<byte>)

  /** The n-th call has future number n; `futures` says which one waits under a key. */
  datatype Calls = Calls(session: int, started: nat, futures: map<CallKey, nat>, results: map<nat, MethodResult>)

  const NO_CALLS := Calls(0, 0, map[], map[])

  const PERIOD := 0xFFFF

  function NextSession(session: int): int {
    (session + 1) % PERIOD
  }

  function KeyOf(serviceId: int, clientId: int, methodId: int, session: int): CallKey {
    CallKey(serviceId, methodId, clientId, session)
  }

  function AfterStart(c: Calls, serviceId: int, clientId: int, methodId: int): Calls {
    var session := NextSession(c.session);
    Calls(session, c.started + 1, c.futures[KeyOf(serviceId, clientId, methodId, session) := c.started + 1], c.results)
  }

  /** The return codes that have a name. */
  predicate KnownCode(code: int) {
    0 <= code <= 0x0A
  }

  /** A response under an unknown key is ignored; one with an unknown return code, or for a future
      that has its result, raises. */
  function AfterResponse(c: Calls, clientId: int, key: CallKey, result: MethodResult): Result<Calls> {
    if key !in c.futures || key.clientId != clientId then Ok(c)
    else if !KnownCode(result.returnCode) || c.futures[key] in c.results then Err(ValueError)
    else Ok(c.(results := c.results[c.futures[key] := result]))
  }

  /** The caller has its result, or has given up waiting. */
  function AfterFinish(c: Calls, key: CallKey): Calls {
    c.(futures := c.futures - {key})
  }

  class Instance {
    const serviceId: int
    const clientId: int
    var session: int
    var started: nat
    var futures: map<CallKey, nat>
    var results: map<nat, MethodResult>

    function View(): Calls
      reads this
    {
      Calls(session, started, futures, results)
    }

    constructor (serviceId: int, clientId: int)
      ensures View() == NO_CALLS && this.serviceId == serviceId && this.clientId == clientId
    {
      this.serviceId, this.clientId := serviceId, clientId;
      session, started, futures, results := 0, 0, map[], map[];
    }

    /** call_method up to the point where it waits for the future. */
    method StartCall(methodId: int) returns (key: CallKey)
      modifies this
      ensures View() == AfterStart(old(View()), serviceId, clientId, methodId)
      ensures key == KeyOf(serviceId, clientId, methodId, session)
    {
      session := (session + 1) % 0xFFFF;
      key := CallKey(serviceId, methodId, clientId, session);
      started := started + 1;
      futures := futures[key := started];
    }

    method MethodCallDataReceived(key: CallKey, result: MethodResult) returns (error: Option<Error>)
      modifies this
      ensures match AfterResponse(old(View()), clientId, key, result)
              case Ok(calls) => error == None && View() == calls
              case Err(e) => error == Some(e) && View() == old(View())
    {
      if key !in futures {
        return None;
      }
      if key.clientId != clientId {
        return None;
      }
      var future := futures[key];
      if !KnownCode(result.returnCode) {
        return Some(ValueError);
      }
      if future in results {
        return Some(ValueError);
      }
      results := results[future := result];
      return None;
    }

    method FinishCall(key: CallKey)
      modifies this
      ensures View() == AfterFinish(old(View()), key)
    {
      futures := futures - {key};
    }
  }

  // ----- Session ids -----

  /** The session id of the n-th call. */
  function SessionOf(n: nat): int {
    n % PERIOD
  }

  /** Calls fewer than a period apart have different session ids. */
  lemma SessionsDiffer(i: nat, j: nat)
    requires i < j
    ensures j - i < 0xFFFF ==> SessionOf(i) != SessionOf(j)
    ensures j - i == 0xFFFF ==> SessionOf(i) == SessionOf(j)
  {
  }

  // ----- Runs -----

  datatype Step =
    | Start(methodId: int)
    | Response(key: CallKey, result: MethodResult)
    | Finish(key: CallKey)

  function After(c: Calls, serviceId: int, clientId: int, step: Step): Calls {
    match step
    case Start(methodId) => AfterStart(c, serviceId, clientId, methodId)
    case Response(key, result) =>
      var r := AfterResponse(c, clientId, key, result);
      if r.Ok? then r.value else c
    case Finish(key) => AfterFinish(c, key)
  }

  function Run(serviceId: int, clientId: int, steps: seq<Step>): Calls {
    if steps == [] then NO_CALLS
    else After(Run(serviceId, clientId, steps[..|steps| - 1]), serviceId, clientId, steps[|steps| - 1])
  }

  /** While a call waits, fewer than a period of calls are started. */
  predicate InWindow(c: Calls, step: Step) {
    step.Start? ==> forall key :: key in c.futures ==> c.started + 1 - c.futures[key] < PERIOD
  }

  predicate WindowKept(serviceId: int, clientId: int, steps: seq<Step>) {
    steps != [] ==>
      && WindowKept(serviceId, clientId, steps[..|steps| - 1])
      && InWindow(Run(serviceId, clientId, steps[..|steps| - 1]), steps[|steps| - 1])
  }

  // ----- What the calls of a run are -----

  /** The methods of the calls, in the order they were started. */
  function Methods(steps: seq<Step>): seq<int> {
    if steps == [] then []
    else
      var before, last := steps[..|steps| - 1], steps[|steps| - 1];
      if last.Start? then Methods(before) + [last.methodId] else Methods(before)
  }

  /** The key of the n-th call. */
  function KeyOfCall(serviceId: int, clientId: int, steps: seq<Step>, n: nat): CallKey
    requires 1 <= n <= |Methods(steps)|
  {
    KeyOf(serviceId, clientId, Methods(steps)[n - 1], SessionOf(n))
  }

  /** The call has been started, and its caller still waits. */
  predicate Waits(serviceId: int, clientId: int, steps: seq<Step>, n: nat) {
    if steps == [] then false
    else
      var before, last := steps[..|steps| - 1], steps[|steps| - 1];
      match last
      case Start(_) => n == |Methods(steps)| || Waits(serviceId, clientId, before, n)
      case Response(_, _) => Waits(serviceId, clientId, before, n)
      case Finish(key) =>
        && Waits(serviceId, clientId, before, n)
        && !(1 <= n <= |Methods(before)| && KeyOfCall(serviceId, clientId, before, n) == key)
  }

  /** The keys the daemon still maps to this client: a response consumes its key. */
  function Outstanding(serviceId: int, clientId: int, steps: seq<Step>): set<CallKey> {
    if steps == [] then {}
    else
      var before, last := steps[..|steps| - 1], steps[|steps| - 1];
      var outstanding := Outstanding(serviceId, clientId, before);
      match last
      case Start(_) => outstanding + {KeyOfCall(serviceId, clientId, steps, |Methods(steps)|)}
      case Response(key, _) => outstanding - {key}
      case Finish(_) => outstanding
  }

  /** The daemon forwards only responses to keys it has. */
  predicate Consuming(serviceId: int, clientId: int, steps: seq<Step>) {
    steps != [] ==>
      var before, last := steps[..|steps| - 1], steps[|steps| - 1];
      && Consuming(serviceId, clientId, before)
      && (last.Response? ==> last.key in Outstanding(serviceId, clientId, before))
  }

  /** Every waiting call finds its future under its own key, which no other waiting call has. */
  ghost predicate Separate(serviceId: int, clientId: int, steps: seq<Step>) {
    var c := Run(serviceId, clientId, steps);
    && c.started == |Methods(steps)| && c.session == SessionOf(c.started)
    && (forall n: nat :: Waits(serviceId, clientId, steps, n) ==>
          && 1 <= n <= |Methods(steps)|
          && var key := KeyOfCall(serviceId, clientId, steps, n);
          key in c.futures && c.futures[key] == n)
    && (forall key :: key in c.futures ==>
          && Waits(serviceId, clientId, steps, c.futures[key])
          && 1 <= c.futures[key] <= |Methods(steps)|
          && KeyOfCall(serviceId, clientId, steps, c.futures[key]) == key)
  }

  lemma Last(serviceId: int, clientId: int, before: seq<Step>, step: Step)
    ensures var steps := before + [step];
            && steps[..|steps| - 1] == before && steps[|steps| - 1] == step
            && Run(serviceId, clientId, steps) == After(Run(serviceId, clientId, before), serviceId, clientId, step)
  {
    assert (before + [step])[..|before + [step]| - 1] == before;
  }

  lemma StartSeparates(serviceId: int, clientId: int, before: seq<Step>, methodId: int)
    requires Separate(serviceId, clientId, before) && InWindow(Run(serviceId, clientId, before), Start(methodId))
    ensures Separate(serviceId, clientId, before + [Start(methodId)])
  {
    var steps, c := before + [Start(methodId)], Run(serviceId, clientId, before);
    Last(serviceId, clientId, before, Start(methodId));
    var d, n := Run(serviceId, clientId, steps), |Methods(before)| + 1;
    StartFacts(serviceId, clientId, before, methodId);
    var newKey := KeyOfCall(serviceId, clientId, steps, n);
    forall key | key in c.futures ensures key != newKey {
      SessionsDiffer(c.futures[key], n);
    }
    assert d == Calls(SessionOf(n), n, c.futures[newKey := n], c.results) by {
      NextIsSessionOf(c.started);
    }
    hide Run, After, KeyOfCall, Methods, Waits;
    forall m: nat | Waits(serviceId, clientId, steps, m)
      ensures 1 <= m <= |Methods(steps)|
      ensures var key := KeyOfCall(serviceId, clientId, steps, m); key in d.futures && d.futures[key] == m
    {
      if m != n {
        assert Waits(serviceId, clientId, before, m);
      }
    }
    forall key | key in d.futures
      ensures Waits(serviceId, clientId, steps, d.futures[key]) && 1 <= d.futures[key] <= |Methods(steps)|
      ensures KeyOfCall(serviceId, clientId, steps, d.futures[key]) == key
    {
      if key != newKey {
        assert Waits(serviceId, clientId, before, c.futures[key]);
      }
    }
  }

  lemma NextIsSessionOf(n: nat)
    ensures NextSession(SessionOf(n)) == SessionOf(n + 1)
  {
  }

  lemma StartFacts(serviceId: int, clientId: int, before: seq<Step>, methodId: int)
    ensures var steps, n := before + [Start(methodId)], |Methods(before)| + 1;
            && |Methods(steps)| == n
            && KeyOfCall(serviceId, clientId, steps, n) == KeyOf(serviceId, clientId, methodId, SessionOf(n))
            && (forall m: nat :: 1 <= m < n ==>
                  KeyOfCall(serviceId, clientId, steps, m) == KeyOfCall(serviceId, clientId, before, m))
            && forall m: nat :: Waits(serviceId, clientId, steps, m) <==> m == n || Waits(serviceId, clientId, before, m)
  {
    var steps := before + [Start(methodId)];
    assert steps[..|steps| - 1] == before;
    assert Methods(steps) == Methods(before) + [methodId];
  }

  lemma ResponseSeparates(serviceId: int, clientId: int, before: seq<Step>, key: CallKey, result: MethodResult)
    requires Separate(serviceId, clientId, before)
    ensures Separate(serviceId, clientId, before + [Response(key, result)])
  {
    var steps := before + [Response(key, result)];
    Last(serviceId, clientId, before, Response(key, result));
    assert Methods(steps) == Methods(before);
    assert forall n: nat :: Waits(serviceId, clientId, steps, n) == Waits(serviceId, clientId, before, n);
  }

  lemma FinishSeparates(serviceId: int, clientId: int, before: seq<Step>, key: CallKey)
    requires Separate(serviceId, clientId, before)
    ensures Separate(serviceId, clientId, before + [Finish(key)])
  {
    var steps := before + [Finish(key)];
    Last(serviceId, clientId, before, Finish(key));
    assert Methods(steps) == Methods(before);
    assert forall n: nat :: Waits(serviceId, clientId, steps, n) ==> Waits(serviceId, clientId, before, n);
  }

  lemma {:induction false} CallsSeparate(serviceId: int, clientId: int, steps: seq<Step>)
    requires WindowKept(serviceId, clientId, steps)
    ensures Separate(serviceId, clientId, steps)
  {
    if steps != [] {
      var before, last := steps[..|steps| - 1], steps[|steps| - 1];
      assert steps == before + [last];
      CallsSeparate(serviceId, clientId, before);
      match last
      case Start(methodId) => StartSeparates(serviceId, clientId, before, methodId);
      case Response(key, result) => ResponseSeparates(serviceId, clientId, before, key, result);
      case Finish(key) => FinishSeparates(serviceId, clientId, before, key);
    }
  }

  /** The n-th call has this key, and its caller still waits. */
  predicate WaitsFor(serviceId: int, clientId: int, steps: seq<Step>, n: nat, key: CallKey) {
    && Waits(serviceId, clientId, steps, n) && 1 <= n <= |Methods(steps)|
    && key.serviceId == serviceId && key.methodId == Methods(steps)[n - 1] && key.clientId == clientId
    && key.sessionId == n % 0xFFFF
  }

  /** While fewer than a period of calls start during any waiting call, a response completes only
      the waiting call with its key, and no other call has that key; it does so exactly when its
      return code is one of those from 0 to 0x0A. */
  lemma ResponseReachesItsCall(serviceId: int, clientId: int, steps: seq<Step>, key: CallKey, result: MethodResult)
    requires WindowKept(serviceId, clientId, steps)
    ensures var c := Run(serviceId, clientId, steps);
            var r := AfterResponse(c, clientId, key, result);
            && (r.Ok? && r.value != c ==>
                  exists n: nat :: WaitsFor(serviceId, clientId, steps, n, key)
                    && n !in c.results && r.value.results == c.results[n := result] && r.value.futures == c.futures
                    && forall m: nat :: WaitsFor(serviceId, clientId, steps, m, key) ==> m == n)
            && (forall n: nat :: WaitsFor(serviceId, clientId, steps, n, key) && n !in c.results ==>
                  if 0 <= result.returnCode <= 0x0A then r.Ok? && n in r.value.results && r.value.results[n] == result
                  else r.Err?)
  {
    CallsSeparate(serviceId, clientId, steps);
    var c := Run(serviceId, clientId, steps);
    hide Run, Methods;
    if key in c.futures {
      assert Waits(serviceId, clientId, steps, c.futures[key]);
    }
  }

  /** A waiting call whose key the daemon still has is not answered yet, and no result is ahead of
      its call. */
  ghost predicate Unanswered(serviceId: int, clientId: int, steps: seq<Step>) {
    var c := Run(serviceId, clientId, steps);
    && (forall n :: n in c.results ==> n <= c.started)
    && (forall key :: key in c.futures && key in Outstanding(serviceId, clientId, steps) ==> c.futures[key] !in c.results)
  }

  lemma {:induction false} ForwardedIsUnanswered(serviceId: int, clientId: int, steps: seq<Step>)
    requires WindowKept(serviceId, clientId, steps) && Consuming(serviceId, clientId, steps)
    ensures Unanswered(serviceId, clientId, steps)
  {
    if steps != [] {
      var before, last := steps[..|steps| - 1], steps[|steps| - 1];
      assert steps == before + [last];
      ForwardedIsUnanswered(serviceId, clientId, before);
      CallsSeparate(serviceId, clientId, before);
      CallsSeparate(serviceId, clientId, steps);
      Last(serviceId, clientId, before, last);
      var c, d := Run(serviceId, clientId, before), Run(serviceId, clientId, steps);
      forall key | key in d.futures && key in Outstanding(serviceId, clientId, steps)
        ensures d.futures[key] !in d.results
      {
        StillUnanswered(serviceId, clientId, before, last, key);
      }
    }
  }

  lemma StillUnanswered(serviceId: int, clientId: int, before: seq<Step>, last: Step, key: CallKey)
    requires Unanswered(serviceId, clientId, before) && Separate(serviceId, clientId, before)
    requires Separate(serviceId, clientId, before + [last])
    requires key in Run(serviceId, clientId, before + [last]).futures
    requires key in Outstanding(serviceId, clientId, before + [last])
    ensures Run(serviceId, clientId, before + [last]).futures[key] !in Run(serviceId, clientId, before + [last]).results
  {
    var steps := before + [last];
    var c, d := Run(serviceId, clientId, before), Run(serviceId, clientId, steps);
    Last(serviceId, clientId, before, last);
    match last
    case Start(methodId) =>
      assert Methods(steps) == Methods(before) + [methodId];
      if key in c.futures && d.futures[key] == c.futures[key] {
        assert d.futures[key] != |Methods(steps)|;
      }
    case Response(k, result) =>
      if k in c.futures && key in c.futures && key != k {
        assert c.futures[k] != c.futures[key];
      }
    case Finish(k) =>
  }

  /** With a daemon that forwards at most one response for each issued key, no response ever finds
      its call already answered: every call completes at most once, and only an unknown return code raises. */
  lemma CompletesOnce(serviceId: int, clientId: int, steps: seq<Step>, key: CallKey, result: MethodResult)
    requires WindowKept(serviceId, clientId, steps) && Consuming(serviceId, clientId, steps + [Response(key, result)])
    ensures var c := Run(serviceId, clientId, steps);
            && (key in c.futures ==> c.futures[key] !in c.results)
            && (KnownCode(result.returnCode) ==> AfterResponse(c, clientId, key, result).Ok?)
  {
    var all := steps + [Response(key, result)];
    assert all[..|all| - 1] == steps;
    ForwardedIsUnanswered(serviceId, clientId, steps);
  }
}
