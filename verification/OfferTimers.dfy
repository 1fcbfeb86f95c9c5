/** The offer timers, one per cyclic delay, while the handlers of different clients interleave at the
    point where an offer waits for its socket. */
module OfferTimers {
  import opened OfferServiceStorage

  /** Clients whose offer is waiting, with the delay its timer will need. */
  datatype Timers = Timers(services: seq<ServiceToOffer>, running: set<int>, waiting: map<ClientId, ServiceToOffer>)

  const NO_TIMERS := Timers([], {}, map[])

  function Delays(services: seq<ServiceToOffer>): set<int> {
    set s | s in services :: s.cyclicOfferDelay
  }

  /** _cleanup_unused_timers. */
  function Cleaned(running: set<int>, services: seq<ServiceToOffer>): set<int> {
    set delay | delay in running && WithDelay(services, delay) != []
  }

  /** An offer up to the point where it may wait, the rest of it, its failure while it waits, and the
      handlers that do not wait. */
  datatype Step =
    | Admit(service: ServiceToOffer)
    | Arm(client: ClientId)
    | Fail(client: ClientId)
    | StopOffer(service: ServiceToOffer)
    | Disconnect(client: ClientId)

  function After(t: Timers, step: Step): Timers {
    match step
    case Admit(service) =>
      t.(services := Added(t.services, service), waiting := t.waiting[service.client := service])
    case Arm(client) =>
      if client !in t.waiting then t
      else t.(running := t.running + {t.waiting[client].cyclicOfferDelay}, waiting := t.waiting - {client})
    case Fail(client) => t.(waiting := t.waiting - {client})
    case StopOffer(service) =>
      var services := Removed(t.services, service);
      t.(services := services, running := Cleaned(t.running, services))
    case Disconnect(client) =>
      var services := WithoutClient(t.services, client);
      t.(services := services, running := Cleaned(t.running, services))
  }

  /** The messages of one client are handled one after the other. */
  predicate InTurn(t: Timers, step: Step) {
    match step
    case Admit(service) => service.client !in t.waiting
    case Arm(client) => client in t.waiting
    case Fail(client) => client in t.waiting
    case StopOffer(service) => service.client !in t.waiting
    case Disconnect(client) => client !in t.waiting
  }

  function Run(steps: seq<Step>): Timers {
    if steps == [] then NO_TIMERS else After(Run(steps[..|steps| - 1]), steps[|steps| - 1])
  }

  predicate InTurnRun(steps: seq<Step>) {
    steps != [] ==> InTurnRun(steps[..|steps| - 1]) && InTurn(Run(steps[..|steps| - 1]), steps[|steps| - 1])
  }

  /** The interval has a timer, or a waiting offer will start one. */
  ghost predicate TimerOrWaiting(t: Timers, delay: int) {
    delay in t.running || exists c :: c in t.waiting && t.waiting[c].cyclicOfferDelay == delay
  }

  /** No timer runs without a service; a service without its timer belongs to an offer that waits, or
      has one of the failed intervals; and an offer that waits has its service stored. */
  ghost predicate Inv(t: Timers, failed: set<int>) {
    && Distinct(t.services)
    && (forall delay :: delay in t.running ==> delay in Delays(t.services))
    && (forall s :: s in t.services ==> TimerOrWaiting(t, s.cyclicOfferDelay) || s.cyclicOfferDelay in failed)
    && (forall c :: c in t.waiting ==> t.waiting[c] in t.services && t.waiting[c].client == c)
  }

  lemma CleanedMembers(running: set<int>, services: seq<ServiceToOffer>)
    ensures forall delay :: delay in Cleaned(running, services) <==> delay in running && delay in Delays(services)
  {
    forall delay ensures WithDelay(services, delay) != [] <==> delay in Delays(services) {
      WithDelayMembers(services, delay);
      if WithDelay(services, delay) != [] {
        assert WithDelay(services, delay)[0] in WithDelay(services, delay);
      }
    }
  }

  lemma AdmitKeeps(t: Timers, service: ServiceToOffer, failed: set<int>)
    requires Inv(t, failed) && InTurn(t, Admit(service))
    ensures Inv(After(t, Admit(service)), failed)
  {
    AddedProperties(t.services, service);
    var u := After(t, Admit(service));
    hide Distinct, Added;
    forall delay | delay in u.running ensures delay in Delays(u.services) {
      assert delay in Delays(t.services);
      var s :| s in t.services && s.cyclicOfferDelay == delay;
      assert s in u.services;
    }
    hide Delays;
    forall s | s in u.services && s.cyclicOfferDelay !in failed
      ensures TimerOrWaiting(u, s.cyclicOfferDelay)
    {
      if s == service {
        assert u.waiting[service.client] == service;
      } else if c :| c in t.waiting && t.waiting[c].cyclicOfferDelay == s.cyclicOfferDelay {
        assert u.waiting[c] == t.waiting[c];
      }
    }
  }

  lemma ArmKeeps(t: Timers, client: ClientId, failed: set<int>)
    requires Inv(t, failed) && client in t.waiting
    ensures Inv(After(t, Arm(client)), failed)
  {
    var u, d := After(t, Arm(client)), t.waiting[client].cyclicOfferDelay;
    hide Distinct;
    assert d in Delays(t.services);
    hide Delays;
    forall s | s in u.services && s.cyclicOfferDelay !in failed
      ensures TimerOrWaiting(u, s.cyclicOfferDelay)
    {
      if c :| c in t.waiting && t.waiting[c].cyclicOfferDelay == s.cyclicOfferDelay {
        assert s.cyclicOfferDelay == d || c in u.waiting;
      }
    }
  }

  lemma FailKeeps(t: Timers, client: ClientId, failed: set<int>)
    requires Inv(t, failed) && client in t.waiting
    ensures Inv(After(t, Fail(client)), failed + {t.waiting[client].cyclicOfferDelay})
  {
    var u, d := After(t, Fail(client)), t.waiting[client].cyclicOfferDelay;
    hide Distinct, Delays;
    forall s | s in u.services && s.cyclicOfferDelay !in failed && s.cyclicOfferDelay != d
      ensures TimerOrWaiting(u, s.cyclicOfferDelay)
    {
      if c :| c in t.waiting && t.waiting[c].cyclicOfferDelay == s.cyclicOfferDelay {
        assert c in u.waiting;
      }
    }
  }

  /** The interval has a timer, or the waiting offer of another client will start one. */
  predicate Covered(t: Timers, client: ClientId)
    requires client in t.waiting
  {
    var delay := t.waiting[client].cyclicOfferDelay;
    delay in t.running || exists c :: c in t.waiting && c != client && t.waiting[c].cyclicOfferDelay == delay
  }

  /** An offer that fails while it waits leaves timers and services in step exactly when its interval
      is covered without it. */
  lemma FailExact(t: Timers, client: ClientId)
    requires Inv(t, {}) && client in t.waiting
    ensures Inv(After(t, Fail(client)), {}) <==> Covered(t, client)
  {
    var u, d := After(t, Fail(client)), t.waiting[client].cyclicOfferDelay;
    FailKeeps(t, client, {});
    hide Distinct, Delays;
    assert t.waiting[client] in u.services;
    assert TimerOrWaiting(u, d) <==> Covered(t, client) by {
      if c :| c in t.waiting && c != client && t.waiting[c].cyclicOfferDelay == d {
        assert c in u.waiting;
      }
    }
  }

  /** Taking out services of a client that is not waiting, and then the unused timers. */
  lemma ShrinkKeeps(t: Timers, u: Timers, failed: set<int>)
    requires Inv(t, failed) && Distinct(u.services)
    requires forall s :: s in u.services ==> s in t.services
    requires forall c :: c in t.waiting ==> t.waiting[c] in u.services
    requires u.waiting == t.waiting && u.running == Cleaned(t.running, u.services)
    ensures Inv(u, failed)
  {
    CleanedMembers(t.running, u.services);
    hide Distinct, Cleaned;
    forall s | s in u.services && s.cyclicOfferDelay !in failed
      ensures TimerOrWaiting(u, s.cyclicOfferDelay)
    {
      assert s.cyclicOfferDelay in Delays(u.services);
    }
  }

  /** The interval of the offer that fails in a step. */
  function FailedBy(t: Timers, step: Step): set<int> {
    if step.Fail? && step.client in t.waiting then {t.waiting[step.client].cyclicOfferDelay} else {}
  }

  lemma StepKeeps(t: Timers, step: Step, failed: set<int>)
    requires Inv(t, failed) && InTurn(t, step)
    ensures Inv(After(t, step), failed + FailedBy(t, step))
  {
    match step
    case Admit(service) => AdmitKeeps(t, service, failed);
    case Arm(client) => ArmKeeps(t, client, failed);
    case Fail(client) => FailKeeps(t, client, failed);
    case StopOffer(service) =>
      RemovedProperties(t.services, service);
      hide Removed, Cleaned, Delays;
      ShrinkKeeps(t, After(t, step), failed);
    case Disconnect(client) =>
      WithoutClientProperties(t.services, client);
      hide WithoutClient, Cleaned, Delays;
      ShrinkKeeps(t, After(t, step), failed);
  }

  /** The intervals of the offers that have failed in a run. */
  function Failed(steps: seq<Step>): set<int> {
    if steps == [] then {}
    else Failed(steps[..|steps| - 1]) + FailedBy(Run(steps[..|steps| - 1]), steps[|steps| - 1])
  }

  lemma {:induction false} RunKeeps(steps: seq<Step>)
    requires InTurnRun(steps)
    ensures Inv(Run(steps), Failed(steps))
  {
    if steps != [] {
      hide Inv, After, InTurn, FailedBy;
      RunKeeps(steps[..|steps| - 1]);
      StepKeeps(Run(steps[..|steps| - 1]), steps[|steps| - 1], Failed(steps[..|steps| - 1]));
    }
  }

  /** In every interleaving the running timers have intervals of stored services, and fall short of
      the cyclic delays of the stored services by delays of waiting and failed offers only. */
  lemma TimersMatchOffers(steps: seq<Step>)
    requires InTurnRun(steps)
    ensures var t := Run(steps);
            && t.running <= Delays(t.services)
            && (forall delay :: delay in Delays(t.services) && delay !in t.running && delay !in Failed(steps) ==>
                  exists c :: c in t.waiting && t.waiting[c].cyclicOfferDelay == delay)
            && (t.waiting == map[] && Failed(steps) <= t.running ==> t.running == Delays(t.services))
  {
    RunKeeps(steps);
    MissingTimers(Run(steps), Failed(steps));
  }

  lemma MissingTimers(t: Timers, failed: set<int>)
    requires Inv(t, failed)
    ensures t.running <= Delays(t.services)
    ensures forall delay :: delay in Delays(t.services) && delay !in t.running && delay !in failed ==>
              exists c :: c in t.waiting && t.waiting[c].cyclicOfferDelay == delay
  {
    hide Distinct;
    assert forall delay :: delay in t.running ==> delay in Delays(t.services);
    forall delay | delay in Delays(t.services) && delay !in t.running && delay !in failed
      ensures exists c :: c in t.waiting && t.waiting[c].cyclicOfferDelay == delay
    {
      var s :| s in t.services && s.cyclicOfferDelay == delay;
    }
  }

  // ----- When failures do no harm -----

  predicate FailsCovered(t: Timers, step: Step) {
    step.Fail? && step.client in t.waiting ==> Covered(t, step.client)
  }

  predicate FailsCoveredRun(steps: seq<Step>) {
    steps != [] ==>
      FailsCoveredRun(steps[..|steps| - 1]) && FailsCovered(Run(steps[..|steps| - 1]), steps[|steps| - 1])
  }

  ghost predicate TimedThroughout(steps: seq<Step>) {
    && Inv(Run(steps), {})
    && (steps != [] ==> TimedThroughout(steps[..|steps| - 1]))
  }

  lemma StepTimed(t: Timers, step: Step)
    requires Inv(t, {}) && InTurn(t, step)
    ensures Inv(After(t, step), {}) <==> FailsCovered(t, step)
  {
    hide Inv, After, Covered;
    if step.Fail? {
      FailExact(t, step.client);
    } else {
      StepKeeps(t, step, {});
      assert {} + FailedBy(t, step) == {};
    }
  }

  /** Timers and services are in step, up to the offers that wait, at every moment of a run if and
      only if every offer that fails in it has its interval covered. */
  lemma {:induction false} TimedExactly(steps: seq<Step>)
    requires InTurnRun(steps)
    ensures TimedThroughout(steps) <==> FailsCoveredRun(steps)
  {
    hide Inv, After, InTurn, FailsCovered;
    if steps != [] {
      var before, step := steps[..|steps| - 1], steps[|steps| - 1];
      TimedExactly(before);
      if TimedThroughout(before) {
        StepTimed(Run(before), step);
      }
    } else {
      NothingTimed();
    }
  }

  lemma NothingTimed()
    ensures Inv(NO_TIMERS, {})
  {
  }

  /** In such a run, whenever no offer waits the intervals of the running timers are exactly the
      cyclic delays of the stored services. */
  lemma CoveredTimersMatch(steps: seq<Step>)
    requires InTurnRun(steps) && FailsCoveredRun(steps) && Run(steps).waiting == map[]
    ensures Run(steps).running == Delays(Run(steps).services)
  {
    TimedExactly(steps);
    hide Inv, Run, Delays;
    MissingTimers(Run(steps), {});
  }

  /** The only offer with its interval fails while it waits: its service stays stored without a timer. */
  lemma FailedOfferHasNoTimer(service: ServiceToOffer)
    ensures var steps := [Admit(service), Fail(service.client)];
            var t := Run(steps);
            InTurnRun(steps) && t.waiting == map[] && service in t.services && service.cyclicOfferDelay !in t.running
  {
    var steps := [Admit(service), Fail(service.client)];
    assert steps[..1] == [Admit(service)] && [Admit(service)][..0] == [];
    assert Run([Admit(service)]) == After(NO_TIMERS, Admit(service));
    assert InTurnRun([Admit(service)]);
    assert service in Added([], service);
  }
}
