/** The services of other nodes that the daemon currently knows. */
module FoundServices {
  import opened Bytes
  import opened SdAdvertise

  datatype Found = Found(instance: ServiceInstance, timestamp: real)

  /** list.index with an equality that ignores the timestamp, or the length of the list. */
  function IndexOf(cache: seq<Found>, instance: ServiceInstance): (i: nat)
    ensures i <= |cache|
    ensures i < |cache| ==> cache[i].instance == instance
    ensures forall j :: 0 <= j < i ==> cache[j].instance != instance
  {
    if cache == [] || cache[0].instance == instance then 0 else 1 + IndexOf(cache[1..], instance)
  }

  function AfterOffer(cache: seq<Found>, instance: ServiceInstance, now: real): seq<Found> {
    var i := IndexOf(cache, instance);
    if i == |cache| then cache + [Found(instance, now)] else cache[i := Found(cache[i].instance, now)]
  }

  predicate Expired(f: Found, now: real) {
    now - f.timestamp > f.instance.ttl as real
  }

  function Pruned(cache: seq<Found>, now: real): seq<Found> {
    if cache == [] then []
    else (if Expired(cache[0], now) then [] else [cache[0]]) + Pruned(cache[1..], now)
  }

  lemma PrunedStep(kept: seq<Found>, cache: seq<Found>, i: nat, now: real)
    requires i < |cache|
    ensures kept + Pruned(cache[i..], now)
         == (if Expired(cache[i], now) then kept else kept + [cache[i]]) + Pruned(cache[i + 1..], now)
  {
    hide Expired;
    assert cache[i..][0] == cache[i] && cache[i..][1..] == cache[i + 1..];
  }

  // ----- Runs, and their history -----

  datatype Step = Offer(instance: ServiceInstance, now: real) | Prune(now: real)

  function Run(steps: seq<Step>): seq<Found> {
    if steps == [] then []
    else
      var before, step := Run(steps[..|steps| - 1]), steps[|steps| - 1];
      match step
      case Offer(instance, now) => AfterOffer(before, instance, now)
      case Prune(now) => Pruned(before, now)
  }

  predicate TimeMovesOn(steps: seq<Step>) {
    forall i, j :: 0 <= i < j < |steps| ==> steps[i].now <= steps[j].now
  }

  /** When the instance was last offered. */
  function LatestOffer(steps: seq<Step>, instance: ServiceInstance): Option<real> {
    if steps == [] then None
    else
      var last := steps[|steps| - 1];
      if last.Offer? && last.instance == instance then Some(last.now) else LatestOffer(steps[..|steps| - 1], instance)
  }

  predicate Has(cache: seq<Found>, instance: ServiceInstance) {
    exists f :: f in cache && f.instance == instance
  }

  ghost predicate NoDuplicateInstances(cache: seq<Found>) {
    forall i, j :: 0 <= i < j < |cache| ==> cache[i].instance != cache[j].instance
  }

  lemma {:induction false} PrunedMembers(cache: seq<Found>, now: real)
    requires NoDuplicateInstances(cache)
    ensures NoDuplicateInstances(Pruned(cache, now))
    ensures forall f :: f in Pruned(cache, now) <==> f in cache && !Expired(f, now)
  {
    if cache != [] {
      PrunedMembers(cache[1..], now);
      assert cache == [cache[0]] + cache[1..];
      forall f | f in cache[1..] ensures f.instance != cache[0].instance {
      }
    }
  }

  lemma OfferMembers(cache: seq<Found>, instance: ServiceInstance, now: real)
    requires NoDuplicateInstances(cache)
    ensures NoDuplicateInstances(AfterOffer(cache, instance, now))
    ensures forall f :: f in AfterOffer(cache, instance, now) <==>
              f == Found(instance, now) || (f in cache && f.instance != instance)
  {
    var i, after := IndexOf(cache, instance), AfterOffer(cache, instance, now);
    forall f | f in cache && f.instance != instance ensures f in after {
      var j :| 0 <= j < |cache| && cache[j] == f;
      assert after[j] == f;
    }
    assert after[i] == Found(instance, now);
  }

  /** Whatever is stored carries the time of its latest offer, and whatever is missing has expired by
      the time of the last step. */
  ghost predicate Refines(cache: seq<Found>, steps: seq<Step>) {
    && NoDuplicateInstances(cache)
    && (forall f :: f in cache ==> LatestOffer(steps, f.instance) == Some(f.timestamp))
    && forall instance :: LatestOffer(steps, instance).Some? && !Has(cache, instance) ==>
         Expired(Found(instance, LatestOffer(steps, instance).value), steps[|steps| - 1].now)
  }

  lemma {:induction false} RunRefines(steps: seq<Step>)
    requires TimeMovesOn(steps)
    ensures Refines(Run(steps), steps)
  {
    if steps != [] {
      var before, step := steps[..|steps| - 1], steps[|steps| - 1];
      RunRefines(before);
      StepRefines(Run(before), before, step);
      assert steps == before + [step];
    }
  }

  lemma StepRefines(cache: seq<Found>, before: seq<Step>, step: Step)
    requires TimeMovesOn(before + [step]) && Refines(cache, before)
    ensures Refines(if step.Offer? then AfterOffer(cache, step.instance, step.now) else Pruned(cache, step.now), before + [step])
  {
    var steps := before + [step];
    assert steps[..|steps| - 1] == before;
    var after := if step.Offer? then AfterOffer(cache, step.instance, step.now) else Pruned(cache, step.now);
    if step.Offer? {
      OfferMembers(cache, step.instance, step.now);
    } else {
      PrunedMembers(cache, step.now);
    }
    hide AfterOffer, Pruned, NoDuplicateInstances;
    forall instance | LatestOffer(steps, instance).Some?
      ensures Has(after, instance) || Expired(Found(instance, LatestOffer(steps, instance).value), step.now)
    {
      if step == Offer(instance, step.now) {
        assert Found(instance, step.now) in after;
      } else if f :| f in cache && f.instance == instance {
        assert f in after || Expired(f, step.now);
      } else {
        assert LatestOffer(before, instance) == LatestOffer(steps, instance);
        assert before != [];
        assert steps[|before| - 1].now <= steps[|before|].now;
      }
    }
  }

  /** The cache refines its history: after a pruning at time t it has no duplicates and holds exactly
      the instances whose latest offer, at time x, satisfies t - x <= ttl. */
  lemma {:induction false} CacheRefinesHistory(steps: seq<Step>, instance: ServiceInstance)
    requires TimeMovesOn(steps) && steps != [] && steps[|steps| - 1].Prune?
    ensures NoDuplicateInstances(Run(steps))
    ensures Has(Run(steps), instance) <==>
            match LatestOffer(steps, instance)
            case None => false
            case Some(x) => steps[|steps| - 1].now - x <= instance.ttl as real
    ensures forall f :: f in Run(steps) ==> LatestOffer(steps, f.instance) == Some(f.timestamp)
  {
    RunRefines(steps);
    var before, now := Run(steps[..|steps| - 1]), steps[|steps| - 1].now;
    RunRefines(steps[..|steps| - 1]);
    PrunedMembers(before, now);
    if f :| f in Run(steps) && f.instance == instance {
      assert !Expired(f, now);
    }
  }
}
