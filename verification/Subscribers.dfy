/** The remote subscribers of an offered service, and their lifetimes. */
module Subscribers {
  import opened Bytes
  import opened OfferServiceStorage

  /** Two subscribers are equal when they agree in eventgroup and endpoint. */
  datatype Who = Who(eventGroupId: int, endpoint: Address)

  datatype EventGroupSubscriber = EventGroupSubscriber(who: Who, ttl: int, lastTsMs: int)

  /** The TTL that never runs out. */
  const FOREVER := 0xFF_FFFF

  predicate Live(ttl: int, lastTsMs: int, nowMs: int) {
    ttl == FOREVER || nowMs < lastTsMs + ttl * 1000
  }

  // ----- What the operations do -----

  function Updated(subscribers: seq<EventGroupSubscriber>, nowMs: int): seq<EventGroupSubscriber> {
    if subscribers == [] then []
    else (if Live(subscribers[0].ttl, subscribers[0].lastTsMs, nowMs) then [subscribers[0]] else [])
         + Updated(subscribers[1..], nowMs)
  }

  predicate Contains(subscribers: seq<EventGroupSubscriber>, who: Who) {
    exists s :: s in subscribers && s.who == who
  }

  /** An equal subscriber is refreshed, and keeps its TTL. */
  function WithSubscriber(subscribers: seq<EventGroupSubscriber>, who: Who, ttl: int, nowMs: int): seq<EventGroupSubscriber> {
    if subscribers == [] then [EventGroupSubscriber(who, ttl, nowMs)]
    else if subscribers[0].who == who then [EventGroupSubscriber(who, subscribers[0].ttl, nowMs)] + subscribers[1..]
    else [subscribers[0]] + WithSubscriber(subscribers[1..], who, ttl, nowMs)
  }

  /** What a subscription for the service is reported as: the list is brought up to date first. */
  predicate IsRenewal(subscribers: seq<EventGroupSubscriber>, who: Who, nowMs: int) {
    Contains(Updated(subscribers, nowMs), who)
  }

  class List {
    var subscribers: seq<EventGroupSubscriber>

    constructor ()
      ensures subscribers == []
    {
      subscribers := [];
    }

    method Update(nowMs: int)
      modifies this
      ensures subscribers == Updated(old(subscribers), nowMs)
    {
      var kept: seq<EventGroupSubscriber> := [];
      assert subscribers[0..] == subscribers;
      for i := 0 to |subscribers|
        invariant subscribers == old(subscribers)
        invariant Updated(subscribers, nowMs) == kept + Updated(subscribers[i..], nowMs)
      {
        UpdatedStep(kept, subscribers, i, nowMs);
        if Live(subscribers[i].ttl, subscribers[i].lastTsMs, nowMs) {
          kept := kept + [subscribers[i]];
        }
      }
      subscribers := kept;
    }

    method AddSubscriber(who: Who, ttl: int, nowMs: int)
      modifies this
      ensures subscribers == WithSubscriber(old(subscribers), who, ttl, nowMs)
    {
      ghost var before := subscribers;
      assert subscribers[0..] == subscribers && subscribers[..0] == [];
      for i := 0 to |subscribers|
        invariant subscribers == before
        invariant WithSubscriber(before, who, ttl, nowMs) == before[..i] + WithSubscriber(before[i..], who, ttl, nowMs)
      {
        WithStep(before, i, who, ttl, nowMs);
        if subscribers[i].who == who {
          subscribers := subscribers[..i] + [EventGroupSubscriber(who, subscribers[i].ttl, nowMs)] + subscribers[i + 1..];
          return;
        }
      }
      assert before[..|before|] == before && before[|before|..] == [];
      subscribers := subscribers + [EventGroupSubscriber(who, ttl, nowMs)];
    }
  }

  lemma UpdatedStep(kept: seq<EventGroupSubscriber>, subscribers: seq<EventGroupSubscriber>, i: nat, nowMs: int)
    requires i < |subscribers|
    ensures kept + Updated(subscribers[i..], nowMs)
         == (if Live(subscribers[i].ttl, subscribers[i].lastTsMs, nowMs) then kept + [subscribers[i]] else kept)
            + Updated(subscribers[i + 1..], nowMs)
  {
    hide Live;
    assert subscribers[i..][0] == subscribers[i] && subscribers[i..][1..] == subscribers[i + 1..];
  }

  lemma WithStep(subscribers: seq<EventGroupSubscriber>, i: nat, who: Who, ttl: int, nowMs: int)
    requires i < |subscribers|
    ensures subscribers[..i] + WithSubscriber(subscribers[i..], who, ttl, nowMs)
         == if subscribers[i].who == who then
              subscribers[..i] + [EventGroupSubscriber(who, subscribers[i].ttl, nowMs)] + subscribers[i + 1..]
            else subscribers[..i + 1] + WithSubscriber(subscribers[i + 1..], who, ttl, nowMs)
  {
    assert subscribers[i..][0] == subscribers[i] && subscribers[i..][1..] == subscribers[i + 1..];
    assert subscribers[..i + 1] == subscribers[..i] + [subscribers[i]];
  }

  // ----- Runs -----

  /** A subscription for the service brings the list up to date and enters the subscriber; other
      subscriptions and events only bring it up to date. */
  datatype Step = Subscribe(who: Who, ttl: int, nowMs: int) | Tick(nowMs: int)

  function After(subscribers: seq<EventGroupSubscriber>, step: Step): seq<EventGroupSubscriber> {
    var updated := Updated(subscribers, step.nowMs);
    if step.Subscribe? then WithSubscriber(updated, step.who, step.ttl, step.nowMs) else updated
  }

  function Run(steps: seq<Step>): seq<EventGroupSubscriber> {
    if steps == [] then [] else After(Run(steps[..|steps| - 1]), steps[|steps| - 1])
  }

  predicate TimeMovesOn(steps: seq<Step>) {
    forall i, j :: 0 <= i < j < |steps| ==> steps[i].nowMs <= steps[j].nowMs
  }

  /** The last subscription of a subscriber. */
  function LastSubscription(steps: seq<Step>, who: Who): (step: Option<Step>)
    ensures step.Some? ==> step.value.Subscribe? && step.value.who == who && step.value in steps
  {
    if steps == [] then None
    else
      var last := steps[|steps| - 1];
      if last.Subscribe? && last.who == who then Some(last) else LastSubscription(steps[..|steps| - 1], who)
  }

  /** The TTL in force for a subscriber: that of the first of its last subscriptions that each came
      while the one before was live. */
  function TtlInForce(steps: seq<Step>, who: Who): int
    decreases steps, 0
  {
    if steps == [] then 0
    else
      var before, last := steps[..|steps| - 1], steps[|steps| - 1];
      if last.Subscribe? && last.who == who && !InForce(before, who, last.nowMs) then last.ttl else TtlInForce(before, who)
  }

  /** The last subscription of a subscriber is live, by the TTL in force. */
  predicate InForce(steps: seq<Step>, who: Who, nowMs: int)
    decreases steps, 1
  {
    var last, ttl := LastSubscription(steps, who), TtlInForce(steps, who);
    last.Some? && (ttl == 0xFF_FFFF || nowMs < last.value.nowMs + ttl * 1000)
  }

  /** The last subscription of a subscriber is live, by the TTL it announced. */
  predicate Announced(steps: seq<Step>, who: Who, nowMs: int) {
    var last := LastSubscription(steps, who);
    last.Some? && (last.value.ttl == 0xFF_FFFF || nowMs < last.value.nowMs + last.value.ttl * 1000)
  }

  ghost predicate NoEqualSubscribers(subscribers: seq<EventGroupSubscriber>) {
    forall i, j :: 0 <= i < j < |subscribers| ==> subscribers[i].who != subscribers[j].who
  }

  lemma {:induction false} UpdatedMembers(subscribers: seq<EventGroupSubscriber>, nowMs: int)
    requires NoEqualSubscribers(subscribers)
    ensures NoEqualSubscribers(Updated(subscribers, nowMs))
    ensures forall s :: s in Updated(subscribers, nowMs) <==> s in subscribers && Live(s.ttl, s.lastTsMs, nowMs)
  {
    if subscribers != [] {
      UpdatedMembers(subscribers[1..], nowMs);
      assert subscribers == [subscribers[0]] + subscribers[1..];
      forall s | s in subscribers[1..] ensures s.who != subscribers[0].who {
      }
    }
  }

  /** The TTL that counts for a subscriber: that of the entry still in the list, if there is one. */
  function TtlAfter(subscribers: seq<EventGroupSubscriber>, who: Who, ttl: int): int {
    if subscribers == [] then ttl
    else if subscribers[0].who == who then subscribers[0].ttl
    else TtlAfter(subscribers[1..], who, ttl)
  }

  lemma {:induction false} WithMembers(subscribers: seq<EventGroupSubscriber>, who: Who, ttl: int, nowMs: int)
    requires NoEqualSubscribers(subscribers)
    ensures NoEqualSubscribers(WithSubscriber(subscribers, who, ttl, nowMs))
    ensures forall s :: s in WithSubscriber(subscribers, who, ttl, nowMs) <==>
              s == EventGroupSubscriber(who, TtlAfter(subscribers, who, ttl), nowMs) || (s in subscribers && s.who != who)
  {
    if subscribers != [] {
      assert subscribers == [subscribers[0]] + subscribers[1..];
      if subscribers[0].who == who {
        forall s | s in subscribers[1..] ensures s.who != who {
        }
      } else {
        WithMembers(subscribers[1..], who, ttl, nowMs);
        var rest := WithSubscriber(subscribers[1..], who, ttl, nowMs);
        forall i | 0 <= i < |rest| ensures rest[i].who != subscribers[0].who {
          assert rest[i] in rest;
        }
      }
    }
  }

  lemma {:induction false} TtlOfEntry(subscribers: seq<EventGroupSubscriber>, who: Who, ttl: int)
    ensures if Contains(subscribers, who)
            then exists s :: s in subscribers && s.who == who && s.ttl == TtlAfter(subscribers, who, ttl)
            else TtlAfter(subscribers, who, ttl) == ttl
  {
    if subscribers != [] && subscribers[0].who != who {
      TtlOfEntry(subscribers[1..], who, ttl);
      assert subscribers == [subscribers[0]] + subscribers[1..];
      if Contains(subscribers, who) {
        var s :| s in subscribers && s.who == who;
        assert s in subscribers[1..];
      }
    }
  }

  ghost predicate IsEntry(steps: seq<Step>, s: EventGroupSubscriber) {
    var last := LastSubscription(steps, s.who);
    last.Some? && last.value.nowMs == s.lastTsMs && TtlInForce(steps, s.who) == s.ttl
  }

  /** The list holds exactly the subscribers whose last subscription is live, by the TTL in force. */
  ghost predicate Refines(subscribers: seq<EventGroupSubscriber>, steps: seq<Step>) {
    && NoEqualSubscribers(subscribers)
    && (forall s :: s in subscribers ==> IsEntry(steps, s))
    && (steps != [] ==>
          forall who :: !Contains(subscribers, who) ==> !InForce(steps, who, steps[|steps| - 1].nowMs))
  }

  lemma UpdateRefines(subscribers: seq<EventGroupSubscriber>, steps: seq<Step>, nowMs: int, who: Who)
    requires Refines(subscribers, steps) && (steps != [] ==> steps[|steps| - 1].nowMs <= nowMs)
    ensures NoEqualSubscribers(Updated(subscribers, nowMs))
    ensures Contains(Updated(subscribers, nowMs), who) <==> InForce(steps, who, nowMs)
  {
    UpdatedMembers(subscribers, nowMs);
    hide Updated, NoEqualSubscribers;
    if s :| s in subscribers && s.who == who {
      assert IsEntry(steps, s);
      assert s in Updated(subscribers, nowMs) <==> Live(s.ttl, s.lastTsMs, nowMs);
      OneEntry(subscribers, nowMs, s);
    } else {
      assert !Contains(subscribers, who);
      assert LastSubscription(steps, who).Some? ==> steps != [];
    }
  }

  lemma OneEntry(subscribers: seq<EventGroupSubscriber>, nowMs: int, s: EventGroupSubscriber)
    requires NoEqualSubscribers(subscribers) && s in subscribers
    ensures Contains(Updated(subscribers, nowMs), s.who) <==> s in Updated(subscribers, nowMs)
  {
    UpdatedMembers(subscribers, nowMs);
    hide Updated;
    if t :| t in Updated(subscribers, nowMs) && t.who == s.who {
      assert t in subscribers;
    }
  }

  /** An entry of the list that is brought up to date keeps meaning the same. */
  lemma StillEntry(before: seq<Step>, step: Step, s: EventGroupSubscriber)
    requires IsEntry(before, s) && !(step.Subscribe? && step.who == s.who)
    ensures IsEntry(before + [step], s)
  {
    assert (before + [step])[..|before|] == before;
  }

  lemma NewEntry(updated: seq<EventGroupSubscriber>, before: seq<Step>, step: Step)
    requires step.Subscribe? && (forall s :: s in updated ==> IsEntry(before, s))
    requires Contains(updated, step.who) <==> InForce(before, step.who, step.nowMs)
    ensures IsEntry(before + [step],
                    EventGroupSubscriber(step.who, TtlAfter(updated, step.who, step.ttl), step.nowMs))
  {
    TtlOfEntry(updated, step.who, step.ttl);
    assert (before + [step])[..|before|] == before;
    hide InForce, TtlAfter;
  }

  lemma StepRefines(subscribers: seq<EventGroupSubscriber>, before: seq<Step>, step: Step)
    requires Refines(subscribers, before) && (before != [] ==> before[|before| - 1].nowMs <= step.nowMs)
    ensures Refines(After(subscribers, step), before + [step])
  {
    var steps, updated, after := before + [step], Updated(subscribers, step.nowMs), After(subscribers, step);
    assert steps[..|steps| - 1] == before;
    UpdatedMembers(subscribers, step.nowMs);
    if step.Subscribe? {
      UpdateRefines(subscribers, before, step.nowMs, step.who);
      WithMembers(updated, step.who, step.ttl, step.nowMs);
      NewEntry(updated, before, step);
    }
    hide Updated, WithSubscriber, NoEqualSubscribers, Live, IsEntry, TtlAfter;
    forall s | s in after ensures IsEntry(steps, s) {
      if s in updated && !(step.Subscribe? && s.who == step.who) {
        StillEntry(before, step, s);
      }
    }
    forall who ensures Contains(after, who) || !InForce(steps, who, step.nowMs) {
      UpdateRefines(subscribers, before, step.nowMs, who);
      if step.Subscribe? && who == step.who {
        assert EventGroupSubscriber(who, TtlAfter(updated, who, step.ttl), step.nowMs) in after;
      } else if s :| s in updated && s.who == who {
        assert s in after;
      }
    }
  }

  lemma {:induction false} RunRefines(steps: seq<Step>)
    requires TimeMovesOn(steps)
    ensures Refines(Run(steps), steps)
  {
    if steps != [] {
      var before, step := steps[..|steps| - 1], steps[|steps| - 1];
      RunRefines(before);
      assert steps == before + [step];
      hide After, Refines;
      StepRefines(Run(before), before, step);
    }
  }

  /** In every run the list holds no two equal subscribers, and a subscription is reported as a renewal
      exactly when the previous one of the same subscriber is still live, by the TTL in force. */
  lemma RenewalExact(steps: seq<Step>, who: Who, nowMs: int)
    requires TimeMovesOn(steps) && (steps != [] ==> steps[|steps| - 1].nowMs <= nowMs)
    ensures NoEqualSubscribers(Run(steps))
    ensures IsRenewal(Run(steps), who, nowMs) <==> InForce(steps, who, nowMs)
  {
    RunRefines(steps);
    hide Run, InForce;
    UpdateRefines(Run(steps), steps, nowMs, who);
  }

  // ----- The TTL a subscriber announces -----

  /** The flag is the one the announced TTL calls for, from the end of the run on. */
  ghost predicate FlagAsAnnounced(steps: seq<Step>, who: Who)
    requires steps != []
  {
    forall nowMs :: steps[|steps| - 1].nowMs <= nowMs ==>
      (IsRenewal(Run(steps), who, nowMs) <==> Announced(steps, who, nowMs))
  }

  /** From the end of a run on the renewal flag of a subscriber is the one its announced TTL calls for,
      if and only if that TTL is in force, or its subscription has run out by both. */
  lemma FlagExact(steps: seq<Step>, who: Who)
    requires TimeMovesOn(steps) && steps != [] && LastSubscription(steps, who).Some?
    ensures var end := steps[|steps| - 1].nowMs;
            FlagAsAnnounced(steps, who) <==>
              || TtlInForce(steps, who) == LastSubscription(steps, who).value.ttl
              || (!InForce(steps, who, end) && !Announced(steps, who, end))
  {
    var last, end := LastSubscription(steps, who).value, steps[|steps| - 1].nowMs;
    hide Run, IsRenewal, TtlInForce, LastSubscription;
    forall nowMs | end <= nowMs ensures IsRenewal(Run(steps), who, nowMs) <==> InForce(steps, who, nowMs) {
      RenewalExact(steps, who, nowMs);
    }
    var a, b := TtlInForce(steps, who), last.ttl;
    if a != b && (InForce(steps, who, end) || Announced(steps, who, end)) {
      var nowMs := MomentBetween(a, b, last.nowMs, end);
      assert IsRenewal(Run(steps), who, nowMs) != Announced(steps, who, nowMs);
    }
  }

  lemma MomentBetween(a: int, b: int, lastTsMs: int, end: int) returns (nowMs: int)
    requires a != b && (Live(a, lastTsMs, end) || Live(b, lastTsMs, end))
    ensures end <= nowMs && Live(a, lastTsMs, nowMs) != Live(b, lastTsMs, nowMs)
  {
    var first := if b == FOREVER || (a != FOREVER && a < b) then a else b;
    nowMs := if end < lastTsMs + first * 1000 then lastTsMs + first * 1000 else end;
  }

  /** A subscriber always announces the same TTL. */
  predicate OneTtl(steps: seq<Step>, who: Who) {
    forall i, j ::
      0 <= i < |steps| && 0 <= j < |steps| && steps[i].Subscribe? && steps[j].Subscribe? && steps[i].who == steps[j].who == who
      ==> steps[i].ttl == steps[j].ttl
  }

  /** Then that TTL is in force, and the flag is exact. */
  lemma {:induction false} OneTtlInForce(steps: seq<Step>, who: Who)
    requires OneTtl(steps, who) && LastSubscription(steps, who).Some?
    ensures TtlInForce(steps, who) == LastSubscription(steps, who).value.ttl
  {
    hide Live;
    var before, last := steps[..|steps| - 1], steps[|steps| - 1];
    if !(last.Subscribe? && last.who == who && !InForce(before, who, last.nowMs)) {
      forall i | 0 <= i < |before| ensures before[i] == steps[i] {
      }
      OneTtlInForce(before, who);
      var i :| 0 <= i < |before| && before[i] == LastSubscription(before, who).value;
      assert steps[i] == before[i];
    }
  }

  /** A renewal with a longer TTL keeps the old one: three seconds later it counts as run out. */
  lemma RenewalKeepsTtl(who: Who)
    ensures var steps := [Subscribe(who, 1, 0), Subscribe(who, 100, 500)];
            && LastSubscription(steps, who) == Some(steps[1]) && TtlInForce(steps, who) == 1
            && Announced(steps, who, 3000) && !IsRenewal(Run(steps), who, 3000)
  {
    var steps := [Subscribe(who, 1, 0), Subscribe(who, 100, 500)];
    assert steps[..1] == [steps[0]] && [steps[0]][..0] == [];
    var first := EventGroupSubscriber(who, 1, 0);
    assert Run([]) == [] && Run(steps[..1]) == After([], steps[0]) == [first];
    assert Updated([first], 500) == [first] + Updated([first][1..], 500) == [first];
    var renewed := EventGroupSubscriber(who, 1, 500);
    assert Run(steps) == [renewed];
    assert Updated([renewed], 3000) == [] + Updated([renewed][1..], 3000) == [];
    assert TtlInForce(steps[..1], who) == 1;
  }
}
