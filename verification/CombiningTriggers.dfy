/** The combining triggers (src/schedflow/triggers/combining.py), without jitter. */
module CombiningTriggers {
  import opened Prelude
  import opened Triggers
  import opened Iteration

  /** A member's `get_next_fire_time(previous_fire_time, now)`. */
  type Trigger = (Option<int>, int) -> Outcome

  function Times(outcomes: seq<Outcome>): (times: seq<int>)
    requires forall i :: 0 <= i < |outcomes| ==> outcomes[i].Fire?
    ensures |times| == |outcomes| && forall i :: 0 <= i < |times| ==> times[i] == outcomes[i].time
  {
    seq(|outcomes|, i requires 0 <= i < |outcomes| => outcomes[i].time)
  }

  /** `min(times)` */
  function Least(times: seq<int>): (m: int)
    requires |times| > 0
    ensures m in times && forall i :: 0 <= i < |times| ==> m <= times[i]
  {
    if |times| == 1 then times[0] else Min(times[0], Least(times[1..]))
  }

  /** `max(times)` */
  function Greatest(times: seq<int>): (m: int)
    requires |times| > 0
    ensures m in times && forall i :: 0 <= i < |times| ==> times[i] <= m
  {
    if |times| == 1 then times[0] else Max(times[0], Greatest(times[1..]))
  }

  function Ask(triggers: seq<Trigger>, previous: Option<int>, now: int): (answers: seq<Outcome>)
    ensures |answers| == |triggers|
    ensures forall i :: 0 <= i < |answers| ==> answers[i] == triggers[i](previous, now)
  {
    seq(|triggers|, i requires 0 <= i < |triggers| => triggers[i](previous, now))
  }

  // ---- and ----

  /** The times at which every member fires. */
  ghost function Common(fires: seq<int -> bool>): int -> bool {
    t => forall i :: 0 <= i < |fires| ==> fires[i](t)
  }

  /** The members answer with the least of their fire times at or after `now`, whatever `now` is. */
  ghost predicate AnswerWithLeast(triggers: seq<Trigger>, previous: Option<int>, fires: seq<int -> bool>) {
    && |triggers| == |fires|
    && forall i, n :: 0 <= i < |triggers| ==> AnswersLeast(fires[i], n, triggers[i](previous, n))
  }

  ghost predicate BoundedBy(fires: int -> bool, last: int) {
    forall t :: fires(t) ==> t <= last
  }

  /** The members have no common fire time from `start` up to, but not including, `now`. */
  ghost predicate NoneCommon(fires: seq<int -> bool>, start: int, now: int) {
    forall t :: start <= t < now ==> !Common(fires)(t)
  }

  /** Raising `now` to the latest answer passes over no common fire time. */
  lemma RaisingSkipsNothing(triggers: seq<Trigger>, previous: Option<int>, fires: seq<int -> bool>, start: int, now: int)
    requires AnswerWithLeast(triggers, previous, fires) && |triggers| > 0
    requires forall i :: 0 <= i < |triggers| ==> triggers[i](previous, now).Fire?
    requires start <= now && NoneCommon(fires, start, now)
    ensures NoneCommon(fires, start, Greatest(Times(Ask(triggers, previous, now))))
  {
    var times := Times(Ask(triggers, previous, now));
    var i :| 0 <= i < |times| && times[i] == Greatest(times);
    assert AnswersLeast(fires[i], now, triggers[i](previous, now));
    forall t | start <= t < Greatest(times)
      ensures !Common(fires)(t)
    {
      assert now <= t ==> !fires[i](t);
    }
  }

  /** When all answers agree they are a common fire time. */
  lemma AgreementIsCommon(triggers: seq<Trigger>, previous: Option<int>, fires: seq<int -> bool>, now: int)
    requires AnswerWithLeast(triggers, previous, fires) && |triggers| > 0
    requires forall i :: 0 <= i < |triggers| ==> triggers[i](previous, now).Fire?
    ensures var times := Times(Ask(triggers, previous, now));
            && now <= Least(times)
            && (Least(times) == Greatest(times) ==> times[0] == Greatest(times) && Common(fires)(times[0]))
  {
    var times := Times(Ask(triggers, previous, now));
    forall i | 0 <= i < |fires|
      ensures now <= times[i] && fires[i](times[i])
      ensures Least(times) <= times[i] <= Greatest(times)
    {
      assert AnswersLeast(fires[i], now, triggers[i](previous, now));
    }
    if Least(times) == Greatest(times) {
      forall i | 0 <= i < |fires|
        ensures fires[i](times[0])
      {
        assert times[i] == times[0];
      }
    }
  }

  lemma BoundedAnswer(triggers: seq<Trigger>, previous: Option<int>, fires: seq<int -> bool>, now: int, i: int, last: int)
    requires AnswerWithLeast(triggers, previous, fires) && 0 <= i < |fires| && BoundedBy(fires[i], last)
    ensures triggers[i](previous, now).Fire? ==> now <= last
  {
    assert AnswersLeast(fires[i], now, triggers[i](previous, now));
  }

  lemma NobodyAgrees(triggers: seq<Trigger>, previous: Option<int>, fires: seq<int -> bool>, start: int, now: int)
    requires AnswerWithLeast(triggers, previous, fires) && Never in Ask(triggers, previous, now)
    requires start <= now && NoneCommon(fires, start, now)
    ensures AnswersLeast(Common(fires), start, Never)
  {
    var answers := Ask(triggers, previous, now);
    var i :| 0 <= i < |answers| && answers[i] == Never;
    assert AnswersLeast(fires[i], now, triggers[i](previous, now));
    forall t | start <= t
      ensures !Common(fires)(t)
    {
      assert now <= t ==> !fires[i](t);
    }
  }

  // ---- the passes of its loop ----

  /** One pass of the and-trigger's loop is the last: someone raises or is finished, or all agree. */
  predicate Decided(answers: seq<Outcome>) {
    || Raises in answers || Never in answers
    || forall i, j :: 0 <= i < j < |answers| ==> answers[i] == answers[j]
  }

  /** Where one pass of the loop takes `now`. */
  function Pass(triggers: seq<Trigger>, previous: Option<int>, now: int): int {
    var answers := Ask(triggers, previous, now);
    if Decided(answers) then now
    else
      assert forall i :: 0 <= i < |answers| ==> answers[i] in answers;
      Greatest(Times(answers))
  }

  /** Where `now` stands after a number of passes. */
  function NowAfter(triggers: seq<Trigger>, previous: Option<int>, now: int, passes: nat): int {
    After(PassFrom(triggers, previous), now, passes)
  }

  function PassFrom(triggers: seq<Trigger>, previous: Option<int>): int -> int {
    n => Pass(triggers, previous, n)
  }

  /** The loop decides in its pass number `k`, counted from 0. */
  predicate DecidedAfter(triggers: seq<Trigger>, previous: Option<int>, now: int, k: nat) {
    DecidedFrom(triggers, previous)(NowAfter(triggers, previous, now, k))
  }

  /** The pass from a given `now` is the last. */
  function DecidedFrom(triggers: seq<Trigger>, previous: Option<int>): int -> bool {
    n => Decided(Ask(triggers, previous, n))
  }

  /** What the and-trigger returns once a pass has decided. */
  function AndAnswer(answers: seq<Outcome>): Outcome
    requires |answers| > 0
  {
    if Raises in answers then Raises
    else if Never in answers then Never
    else answers[0]
  }

  lemma AndAnswerExactly(answers: seq<Outcome>)
    requires |answers| > 0 && Decided(answers)
    ensures AndAnswer(answers) == Raises <==> exists i :: 0 <= i < |answers| && answers[i] == Raises
    ensures AndAnswer(answers) == Never <==>
              (forall i :: 0 <= i < |answers| ==> answers[i] != Raises) && exists i :: 0 <= i < |answers| && answers[i] == Never
    ensures forall t :: AndAnswer(answers) == Fire(t) <==> forall i :: 0 <= i < |answers| ==> answers[i] == Fire(t)
  {
    forall i | 0 <= i < |answers|
      ensures answers[i] in answers && (AndAnswer(answers).Fire? ==> answers[i] == answers[0])
    {
    }
  }

  /** Pass `k` is the one that ends the loop. */
  predicate EndsAt(triggers: seq<Trigger>, previous: Option<int>, now: int, k: nat) {
    DecidedAfter(triggers, previous, now, k) && forall j :: 0 <= j < k ==> !DecidedAfter(triggers, previous, now, j)
  }

  /** Some member raises in the pass that ends the loop. */
  ghost predicate RaisesInAPass(triggers: seq<Trigger>, previous: Option<int>, now: int) {
    exists k :: EndsAt(triggers, previous, now, k) && Raises in Ask(triggers, previous, NowAfter(triggers, previous, now, k))
  }

  /** The earliest and the latest of several answers are the same exactly when all are. */
  lemma AllEqualIff(answers: seq<Outcome>)
    requires |answers| > 0 && forall i :: 0 <= i < |answers| ==> answers[i].Fire?
    ensures Least(Times(answers)) == Greatest(Times(answers)) <==> Decided(answers)
  {
    var times := Times(answers);
    if Least(times) == Greatest(times) {
      forall i, j | 0 <= i < j < |answers|
        ensures answers[i] == answers[j]
      {
        assert Least(times) <= times[i] <= Greatest(times) && Least(times) <= times[j] <= Greatest(times);
      }
    }
    if Decided(answers) {
      forall t | t in times
        ensures t == times[0]
      {
        var i :| 0 <= i < |times| && times[i] == t;
        assert i == 0 || answers[0] == answers[i];
      }
    }
  }

  lemma EndsOnce(triggers: seq<Trigger>, previous: Option<int>, start: int, k: nat)
    requires EndsAt(triggers, previous, start, k)
    ensures RaisesInAPass(triggers, previous, start)
            <==> Raises in Ask(triggers, previous, NowAfter(triggers, previous, start, k))
  {
    if j: nat :| EndsAt(triggers, previous, start, j) && Raises in Ask(triggers, previous, NowAfter(triggers, previous, start, j)) {
      assert j == k;
    }
  }

  /** The state of the loop before pass `k`. */
  ghost predicate Undecided(triggers: seq<Trigger>, previous: Option<int>, fires: seq<int -> bool>, start: int, k: nat, now: int) {
    && start <= now && NoneCommon(fires, start, now)
    && now == NowAfter(triggers, previous, start, k)
    && forall j :: 0 <= j < k ==> !DecidedAfter(triggers, previous, start, j)
  }

  /** `r` is what the pass that ends the loop gives. */
  ghost predicate AnswerOfLastPass(triggers: seq<Trigger>, previous: Option<int>, start: int, r: Outcome)
    requires |triggers| > 0
  {
    exists k :: EndsAt(triggers, previous, start, k) && r == AndAnswer(Ask(triggers, previous, NowAfter(triggers, previous, start, k)))
  }

  lemma LastPass(triggers: seq<Trigger>, previous: Option<int>, fires: seq<int -> bool>, start: int, k: nat, now: int)
    requires |triggers| > 0 && Undecided(triggers, previous, fires, start, k, now) && Decided(Ask(triggers, previous, now))
    ensures AnswerOfLastPass(triggers, previous, start, AndAnswer(Ask(triggers, previous, now)))
    ensures AndAnswer(Ask(triggers, previous, now)) == Raises <==> RaisesInAPass(triggers, previous, start)
  {
    assert EndsAt(triggers, previous, start, k);
    EndsOnce(triggers, previous, start, k);
    AndAnswerExactly(Ask(triggers, previous, now));
  }

  lemma LastAnswerIsLeast(triggers: seq<Trigger>, previous: Option<int>, fires: seq<int -> bool>, start: int, now: int)
    requires AnswerWithLeast(triggers, previous, fires) && |triggers| > 0
    requires start <= now && NoneCommon(fires, start, now) && Decided(Ask(triggers, previous, now))
    ensures AnswersLeast(Common(fires), start, AndAnswer(Ask(triggers, previous, now)))
  {
    var answers := Ask(triggers, previous, now);
    AndAnswerExactly(answers);
    match AndAnswer(answers)
    case Raises =>
    case Never => NobodyAgrees(triggers, previous, fires, start, now);
    case Fire(t) =>
      assert forall i :: 0 <= i < |triggers| ==> triggers[i](previous, now) == answers[i] == Fire(t);
      AllEqualIff(answers);
      RaisingSkipsNothing(triggers, previous, fires, start, now);
      AgreementIsCommon(triggers, previous, fires, now);
  }

  lemma OnePassMore(triggers: seq<Trigger>, previous: Option<int>, start: int, k: nat)
    requires forall j :: 0 <= j < k ==> !DecidedAfter(triggers, previous, start, j)
    requires !Decided(Ask(triggers, previous, NowAfter(triggers, previous, start, k)))
    ensures forall j :: 0 <= j < k + 1 ==> !DecidedAfter(triggers, previous, start, j)
    ensures NowAfter(triggers, previous, start, k + 1) == Pass(triggers, previous, NowAfter(triggers, previous, start, k))
  {
  }

  lemma PassRaisesNow(triggers: seq<Trigger>, previous: Option<int>, fires: seq<int -> bool>, start: int, now: int)
    requires AnswerWithLeast(triggers, previous, fires) && |triggers| > 0
    requires start <= now && NoneCommon(fires, start, now) && !Decided(Ask(triggers, previous, now))
    ensures now < Pass(triggers, previous, now) && NoneCommon(fires, start, Pass(triggers, previous, now))
  {
    var answers := Ask(triggers, previous, now);
    AllFire(answers);
    assert forall i :: 0 <= i < |triggers| ==> triggers[i](previous, now) == answers[i];
    RaisingSkipsNothing(triggers, previous, fires, start, now);
    AgreementIsCommon(triggers, previous, fires, now);
    assert Least(Times(answers)) <= Times(answers)[0] <= Greatest(Times(answers));
  }

  lemma NextPass(triggers: seq<Trigger>, previous: Option<int>, fires: seq<int -> bool>, start: int, k: nat, now: int)
    requires AnswerWithLeast(triggers, previous, fires) && |triggers| > 0
    requires Undecided(triggers, previous, fires, start, k, now) && !Decided(Ask(triggers, previous, now))
    ensures now < Pass(triggers, previous, now)
    ensures Undecided(triggers, previous, fires, start, k + 1, Pass(triggers, previous, now))
  {
    PassRaisesNow(triggers, previous, fires, start, now);
    OnePassMore(triggers, previous, start, k);
  }

  /** `AndTrigger.get_next_fire_time`: raises `now` to the latest answer until all members agree. It ends as soon as
      one member has no fire times above some bound. Without members, `min([])` raises; with members it raises exactly
      when one of them does in its last pass. */
  method AndNext(triggers: seq<Trigger>, previous: Option<int>, start: int,
                 ghost fires: seq<int -> bool>, ghost last: int) returns (r: Outcome)
    requires AnswerWithLeast(triggers, previous, fires)
    requires |triggers| > 0 ==> exists i :: 0 <= i < |fires| && BoundedBy(fires[i], last)
    ensures AnswersLeast(Common(fires), start, r)
    ensures r == Raises <==> triggers == [] || RaisesInAPass(triggers, previous, start)
    ensures triggers != [] ==> AnswerOfLastPass(triggers, previous, start, r)
  {
    if triggers == [] {
      return Raises;
    }
    ghost var bounded :| 0 <= bounded < |fires| && BoundedBy(fires[bounded], last);
    var now := start;
    ghost var k: nat := 0;
    while true
      invariant Undecided(triggers, previous, fires, start, k, now)
      decreases last - now
    {
      BoundedAnswer(triggers, previous, fires, now, bounded, last);
      var done, answer, next := OnePass(triggers, previous, now);
      if done {
        LastAnswerIsLeast(triggers, previous, fires, start, now);
        LastPass(triggers, previous, fires, start, k, now);
        return answer;
      }
      NextPass(triggers, previous, fires, start, k, now);
      UndecidedFires(triggers, previous, now, bounded);
      now, k := next, k + 1;
    }
  }

  lemma UndecidedFires(triggers: seq<Trigger>, previous: Option<int>, now: int, i: nat)
    requires i < |triggers| && !Decided(Ask(triggers, previous, now))
    ensures triggers[i](previous, now).Fire?
  {
    assert Ask(triggers, previous, now)[i] in Ask(triggers, previous, now);
  }

  /** One pass of the loop: an answer, or the next `now`. */
  method OnePass(triggers: seq<Trigger>, previous: Option<int>, now: int) returns (done: bool, answer: Outcome, next: int)
    requires |triggers| > 0
    ensures done <==> Decided(Ask(triggers, previous, now))
    ensures done ==> answer == AndAnswer(Ask(triggers, previous, now))
    ensures !done ==> next == Pass(triggers, previous, now)
  {
    var answers := Ask(triggers, previous, now);
    done, answer, next := true, Raises, now;
    if Raises in answers {
      return;
    } else if Never in answers {
      answer := Never;
      return;
    }
    AllFire(answers);
    var times := Times(answers);
    if Least(times) == Greatest(times) {
      answer := Fire(times[0]);
    } else {
      done, next := false, Greatest(times);
    }
  }

  lemma AllFire(answers: seq<Outcome>)
    requires |answers| > 0 && Raises !in answers && Never !in answers
    ensures forall i :: 0 <= i < |answers| ==> answers[i].Fire?
    ensures Least(Times(answers)) == Greatest(Times(answers)) <==> Decided(answers)
  {
    assert forall i :: 0 <= i < |answers| ==> answers[i] in answers;
    AllEqualIff(answers);
  }

  // ---- or ----

  /** The times at which some member fires. */
  ghost function Either(fires: seq<int -> bool>): int -> bool {
    t => exists i :: 0 <= i < |fires| && fires[i](t)
  }

  /** The times among the answers, in order. */
  function Given(answers: seq<Outcome>): (times: seq<int>)
    ensures forall i :: 0 <= i < |answers| && answers[i].Fire? ==> answers[i].time in times
    ensures forall t :: t in times ==> Fire(t) in answers
  {
    if answers == [] then []
    else (if answers[0].Fire? then [answers[0].time] else []) + Given(answers[1..])
  }

  /** `OrTrigger.get_next_fire_time` */
  function OrNext(triggers: seq<Trigger>, previous: Option<int>, now: int): Outcome {
    var answers := Ask(triggers, previous, now);
    if Raises in answers then Raises
    else if Given(answers) != [] then Fire(Least(Given(answers)))
    else Never
  }

  /** An or-trigger raises exactly when some member does, has no answer exactly when no member has one, and else gives
      the earliest answer. Members that are finished do not count. */
  lemma OrAnswersExactly(triggers: seq<Trigger>, previous: Option<int>, now: int)
    ensures OrNext(triggers, previous, now) == Raises <==> exists i :: 0 <= i < |triggers| && triggers[i](previous, now) == Raises
    ensures OrNext(triggers, previous, now) == Never <==> forall i :: 0 <= i < |triggers| ==> triggers[i](previous, now) == Never
    ensures forall t :: OrNext(triggers, previous, now) == Fire(t) <==>
              && (exists i :: 0 <= i < |triggers| && triggers[i](previous, now) == Fire(t))
              && (forall i :: 0 <= i < |triggers| ==>
                    triggers[i](previous, now) == Never || (triggers[i](previous, now).Fire? && t <= triggers[i](previous, now).time))
  {
    var answers, r := Ask(triggers, previous, now), OrNext(triggers, previous, now);
    forall i | 0 <= i < |triggers|
      ensures answers[i] == triggers[i](previous, now) && answers[i] in answers
      ensures r != Raises && answers[i].Fire? ==> r.Fire? && r.time <= answers[i].time
    {
      assert answers[i].Fire? ==> answers[i].time in Given(answers);
    }
    if r.Fire? {
      assert Fire(r.time) in answers;
    }
  }

  /** An or-trigger answers with the least time at or after `from` at which some member fires, if its members
      answer with the least of theirs. */
  lemma OrAnswersLeast(triggers: seq<Trigger>, previous: Option<int>, now: int, fires: seq<int -> bool>, from: int)
    requires |triggers| == |fires|
    requires forall i :: 0 <= i < |triggers| ==> AnswersLeast(fires[i], from, triggers[i](previous, now))
    ensures AnswersLeast(Either(fires), from, OrNext(triggers, previous, now))
  {
    var answers := Ask(triggers, previous, now);
    var r := OrNext(triggers, previous, now);
    forall i, t | 0 <= i < |fires| && from <= t && fires[i](t) && r != Raises
      ensures r.Fire? && r.time <= t
    {
      assert answers[i] != Raises;
      assert answers[i].Fire? && answers[i].time <= t;
      assert answers[i].time in Given(answers);
    }
    if r.Fire? {
      assert Fire(r.time) in answers;
      var i :| 0 <= i < |answers| && answers[i] == Fire(r.time);
      assert fires[i](r.time);
    }
  }
}
