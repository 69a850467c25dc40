/** When the timers of a channel fire: each reason and its deadline, from the message that set the timer over whatever
    happens later. Messages give milliseconds; clocks and checks count microseconds. */
module ChannelDeadlines {
  import opened Options
  import opened ChannelTimers

  /** An accepted call that is answered at once. */
  predicate AutoAnswers(p: Params) {
    Or(p.autoanswer, !p.autoring && !p.autoprogress && !p.targeted)
  }

  predicate NoneDue(c: Call, t: nat) {
    !(0 < c.timeout < t) && !(0 < c.maxcall < t) && !(0 < c.maxPDD < t)
  }

  // ----- maxcall -----

  /** A message that gives an unanswered call ms milliseconds to be answered. */
  predicate GivesMaxcall(e: Event, ms: nat) {
    && ms > 0
    && match e
       case Control(p) => p.maxcall == Some(ms)
       case Limit(m, _) => m.Some? && m.value.maxcall == Some(ms)
       case Accept(p, _) => p.maxcall == Some(ms) && !AutoAnswers(p)
       case _ => false
  }

  /** An event that neither sets nor clears that time: it says nothing of it, answers nothing and drops nothing. */
  predicate LeavesMaxcall(c: Call, e: Event) {
    match e
    case Answer(_) => false
    case MasqueradedAnswer => false
    case Drop(_) => false
    case Timers(t) => NoneDue(c, t)
    case Control(p) => Or(p.maxcall, -1) < 0
    case Limit(m, _) => m.Some? ==> Or(m.value.maxcall, -1) < 0
    case Accept(p, _) => Or(p.maxcall, -1) < 0 && !AutoAnswers(p)
    case _ => true
  }

  lemma SetsMaxcall(c: Call, e: Timed, ms: nat)
    requires !c.answered && GivesMaxcall(e.event, ms)
    ensures Step(c, e).maxcall == e.now + 1000 * ms && !Step(c, e).answered
  {
  }

  lemma KeepsMaxcall(c: Call, e: Timed)
    requires !c.answered && LeavesMaxcall(c, e.event)
    ensures Step(c, e).maxcall == c.maxcall && !Step(c, e).answered
  {
  }

  lemma {:induction false} KeepsMaxcallRun(c: Call, es: seq<Timed>)
    requires !c.answered && forall k :: 0 <= k < |es| ==> LeavesMaxcall(Exec(c, es[..k]), es[k].event)
    ensures Exec(c, es).maxcall == c.maxcall && !Exec(c, es).answered
  {
    hide Step, LeavesMaxcall;
    if es != [] {
      var most := es[..|es| - 1];
      forall k | 0 <= k < |most|
        ensures LeavesMaxcall(Exec(c, most[..k]), most[k].event)
      {
        assert most[..k] == es[..k] && LeavesMaxcall(Exec(c, es[..k]), es[k].event);
      }
      KeepsMaxcallRun(c, most);
      KeepsMaxcall(Exec(c, most), es[|es| - 1]);
    }
  }

  /** Over every run: once a message has given an unanswered call ms milliseconds, and until an event sets or clears
      that time, a check drops the call for "noanswer" exactly when more than them have passed and its timeout, which
      goes first, is not due. */
  lemma NoanswerExactly(direction: string, es: seq<Timed>, e: Timed, ms: nat, fs: seq<Timed>, t: nat)
    requires var c := Exec(Started(direction), es);
             && !c.answered && GivesMaxcall(e.event, ms)
             && forall k :: 0 <= k < |fs| ==> LeavesMaxcall(Exec(Step(c, e), fs[..k]), fs[k].event)
    ensures var d := Exec(Step(Exec(Started(direction), es), e), fs);
            Fired(d, t) == Some("noanswer") <==> t > e.now + 1000 * ms && !(0 < d.timeout < t)
  {
    assert ms > 0;
    hide Step, Exec, GivesMaxcall, LeavesMaxcall;
    var c := Exec(Started(direction), es);
    SetsMaxcall(c, e, ms);
    KeepsMaxcallRun(Step(c, e), fs);
  }

  // ----- maxPDD -----

  /** A message that gives an unanswered call ms milliseconds to make some progress. */
  predicate GivesPDD(e: Event, ms: nat) {
    && ms > 0
    && match e
       case Control(p) => p.maxpdd == Some(ms)
       case LimitPDD(p) => p.maxpdd == Some(ms)
       case _ => false
  }

  predicate LeavesPDD(c: Call, e: Event) {
    match e
    case Progress => false
    case Ringing => false
    case Answer(_) => false
    case Drop(_) => false
    case MasqueradedAnswer => false
    case MasqueradedProgress => false
    case MasqueradedRinging => false
    case Timers(t) => NoneDue(c, t)
    case Control(p) => Or(p.maxpdd, -1) < 0
    case LimitPDD(p) => Or(p.maxpdd, -1) < 0
    case Accept(p, _) => !AutoAnswers(p) && (Or(p.autoanswer, false) || (!p.autoring && !p.autoprogress))
    case _ => true
  }

  lemma SetsPDD(c: Call, e: Timed, ms: nat)
    requires !c.answered && GivesPDD(e.event, ms)
    ensures Step(c, e).maxPDD == e.now + 1000 * ms && !Step(c, e).answered
  {
  }

  lemma KeepsPDD(c: Call, e: Timed)
    requires !c.answered && LeavesPDD(c, e.event)
    ensures Step(c, e).maxPDD == c.maxPDD && !Step(c, e).answered
  {
  }

  lemma {:induction false} KeepsPDDRun(c: Call, es: seq<Timed>)
    requires !c.answered && forall k :: 0 <= k < |es| ==> LeavesPDD(Exec(c, es[..k]), es[k].event)
    ensures Exec(c, es).maxPDD == c.maxPDD && !Exec(c, es).answered
  {
    hide Step, LeavesPDD;
    if es != [] {
      var most := es[..|es| - 1];
      forall k | 0 <= k < |most|
        ensures LeavesPDD(Exec(c, most[..k]), most[k].event)
      {
        assert most[..k] == es[..k] && LeavesPDD(Exec(c, es[..k]), es[k].event);
      }
      KeepsPDDRun(c, most);
      KeepsPDD(Exec(c, most), es[|es| - 1]);
    }
  }

  /** Likewise for "postdialdelay", which comes last. */
  lemma PostdialdelayExactly(direction: string, es: seq<Timed>, e: Timed, ms: nat, fs: seq<Timed>, t: nat)
    requires var c := Exec(Started(direction), es);
             && !c.answered && GivesPDD(e.event, ms)
             && forall k :: 0 <= k < |fs| ==> LeavesPDD(Exec(Step(c, e), fs[..k]), fs[k].event)
    ensures var d := Exec(Step(Exec(Started(direction), es), e), fs);
            Fired(d, t) == Some("postdialdelay") <==>
            t > e.now + 1000 * ms && !(0 < d.timeout < t) && !(0 < d.maxcall < t)
  {
    assert ms > 0;
    hide Step, Exec, GivesPDD, LeavesPDD;
    var c := Exec(Started(direction), es);
    SetsPDD(c, e, ms);
    KeepsPDDRun(Step(c, e), fs);
  }

  // ----- timeout -----

  /** The timeout a message gives, the driver's or the caller's where it gives none. */
  function Asked(e: Event): int {
    match e
    case Control(p) => Or(p.timeout, -1)
    case Limit(m, def) => if m.Some? then Or(m.value.timeout, def) else def
    case Accept(p, driver) => Or(p.timeout, if driver <= 0 then -1 else driver)
    case _ => -1
  }

  /** It is set to time the whole answering instead, which clears the timeout. */
  predicate GivesAnyMaxcall(e: Event) {
    match e
    case Control(p) => Or(p.maxcall, -1) > 0
    case Limit(m, _) => m.Some? && Or(m.value.maxcall, -1) > 0
    case Accept(p, _) => Or(p.maxcall, -1) > 0
    case _ => false
  }

  /** An event that gives the call ms milliseconds: a message that says so, or being answered. */
  predicate GivesTimeout(c: Call, e: Event, ms: nat) {
    && ms > 0
    && if e.Answer? then !c.answered && Or(e.p.timeout, c.toutAns) == ms
       else Asked(e) == ms && (c.answered || !GivesAnyMaxcall(e) || (e.Accept? && AutoAnswers(e.p)))
  }

  predicate LeavesTimeout(c: Call, e: Event) {
    match e
    case Drop(_) => false
    case Timers(t) => NoneDue(c, t)
    case Answer(p) => c.answered || Or(p.timeout, c.toutAns) <= 0
    case Accept(p, _) =>
      Asked(e) < 0 && (c.answered || (!GivesAnyMaxcall(e) && (AutoAnswers(p) ==> Or(p.timeout, c.toutAns) <= 0)))
    case Control(_) => Asked(e) < 0 && (c.answered || !GivesAnyMaxcall(e))
    case Limit(_, _) => Asked(e) < 0 && (c.answered || !GivesAnyMaxcall(e))
    case _ => true
  }

  lemma SetsTimeout(c: Call, e: Timed, ms: nat)
    requires GivesTimeout(c, e.event, ms)
    ensures Step(c, e).timeout == e.now + 1000 * ms
  {
  }

  lemma KeepsTimeout(c: Call, e: Timed)
    requires LeavesTimeout(c, e.event)
    ensures Step(c, e).timeout == c.timeout
  {
  }

  lemma {:induction false} KeepsTimeoutRun(c: Call, es: seq<Timed>)
    requires forall k :: 0 <= k < |es| ==> LeavesTimeout(Exec(c, es[..k]), es[k].event)
    ensures Exec(c, es).timeout == c.timeout
  {
    hide Step, LeavesTimeout;
    if es != [] {
      var most := es[..|es| - 1];
      forall k | 0 <= k < |most|
        ensures LeavesTimeout(Exec(c, most[..k]), most[k].event)
      {
        assert most[..k] == es[..k] && LeavesTimeout(Exec(c, es[..k]), es[k].event);
      }
      KeepsTimeoutRun(c, most);
      KeepsTimeout(Exec(c, most), es[|es| - 1]);
    }
  }

  /** Over every run: once an event has given the call ms milliseconds, and until an event sets or clears its timeout, a
      check drops it for "timeout" exactly when more than them have passed. */
  lemma TimeoutExactly(direction: string, es: seq<Timed>, e: Timed, ms: nat, fs: seq<Timed>, t: nat)
    requires var c := Exec(Started(direction), es);
             && GivesTimeout(c, e.event, ms)
             && forall k :: 0 <= k < |fs| ==> LeavesTimeout(Exec(Step(c, e), fs[..k]), fs[k].event)
    ensures Fired(Exec(Step(Exec(Started(direction), es), e), fs), t) == Some("timeout") <==> t > e.now + 1000 * ms
  {
    assert ms > 0;
    hide Step, Exec, GivesTimeout, LeavesTimeout;
    var c := Exec(Started(direction), es);
    SetsTimeout(c, e, ms);
    KeepsTimeoutRun(Step(c, e), fs);
  }

  /** An event after which the timeout to be set on answering is the same. */
  predicate LeavesRemembered(e: Event) {
    !e.Answer? && Asked(e) < 0 && !(e.Accept? && AutoAnswers(e.p))
  }

  lemma Remembers(c: Call, e: Timed, ms: nat)
    requires Asked(e.event) == ms > 0
    ensures Step(c, e).toutAns == ms
  {
  }

  lemma {:induction false} RemembersRun(c: Call, es: seq<Timed>)
    requires forall e <- es :: LeavesRemembered(e.event)
    ensures Exec(c, es).toutAns == c.toutAns
  {
    hide Step, LeavesRemembered;
    if es != [] {
      var most, last := es[..|es| - 1], es[|es| - 1];
      assert last in es && forall e <- most :: e in es;
      RemembersRun(c, most);
      KeepsRemembered(Exec(c, most), last);
    }
  }

  lemma KeepsRemembered(c: Call, e: Timed)
    requires LeavesRemembered(e.event)
    ensures Step(c, e).toutAns == c.toutAns
  {
  }

  /** A timeout given before the answer starts again with it: for a call answered later by a message without one, a check
      reports "timeout" exactly when it comes more than those milliseconds after the answer. */
  lemma TimeoutFromAnswer(direction: string, es: seq<Timed>, e: Timed, ms: nat, fs: seq<Timed>, a: Timed, gs: seq<Timed>, t: nat)
    requires Asked(e.event) == ms > 0 && (forall f <- fs :: LeavesRemembered(f.event))
    requires a.event.Answer? && a.event.p.timeout == None
    requires var d := Exec(Started(direction), es + [e] + fs);
             && !d.answered
             && forall k :: 0 <= k < |gs| ==> LeavesTimeout(Exec(Step(d, a), gs[..k]), gs[k].event)
    ensures Fired(Exec(Step(Exec(Started(direction), es + [e] + fs), a), gs), t) == Some("timeout") <==>
            t > a.now + 1000 * ms
  {
    var c := Exec(Started(direction), es);
    ExecJoin(Started(direction), es + [e], fs);
    ExecJoin(Started(direction), es, [e]);
    assert Exec(c, [e]) == Step(c, e) by { assert [e][..0] == []; }
    Remembers(c, e, ms);
    RemembersRun(Step(c, e), fs);
    hide Step, Exec, LeavesTimeout;
    TimeoutExactly(direction, es + [e] + fs, a, ms, gs, t);
  }
}
