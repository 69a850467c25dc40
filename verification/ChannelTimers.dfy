/** The answered flag and the three timers of a channel: what each operation makes of them, and what holds in
    every run. Times are in microseconds, timeouts in milliseconds; zero stands for no timer. */
module ChannelTimers {
  import opened Options

  /** The call state of a channel. toutAns is the timeout to set when the call is answered. */
  datatype Call = Call(status: string, answered: bool, timeout: nat, maxcall: nat, maxPDD: nat, toutAns: nat)

  /** What a message says about timers and about how an accepted call goes on. */
  datatype Params = Params(timeout: Option<int>, maxcall: Option<int>, maxpdd: Option<int>,
                           autoanswer: Option<bool>, autoring: bool, autoprogress: bool, targeted: bool)

  function Started(direction: string): Call {
    WithStatus(Call("", false, 0, 0, 0, 0), direction, 0)
  }

  function WithStatus(c: Call, newstat: string, now: nat): Call {
    if !c.answered && newstat == "answered" then
      c.(status := newstat, answered := true, maxcall := 0, maxPDD := 0,
         timeout := if c.toutAns > 0 then now + c.toutAns * 1000 else c.timeout)
    else if newstat == "ringing" || newstat == "progressing" then c.(status := newstat, maxPDD := 0)
    else c.(status := newstat)
  }

  function WithTimeout(c: Call, tout: int, now: nat): Call {
    if tout > 0 then c.(toutAns := tout, timeout := now + tout * 1000)
    else if tout == 0 then c.(toutAns := 0, timeout := 0)
    else c
  }

  function WithMaxcall(c: Call, p: Option<Params>, defTout: int, now: nat): Call {
    var d := WithTimeout(c, if p.Some? then Or(p.value.timeout, defTout) else defTout, now);
    if d.answered then d.(maxcall := 0)
    else if p.Some? then
      var tout := Or(p.value.maxcall, -1);
      if tout > 0 then d.(timeout := 0, maxcall := now + tout * 1000)
      else if tout == 0 then d.(maxcall := 0)
      else d
    else d
  }

  function WithMaxPDD(c: Call, p: Params, now: nat): Call {
    var tout := Or(p.maxpdd, -1);
    if c.answered || tout == 0 then c.(maxPDD := 0)
    else if tout > 0 then c.(maxPDD := now + tout * 1000)
    else c
  }

  function Answered(c: Call, tout: Option<int>, now: nat): Call {
    var t := Or(tout, c.toutAns);
    WithStatus(c.(maxcall := 0, toutAns := if t > 0 then t else 0), "answered", now).(answered := true)
  }

  function Dropped(c: Call, reason: string, now: nat): Call {
    WithStatus(c.(timeout := 0, maxcall := 0, maxPDD := 0), if reason == "" then "dropped" else reason, now)
  }

  /** The reason for which a timer check at time t drops the call. */
  function Fired(c: Call, t: nat): Option<string> {
    if 0 < c.timeout < t then Some("timeout")
    else if 0 < c.maxcall < t then Some("noanswer")
    else if 0 < c.maxPDD < t then Some("postdialdelay")
    else None
  }

  function Checked(c: Call, t: nat, now: nat): Call {
    if Fired(c, t).Some? then Dropped(c, Fired(c, t).value, now) else c
  }

  /** A driver timeout that is not positive stands for none. */
  function Accepted(c: Call, p: Params, driverTimeout: int, now: nat): Call {
    var d := WithMaxcall(WithStatus(c, "accepted", now), Some(p), if driverTimeout <= 0 then -1 else driverTimeout, now);
    if Or(p.autoanswer, false) then Answered(d, p.timeout, now)
    else if p.autoring then WithStatus(d, "ringing", now)
    else if p.autoprogress then WithStatus(d, "progressing", now)
    else if !p.targeted && Or(p.autoanswer, true) then Answered(d, p.timeout, now)
    else d
  }

  datatype Event =
    | Progress | Ringing | Answer(p: Params) | Drop(reason: string) | Timers(t: nat)
    | MasqueradedAnswer | MasqueradedProgress | MasqueradedRinging
    | Prerouted | Routed | Accept(p: Params, driverTimeout: int) | Rejected
    | Control(p: Params)
    | Limit(msg: Option<Params>, defTout: int) | LimitPDD(p: Params)    // setMaxcall and setMaxPDD, called by drivers

  datatype Timed = At(now: nat, event: Event)

  function Step(c: Call, e: Timed): Call {
    match e.event
    case Progress => WithStatus(c, "progressing", e.now)
    case Ringing => WithStatus(c, "ringing", e.now)
    case Answer(p) => Answered(c, p.timeout, e.now)
    case Drop(reason) => Dropped(c, reason, e.now)
    case Timers(t) => Checked(c, t, e.now)
    case MasqueradedAnswer => c.(maxcall := 0, maxPDD := 0, status := "answered")
    case MasqueradedProgress => WithStatus(c, "progressing", e.now)
    case MasqueradedRinging => WithStatus(c, "ringing", e.now)
    case Prerouted => WithStatus(c, "prerouted", e.now)
    case Routed => WithStatus(c, "routed", e.now)
    case Accept(p, driverTimeout) => Accepted(c, p, driverTimeout, e.now)
    case Rejected => WithStatus(c, "rejected", e.now)
    case Control(p) => WithMaxPDD(WithMaxcall(c, Some(p), -1, e.now), p, e.now)
    case Limit(p, defTout) => WithMaxcall(c, p, defTout, e.now)
    case LimitPDD(p) => WithMaxPDD(c, p, e.now)
  }

  function Exec(c: Call, es: seq<Timed>): Call {
    if es == [] then c else Step(Exec(c, es[..|es| - 1]), es[|es| - 1])
  }

  // ----- Answered calls -----

  predicate Inv(c: Call) {
    c.answered ==> c.maxcall == 0 && c.maxPDD == 0
  }

  /** The invariant holds of d, and the flag was not cleared since c. */
  predicate Keeps(c: Call, d: Call) {
    Inv(d) && (c.answered ==> d.answered)
  }

  lemma StatusKeeps(c: Call, newstat: string, now: nat)
    requires Inv(c)
    ensures Keeps(c, WithStatus(c, newstat, now))
  {
  }

  lemma MaxcallKeeps(c: Call, p: Option<Params>, defTout: int, now: nat)
    requires Inv(c)
    ensures Keeps(c, WithMaxcall(c, p, defTout, now))
  {
  }

  lemma AnsweredKeeps(c: Call, tout: Option<int>, now: nat)
    requires Inv(c)
    ensures Keeps(c, Answered(c, tout, now))
  {
  }

  lemma AcceptedKeeps(c: Call, p: Params, driverTimeout: int, now: nat)
    requires Inv(c)
    ensures Keeps(c, Accepted(c, p, driverTimeout, now))
  {
    hide WithStatus, WithMaxcall, Answered, Inv;
    StatusKeeps(c, "accepted", now);
    var s, def := WithStatus(c, "accepted", now), if driverTimeout <= 0 then -1 else driverTimeout;
    MaxcallKeeps(s, Some(p), def, now);
    var d := WithMaxcall(s, Some(p), def, now);
    AnsweredKeeps(d, p.timeout, now);
    StatusKeeps(d, "ringing", now);
    StatusKeeps(d, "progressing", now);
  }

  lemma StepInv(c: Call, e: Timed)
    requires Inv(c)
    ensures Keeps(c, Step(c, e))
  {
    hide WithMaxcall, Answered, Accepted;
    match e.event {
      case Answer(p) => AnsweredKeeps(c, p.timeout, e.now);
      case Accept(p, driverTimeout) => AcceptedKeeps(c, p, driverTimeout, e.now);
      case Control(p) => MaxcallKeeps(c, Some(p), -1, e.now);
      case Limit(p, defTout) => MaxcallKeeps(c, p, defTout, e.now);
      case _ =>
    }
  }

  lemma {:induction false} ExecInv(c: Call, es: seq<Timed>)
    requires Inv(c)
    ensures Inv(Exec(c, es)) && (c.answered ==> Exec(c, es).answered)
  {
    hide Step;
    if es != [] {
      ExecInv(c, es[..|es| - 1]);
      StepInv(Exec(c, es[..|es| - 1]), es[|es| - 1]);
    }
  }

  lemma {:induction false} ExecJoin(c: Call, es: seq<Timed>, fs: seq<Timed>)
    ensures Exec(c, es + fs) == Exec(Exec(c, es), fs)
  {
    if fs == [] {
      assert es + fs == es;
    } else {
      ExecJoin(c, es, fs[..|fs| - 1]);
      assert (es + fs)[..|es + fs| - 1] == es + fs[..|fs| - 1];
    }
  }

  /** In every run the flag is never cleared, and a timer check drops an answered call for its timeout only. */
  lemma AnsweredForGood(direction: string, es: seq<Timed>, fs: seq<Timed>, t: nat)
    requires Exec(Started(direction), es).answered
    ensures var c := Exec(Started(direction), es + fs);
            c.answered && c.maxcall == c.maxPDD == 0 && Fired(c, t) == if 0 < c.timeout < t then Some("timeout") else None
  {
    ExecInv(Started(direction), es);
    ExecInv(Exec(Started(direction), es), fs);
    ExecJoin(Started(direction), es, fs);
  }

  /** The flag is set by exactly the operations that answer: not by a masqueraded answer, but by being dropped
      with "answered" for a reason. */
  lemma AnswersExactly(c: Call, e: Timed)
    requires !c.answered
    ensures Step(c, e).answered <==>
            match e.event
            case Answer(_) => true
            case Drop(reason) => reason == "answered"
            case Accept(p, _) => Or(p.autoanswer, !p.autoring && !p.autoprogress && !p.targeted)
            case _ => false
  {
  }

  // ----- Timers that fired -----

  predicate Quiet(c: Call) {
    c.timeout == 0 && c.maxcall == 0 && c.maxPDD == 0
  }

  /** A positive timeout in force when the call is answered. */
  predicate AnswerArms(tout: Option<int>, toutAns: nat) {
    Or(tout, toutAns) > 0
  }

  /** The events that set a timer of a quiet call. */
  predicate Arms(c: Call, e: Timed) {
    match e.event
    case Answer(p) => !c.answered && AnswerArms(p.timeout, c.toutAns)
    case Drop(reason) => reason == "answered" && !c.answered && c.toutAns > 0
    case Limit(p, defTout) =>
      if p.None? then defTout > 0 else Or(p.value.timeout, defTout) > 0 || (!c.answered && Or(p.value.maxcall, -1) > 0)
    case LimitPDD(p) => !c.answered && Or(p.maxpdd, -1) > 0
    case Control(p) => Or(p.timeout, -1) > 0 || (!c.answered && (Or(p.maxcall, -1) > 0 || Or(p.maxpdd, -1) > 0))
    case Accept(p, driverTimeout) =>
      var tout := Or(p.timeout, if driverTimeout <= 0 then -1 else driverTimeout);
      var answers := Or(p.autoanswer, !p.autoring && !p.autoprogress && !p.targeted);
      if c.answered then tout > 0
      else if answers then
        (tout > 0 && Or(p.maxcall, -1) <= 0)
        || AnswerArms(p.timeout, if tout > 0 then tout else if tout == 0 then 0 else c.toutAns)
      else tout > 0 || Or(p.maxcall, -1) > 0
    case _ => false
  }

  lemma QuietAccepted(c: Call, e: Timed)
    requires Quiet(c) && e.event.Accept?
    ensures Quiet(Step(c, e)) <==> !Arms(c, e)
  {
  }

  /** Among the events of a quiet call, exactly these set a timer. */
  lemma QuietStep(c: Call, e: Timed)
    requires Quiet(c)
    ensures Quiet(Step(c, e)) <==> !Arms(c, e)
  {
    hide Accepted;
    match e.event {
      case Accept(_, _) => QuietAccepted(c, e);
      case _ =>
    }
  }

  /** No event of the run sets a timer. */
  ghost predicate NeverArmed(c: Call, es: seq<Timed>) {
    forall k :: 0 <= k < |es| ==> !Arms(Exec(c, es[..k]), es[k])
  }

  lemma {:induction false} QuietRun(c: Call, es: seq<Timed>)
    requires Quiet(c) && NeverArmed(c, es)
    ensures Quiet(Exec(c, es))
  {
    hide Step, Arms;
    if es != [] {
      var most := es[..|es| - 1];
      forall k | 0 <= k < |most|
        ensures !Arms(Exec(c, most[..k]), most[k])
      {
        assert most[..k] == es[..k] && !Arms(Exec(c, es[..k]), es[k]);
      }
      QuietRun(c, most);
      QuietStep(Exec(c, most), es[|es| - 1]);
    }
  }

  /** In every run, after a timer has dropped the call no timer fires again until one is set. */
  lemma SilentAfterTimerDrop(direction: string, es: seq<Timed>, e: Timed, fs: seq<Timed>, t: nat)
    requires var c := Exec(Started(direction), es);
             e.event.Timers? && Fired(c, e.event.t).Some? && NeverArmed(Step(c, e), fs)
    ensures var c := Exec(Started(direction), es); Fired(Exec(Step(c, e), fs), t) == None
  {
    var c := Exec(Started(direction), es);
    assert Quiet(Step(c, e));
    QuietRun(Step(c, e), fs);
  }
}
