/** A channel as far as its call state, its DTMF numbering and its references go. */
module Channels {
  import opened Options
  import opened ChannelTimers
  import Dtmf

  class Channel {
    var refs: nat

    var status: string
    var answered: bool
    var timeout: nat
    var maxcall: nat
    var maxPDD: nat
    var toutAns: nat

    var dtmfSeq: nat
    var dtmfTime: nat
    var dtmfText: string
    var dtmfDetected: string

    constructor (direction: string)
      ensures Call() == Started(direction) && Tones() == Dtmf.FORGETFUL && refs == 1
    {
      refs := 1;
      status, answered, timeout, maxcall, maxPDD, toutAns := "", false, 0, 0, 0, 0;
      dtmfSeq, dtmfTime, dtmfText, dtmfDetected := 0, 0, "", "";
      new;
      Status(direction, 0);
    }

    ghost function Call(): Call
      reads this
    {
      ChannelTimers.Call(status, answered, timeout, maxcall, maxPDD, toutAns)
    }

    ghost function Tones(): Dtmf.Memory
      reads this
    {
      Dtmf.Memory(dtmfSeq, dtmfTime, dtmfText, dtmfDetected)
    }

    /** What changes of the call state leave alone. */
    ghost function Rest(): (nat, Dtmf.Memory)
      reads this
    {
      (refs, Tones())
    }

    // ----- Call state -----

    method Status(newstat: string, now: nat)
      modifies this
      ensures Call() == WithStatus(old(Call()), newstat, now) && Rest() == old(Rest())
      ensures status == newstat && answered == (old(answered) || newstat == "answered") && toutAns == old(toutAns)
      ensures if !old(answered) && newstat == "answered"
              then maxcall == maxPDD == 0 && timeout == if toutAns > 0 then now + 1000 * toutAns else old(timeout)
              else maxcall == old(maxcall) && timeout == old(timeout)
                   && maxPDD == if newstat == "ringing" || newstat == "progressing" then 0 else old(maxPDD)
    {
      status := newstat;
      if !answered && status == "answered" {
        answered := true;
        maxcall := 0;
        maxPDD := 0;
        if toutAns > 0 {
          timeout := now + toutAns * 1000;
        }
      } else if status == "ringing" || status == "progressing" {
        maxPDD := 0;
      }
    }

    method SetMaxcall(msg: Option<Params>, defTout: int, now: nat)
      modifies this
      ensures Call() == WithMaxcall(old(Call()), msg, defTout, now) && Rest() == old(Rest())
      ensures status == old(status) && answered == old(answered) && maxPDD == old(maxPDD)
      ensures var tout := if msg.Some? then Or(msg.value.timeout, defTout) else defTout;
              var tmax := if msg.Some? && !answered then Or(msg.value.maxcall, -1) else -1;
              && toutAns == (if tout < 0 then old(toutAns) else tout)
              && maxcall == (if answered || tmax == 0 then 0 else if tmax > 0 then now + 1000 * tmax else old(maxcall))
              && timeout == if tmax > 0 || tout == 0 then 0 else if tout > 0 then now + 1000 * tout else old(timeout)
    {
      var tout := if msg.Some? then Or(msg.value.timeout, defTout) else defTout;
      if tout > 0 {
        toutAns := tout;
        timeout := now + tout * 1000;
      } else if tout == 0 {
        toutAns := 0;
        timeout := 0;
      }
      if answered {
        maxcall := 0;
      } else if msg.Some? {
        tout := Or(msg.value.maxcall, -1);
        if tout > 0 {
          timeout := 0;
          maxcall := now + tout * 1000;
        } else if tout == 0 {
          maxcall := 0;
        }
      }
    }

    method SetMaxPDD(msg: Params, now: nat)
      modifies this
      ensures Call() == WithMaxPDD(old(Call()), msg, now) && Rest() == old(Rest())
      ensures maxPDD == if answered || msg.maxpdd == Some(0) then 0
                        else if msg.maxpdd.Some? && msg.maxpdd.value > 0 then now + 1000 * msg.maxpdd.value
                        else old(maxPDD)
    {
      if answered {
        maxPDD := 0;
        return;
      }
      var tout := Or(msg.maxpdd, -1);
      if tout > 0 {
        maxPDD := now + tout * 1000;
      } else if tout == 0 {
        maxPDD := 0;
      }
    }

    method MsgAnswered(msg: Params, now: nat)
      modifies this
      ensures Call() == Answered(old(Call()), msg.timeout, now) && Rest() == old(Rest())
      ensures answered && status == "answered" && maxcall == 0
    {
      maxcall := 0;
      var tout := Or(msg.timeout, toutAns);
      toutAns := if tout > 0 then tout else 0;
      Status("answered", now);
      answered := true;
    }

    method MsgDrop(reason: string, now: nat)
      modifies this
      ensures Call() == Dropped(old(Call()), reason, now) && Rest() == old(Rest())
      ensures status == (if reason == "" then "dropped" else reason) && maxcall == maxPDD == 0
      ensures timeout == if reason == "answered" && !old(answered) && toutAns > 0 then now + 1000 * toutAns else 0
    {
      timeout, maxcall, maxPDD := 0, 0, 0;
      Status(if reason == "" then "dropped" else reason, now);
    }

    method MasqueradeAnswer()
      modifies this
      ensures Call() == old(Call()).(maxcall := 0, maxPDD := 0, status := "answered") && Rest() == old(Rest())
    {
      maxcall := 0;
      maxPDD := 0;
      status := "answered";
    }

    method MsgControl(msg: Params, now: nat)
      modifies this
      ensures Call() == WithMaxPDD(WithMaxcall(old(Call()), Some(msg), -1, now), msg, now) && Rest() == old(Rest())
    {
      SetMaxcall(Some(msg), -1, now);
      SetMaxPDD(msg, now);
    }

    method CallAccept(msg: Params, driverTimeout: int, now: nat)
      modifies this
      ensures Call() == Accepted(old(Call()), msg, driverTimeout, now) && Rest() == old(Rest()) && refs == old(refs)
      ensures status == if Or(msg.autoanswer, !msg.autoring && !msg.autoprogress && !msg.targeted) then "answered"
                        else if msg.autoring then "ringing" else if msg.autoprogress then "progressing" else "accepted"
    {
      Status("accepted", now);
      var defTout := driverTimeout;
      if defTout <= 0 {
        defTout := -1;
      }
      SetMaxcall(Some(msg), defTout, now);
      if Or(msg.autoanswer, false) {
        MsgAnswered(msg, now);
      } else if msg.autoring {
        Status("ringing", now);
      } else if msg.autoprogress {
        Status("progressing", now);
      } else if !msg.targeted && Or(msg.autoanswer, true) {
        MsgAnswered(msg, now);
      }
    }

    /** Drops the call for the first timer that has run out. */
    method CheckTimers(t: nat, now: nat) returns (reason: Option<string>)
      modifies this
      ensures reason == Fired(old(Call()), t)
      ensures reason == if 0 < old(timeout) < t then Some("timeout") else if 0 < old(maxcall) < t then Some("noanswer")
                        else if 0 < old(maxPDD) < t then Some("postdialdelay") else None
      ensures reason.Some? ==> status == reason.value && timeout == maxcall == maxPDD == 0
      ensures Call() == Checked(old(Call()), t, now) && Rest() == old(Rest())
    {
      reason := None;
      if timeout != 0 && timeout < t {
        reason := Some("timeout");
      } else if maxcall != 0 && maxcall < t {
        reason := Some("noanswer");
      } else if maxPDD != 0 && maxPDD < t {
        reason := Some("postdialdelay");
      }
      if reason.Some? {
        MsgDrop(reason.value, now);
      }
    }

    method MsgProgress(now: nat)
      modifies this
      ensures Call() == WithStatus(old(Call()), "progressing", now) && Rest() == old(Rest())
      ensures status == "progressing" && maxPDD == 0
    {
      Status("progressing", now);
    }

    method MsgRinging(now: nat)
      modifies this
      ensures Call() == WithStatus(old(Call()), "ringing", now) && Rest() == old(Rest())
      ensures status == "ringing" && maxPDD == 0
    {
      Status("ringing", now);
    }

    method CallPrerouted(now: nat)
      modifies this
      ensures Call() == old(Call()).(status := "prerouted") && Rest() == old(Rest()) && refs == old(refs) && status == "prerouted"
    {
      Status("prerouted", now);
    }

    method CallRouted(now: nat)
      modifies this
      ensures Call() == old(Call()).(status := "routed") && Rest() == old(Rest()) && refs == old(refs) && status == "routed"
    {
      Status("routed", now);
    }

    method CallRejected(now: nat)
      modifies this
      ensures Call() == old(Call()).(status := "rejected") && Rest() == old(Rest()) && refs == old(refs) && status == "rejected"
    {
      Status("rejected", now);
    }

    /** What the messages and calls of a run do, one by one. */
    method Perform(e: Timed)
      modifies this
      ensures Call() == Step(old(Call()), e) && Rest() == old(Rest())
    {
      match e.event {
        case Progress => MsgProgress(e.now);
        case Ringing => MsgRinging(e.now);
        case Answer(p) => MsgAnswered(p, e.now);
        case Drop(reason) => MsgDrop(reason, e.now);
        case Timers(t) => var _ := CheckTimers(t, e.now);
        case MasqueradedAnswer => MasqueradeAnswer();
        case MasqueradedProgress => Status("progressing", e.now);
        case MasqueradedRinging => Status("ringing", e.now);
        case Prerouted => CallPrerouted(e.now);
        case Routed => CallRouted(e.now);
        case Accept(p, driverTimeout) => CallAccept(p, driverTimeout, e.now);
        case Rejected => CallRejected(e.now);
        case Control(p) => MsgControl(p, e.now);
        case Limit(p, defTout) => SetMaxcall(p, defTout, e.now);
        case LimitPDD(p) => SetMaxPDD(p, e.now);
      }
    }

    // ----- DTMF -----

    /** Numbers a message, unless it is no DTMF or has a number already. */
    method DtmfSequence(m: Dtmf.Message) returns (duplicate: bool, number: Option<nat>)
      modifies this`dtmfSeq, this`dtmfTime, this`dtmfText, this`dtmfDetected
      ensures Tones() == Dtmf.Remember(old(Tones()), m)
      ensures duplicate == (Dtmf.ToNumber(m) && Dtmf.Repeats(old(Tones()), m))
      ensures number == if Dtmf.ToNumber(m) then Some(Tones().number) else None
    {
      if !m.isDtmf || m.numbered {
        return false, None;
      }
      duplicate := false;
      var sq := dtmfSeq;
      if m.text.Some? && m.detected.Some? && m.text.value == dtmfText && m.detected.value != dtmfDetected && m.time < dtmfTime {
        duplicate := true;
      } else {
        dtmfSeq := (dtmfSeq + 1) % Dtmf.TWO32;
        sq := dtmfSeq;
        dtmfTime := m.time + Dtmf.DUPLICATE_TIME;
        dtmfText := Or(m.text, "");
        dtmfDetected := Or(m.detected, "");
      }
      number := Some(sq);
    }

    /** Queues a message, unless it is a duplicate and the driver does not allow duplicates. */
    method DtmfEnqueue(m: Dtmf.Message, stopDups: bool) returns (queued: bool, number: Option<nat>)
      modifies this`dtmfSeq, this`dtmfTime, this`dtmfText, this`dtmfDetected
      ensures Tones() == Dtmf.Remember(old(Tones()), m)
      ensures queued == !(stopDups && Dtmf.ToNumber(m) && Dtmf.Repeats(old(Tones()), m))
      ensures number == if Dtmf.ToNumber(m) then Some(Tones().number) else None
    {
      var duplicate;
      duplicate, number := DtmfSequence(m);
      queued := !(duplicate && stopDups);
    }
  }

  /** Messages queued one after the other on a new channel that does not allow duplicates: one of each group is
      queued, and their numbers count from one. */
  method EnqueueAll(ms: seq<Dtmf.Message>, direction: string) returns (queued: seq<nat>)
    requires |ms| < 0x1_0000_0000 && forall k :: 0 <= k < |ms| ==> Dtmf.ToNumber(ms[k])
    ensures |queued| == Dtmf.Leaders(ms, |ms|)
    ensures forall i :: 0 <= i < |queued| ==> queued[i] == i + 1
  {
    hide Dtmf.Remember;
    var c := new Channel(direction);
    queued := [];
    for k := 0 to |ms|
      invariant fresh(c) && c.Tones() == Dtmf.After(ms[..k])
      invariant |queued| == Dtmf.Leaders(ms, k)
      invariant forall i :: 0 <= i < |queued| ==> queued[i] == i + 1
    {
      assert ms[..k + 1][..k] == ms[..k];
      Dtmf.NumberIsLeaders(ms, k);
      var ok, number := c.DtmfEnqueue(ms[k], true);
      if ok {
        queued := queued + [number.value];
      }
    }
  }
}
