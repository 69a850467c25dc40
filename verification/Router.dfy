/** A routing thread and the references to the channel it routes. Other threads take and give up references of
    their own at any time; what the rest of the engine answers is a parameter. */
module Routers {
  import opened Options
  import opened ChannelTimers
  import opened Channels
  import opened Drivers

  /** What the router was asked, and how the engine answers. Return values come without spaces around them; the
      lists of others say how many references other threads hold at the points where they may interfere. */
  datatype Request = Request(
    callto: string, preroute: bool,
    prerouteHandled: bool, prerouteResult: string, prerouteListed: bool,
    routeHandled: bool, routeResult: string, routeListed: bool,
    antiloop: int, executeHandled: bool, disconnectHandled: bool,
    accept: Params, driverTimeout: int, now: nat,
    others1: nat, others2: nat, others3: nat, others4: nat)

  datatype Verdict = Vanished | Connected | Refused | Rerouted

  /** Other threads come to hold n references, if the channel is still alive. */
  method Interfere(c: Channel, mine: nat, others: nat, n: nat) returns (now: nat)
    requires c.refs == mine + others
    modifies c`refs
    ensures c.refs == mine + now && now == if mine + others == 0 then 0 else n
  {
    now := if c.refs == 0 then 0 else n;
    c.refs := mine + now;
  }

  /** Takes a reference to a channel that is on the driver's list and alive. */
  method Find(c: Channel, listed: bool) returns (found: bool)
    modifies c`refs
    ensures found == (listed && old(c.refs) > 0) && c.refs == old(c.refs) + if found then 1 else 0
  {
    found := listed && c.refs > 0;
    if found {
      c.refs := c.refs + 1;
    }
  }

  method Deref(c: Channel) returns (freed: bool)
    requires c.refs > 0
    modifies c`refs
    ensures c.refs == old(c.refs) - 1 && freed == (c.refs == 0)
  {
    c.refs := c.refs - 1;
    freed := c.refs == 0;
  }

  /** What route tells: its result, whether the last lookup found the channel, how the call ended, how often the
      routing reference was dropped, whether a drop freed the channel while a pointer of the router was on it, and
      the references other threads hold at the end. */
  datatype Outcome = Outcome(ok: bool, found: bool, verdict: Verdict, drops: nat, freedInUse: bool, others: nat)

  /** The last part of routing: refuses the call, or has it executed and accepts it. */
  method Conclude(c: Channel, q: Request, handled: bool, target: string) returns (ok: bool, verdict: Verdict)
    modifies c
    ensures c.refs == old(c.refs)
    ensures var executes := handled && target != "" && target != "-" && target != "error" && q.antiloop > 0;
            && ok == (handled && (executes ==> q.executeHandled))
            && verdict == if !executes then Refused else if q.executeHandled then Connected
                          else if q.disconnectHandled then Rerouted else Refused
    ensures match verdict
            case Vanished => false
            case Refused => c.status == "rejected"
            case Rerouted => c.status == "routed"
            case Connected =>
              c.status == if Or(q.accept.autoanswer, !q.accept.autoring && !q.accept.autoprogress && !q.accept.targeted)
                          then "answered"
                          else if q.accept.autoring then "ringing"
                          else if q.accept.autoprogress then "progressing" else "accepted"
  {
    hide *;
    ok, verdict := handled, Refused;
    if ok && target != "" {
      if target == "-" || target == "error" {
        c.CallRejected(q.now);
      } else if q.antiloop <= 0 {
        c.CallRejected(q.now);
      } else {
        c.CallRouted(q.now);
        ok := q.executeHandled;
        if ok {
          c.CallAccept(q.accept, q.driverTimeout, q.now);
          verdict := Connected;
        } else if !q.disconnectHandled {
          c.CallRejected(q.now);
        } else {
          verdict := Rerouted;
        }
      }
    } else {
      c.CallRejected(q.now);
    }
  }

  /** Routes the call of a channel. On a driver with dynamic channels the router owns a reference on entry. What is left
      of its references afterwards is that one if it was not dropped, and the one of its message once the channel was
      found for routing. */
  method Route(c: Channel, varchan: bool, q: Request, others: nat) returns (r: Outcome)
    requires c.refs == (if varchan then 1 else 0) + others
    modifies c
    ensures r.drops == if varchan && r.found then 1 else 0
    ensures !r.freedInUse
    ensures varchan && !r.found ==> c.refs > 0
    ensures var early := q.callto == "" && q.preroute && q.prerouteHandled
                         && (q.prerouteResult == "-" || q.prerouteResult == "error");
            var handled := q.callto != "" || q.routeHandled;
            var target := if q.callto != "" then q.callto else q.routeResult;
            var executes := handled && target != "" && target != "-" && target != "error" && q.antiloop > 0;
            && c.refs == r.others + (if varchan && r.drops == 0 then 1 else 0) + (if r.found && !early then 1 else 0)
            && (varchan ==> (r.found <==> (q.callto == "" && q.preroute ==> q.prerouteListed) && (early || q.routeListed)))
            && (r.ok <==> r.found && !early && handled && (executes ==> q.executeHandled))
            && r.verdict == (if !r.found then Vanished
                             else if early || !executes then Refused
                             else if q.executeHandled then Connected
                             else if q.disconnectHandled then Rerouted
                             else Refused)
    ensures match r.verdict
            case Vanished =>
              c.status == old(c.status) || (q.callto == "" && q.preroute && q.prerouteListed && c.status == "prerouted")
            case Refused => c.status == "rejected"
            case Rerouted => c.status == "routed"
            case Connected =>
              c.status == if Or(q.accept.autoanswer, !q.accept.autoring && !q.accept.autoprogress && !q.accept.targeted)
                          then "answered"
                          else if q.accept.autoring then "ringing"
                          else if q.accept.autoprogress then "progressing" else "accepted"
  {
    hide *;
    var mine := if varchan then 1 else 0;
    r := Outcome(false, false, Vanished, 0, false, others);
    var ok, result := q.callto != "", q.callto;
    var freed;
    if !ok {
      if q.preroute {
        ok := q.prerouteHandled;
        var now1 := Interfere(c, mine, others, q.others1);
        r := r.(others := now1);
        var found := Find(c, q.prerouteListed);
        if !found {
          return;
        }
        mine := mine + 1;
        var now2 := Interfere(c, mine, r.others, q.others2);
        r := r.(others := now2);
        var dropCall := ok && (q.prerouteResult == "-" || q.prerouteResult == "error");
        if dropCall {
          c.CallRejected(q.now);
          r := r.(found := true, verdict := Refused);
          if varchan {
            freed := Deref(c);
            r := r.(drops := r.drops + 1, freedInUse := freed);
          }
          freed := Deref(c);
          return;
        }
        c.CallPrerouted(q.now);
        freed := Deref(c);
        mine := mine - 1;
      }
      ok, result := q.routeHandled, q.routeResult;
    }
    var now3 := Interfere(c, mine, r.others, q.others3);
    r := r.(others := now3);
    var found := Find(c, q.routeListed);
    if !found {
      return;
    }
    c.refs := c.refs + 1;          // the message's own reference
    mine := mine + 2;
    var now4 := Interfere(c, mine, r.others, q.others4);
    r := r.(others := now4, found := true);
    var verdict;
    ok, verdict := Conclude(c, q, ok, result);
    r := r.(ok := ok, verdict := verdict);
    if varchan {
      freed := Deref(c);
      r := r.(drops := r.drops + 1, freedInUse := freed);
    }
    freed := Deref(c);
  }

  /** The whole thread: the counter of routers at work is back where it was, and that of routed calls grows by one
      exactly when routing succeeded. */
  method RunRouter(d: Driver, c: Channel, q: Request, others: nat) returns (r: Outcome)
    requires c.refs == (if d.varchan then 1 else 0) + others
    modifies d`held, d`routing, d`routed, c
    ensures d.held == old(d.held) && d.routing == old(d.routing)
    ensures d.routed == old(d.routed) + if r.ok then 1 else 0
    ensures !r.freedInUse && r.drops == if d.varchan && r.found then 1 else 0
    ensures var early := q.callto == "" && q.preroute && q.prerouteHandled
                         && (q.prerouteResult == "-" || q.prerouteResult == "error");
            var handled := q.callto != "" || q.routeHandled;
            var target := if q.callto != "" then q.callto else q.routeResult;
            var executes := handled && target != "" && target != "-" && target != "error" && q.antiloop > 0;
            && (d.varchan ==> (r.found <==> (q.callto == "" && q.preroute ==> q.prerouteListed) && (early || q.routeListed)))
            && (r.ok <==> r.found && !early && handled && (executes ==> q.executeHandled))
  {
    d.Lock();
    d.routing := d.routing + 1;
    d.Unlock();
    r := Route(c, d.varchan, q, others);
    d.Lock();
    d.routing := d.routing - 1;
    if r.ok {
      d.routed := d.routed + 1;
    }
    d.Unlock();
  }
}
