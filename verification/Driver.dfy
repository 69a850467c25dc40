/** A driver: its list of channels, the scans over it, and the routing of calls. */
module Drivers {
  import opened Options
  import opened ChannelTimers
  import opened Channels

  ghost predicate Distinct(cs: seq<Channel>) {
    forall i, j :: 0 <= i < j < |cs| ==> cs[i] != cs[j]
  }

  /** The next channel an iterator offers: one that is still on the list and alive. */
  method NextAlive(snapshot: seq<Channel>, chans: seq<Channel>, from: nat) returns (at: nat)
    requires from <= |snapshot|
    ensures from <= at <= |snapshot| && (at < |snapshot| ==> snapshot[at] in chans && snapshot[at].refs > 0)
    ensures forall k :: from <= k < at ==> snapshot[k] !in chans || snapshot[k].refs == 0
  {
    at := from;
    while at < |snapshot| && !(snapshot[at] in chans && snapshot[at].refs > 0)
      invariant from <= at <= |snapshot|
      invariant forall k :: from <= k < at ==> snapshot[k] !in chans || snapshot[k].refs == 0
    {
      at := at + 1;
    }
  }

  /** What happens while a scan does not have the mutex, be it by other threads or by the call it just dropped:
      channels leave the list, lose their last reference, or arrive. */
  datatype Meanwhile = Meanwhile(leave: seq<Channel>, die: seq<Channel>, arrive: nat)

  const NOTHING := Meanwhile([], [], 0)

  /** What a scan does to a call: checks its timers, or drops it. */
  datatype Act = Check(t: nat) | Drop(reason: string)

  function Acted(c: Call, act: Act, now: nat): Call {
    match act
    case Check(t) => Checked(c, t, now)
    case Drop(reason) => Dropped(c, reason, now)
  }

  class Driver {
    var chans: seq<Channel>
    var chanCount: nat
    var total: nat
    var doExpire: bool
    var held: nat       // how often the thread at work has locked the mutex
    var varchan: bool
    var routing: nat
    var routed: nat

    constructor ()
      ensures Valid() && chans == [] && held == routing == routed == total == 0 && doExpire && varchan
    {
      chans, chanCount, total, held, routing, routed := [], 0, 0, 0, 0, 0;
      doExpire, varchan := true, true;
    }

    /** The list holds each channel once, and the counter counts them. */
    ghost predicate Valid()
      reads this
    {
      Distinct(chans) && chanCount == |chans|
    }

    method Lock()
      modifies this`held
      ensures held == old(held) + 1
    {
      held := held + 1;
    }

    method Unlock()
      requires held > 0
      modifies this`held
      ensures held == old(held) - 1
    {
      held := held - 1;
    }

    // ----- The list of channels -----

    /** Appends a channel. One that is on the list already is refused if the build checks for it, else it is listed
        twice. */
    method InitChan(c: Channel, checks: bool)
      requires Valid()
      modifies this`chans, this`chanCount, this`total
      ensures chanCount == |chans| && (Valid() <==> checks || c !in old(chans))
      ensures if checks && c in old(chans) then unchanged(this)
              else chans == old(chans) + [c] && total == old(total) + 1
    {
      if checks && c in chans {
        return;
      }
      total := total + 1;
      chanCount := chanCount + 1;
      chans := chans + [c];
      if c in chans[..|chans| - 1] {
        ListedTwice(chans[..|chans| - 1], c);
      }
    }

    lemma ListedTwice(cs: seq<Channel>, c: Channel)
      requires c in cs
      ensures !Distinct(cs + [c])
    {
      var k :| 0 <= k < |cs| && cs[k] == c;
      assert (cs + [c])[k] == (cs + [c])[|cs|];
    }

    /** Takes a channel off the list; a channel that is not on it is no error. */
    method DropChan(c: Channel)
      requires Valid()
      modifies this`chans, this`chanCount
      ensures Valid() && c !in chans && forall d :: d in chans <==> d in old(chans) && d != c
      ensures |chans| == |old(chans)| - if c in old(chans) then 1 else 0
    {
      var k := 0;
      while k < |chans| && chans[k] != c
        invariant k <= |chans| && c !in chans[..k]
      {
        k := k + 1;
      }
      if k < |chans| {
        ghost var was := chans;
        chans := chans[..k] + chans[k + 1..];
        assert forall d :: d in was <==> d in was[..k] || d == c || d in was[k + 1..];
        if chanCount > 0 {
          chanCount := chanCount - 1;
        }
      }
    }

    // ----- Scans -----

    /** Locks after waiting, while another thread may have started a scan. */
    method LockLate(raced: bool)
      modifies this`held, this`doExpire
      ensures held == old(held) + 1 && doExpire == (old(doExpire) && !raced)
    {
      held := held + 1;
      doExpire := doExpire && !raced;
    }

    method Leave(gone: seq<Channel>)
      requires Valid()
      modifies this`chans, this`chanCount
      ensures Valid() && (forall c <- chans :: c in old(chans)) && (gone == [] ==> chans == old(chans))
    {
      for k := 0 to |gone|
        invariant Valid() && forall c <- chans :: c in old(chans)
        invariant k == 0 ==> chans == old(chans)
      {
        DropChan(gone[k]);
      }
    }

    method Arrive(n: nat)
      requires Valid()
      modifies this`chans, this`chanCount, this`total
      ensures Valid() && (forall c <- chans :: c in old(chans) || fresh(c)) && (n == 0 ==> chans == old(chans))
    {
      for k := 0 to n
        invariant Valid() && forall c <- chans :: c in old(chans) || fresh(c)
        invariant k == 0 ==> chans == old(chans)
      {
        var c := new Channel("incoming");
        InitChan(c, false);
      }
    }

    /** One turn of a scan: acts on a channel without the mutex, then something else has its turn. */
    method Turn(snapshot: seq<Channel>, cur: nat, act: Act, now: nat, w: Meanwhile)
      requires Valid() && held > 0 && cur < |snapshot| && Distinct(snapshot)
      modifies this`held, this`chans, this`chanCount, this`total, snapshot
      ensures Valid() && held == old(held) && forall c <- chans :: c in old(chans) || fresh(c)
      ensures forall k :: 0 <= k < |snapshot| ==> snapshot[k].Tones() == old(snapshot[k].Tones())
      ensures forall k :: 0 <= k < |snapshot| ==> snapshot[k].refs == old(snapshot[k].refs) || snapshot[k].refs == 0
      ensures forall k :: 0 <= k < |snapshot| ==>
                snapshot[k].Call() == if k == cur then Acted(old(snapshot[k].Call()), act, now) else old(snapshot[k].Call())
      ensures w == NOTHING ==> chans == old(chans) && forall c <- snapshot :: c.refs == old(c.refs)
    {
      hide Checked, ChannelTimers.Dropped;
      Unlock();
      match act {
        case Check(t) => var _ := snapshot[cur].CheckTimers(t, now);
        case Drop(reason) => snapshot[cur].MsgDrop(reason, now);
      }
      Die(snapshot, w.die);
      Leave(w.leave);
      Arrive(w.arrive);
      Lock();
    }

    /** The loop over the channels, entered with the mutex and left without it: acts on every channel that stays on
        the list and alive, on none that was dead, and on the others if their turn comes before they go. */
    method EachAlive(act: Act, now: nat, meanwhile: seq<Meanwhile>)
      requires Valid() && held > 0
      modifies this`held, this`chans, this`chanCount, this`total, chans
      ensures Valid() && held == old(held) - 1
      ensures forall c <- old(chans) :: c.Tones() == old(c.Tones()) && (c.refs == old(c.refs) || c.refs == 0)
      ensures forall c <- old(chans) ::
                c.Call() == old(c.Call()) || (old(c.refs) > 0 && c.Call() == Acted(old(c.Call()), act, now))
      ensures forall c <- old(chans) | c in chans && c.refs > 0 :: c.Call() == Acted(old(c.Call()), act, now)
      ensures meanwhile == [] ==> chans == old(chans) && forall c <- chans :: c.refs == old(c.refs)
    {
      hide Acted, Channel.Call;
      var snapshot, cur, turn: nat := chans, 0, 0;
      while true
        invariant held == old(held) && cur <= |snapshot| && Valid()
        invariant forall c <- chans :: c in snapshot || fresh(c)
        invariant forall k :: 0 <= k < |snapshot| ==> snapshot[k].Tones() == old(snapshot[k].Tones())
        invariant forall k :: 0 <= k < |snapshot| ==> snapshot[k].refs == old(snapshot[k].refs) || snapshot[k].refs == 0
        invariant forall k :: cur <= k < |snapshot| ==> snapshot[k].Call() == old(snapshot[k].Call())
        invariant forall k :: 0 <= k < cur ==>
          || (old(snapshot[k].refs) > 0 && snapshot[k].Call() == Acted(old(snapshot[k].Call()), act, now))
          || (snapshot[k].Call() == old(snapshot[k].Call()) && (snapshot[k] !in chans || snapshot[k].refs == 0))
        invariant meanwhile == [] ==> chans == old(chans) && forall c <- chans :: c.refs == old(c.refs)
        decreases |snapshot| - cur
      {
        cur := NextAlive(snapshot, chans, cur);
        if cur == |snapshot| {
          Unlock();
          break;
        }
        Turn(snapshot, cur, act, now, if turn < |meanwhile| then meanwhile[turn] else NOTHING);
        cur, turn := cur + 1, turn + 1;
      }
    }

    /** A timer message: checks the timers of the channels, unless a scan is going on or the mutex cannot be had in
        time. */
    method TimerScan(gotLock: bool, raced: bool, t: nat, now: nat, meanwhile: seq<Meanwhile>)
      requires Valid()
      modifies this`held, this`doExpire, this`chans, this`chanCount, this`total, chans
      ensures Valid() && held == old(held) && doExpire == (old(doExpire) && !(gotLock && raced))
      ensures forall c <- old(chans) :: c.Tones() == old(c.Tones()) && (c.refs == old(c.refs) || c.refs == 0)
      ensures forall c <- old(chans) ::
                || c.Call() == old(c.Call())
                || (old(doExpire) && gotLock && !raced && old(c.refs) > 0 && c.Call() == Checked(old(c.Call()), t, now))
      ensures old(doExpire) && gotLock && !raced ==>
                forall c <- old(chans) | c in chans && c.refs > 0 :: c.Call() == Checked(old(c.Call()), t, now)
      ensures meanwhile == [] ==> chans == old(chans) && forall c <- chans :: c.refs == old(c.refs)
    {
      hide Checked, Channel.Call, Distinct;
      if doExpire && gotLock {
        LockLate(raced);
        if doExpire {
          doExpire := false;
          EachAlive(Check(t), now, meanwhile);
          doExpire := true;
        } else {
          Unlock();
        }
      }
    }

    /** Drops the calls of the channels, in the same way. */
    method DropAll(reason: string, now: nat, meanwhile: seq<Meanwhile>)
      requires Valid()
      modifies this`held, this`chans, this`chanCount, this`total, chans
      ensures Valid() && held == old(held)
      ensures forall c <- old(chans) :: c.Tones() == old(c.Tones()) && (c.refs == old(c.refs) || c.refs == 0)
      ensures forall c <- old(chans) ::
                c.Call() == old(c.Call()) || (old(c.refs) > 0 && c.Call() == Dropped(old(c.Call()), reason, now))
      ensures forall c <- old(chans) | c in chans && c.refs > 0 :: c.Call() == Dropped(old(c.Call()), reason, now)
      ensures meanwhile == [] ==> chans == old(chans) && forall c <- chans :: c.refs == old(c.refs)
    {
      hide ChannelTimers.Dropped, Channel.Call, Distinct;
      Lock();
      EachAlive(Act.Drop(reason), now, meanwhile);
    }
  }

  /** Takes the last references of some of the channels of a snapshot. */
  method Die(snapshot: seq<Channel>, die: seq<Channel>)
    modifies snapshot
    ensures forall k :: 0 <= k < |snapshot| ==>
              && snapshot[k].Call() == old(snapshot[k].Call()) && snapshot[k].Tones() == old(snapshot[k].Tones())
              && snapshot[k].refs == if snapshot[k] in die then 0 else old(snapshot[k].refs)
  {
    for k := 0 to |die|
      invariant forall j :: 0 <= j < |snapshot| ==>
        && snapshot[j].Call() == old(snapshot[j].Call()) && snapshot[j].Tones() == old(snapshot[j].Tones())
        && snapshot[j].refs == if snapshot[j] in die[..k] then 0 else old(snapshot[j].refs)
    {
      assert forall c :: c in die[..k + 1] <==> c in die[..k] || c == die[k];
      if die[k] in snapshot {
        die[k].refs := 0;
      }
    }
    assert die[..|die|] == die;
  }
}
