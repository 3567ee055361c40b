/** When the last multicast packet has left the transmit ring, and who may then give the optical path back. */
module Drain {

  /** The drain test on ring indices (thread_data.c:655-657). */
  predicate Drained(head: nat, tailLast: nat, tail: nat, numSlots: nat) {
    var distHt := if tail >= head then tail - head else tail + numSlots - head;
    var distTt := if tailLast > tail then tailLast - tail else tailLast + numSlots - tail;
    distHt + distTt <= numSlots
  }

  // Index of an unbounded slot counter in a ring of `n` slots.
  function Slot(x: int, n: nat): (i: nat)
    requires n > 0
    ensures i < n
  {
    x % n
  }

  lemma Rounds(x: int, n: nat) returns (q: int)
    requires n > 0
    ensures x == q * n + Slot(x, n)
  {
    q := x / n;
  }

  // A multiple of `n` strictly between -n and n is 0, and strictly between 0 and 2n is n.
  lemma OneMultiple(d: int, k: int, n: int)
    requires n > 0 && d == k * n
    ensures -n < d < n ==> d == 0
    ensures 0 < d < 2 * n ==> d == n
    ensures -(2 * n) < d < 0 ==> d == -n
  {
    if k >= 2 { assert k * n >= 2 * n; }
    if k <= -2 { assert k * n <= -(2 * n); }
  }

  // Moving forward by less than a lap.
  lemma SlotAfter(x: int, y: int, n: nat)
    requires n > 0 && x <= y < x + n
    ensures y - x == if Slot(y, n) >= Slot(x, n) then Slot(y, n) - Slot(x, n) else Slot(y, n) + n - Slot(x, n)
  {
    var p := Rounds(x, n);
    var q := Rounds(y, n);
    assert y - x - (Slot(y, n) - Slot(x, n)) == (q - p) * n;
    OneMultiple(y - x - (Slot(y, n) - Slot(x, n)), q - p, n);
  }

  /** On unbounded counters the test says that the tail has reached or passed the last multicast slot, as long as
      it had not done so before and moved by less than a lap since. */
  lemma DrainedIsExact(last: int, before: int, now: int, n: nat)
    requires n > 0 && before <= last < before + n && before <= now < before + n
    ensures Drained(Slot(last, n), Slot(before, n), Slot(now, n), n) <==> now >= last
  {
    SlotAfter(before, now, n);
    SlotAfter(before, last, n);
    if now >= last { SlotAfter(last, now, n); } else { SlotAfter(now, last, n); }
  }

  lemma SameSlot(x: int, n: nat)
    requires n > 0
    ensures Slot(x + n, n) == Slot(x, n)
  {
    var p := Rounds(x, n);
    var q := Rounds(x + n, n);
    var d := Slot(x + n, n) - Slot(x, n);
    assert d == (p + 1 - q) * n;
    OneMultiple(d, p + 1 - q, n);
  }

  // ---- the optical path, on unbounded counters

  datatype BcdState = Dead | Initiated | Attempt | Fullrate

  /** The ring and the hand-over of the active multicast between the data and the service thread. `head` counts the
      slots ever filled and `tail` is the last slot sent, so that a quiet ring has its tail one slot behind its head. */
  datatype Path = Path(
    head: int, tail: int,
    mcast: int,           // last slot that was filled for a multicast
    last: int,            // last slot filled when the multicast ended
    checked: int,         // the tail at the last check
    active: bool,         // there is an active multicast
    state: BcdState,      // and its state
    terminated: bool,     // it has nothing more to send
    need: bool,           // need_release_path
    clearing: bool,       // the data thread is between DEAD and need_release_path = 0
    failed: bool)         // assert(activeMulticast_p) has failed

  datatype PathEvent =
    | Grant               // the controller accepts a push (thread_service.c:269-275)
    | Release             // a dead multicast is given back (thread_service.c:115-150)
    | Upgrade             // INITIATED, ATTEMPT, FULLRATE (thread_data.c:370-382)
    | Put(mine: bool)     // one packet, of the multicast or not, is put in the ring
    | Sent(k: nat)        // the card has sent `k` more slots
    | Ends                // the multicast has nothing more to send (thread_data.c:384-390, 502-509)
    | Check               // the drain test (thread_data.c:652-667)
    | Clear               // need_release_path = 0 (thread_data.c:662)

  function PathInit(): Path { Path(0, -1, -1, 0, 0, false, Dead, false, false, false, false) }

  predicate CanPut(n: nat, p: Path, mine: bool) {
    p.head < p.tail + n && !p.clearing && (mine ==> p.active && !p.terminated && p.state != Dead)
  }

  // The card sends what is in the ring, and less than a lap between two checks.
  predicate CanSend(n: nat, p: Path, k: nat) {
    p.tail + k < p.head && (p.need ==> p.tail + k < p.checked + n)
  }

  /** The drain test is what it is meant to be here: has the last slot of the multicast been sent? */
  function PathStep(n: nat, p: Path, e: PathEvent): Path {
    match e
    case Grant => if p.active then p else p.(active := true, state := Initiated, terminated := false)
    case Release => if p.active && p.state == Dead then p.(active := false) else p
    case Upgrade =>
      if !p.active || p.clearing then p
      else if p.state == Initiated then p.(state := Attempt)
      else if p.state == Attempt then p.(state := Fullrate)
      else p
    case Put(mine) =>
      if !CanPut(n, p, mine) then p else p.(head := p.head + 1, mcast := if mine then p.head else p.mcast)
    case Sent(k) => if CanSend(n, p, k) then p.(tail := p.tail + k) else p
    case Ends =>
      if !p.active || p.terminated || p.clearing then p
      else p.(terminated := true, need := true, last := p.head - 1, checked := p.tail)
    case Check =>
      if !p.need || p.clearing then p
      else if p.tail < p.last then p.(checked := p.tail)
      else if !p.active then p.(failed := true)
      else p.(state := Dead, clearing := true)
    case Clear => if p.clearing then p.(need := false, clearing := false) else p
  }

  function PathRun(n: nat, es: seq<PathEvent>): Path
    decreases |es|
  {
    if es == [] then PathInit() else PathStep(n, PathRun(n, es[..|es| - 1]), es[|es| - 1])
  }

  predicate PathInv(n: nat, p: Path) {
    && p.tail < p.head <= p.tail + n && p.mcast < p.head && !p.failed
    && (p.need ==> p.checked <= p.last < p.checked + n && p.checked <= p.tail < p.checked + n && p.last < p.head)
    && (p.need && !p.clearing ==> p.active && p.terminated && p.state != Dead && p.mcast <= p.last)
    && (p.active && p.terminated && p.state != Dead ==> p.need && !p.clearing)
    && (p.active && !p.terminated ==> p.state != Dead)
    && (p.clearing ==> p.need && p.mcast <= p.tail)
    && (!p.active || p.state == Dead ==> p.mcast <= p.tail)
  }

  lemma PathStepInv(n: nat, p: Path, e: PathEvent)
    requires PathInv(n, p)
    ensures PathInv(n, PathStep(n, p, e))
  {
  }

  lemma {:induction false} PathRunInv(n: nat, es: seq<PathEvent>)
    requires n > 1
    ensures PathInv(n, PathRun(n, es))
    decreases |es|
  {
    if es != [] {
      PathRunInv(n, es[..|es| - 1]);
      PathStepInv(n, PathRun(n, es[..|es| - 1]), es[|es| - 1]);
    }
  }

  /** However the two threads and the card interleave, a waiting data thread finds its multicast active and alive:
      the assertion at thread_data.c:658 never fails. */
  lemma AssertHolds(n: nat, es: seq<PathEvent>)
    requires n > 1
    ensures var p := PathRun(n, es); !p.failed && (p.need && !p.clearing ==> p.active && p.state != Dead)
  {
    PathRunInv(n, es);
  }

  /** The multicast is marked dead, and the path given back, only when its last packet has left the ring. */
  lemma DeadWhenSent(n: nat, es: seq<PathEvent>)
    requires n > 1
    ensures var p := PathRun(n, es); !p.active || p.state == Dead ==> p.mcast <= p.tail
  {
    PathRunInv(n, es);
  }

  /** A multicast that has ended is marked dead by the first check at which its last slot has been sent, and by no
      earlier one; nothing is added to it meanwhile. */
  lemma DeadAtFirstCheck(n: nat, es: seq<PathEvent>, e: PathEvent)
    requires n > 1
    requires var p := PathRun(n, es); p.active && p.terminated && p.state != Dead
    ensures var p, p' := PathRun(n, es), PathRun(n, es + [e]);
      && (p'.state == Dead <==> e == Check && p.tail >= p.last)
      && p'.mcast == p.mcast <= p.last && p'.last == p.last
  {
    PathRunInv(n, es);
    assert (es + [e])[..|es|] == es;
  }

  // ---- and every step is made

  lemma PathPush(n: nat, es: seq<PathEvent>, e: PathEvent)
    ensures PathRun(n, es + [e]) == PathStep(n, PathRun(n, es), e)
  {
    assert (es + [e])[..|es|] == es;
  }

  /** With room in the ring, a multicast that has more to send gets its slot, in each of the three live states: it need
      not have reached the full rate. */
  lemma PutFills(n: nat, p: Path)
    requires PathInv(n, p) && p.active && !p.terminated && !p.clearing && p.head < p.tail + n
    requires p.state == Initiated || p.state == Attempt || p.state == Fullrate
    ensures PathStep(n, p, Put(true)) == p.(head := p.head + 1, mcast := p.head)
  {
  }

  /** A packet that is not the multicast's gets its slot whenever there is room, also while the multicast waits. */
  lemma PutOthers(n: nat, p: Path)
    requires !p.clearing && p.head < p.tail + n
    ensures PathStep(n, p, Put(false)) == p.(head := p.head + 1)
  {
  }

  /** What the end of the multicast notes: the slot filled last and the tail as it is. */
  lemma EndsNotes(n: nat, p: Path)
    requires p.active && !p.terminated && !p.clearing
    ensures PathStep(n, p, Ends) == p.(terminated := true, need := true, last := p.head - 1, checked := p.tail)
  {
  }

  /** A check that comes too early gives the card another lap: up to the next one it may send all that the ring holds,
      short of a full turn. */
  lemma CheckRenews(n: nat, p: Path, k: nat)
    requires PathInv(n, p) && p.need && !p.clearing && p.tail < p.last
    ensures var p' := PathStep(n, p, Check);
      p'.state == p.state && p'.need && (CanSend(n, p', k) <==> p.tail + k < p.head)
  {
  }

  /** The rate goes up in two steps and changes nothing else. */
  lemma UpgradesTwice(n: nat, p: Path)
    requires p.active && p.state == Initiated && !p.clearing
    ensures PathStep(n, p, Upgrade) == p.(state := Attempt)
    ensures PathStep(n, PathStep(n, p, Upgrade), Upgrade) == p.(state := Fullrate)
  {
  }

  // The data thread finishes the check it is in.
  lemma CheckDone(n: nat, es: seq<PathEvent>) returns (es': seq<PathEvent>)
    requires n > 1
    ensures es <= es' && !PathRun(n, es').clearing
    ensures var p, p' := PathRun(n, es), PathRun(n, es');
      p' == if p.clearing then p.(need := false, clearing := false) else p
  {
    es' := es;
    if PathRun(n, es).clearing {
      PathPush(n, es, Clear);
      es' := es + [Clear];
    }
  }

  // The card sends all it may.
  lemma CardSends(n: nat, es: seq<PathEvent>) returns (es': seq<PathEvent>)
    requires n > 1
    ensures es <= es'
    ensures var p, p' := PathRun(n, es), PathRun(n, es');
      p' == p.(tail := p'.tail) && if p.need then p'.tail >= p.last else p'.tail == p.head - 1
  {
    var p := PathRun(n, es);
    PathRunInv(n, es);
    var k := if !p.need then p.head - 1 - p.tail else if p.tail < p.last then p.last - p.tail else 0;
    PathPush(n, es, Sent(k));
    es' := es + [Sent(k)];
  }

  /** From any state in which a multicast is active and has more to send, it can go on: it fills one more slot. */
  lemma CanSendMore(n: nat, es: seq<PathEvent>) returns (es': seq<PathEvent>)
    requires n > 1
    requires var p := PathRun(n, es); p.active && !p.terminated
    ensures es <= es'
    ensures var p, p' := PathRun(n, es), PathRun(n, es');
      && p'.active && !p'.terminated && !p'.clearing && !p'.need && p'.state == p.state
      && p'.mcast == p.head == p'.head - 1
  {
    PathRunInv(n, es);
    var a := CheckDone(n, es);
    var b := CardSends(n, a);
    PathRunInv(n, a);
    PathRunInv(n, b);
    PathPush(n, b, Put(true));
    es' := b + [Put(true)];
  }

  // One that has ended is drained, marked dead and released.
  lemma CanDrain(n: nat, es: seq<PathEvent>) returns (es': seq<PathEvent>)
    requires n > 1
    requires var p := PathRun(n, es); p.active && p.terminated
    ensures es <= es'
    ensures var p, p' := PathRun(n, es), PathRun(n, es');
      !p'.active && p'.state == Dead && !p'.need && !p'.clearing && p'.mcast == p.mcast <= p'.tail
  {
    PathRunInv(n, es);
    var a := es;
    if PathRun(n, es).state != Dead {
      var b := CardSends(n, es);
      PathPush(n, b, Check);
      a := b + [Check];
    }
    PathRunInv(n, a);
    PathPush(n, a, Release);
    es' := CheckDone(n, a + [Release]);
    PathRunInv(n, es');
  }

  /** The path is never stuck. A multicast that has been granted it can, from any point on, fill a slot if it has more
      to send, then end, be marked dead by a check once that slot has been sent, and give the path back. */
  lemma CanFinish(n: nat, es: seq<PathEvent>)
    requires n > 1 && PathRun(n, es).active
    ensures exists es1, es2 :: es <= es1 <= es2 && Finishes(PathRun(n, es), PathRun(n, es1), PathRun(n, es2))
  {
    var es1, es2 := es, es;
    if PathRun(n, es).terminated {
      es2 := CanDrain(n, es);
    } else {
      es1 := CanSendMore(n, es);
      PathPush(n, es1, Ends);
      es2 := CanDrain(n, es1 + [Ends]);
    }
    assert es <= es1 <= es2;
  }

  // A slot is filled by `p1` if there was more to send, and all is sent and given back by `p2`.
  ghost predicate Finishes(p: Path, p1: Path, p2: Path) {
    && p1.active && (if p.terminated then p1 == p else p1.mcast == p.head)
    && !p2.active && p2.state == Dead && !p2.need && !p2.clearing && p2.mcast == p1.mcast <= p2.tail
  }

  /** Whenever no multicast holds the path, the next one can be granted it, and starts alive with nothing ended. */
  lemma CanGrant(n: nat, es: seq<PathEvent>)
    requires !PathRun(n, es).active
    ensures PathRun(n, es + [Grant]) == PathRun(n, es).(active := true, state := Initiated, terminated := false)
  {
    PathPush(n, es, Grant);
  }

  // ---- the same, on ring indices

  /** The transmit ring and the drain check of the data thread, as they are kept: indices into the ring. */
  class TxRing {
    const numSlots: nat
    var head: nat
    var tail: nat
    var amHead: nat          // am_txring_head
    var amTailLast: nat      // am_txring_tail_last
    var needRelease: bool
    var active: bool         // activeMulticast_p
    var state: BcdState
    var terminated: bool     // is_tv_last_data & 0x10
    ghost var path: Path

    ghost predicate Valid()
      reads this
    {
      && numSlots > 1 && PathInv(numSlots, path)
      && head == Slot(path.head, numSlots) && tail == Slot(path.tail, numSlots)
      && (path.need ==> amHead == Slot(path.last, numSlots) && amTailLast == Slot(path.checked, numSlots))
      && needRelease == path.need && active == path.active && state == path.state && terminated == path.terminated
    }

    constructor (slots: nat)
      requires slots > 1
      ensures Valid() && path == PathInit() && numSlots == slots
    {
      numSlots := slots;
      head, tail, amHead, amTailLast := 0, slots - 1, 0, 0;
      needRelease, active, state, terminated := false, false, Dead, false;
      path := PathInit();
      new;
      assert Slot(-1, slots) == slots - 1 by { SlotAfter(-1, slots - 2, slots); SlotAfter(-1, 0, slots); }
    }

    // nm_ring_space
    function Space(): (s: nat)
      requires Valid()
      reads this
      ensures s == path.tail + numSlots - path.head
    {
      SlotAfter(path.head, path.tail + numSlots, numSlots);
      SameSlot(path.tail, numSlots);
      if tail >= head then tail - head else tail + numSlots - head
    }

    method OnGrant()
      requires Valid()
      modifies this`active, this`state, this`terminated, this`path
      ensures Valid() && path == PathStep(numSlots, old(path), Grant)
    {
      PathStepInv(numSlots, path, Grant);
      path := PathStep(numSlots, path, Grant);
      if !active {
        active, state, terminated := true, Initiated, false;
      }
    }

    method OnRelease()
      requires Valid()
      modifies this`active, this`path
      ensures Valid() && path == PathStep(numSlots, old(path), Release)
    {
      PathStepInv(numSlots, path, Release);
      path := PathStep(numSlots, path, Release);
      if active && state == Dead {
        active := false;
      }
    }

    method OnUpgrade()
      requires Valid() && !path.clearing
      modifies this`state, this`path
      ensures Valid() && path == PathStep(numSlots, old(path), Upgrade)
    {
      PathStepInv(numSlots, path, Upgrade);
      path := PathStep(numSlots, path, Upgrade);
      if active && state == Initiated {
        state := Attempt;
      } else if active && state == Attempt {
        state := Fullrate;
      }
    }

    /** One packet is put in the ring, if there is room for it. */
    method OnPut(mine: bool) returns (ok: bool)
      requires Valid() && !path.clearing
      modifies this`head, this`path
      ensures Valid() && path == PathStep(numSlots, old(path), Put(mine)) && ok == CanPut(numSlots, old(path), mine)
    {
      ok := Space() > 0 && (!mine || (active && !terminated && state != Dead));
      PathStepInv(numSlots, path, Put(mine));
      if ok {
        SlotAfter(path.head, path.head + 1, numSlots);
        head := if head + 1 == numSlots then 0 else head + 1;
      }
      path := PathStep(numSlots, path, Put(mine));
    }

    // The card moves the tail.
    method OnSent(k: nat)
      requires Valid() && CanSend(numSlots, path, k)
      modifies this`tail, this`path
      ensures Valid() && path == PathStep(numSlots, old(path), Sent(k))
    {
      PathStepInv(numSlots, path, Sent(k));
      SlotAfter(path.tail, path.tail + k, numSlots);
      tail := if tail + k >= numSlots then tail + k - numSlots else tail + k;
      path := PathStep(numSlots, path, Sent(k));
    }

    /** The multicast has nothing more to send (thread_data.c:384-390, 502-509). */
    method Terminate()
      requires Valid() && active && !path.clearing
      modifies this`amHead, this`amTailLast, this`terminated, this`needRelease, this`path
      ensures Valid() && path == PathStep(numSlots, old(path), Ends)
    {
      PathStepInv(numSlots, path, Ends);
      if !terminated {
        SlotAfter(path.head - 1, path.head, numSlots);
        amHead := if head == 0 then numSlots - 1 else head - 1;
        amTailLast := tail;
        terminated, needRelease := true, true;
      }
      path := PathStep(numSlots, path, Ends);
    }

    /** The check made after every round (thread_data.c:652-667). */
    method DrainCheck()
      requires Valid() && !path.clearing
      modifies this`amTailLast, this`state, this`path
      ensures Valid() && path == PathStep(numSlots, old(path), Check)
    {
      PathStepInv(numSlots, path, Check);
      if needRelease {
        DrainedIsExact(path.last, path.checked, path.tail, numSlots);
        var distHt := if tail >= amHead then tail - amHead else tail + numSlots - amHead;
        var distTt := if amTailLast > tail then amTailLast - tail else amTailLast + numSlots - tail;
        if distHt + distTt <= numSlots {
          assert active; // thread_data.c:658
          state := Dead;
        } else {
          amTailLast := tail;
        }
      }
      path := PathStep(numSlots, path, Check);
    }

    // What follows DEAD in the same check, after the service thread may have acted.
    method ClearNeed()
      requires Valid() && path.clearing
      modifies this`needRelease, this`path
      ensures Valid() && path == PathStep(numSlots, old(path), Clear)
    {
      PathStepInv(numSlots, path, Clear);
      needRelease := false;
      path := PathStep(numSlots, path, Clear);
    }
  }

  // ---- the scan over a whole wait

  // The check that fires first, `before` being the tail when the multicast ended.
  function FirstFiring(head: nat, before: nat, tails: seq<nat>, numSlots: nat): nat
    decreases |tails|
  {
    if tails == [] then 0
    else if Drained(head, before, tails[0], numSlots) then 0
    else 1 + FirstFiring(head, tails[0], tails[1..], numSlots)
  }

  // The tail as it is seen at successive checks: it never goes back and never makes a lap.
  predicate Moves(before: int, tails: seq<int>, n: nat)
    decreases |tails|
  {
    tails == [] || (before <= tails[0] < before + n && Moves(tails[0], tails[1..], n))
  }

  function Slots(tails: seq<int>, n: nat): (s: seq<nat>)
    requires n > 0
    ensures |s| == |tails|
  {
    if tails == [] then [] else [Slot(tails[0], n)] + Slots(tails[1..], n)
  }

  /** The wait ends at exactly the first check at which the last multicast slot has been sent. */
  lemma {:induction false} WaitIsExact(last: int, before: int, tails: seq<int>, n: nat)
    requires n > 0 && before <= last < before + n && Moves(before, tails, n)
    ensures var k := FirstFiring(Slot(last, n), Slot(before, n), Slots(tails, n), n);
      && k <= |tails|
      && (forall i :: 0 <= i < k ==> tails[i] < last)
      && (k < |tails| ==> tails[k] >= last)
    decreases |tails|
  {
    if tails != [] {
      DrainedIsExact(last, before, tails[0], n);
      if tails[0] < last {
        var rest := tails[1..];
        WaitIsExact(last, tails[0], rest, n);
        assert Slots(tails, n)[1..] == Slots(rest, n);
        assert forall i :: 0 < i < |tails| ==> tails[i] == rest[i - 1];
      }
    }
  }
}
