/** Which receivers are told FAST_DONE, and when (hero.c:1009-1013, thread_send.c:97-131). */
module FastDoneQueue {
  import opened Basics

  const FAST_DONE_TIMEOUT: int := 1_000_000   // microseconds (global.h:148)

  // A receiver waiting for the stream to reach the end of its window.
  datatype Waiting = Waiting(id: nat, seqEnd: nat)

  // A receiver whose window has been sent, and when that was seen.
  datatype Ripe = Ripe(id: nat, seqEnd: nat, at: int)

  /** Receivers wait in `pq`, move to `ripe` when their window has been sent, and to `settled` after the timeout;
      `told` are those a FAST_DONE was made for. */
  datatype Queue = Queue(pq: seq<Waiting>, ripe: seq<Ripe>, settled: seq<Ripe>, clock: int, told: seq<nat>)

  function EmptyQueue(): Queue { Queue([], [], [], 0, []) }

  // ---- what the operations do

  /** The skip list puts a new entry where its comparator leads it. SenderStateCmp (hero.c:818-820) reads `seqEnd`
      through the address of a list entry, which holds a pointer to the state and not the state, so that nothing is
      known of the place: it is an argument. */
  function Inserted(q: Queue, w: Waiting, place: nat): Queue {
    var k := Min(place, |q.pq|);
    q.(pq := q.pq[..k] + [w] + q.pq[k..])
  }

  // The first of the queue moves to the array.
  function MovedOne(q: Queue, now: int): Queue
    requires q.pq != []
  {
    q.(pq := q.pq[1..], ripe := q.ripe + [Ripe(q.pq[0].id, q.pq[0].seqEnd, now)])
  }

  function Ripened(q: Queue, seqCur: nat, now: int): Queue
    decreases |q.pq|
  {
    if q.pq == [] || seqCur < q.pq[0].seqEnd then q.(clock := now) else Ripened(MovedOne(q, now), seqCur, now)
  }

  // The first of the array is dealt with: it is told unless its ALL_DONE has arrived.
  function SettledOne(q: Queue, allDone: set<nat>): Queue
    requires q.ripe != []
  {
    var r := q.ripe[0];
    q.(ripe := q.ripe[1..], settled := q.settled + [r], told := if r.id in allDone then q.told else q.told + [r.id])
  }

  predicate Overdue(r: Ripe, now: int) { now - r.at > FAST_DONE_TIMEOUT }

  function Fired(q: Queue, now: int, allDone: set<nat>): Queue
    decreases |q.ripe|
  {
    if q.ripe == [] || !Overdue(q.ripe[0], now) then q.(clock := now)
    else Fired(SettledOne(q, allDone), now, allDone)
  }

  // ---- the receivers in it

  function WaitIds(pq: seq<Waiting>): seq<nat> { seq(|pq|, i requires 0 <= i < |pq| => pq[i].id) }

  function RipeIds(rs: seq<Ripe>): seq<nat> { seq(|rs|, i requires 0 <= i < |rs| => rs[i].id) }

  // Every receiver ever inserted, the first to move ahead.
  function Members(q: Queue): seq<nat> { RipeIds(q.settled + q.ripe) + WaitIds(q.pq) }

  predicate Distinct(s: seq<nat>) {
    forall i, j :: 0 <= i < j < |s| ==> s[i] != s[j]
  }

  // Times of ripening only grow, and none lies ahead.
  predicate Ordered(rs: seq<Ripe>, clock: int) {
    && (forall i, j :: 0 <= i < j < |rs| ==> rs[i].at <= rs[j].at)
    && (forall i :: 0 <= i < |rs| ==> rs[i].at <= clock)
  }

  /** Each receiver is in one place, and those told have been settled; `n` is the fan-out. */
  ghost predicate QueueInv(q: Queue, n: nat) {
    && Ordered(q.ripe, q.clock)
    && Distinct(Members(q)) && (forall id :: id in Members(q) ==> id < n)
    && Distinct(q.told) && (forall id :: id in q.told ==> id in RipeIds(q.settled))
  }

  // The receivers 0 .. n-1.
  function Ids(n: nat): (s: set<nat>)
    ensures forall i: nat :: i in s <==> i < n
  {
    if n == 0 then {} else Ids(n - 1) + {n - 1}
  }

  lemma {:induction false} IdsCount(n: nat)
    ensures |Ids(n)| == n
  {
    if n > 0 {
      IdsCount(n - 1);
    }
  }

  // A set of receivers is as large as the fan-out only when it is all of them.
  lemma AllOf(s: set<nat>, n: nat)
    requires s <= Ids(n)
    ensures |s| <= n && (|s| == n <==> s == Ids(n))
  {
    IdsCount(n);
    var rest := Ids(n) - s;
    assert Ids(n) == s + rest;
    assert |Ids(n)| == |s| + |rest|;
  }

  function SetOf(s: seq<nat>): set<nat> { set x | x in s }

  lemma {:induction false} DistinctSize(s: seq<nat>)
    requires Distinct(s)
    ensures |SetOf(s)| == |s|
  {
    if s != [] {
      var before, y := s[..|s| - 1], s[|s| - 1];
      DistinctSize(before);
      assert s == before + [y];
      assert y !in SetOf(before);
      assert SetOf(s) == SetOf(before) + {y};
    }
  }

  /** The queue and the array together hold each receiver at most once, so the array is large enough. */
  lemma Fits(q: Queue, n: nat)
    requires QueueInv(q, n)
    ensures |q.settled| + |q.ripe| + |q.pq| <= n
  {
    DistinctSize(Members(q));
    assert SetOf(Members(q)) <= Ids(n);
    AllOf(SetOf(Members(q)), n);
  }

  // ---- each operation keeps the invariant

  lemma InsertDistinct(s: seq<nat>, at: nat, x: nat)
    requires at <= |s| && Distinct(s) && x !in s
    ensures Distinct(s[..at] + [x] + s[at..])
    ensures forall y :: y in s[..at] + [x] + s[at..] <==> y == x || y in s
  {
    var t := s[..at] + [x] + s[at..];
    forall i, j | 0 <= i < j < |t| ensures t[i] != t[j] {
      if i != at { assert t[i] == s[if i < at then i else i - 1]; }
      if j != at { assert t[j] == s[if j < at then j else j - 1]; }
    }
    assert s == s[..at] + s[at..];
  }

  lemma InsertedMembers(moved: seq<nat>, pq: seq<Waiting>, k: nat, w: Waiting)
    requires k <= |pq|
    ensures var was := moved + WaitIds(pq);
      moved + WaitIds(pq[..k] + [w] + pq[k..]) == was[..|moved| + k] + [w.id] + was[|moved| + k..]
  {
  }

  lemma InsertedInv(q: Queue, w: Waiting, place: nat, n: nat)
    requires QueueInv(q, n) && w.id < n && w.id !in Members(q)
    ensures QueueInv(Inserted(q, w, place), n)
    ensures forall x :: x in Members(Inserted(q, w, place)) <==> x == w.id || x in Members(q)
    ensures forall v :: v in Inserted(q, w, place).pq <==> v == w || v in q.pq
  {
    var k, moved := Min(place, |q.pq|), RipeIds(q.settled + q.ripe);
    InsertedMembers(moved, q.pq, k, w);
    InsertDistinct(Members(q), |moved| + k, w.id);
    assert q.pq == q.pq[..k] + q.pq[k..];
  }

  lemma MovedOneInv(q: Queue, now: int, n: nat)
    requires QueueInv(q, n) && q.pq != [] && q.clock == now
    ensures QueueInv(MovedOne(q, now), n) && Members(MovedOne(q, now)) == Members(q)
  {
    var q' := MovedOne(q, now);
    assert q'.settled + q'.ripe == q.settled + q.ripe + [Ripe(q.pq[0].id, q.pq[0].seqEnd, now)];
    assert Members(q') == Members(q);
  }

  lemma SettledOneInv(q: Queue, allDone: set<nat>, n: nat)
    requires QueueInv(q, n) && q.ripe != []
    ensures QueueInv(SettledOne(q, allDone), n) && Members(SettledOne(q, allDone)) == Members(q)
  {
    var q', r := SettledOne(q, allDone), q.ripe[0];
    assert q'.settled + q'.ripe == q.settled + q.ripe;
    assert RipeIds(q'.settled) == RipeIds(q.settled) + [r.id];
    NotYetTold(q, n);
  }

  // The next receiver in line has not been told before.
  lemma NotYetTold(q: Queue, n: nat)
    requires QueueInv(q, n) && q.ripe != []
    ensures q.ripe[0].id !in q.told && q.ripe[0].id !in RipeIds(q.settled)
  {
    var all, at := Members(q), |q.settled|;
    assert all[at] == q.ripe[0].id;
    assert forall k :: 0 <= k < at ==> RipeIds(q.settled)[k] == all[k] != all[at];
  }

  lemma TickInv(q: Queue, now: int, n: nat)
    requires QueueInv(q, n) && q.clock <= now
    ensures QueueInv(q.(clock := now), n) && Members(q.(clock := now)) == Members(q)
  {
  }

  lemma RipenedInv(q: Queue, seqCur: nat, now: int, n: nat)
    requires QueueInv(q, n) && q.clock <= now
    ensures QueueInv(Ripened(q, seqCur, now), n) && Members(Ripened(q, seqCur, now)) == Members(q)
    ensures Ripened(q, seqCur, now).clock == now
  {
    TickInv(q, now, n);
    RipenedClock(q, seqCur, now, now);
    RipenedNowInv(q.(clock := now), seqCur, now, n);
  }

  lemma {:induction false} RipenedNowInv(q: Queue, seqCur: nat, now: int, n: nat)
    requires QueueInv(q, n) && q.clock == now
    ensures QueueInv(Ripened(q, seqCur, now), n) && Members(Ripened(q, seqCur, now)) == Members(q)
    ensures Ripened(q, seqCur, now).clock == now
    decreases |q.pq|
  {
    if q.pq != [] && q.pq[0].seqEnd <= seqCur {
      MovedOneInv(q, now, n);
      RipenedNowInv(MovedOne(q, now), seqCur, now, n);
    }
  }

  // The clock before does not matter.
  lemma {:induction false} RipenedClock(q: Queue, seqCur: nat, now: int, c: int)
    ensures Ripened(q.(clock := c), seqCur, now) == Ripened(q, seqCur, now)
    decreases |q.pq|
  {
    if q.pq != [] && q.pq[0].seqEnd <= seqCur {
      RipenedClock(MovedOne(q, now), seqCur, now, c);
      assert MovedOne(q.(clock := c), now) == MovedOne(q, now).(clock := c);
    }
  }

  lemma {:induction false} FiredInv(q: Queue, now: int, allDone: set<nat>, n: nat)
    requires QueueInv(q, n) && q.clock <= now
    ensures QueueInv(Fired(q, now, allDone), n) && Members(Fired(q, now, allDone)) == Members(q)
    ensures Fired(q, now, allDone).clock == now
    decreases |q.ripe|
  {
    if q.ripe != [] && Overdue(q.ripe[0], now) {
      SettledOneInv(q, allDone, n);
      FiredInv(SettledOne(q, allDone), now, allDone, n);
    }
  }

  // ---- what they amount to

  function RipeRow(ws: seq<Waiting>, now: int): seq<Ripe> {
    seq(|ws|, i requires 0 <= i < |ws| => Ripe(ws[i].id, ws[i].seqEnd, now))
  }

  /** The receivers that ripen are those at the front of the queue, as far as their windows have been sent; the first
      whose window has not ends the scan. */
  lemma {:induction false} RipenExactly(q: Queue, seqCur: nat, now: int)
    ensures var q' := Ripened(q, seqCur, now);
      var k := |q.pq| - |q'.pq|;
      && 0 <= k && q'.pq == q.pq[k..] && q'.ripe == q.ripe + RipeRow(q.pq[..k], now)
      && q'.settled == q.settled && q'.told == q.told
      && (forall i :: 0 <= i < k ==> q.pq[i].seqEnd <= seqCur)
      && (k < |q.pq| ==> seqCur < q.pq[k].seqEnd)
    decreases |q.pq|
  {
    if q.pq != [] && q.pq[0].seqEnd <= seqCur {
      var q1, q' := MovedOne(q, now), Ripened(q, seqCur, now);
      RipenExactly(q1, seqCur, now);
      RipenOneMore(q.pq, |q.pq| - |q'.pq|, seqCur, now);
      assert q'.ripe == q.ripe + RipeRow(q.pq[..|q.pq| - |q'.pq|], now);
    }
  }

  lemma RipenOneMore(pq: seq<Waiting>, k: int, seqCur: nat, now: int)
    requires 1 <= k <= |pq| && pq[0].seqEnd <= seqCur
    requires forall i :: 0 <= i < k - 1 ==> pq[1..][i].seqEnd <= seqCur
    ensures RipeRow(pq[..k], now) == [Ripe(pq[0].id, pq[0].seqEnd, now)] + RipeRow(pq[1..][..k - 1], now)
    ensures pq[1..][k - 1..] == pq[k..]
    ensures forall i :: 0 <= i < k ==> pq[i].seqEnd <= seqCur
  {
    assert forall i :: 0 < i < |pq| ==> pq[i] == pq[1..][i - 1];
  }

  // No entry that is due stands behind one that is not.
  predicate DueFirst(pq: seq<Waiting>, seqCur: nat) {
    forall i, j :: 0 <= i < j < |pq| && pq[j].seqEnd <= seqCur ==> pq[i].seqEnd <= seqCur
  }

  // The scan stopped after `k` entries.
  predicate StoppedAt(pq: seq<Waiting>, k: nat, seqCur: nat) {
    && k <= |pq| && (forall i :: 0 <= i < k ==> pq[i].seqEnd <= seqCur)
    && (k < |pq| ==> seqCur < pq[k].seqEnd)
  }

  lemma RestIsDueFirst(pq: seq<Waiting>, k: nat, seqCur: nat)
    requires StoppedAt(pq, k, seqCur)
    ensures (forall i :: k <= i < |pq| ==> seqCur < pq[i].seqEnd) <==> DueFirst(pq, seqCur)
  {
  }

  lemma RestOf(pq: seq<Waiting>, k: nat, seqCur: nat)
    requires k <= |pq|
    ensures (forall w :: w in pq[k..] ==> seqCur < w.seqEnd) <==> forall i :: k <= i < |pq| ==> seqCur < pq[i].seqEnd
  {
    assert forall i :: k <= i < |pq| ==> pq[k..][i - k] == pq[i] && pq[i] in pq[k..];
  }

  /** A scan leaves nobody behind whose window has been sent if and only if the queue has those that are due first. */
  lemma NobodyLeftBehind(q: Queue, seqCur: nat, now: int)
    ensures (forall w :: w in Ripened(q, seqCur, now).pq ==> seqCur < w.seqEnd) <==> DueFirst(q.pq, seqCur)
  {
    RipenExactly(q, seqCur, now);
    var k := |q.pq| - |Ripened(q, seqCur, now).pq|;
    RestOf(q.pq, k, seqCur);
    RestIsDueFirst(q.pq, k, seqCur);
  }

  /** The condition can fail: two receivers with the ends 5 and 3, queued in that order, and the stream at 4. */
  lemma LeftBehind()
    ensures var q := EmptyQueue().(pq := [Waiting(0, 5), Waiting(1, 3)]);
      Ripened(q, 4, 0) == q && QueueInv(q, 2) && !DueFirst(q.pq, 4)
    ensures Inserted(Inserted(EmptyQueue(), Waiting(0, 5), 0), Waiting(1, 3), 1).pq == [Waiting(0, 5), Waiting(1, 3)]
  {
    var q := EmptyQueue().(pq := [Waiting(0, 5), Waiting(1, 3)]);
    assert Members(q) == [0, 1];
    assert q.pq[0].seqEnd == 5 && q.pq[1].seqEnd == 3;
  }

  /** Once every window has been sent, one scan empties the queue, whatever its order. */
  lemma AllRipen(q: Queue, seqCur: nat, now: int)
    requires forall w :: w in q.pq ==> w.seqEnd <= seqCur
    ensures Ripened(q, seqCur, now).pq == []
  {
    RipenExactly(q, seqCur, now);
    assert forall i :: 0 <= i < |q.pq| ==> q.pq[i] in q.pq;
  }

  // The receivers of a part of the array that have not reported.
  function Unfinished(rs: seq<Ripe>, allDone: set<nat>): seq<nat> {
    if rs == [] then [] else (if rs[0].id in allDone then [] else [rs[0].id]) + Unfinished(rs[1..], allDone)
  }

  // `q'` is `q` after the first `k` of the array, and no others, were past the timeout.
  ghost predicate SettledFirst(q: Queue, q': Queue, k: int, now: int, allDone: set<nat>) {
    && 0 <= k <= |q.ripe| && q'.pq == q.pq && q'.ripe == q.ripe[k..] && q'.settled == q.settled + q.ripe[..k]
    && q'.told == q.told + Unfinished(q.ripe[..k], allDone)
    && (forall i :: 0 <= i < |q.ripe| ==> (Overdue(q.ripe[i], now) <==> i < k))
  }

  /** The receivers settled are exactly those past the timeout, in order: times of ripening only grow, so stopping at
      the first that is not due passes over none. Those of them still at work are told. */
  lemma {:induction false} FireExactly(q: Queue, now: int, allDone: set<nat>)
    requires Ordered(q.ripe, q.clock)
    ensures var q' := Fired(q, now, allDone); SettledFirst(q, q', |q.ripe| - |q'.ripe|, now, allDone)
    decreases |q.ripe|
  {
    if q.ripe == [] {
      FireNone(q, now, allDone);
    } else if Overdue(q.ripe[0], now) {
      var q1, q' := SettledOne(q, allDone), Fired(q, now, allDone);
      OrderedRest(q.ripe, q.clock);
      FireExactly(q1, now, allDone);
      FireOneMore(q, q1, q', |q.ripe| - |q'.ripe|, now, allDone);
    } else {
      RestNotDue(q.ripe, q.clock, now);
      FireNone(q, now, allDone);
    }
  }

  lemma OrderedRest(rs: seq<Ripe>, clock: int)
    requires Ordered(rs, clock) && rs != []
    ensures Ordered(rs[1..], clock)
  {
  }

  lemma FireNone(q: Queue, now: int, allDone: set<nat>)
    requires forall i :: 0 <= i < |q.ripe| ==> !Overdue(q.ripe[i], now)
    ensures SettledFirst(q, q.(clock := now), 0, now, allDone)
  {
  }

  lemma RestNotDue(rs: seq<Ripe>, clock: int, now: int)
    requires Ordered(rs, clock) && rs != [] && !Overdue(rs[0], now)
    ensures forall i :: 0 <= i < |rs| ==> !Overdue(rs[i], now)
  {
  }

  lemma FireOneMore(q: Queue, q1: Queue, q': Queue, k: int, now: int, allDone: set<nat>)
    requires q.ripe != [] && q1 == SettledOne(q, allDone) && Overdue(q.ripe[0], now)
    requires SettledFirst(q1, q', k - 1, now, allDone)
    ensures SettledFirst(q, q', k, now, allDone)
  {
    var r, front := q.ripe[0], q1.ripe[..k - 1];
    FrontGrows(q.ripe, k);
    OverdueShift(q.ripe, k, now);
    UnfinishedFirst(r, front, allDone);
    Joined(q.settled, r, front);
    Joined(q.told, r.id, Unfinished(front, allDone));
  }

  lemma FrontGrows(rs: seq<Ripe>, k: nat)
    requires 1 <= k <= |rs|
    ensures rs[..k] == [rs[0]] + rs[1..][..k - 1] && rs[1..][k - 1..] == rs[k..]
  {
  }

  lemma OverdueShift(rs: seq<Ripe>, k: nat, now: int)
    requires 1 <= k <= |rs| && Overdue(rs[0], now)
    requires forall i :: 0 <= i < |rs[1..]| ==> (Overdue(rs[1..][i], now) <==> i < k - 1)
    ensures forall i :: 0 <= i < |rs| ==> (Overdue(rs[i], now) <==> i < k)
  {
    assert forall i :: 0 < i < |rs| ==> rs[i] == rs[1..][i - 1];
  }

  lemma UnfinishedFirst(r: Ripe, rs: seq<Ripe>, allDone: set<nat>)
    ensures Unfinished([r] + rs, allDone) == (if r.id in allDone then [] else [r.id]) + Unfinished(rs, allDone)
  {
    assert ([r] + rs)[1..] == rs;
  }

  lemma Joined<T>(a: seq<T>, x: T, b: seq<T>)
    ensures a + [x] + b == a + ([x] + b) && a + b == a + ([] + b)
  {
  }

  /** A FAST_DONE is made for exactly the receivers without ALL_DONE. */
  lemma {:induction false} UnfinishedAreAtWork(rs: seq<Ripe>, allDone: set<nat>, id: nat)
    ensures id in Unfinished(rs, allDone) <==> id !in allDone && id in RipeIds(rs)
  {
    if rs != [] {
      UnfinishedAreAtWork(rs[1..], allDone, id);
      assert RipeIds(rs) == [rs[0].id] + RipeIds(rs[1..]);
    }
  }

  // A receiver is in one place only.
  lemma RipeNotSettled(q: Queue, n: nat, i: nat)
    requires QueueInv(q, n) && i < |q.ripe|
    ensures q.ripe[i].id !in RipeIds(q.settled)
  {
    var all, at := Members(q), |q.settled| + i;
    assert all[at] == q.ripe[i].id;
    assert forall k :: 0 <= k < |q.settled| ==> RipeIds(q.settled)[k] == all[k] != all[at];
  }

  /** One scan tells exactly the receivers that it settles and that have not reported. */
  lemma FireTells(q: Queue, now: int, allDone: set<nat>, n: nat, id: nat)
    requires QueueInv(q, n)
    ensures var q' := Fired(q, now, allDone);
      (id in q'.told && id !in q.told) <==>
        (id !in allDone && id in RipeIds(q'.settled) && id !in RipeIds(q.settled))
  {
    var q' := Fired(q, now, allDone);
    var k := |q.ripe| - |q'.ripe|;
    FireExactly(q, now, allDone);
    var row := q.ripe[..k];
    UnfinishedAreAtWork(row, allDone, id);
    assert RipeIds(q'.settled) == RipeIds(q.settled) + RipeIds(row);
    if id in RipeIds(row) {
      var i :| 0 <= i < k && RipeIds(row)[i] == id;
      RipeNotSettled(q, n, i);
    }
  }

  /** Will receiver `id` be settled by a scan whose first half runs at `now` and second at `later`? It has been ripe for
      longer than the timeout, or is still waiting and the scan itself takes that long. */
  ghost predicate DueAt(q: Queue, id: nat, now: int, later: int) {
    || (exists i :: 0 <= i < |q.ripe| && q.ripe[i].id == id && Overdue(q.ripe[i], later))
    || (id in WaitIds(q.pq) && later - now > FAST_DONE_TIMEOUT)
  }

  lemma FireSettles(q: Queue, later: int, allDone: set<nat>, n: nat, id: nat)
    requires QueueInv(q, n)
    ensures id in RipeIds(Fired(q, later, allDone).settled) && id !in RipeIds(q.settled)
       <==> exists i :: 0 <= i < |q.ripe| && q.ripe[i].id == id && Overdue(q.ripe[i], later)
  {
    var q' := Fired(q, later, allDone);
    var k := |q.ripe| - |q'.ripe|;
    FireExactly(q, later, allDone);
    var row := q.ripe[..k];
    assert RipeIds(q'.settled) == RipeIds(q.settled) + RipeIds(row);
    if i :| 0 <= i < |q.ripe| && q.ripe[i].id == id && Overdue(q.ripe[i], later) {
      assert RipeIds(row)[i] == id;
      RipeNotSettled(q, n, i);
    }
    if id in RipeIds(row) {
      var i :| 0 <= i < k && RipeIds(row)[i] == id;
      assert q.ripe[i].id == id;
    }
  }

  lemma RipeAfterScan(q: Queue, cur: nat, now: int, later: int, id: nat)
    requires forall w :: w in q.pq ==> w.seqEnd <= cur
    ensures var ripe := Ripened(q, cur, now).ripe;
      (exists i :: 0 <= i < |ripe| && ripe[i].id == id && Overdue(ripe[i], later)) <==> DueAt(q, id, now, later)
  {
    var ripe := Ripened(q, cur, now).ripe;
    AllRipen(q, cur, now);
    RipenExactly(q, cur, now);
    assert q.pq[..|q.pq|] == q.pq;
    assert ripe == q.ripe + RipeRow(q.pq, now);
    if i :| 0 <= i < |ripe| && ripe[i].id == id && Overdue(ripe[i], later) {
      if i < |q.ripe| { assert q.ripe[i] == ripe[i]; } else { assert WaitIds(q.pq)[i - |q.ripe|] == id; }
    }
    if i :| 0 <= i < |q.ripe| && q.ripe[i].id == id && Overdue(q.ripe[i], later) { assert ripe[i] == q.ripe[i]; }
    if id in WaitIds(q.pq) && later - now > FAST_DONE_TIMEOUT {
      var i :| 0 <= i < |q.pq| && WaitIds(q.pq)[i] == id;
      assert ripe[|q.ripe| + i] == Ripe(id, q.pq[i].seqEnd, now);
    }
  }

  /** Two scans further apart than the timeout settle everybody, once all windows have been sent. */
  lemma TwoScans(q: Queue, cur: nat, n1: int, l1: int, n2: int, l2: int, allDone: set<nat>, n: nat)
    requires QueueInv(q, n) && q.clock <= n1 <= l1 <= n2 <= l2 && l2 - n1 > FAST_DONE_TIMEOUT
    requires forall w :: w in q.pq ==> w.seqEnd <= cur
    ensures var q' := Fired(Ripened(Fired(Ripened(q, cur, n1), l1, allDone), cur, n2), l2, allDone);
      q'.pq == [] && q'.ripe == []
  {
    var a := Ripened(q, cur, n1);
    RipenedInv(q, cur, n1, n);
    AllRipen(q, cur, n1);
    var b := Fired(a, l1, allDone);
    FiredInv(a, l1, allDone, n);
    FireExactly(a, l1, allDone);
    assert forall r :: r in b.ripe ==> r in a.ripe;
    var c := Ripened(b, cur, n2);
    RipenedInv(b, cur, n2, n);
    RipenExactly(b, cur, n2);
    assert c.ripe == b.ripe + RipeRow([], n2);
    LongRipe(c, n1, l2, allDone);
  }

  lemma LongRipe(q: Queue, since: int, now: int, allDone: set<nat>)
    requires Ordered(q.ripe, q.clock) && now - since > FAST_DONE_TIMEOUT
    requires forall r :: r in q.ripe ==> r.at <= since
    ensures Fired(q, now, allDone).ripe == [] && Fired(q, now, allDone).pq == q.pq
  {
    FireExactly(q, now, allDone);
    if q.ripe != [] {
      var last := |q.ripe| - 1;
      assert q.ripe[last] in q.ripe && Overdue(q.ripe[last], now);
    }
  }

  lemma FireKeeps(q: Queue, now: int, allDone: set<nat>, id: nat)
    requires Ordered(q.ripe, q.clock)
    ensures id in q.told ==> id in Fired(q, now, allDone).told
    ensures id in RipeIds(q.settled) ==> id in RipeIds(Fired(q, now, allDone).settled)
  {
    var q' := Fired(q, now, allDone);
    FireExactly(q, now, allDone);
    if id in RipeIds(q.settled) { SettledGrow(q.settled, q.ripe[..|q.ripe| - |q'.ripe|], id); }
  }

  /** Whoever is settled has been told or has reported. */
  lemma FireAccounts(q: Queue, now: int, allDone: set<nat>, n: nat)
    requires QueueInv(q, n) && forall id :: id in RipeIds(q.settled) ==> id in q.told || id in allDone
    ensures forall id :: id in RipeIds(Fired(q, now, allDone).settled) ==>
      id in Fired(q, now, allDone).told || id in allDone
  {
    var q' := Fired(q, now, allDone);
    forall id | id in RipeIds(q'.settled) ensures id in q'.told || id in allDone {
      FireTells(q, now, allDone, n, id);
      FireKeeps(q, now, allDone, id);
    }
  }

  lemma SettledGrow(rs: seq<Ripe>, more: seq<Ripe>, id: nat)
    requires id in RipeIds(rs)
    ensures id in RipeIds(rs + more)
  {
    assert RipeIds(rs + more) == RipeIds(rs) + RipeIds(more);
  }

  /** Whatever has happened, each receiver has been told at most once. */
  lemma {:induction false} ToldOnce(told: seq<nat>, id: nat)
    requires Distinct(told)
    ensures multiset(told)[id] <= 1
  {
    if told != [] {
      var before, y := told[..|told| - 1], told[|told| - 1];
      assert told == before + [y];
      ToldOnce(before, id);
      if id == y { assert id !in before; }
    }
  }

  // ---- as the send thread keeps it

  /** The queue and the array of one multicast. */
  class FastDoneQueue {
    var pq: seq<Waiting>         // sender_end_seq_pq_p
    const arr: array<Ripe>       // sender_end_seq_arr_p, one place a receiver
    var idxStart: nat
    var idxEnd: nat
    ghost var clock: int
    var told: seq<nat>           // every FAST_DONE put on the command ring, in order

    ghost function View(): Queue
      reads this, arr
      requires idxStart <= idxEnd <= arr.Length
    {
      Queue(pq, arr[idxStart..idxEnd], arr[..idxStart], clock, told)
    }

    ghost predicate Valid()
      reads this, arr
    {
      idxStart <= idxEnd <= arr.Length && QueueInv(View(), arr.Length)
    }

    constructor (fanOut: nat)
      ensures Valid() && View() == EmptyQueue() && arr.Length == fanOut && fresh(arr)
    {
      arr := new Ripe[fanOut](_ => Ripe(0, 0, 0));
      pq, idxStart, idxEnd, clock, told := [], 0, 0, 0, [];
    }

    /** A FIRST_SEQ puts its receiver in the queue, at the place the comparator leads to. */
    method Insert(id: nat, seqEnd: nat, place: nat)
      requires Valid() && id < arr.Length && id !in Members(View())
      modifies this`pq
      ensures Valid() && View() == Inserted(old(View()), Waiting(id, seqEnd), place)
    {
      InsertedInv(View(), Waiting(id, seqEnd), place, arr.Length);
      var k := if place < |pq| then place else |pq|;
      pq := pq[..k] + [Waiting(id, seqEnd)] + pq[k..];
    }

    /** Receivers at the front whose window has been sent move to the array (thread_send.c:98-111), which has room. */
    method Ripen(seqCur: nat, now: int)
      requires Valid() && clock <= now
      modifies this`pq, this`idxEnd, this`clock, arr
      ensures Valid() && View() == Ripened(old(View()), seqCur, now)
    {
      ghost var goal := Ripened(View(), seqCur, now);
      RipenedClock(View(), seqCur, now, now);
      Tick(now);
      while pq != [] && seqCur >= pq[0].seqEnd
        invariant Valid() && clock == now && Ripened(View(), seqCur, now) == goal
        decreases |pq|
      {
        MoveOne(now);
      }
    }

    method MoveOne(now: int)
      requires Valid() && pq != [] && clock == now
      modifies this`pq, this`idxEnd, arr
      ensures Valid() && View() == MovedOne(old(View()), now) && |pq| < |old(pq)|
    {
      ghost var q := View();
      MovedOneInv(q, now, arr.Length);
      Fits(q, arr.Length);
      ghost var start, ripe := arr[..idxStart], arr[idxStart..idxEnd];
      assert idxEnd < arr.Length;
      var r := Ripe(pq[0].id, pq[0].seqEnd, now);
      pq := pq[1..];
      arr[idxEnd] := r;
      idxEnd := idxEnd + 1;
      assert arr[..idxStart] == start && arr[idxStart..idxEnd] == ripe + [r];
      assert View() == MovedOne(q, now);
    }

    // Has the first of the array been ripe for longer than the timeout?
    predicate Due(now: int): (due: bool)
      requires Valid()
      reads this, arr
      ensures due == (View().ripe != [] && Overdue(View().ripe[0], now))
    {
      idxStart < idxEnd && now - arr[idxStart].at > FAST_DONE_TIMEOUT
    }

    /** Once the multicast is dead, the receivers ripe for longer than the timeout are settled, and those still at work
        told (thread_send.c:113-131). */
    method Fire(now: int, allDone: set<nat>)
      requires Valid() && clock <= now
      modifies this`idxStart, this`clock, this`told
      ensures Valid() && View() == Fired(old(View()), now, allDone)
    {
      ghost var goal := Fired(View(), now, allDone);
      FiredClock(View(), now, allDone, now);
      Tick(now);
      while Due(now)
        invariant Valid() && clock == now && Fired(View(), now, allDone) == goal
        decreases idxEnd - idxStart
      {
        FiredMore(View(), now, allDone);
        Settle(allDone);
      }
      FiredStops(View(), now, allDone);
    }

    ghost method Tick(now: int)
      requires Valid() && clock <= now
      modifies this`clock
      ensures Valid() && View() == old(View()).(clock := now)
    {
      clock := now;
    }

    method Settle(allDone: set<nat>)
      requires Valid() && idxStart < idxEnd
      modifies this`idxStart, this`told
      ensures Valid() && View() == SettledOne(old(View()), allDone) && idxStart == old(idxStart) + 1
    {
      ghost var q := View();
      SettledOneInv(q, allDone, arr.Length);
      assert q.ripe[0] == arr[idxStart];
      if arr[idxStart].id !in allDone {
        told := told + [arr[idxStart].id];
      }
      idxStart := idxStart + 1;
      assert arr[..idxStart] == q.settled + [q.ripe[0]] && arr[idxStart..idxEnd] == q.ripe[1..];
    }
  }

  lemma FiredMore(q: Queue, now: int, allDone: set<nat>)
    requires q.ripe != [] && Overdue(q.ripe[0], now)
    ensures Fired(SettledOne(q, allDone), now, allDone) == Fired(q, now, allDone)
  {
  }

  lemma FiredStops(q: Queue, now: int, allDone: set<nat>)
    requires q.clock == now && (q.ripe == [] || !Overdue(q.ripe[0], now))
    ensures Fired(q, now, allDone) == q
  {
  }

  lemma {:induction false} FiredClock(q: Queue, now: int, allDone: set<nat>, c: int)
    ensures Fired(q.(clock := c), now, allDone) == Fired(q, now, allDone)
    decreases |q.ripe|
  {
    if q.ripe != [] && Overdue(q.ripe[0], now) {
      FiredClock(SettledOne(q, allDone), now, allDone, c);
      assert SettledOne(q.(clock := c), allDone) == SettledOne(q, allDone).(clock := c);
    }
  }
}
