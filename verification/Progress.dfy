/** What a push can always come to: the completion message from any point on, and the one way it can break off. */
module Progress {
  import opened Drain
  import opened FastDoneQueue
  import opened Fleet
  import opened Geometry
  import opened Multicast
  import opened Transport
  import Single = Runs
  import Steps = Transfer

  // ---- one receiver: what is in its channels gets through

  predicate Quiet(n: Net) { n.chan == [] && n.ring == [] && n.up == [] && n.pipe == [] }

  // The channel that moves next.
  function NextWork(n: Net): NetEvent {
    if n.pipe != [] then PipeDrains
    else if n.up != [] then SenderReads(0)
    else if n.ring != [] then SenderPumps
    else PatchArrives([])
  }

  function RingWork(n: Net): nat { |n.ring| + |Flat(n.ring)| }

  // Less is outstanding, or as much and further on its way.
  predicate Further(g: Geo, n: Net, n': Net) {
    var p, p' := |Pending(g, n)|, |Pending(g, n')|;
    p' < p || (p' == p &&
      (|n'.pipe| < |n.pipe| || (|n'.pipe| == |n.pipe| &&
        (|n'.up| < |n.up| || (|n'.up| == |n.up| && RingWork(n') < RingWork(n))))))
  }

  // The receiver has handled FAST_DONE and goes on.
  predicate Settling(n: Net) { n.done && !n.halted && n.hasFirst }

  lemma WorkGetsFurther(g: Geo, n: Net)
    requires g.Valid() && Wired(g, n) && n.done && !n.halted && !Quiet(n)
    ensures var n' := NetStep(g, n, NextWork(n)); Settling(n') && Further(g, n, n')
  {
    DoneWasHeard(g, n);
    if n.pipe != [] {
      PipeFurther(g, n);
    } else if n.up != [] {
      ReadFurther(g, n);
    } else if n.ring != [] {
      PumpFurther(g, n);
    } else {
      PatchFurther(g, n);
    }
  }

  lemma DoneWasHeard(g: Geo, n: Net)
    requires g.Valid() && Wired(g, n)
    ensures n.done ==> n.hasFirst
  {
  }

  lemma PipeFurther(g: Geo, n: Net)
    requires g.Valid() && Wired(g, n) && n.done && !n.halted && n.hasFirst && n.pipe != []
    ensures var n' := NetStep(g, n, PipeDrains); Settling(n') && Further(g, n, n')
  {
    MoveRefines(g, n);
    assert Abs(g, Move(n)).pending == Abs(g, n).pending;
  }

  lemma ReadFurther(g: Geo, n: Net)
    requires g.Valid() && Wired(g, n) && n.done && !n.halted && n.hasFirst && n.pipe == [] && n.up != []
    ensures var n' := NetStep(g, n, SenderReads(0)); Settling(n') && Further(g, n, n')
  {
    HeadOfQueue(g, n);
    ReadRefines(g, n, 0);
    assert Abs(g, Read(g, n, 0)).pending == Abs(g, n).pending;
  }

  lemma PumpFurther(g: Geo, n: Net)
    requires g.Valid() && Wired(g, n) && n.done && !n.halted && n.hasFirst && n.pipe == [] && n.up == [] && n.ring != []
    ensures var n' := NetStep(g, n, SenderPumps); Settling(n') && Further(g, n, n')
  {
    PumpRefines(g, n);
    assert Abs(g, Pump(n)).pending == Abs(g, n).pending;
    RingShrinks(n);
  }

  lemma RingShrinks(n: Net)
    requires n.ring != []
    ensures RingWork(Pump(n)) < RingWork(n)
  {
    PumpKeepsStream(n);
    assert |Pump(n).chan + Flat(Pump(n).ring)| == |n.chan + Flat(n.ring)|;
  }

  lemma PatchFurther(g: Geo, n: Net)
    requires g.Valid() && Wired(g, n) && n.done && !n.halted && n.hasFirst && n.chan != []
    ensures var n' := NetStep(g, n, PatchArrives([])); Settling(n') && Further(g, n, n')
  {
    ArrivalEnabled(g, n, []);
    PatchedRefines(g, n, []);
    PatchedFrame(g, n, []);
    assert Abs(g, Patched(g, n, [])).pending == Abs(g, n).pending[1..];
  }

  // ---- the same as events of a push

  function WorkEvent(i: nat, n: Net): FleetEvent {
    if NextWork(n).SenderReads? then Reads(i, 0, 0) else Works(i, NextWork(n))
  }

  // Receiver `i` has moved, and nothing the other receivers or the queue depend on.
  ghost predicate OnlyMoved(f: Fleet, f': Fleet, i: nat) {
    && |f'.nets| == |f.nets| && (forall j :: 0 <= j < |f.nets| && j != i ==> f'.nets[j] == f.nets[j])
    && f'.m.queue == f.m.queue
  }

  lemma WorksIs(g: Geo, f: Fleet, i: nat, e: NetEvent)
    requires g.Valid() && AllWired(g, f.nets) && i < |f.nets| && OnTheWay(e)
    ensures var f' := FleetStep(g, f, Works(i, e)); OnlyMoved(f, f', i) && f'.nets[i] == NetStep(g, f.nets[i], e)
  {
    hide Wired, NetStep;
  }

  lemma ReadsIs(g: Geo, f: Fleet, i: nat)
    requires g.Valid() && AllWired(g, f.nets) && i < |f.nets| && !Silent(f.nets[i]) && !f.nets[i].up[0].FirstSeq?
    ensures var f' := FleetStep(g, f, Reads(i, 0, 0));
      OnlyMoved(f, f', i) && f'.nets[i] == NetStep(g, f.nets[i], SenderReads(0))
  {
    hide Wired, NetStep;
  }

  lemma NotFirst(g: Geo, n: Net)
    requires g.Valid() && Wired(g, n) && n.hasFirst && n.up != []
    ensures !n.up[0].FirstSeq?
  {
    HeadOfQueue(g, n);
  }

  lemma WorkEventIs(g: Geo, f: Fleet, i: nat)
    requires g.Valid() && AllWired(g, f.nets) && i < |f.nets|
    requires f.nets[i].done && !f.nets[i].halted && !Quiet(f.nets[i])
    ensures var f' := FleetStep(g, f, WorkEvent(i, f.nets[i]));
      OnlyMoved(f, f', i) && f'.nets[i] == NetStep(g, f.nets[i], NextWork(f.nets[i]))
  {
    hide Wired, NetStep, FleetStep, OnlyMoved;
    var n := f.nets[i];
    DoneWasHeard(g, n);
    if NextWork(n).SenderReads? {
      NotFirst(g, n);
      ReadsIs(g, f, i);
    } else {
      WorksIs(g, f, i, NextWork(n));
    }
  }

  lemma Passed(f: Fleet, f': Fleet, f'': Fleet, i: nat)
    requires OnlyMoved(f, f', i) && OnlyMoved(f', f'', i)
    ensures OnlyMoved(f, f'', i)
  {
  }

  /** Whatever is in the channels of a receiver that has handled FAST_DONE gets through. */
  lemma Drains(g: Geo, nInit: nat, es: seq<FleetEvent>, i: nat) returns (more: seq<FleetEvent>)
    requires g.Valid() && i < nInit == |FleetRun(g, nInit, es).nets|
    requires FleetRun(g, nInit, es).nets[i].done && !FleetRun(g, nInit, es).nets[i].halted
    ensures var f, f' := FleetRun(g, nInit, es), FleetRun(g, nInit, es + more);
      OnlyMoved(f, f', i) && Settling(f'.nets[i]) && Quiet(f'.nets[i])
    decreases |Pending(g, FleetRun(g, nInit, es).nets[i])|, |FleetRun(g, nInit, es).nets[i].pipe|,
      |FleetRun(g, nInit, es).nets[i].up|, RingWork(FleetRun(g, nInit, es).nets[i])
  {
    hide Wired, NetStep, FleetStep, AllWired, Pending, RingWork, WorkEvent, FleetRun;
    var n := FleetRun(g, nInit, es).nets[i];
    WiredInRun(g, nInit, es, i);
    if Quiet(n) {
      DoneWasHeard(g, n);
      more := [];
      assert es + [] == es;
    } else {
      var e := WorkEvent(i, n);
      OneWork(g, nInit, es, i);
      var rest := Drains(g, nInit, es + [e], i);
      more := [e] + rest;
      assert es + [e] + rest == es + more;
      Passed(FleetRun(g, nInit, es), FleetRun(g, nInit, es + [e]), FleetRun(g, nInit, es + more), i);
    }
  }

  lemma WiredInRun(g: Geo, nInit: nat, es: seq<FleetEvent>, i: nat)
    requires g.Valid() && i < nInit == |FleetRun(g, nInit, es).nets|
    ensures Wired(g, FleetRun(g, nInit, es).nets[i])
  {
    FleetRunInv(g, nInit, es);
  }

  lemma OneWork(g: Geo, nInit: nat, es: seq<FleetEvent>, i: nat)
    requires g.Valid() && i < nInit == |FleetRun(g, nInit, es).nets|
    requires var n := FleetRun(g, nInit, es).nets[i]; n.done && !n.halted && !Quiet(n)
    ensures var f := FleetRun(g, nInit, es);
      var f' := FleetRun(g, nInit, es + [WorkEvent(i, f.nets[i])]);
      OnlyMoved(f, f', i) && Settling(f'.nets[i]) && Further(g, f.nets[i], f'.nets[i])
  {
    hide Wired, NetStep, FleetStep, Further, Pending, FleetRun, Books;
    var f := FleetRun(g, nInit, es);
    FleetRunInv(g, nInit, es);
    FleetPush(g, nInit, es, WorkEvent(i, f.nets[i]));
    WorkEventIs(g, f, i);
    WiredInRun(g, nInit, es, i);
    WorkGetsFurther(g, f.nets[i]);
  }

  // ---- the stream goes on to the end of the multicast

  function Sending(es: seq<FleetEvent>, k: nat): seq<FleetEvent> {
    if k == 0 then es else Sending(es, k - 1) + [Sends]
  }

  lemma {:induction false} SendingIs(g: Geo, nInit: nat, es: seq<FleetEvent>, k: nat)
    requires g.Valid() && nInit > 0
    requires FleetRun(g, nInit, es).state != Dead && FleetRun(g, nInit, es).cur + k < SEQNUM_MAX
    ensures var f := FleetRun(g, nInit, es); FleetRun(g, nInit, Sending(es, k)) == f.(cur := f.cur + k)
    decreases k
  {
    hide FleetRun, AllWired;
    if k > 0 {
      SendingIs(g, nInit, es, k - 1);
      FleetPush(g, nInit, Sending(es, k - 1), Sends);
    }
  }

  // All have been heard, and nobody has failed an assertion.
  predicate Sound(f: Fleet) {
    && (forall i :: 0 <= i < |f.nets| ==> f.nets[i].hasFirst && !f.nets[i].halted)
  }

  /** Once all have been heard, the stream reaches the end and the multicast is marked dead. */
  lemma ReachesEnd(g: Geo, nInit: nat, es: seq<FleetEvent>) returns (es': seq<FleetEvent>)
    requires g.Valid() && nInit == |FleetRun(g, nInit, es).nets| > 0 && Sound(FleetRun(g, nInit, es))
    requires FleetRun(g, nInit, es).m.seqEnd < SEQNUM_MAX
    ensures es <= es'
    ensures var f, f' := FleetRun(g, nInit, es), FleetRun(g, nInit, es');
      f'.nets == f.nets && f'.m == f.m && f'.state == Dead && AllSent(f')
  {
    hide FleetRun, AllWired, Known, Queued;
    var f := FleetRun(g, nInit, es);
    FleetRunBooks(g, nInit, es);
    AllHeard(g, nInit, f);
    HeardMeansGranted(g, nInit, f);
    if f.state == Dead {
      es' := es;
    } else {
      var k := if f.cur < f.m.seqEnd then f.m.seqEnd - f.cur else 0;
      SendingIs(g, nInit, es, k);
      SendingPrefix(es, k);
      FleetPush(g, nInit, Sending(es, k), Dies);
      es' := Sending(es, k) + [Dies];
    }
  }

  lemma {:induction false} SendingPrefix(es: seq<FleetEvent>, k: nat)
    ensures es <= Sending(es, k)
  {
    if k > 0 { SendingPrefix(es, k - 1); }
  }

  lemma HeardMeansGranted(g: Geo, nInit: nat, f: Fleet)
    requires g.N > 0 && Books(g, nInit, f) && f.nets[0].hasFirst
    ensures f.granted
  {
    assert Known(g, f, 0, f.nets[0]);
    HeardIsGranted(g, nInit, f, 0);
  }

  // ---- two scans

  // The receiver has been told, or has reported by ALL_DONE.
  predicate Accounted(m: Multi, i: nat) { i in m.queue.told || i in m.hasAllDone }

  /** After the multicast is dead, two turns of the send loop further apart than the timeout leave nobody out: every
      receiver has been told FAST_DONE or has reported. */
  lemma TwoScansReachAll(g: Geo, nInit: nat, es: seq<FleetEvent>, n1: int, l1: int, n2: int, l2: int)
    requires g.Valid() && nInit > 0
    requires var f := FleetRun(g, nInit, es);
      AllSent(f) && f.state == Dead && f.m.queue.clock <= n1 <= l1 <= n2 <= l2 && l2 - n1 > FAST_DONE_TIMEOUT
    ensures var f, f' := FleetRun(g, nInit, es), FleetRun(g, nInit, es + [Polls(n1, l1)] + [Polls(n2, l2)]);
      && f'.nets == f.nets && |f.nets| == nInit
      && forall i :: 0 <= i < nInit ==> Accounted(f'.m, i)
  {
    hide FleetRun, AllWired, Books, Polled, Accounted;
    var f := FleetRun(g, nInit, es);
    var f1 := f.(m := Polled(f.m, f.cur, Dead, n1, l1));
    FleetRunBooks(g, nInit, es);
    PolledClock(g, nInit, f, n1, l1);
    FleetPush(g, nInit, es, Polls(n1, l1));
    FleetPush(g, nInit, es + [Polls(n1, l1)], Polls(n2, l2));
    ScansReachAll(g, nInit, f, n1, l1, n2, l2);
    BooksSize(g, nInit, f);
  }

  lemma BooksSize(g: Geo, nInit: nat, f: Fleet)
    requires g.N > 0 && Books(g, nInit, f)
    ensures |f.nets| == nInit
  {
  }

  lemma PolledClock(g: Geo, nInit: nat, f: Fleet, now: int, later: int)
    requires g.N > 0 && Books(g, nInit, f) && f.m.queue.clock <= now <= later
    ensures Polled(f.m, f.cur, Dead, now, later).queue.clock == later
  {
    RipenedInv(f.m.queue, f.cur, now, nInit);
    FiredInv(Ripened(f.m.queue, f.cur, now), later, f.m.hasAllDone, nInit);
  }

  lemma ScansReachAll(g: Geo, nInit: nat, f: Fleet, n1: int, l1: int, n2: int, l2: int)
    requires g.N > 0 && Books(g, nInit, f) && AllSent(f)
    requires f.m.queue.clock <= n1 <= l1 <= n2 <= l2 && l2 - n1 > FAST_DONE_TIMEOUT
    ensures var m := Polled(Polled(f.m, f.cur, Dead, n1, l1), f.cur, Dead, n2, l2);
      forall i :: 0 <= i < nInit ==> Accounted(m, i)
  {
    var m1 := Polled(f.m, f.cur, Dead, n1, l1);
    var m := Polled(m1, f.cur, Dead, n2, l2);
    EndsSent(f.m, nInit, g.N, f.cur);
    TwoScans(f.m.queue, f.cur, n1, l1, n2, l2, f.m.hasAllDone, nInit);
    PolledQueued(f.m, nInit, f.cur, Dead, n1, l1);
    PolledClock(g, nInit, f, n1, l1);
    PolledQueued(m1, nInit, f.cur, Dead, n2, l2);
    AllHeard(g, nInit, f);
    assert m.ends == f.m.ends;
    forall i: nat | i < nInit ensures Accounted(m, i) {
      SettledByNow(m, nInit, f.cur, i);
    }
  }

  lemma SettledByNow(m: Multi, nInit: nat, cur: nat, i: nat)
    requires Queued(m, nInit, cur) && m.queue.pq == [] && m.queue.ripe == [] && i in m.ends
    ensures Accounted(m, i)
  {
    assert i in Members(m.queue);
    assert m.queue.settled + [] == m.queue.settled;
    assert i in RipeIds(m.queue.settled);
  }

  // ---- every receiver comes to rest

  // Whoever has not reported has been told.
  predicate Reached(g: Geo, f: Fleet) {
    && Sound(f)
    && forall i :: 0 <= i < |f.nets| ==> Reported(g, f.nets[i]) || i in f.m.queue.told
  }

  lemma Rests(g: Geo, nInit: nat, es: seq<FleetEvent>, i: nat) returns (es': seq<FleetEvent>)
    requires g.Valid() && i < nInit == |FleetRun(g, nInit, es).nets| && Reached(g, FleetRun(g, nInit, es))
    ensures es <= es'
    ensures var f, f' := FleetRun(g, nInit, es), FleetRun(g, nInit, es');
      && OnlyMoved(f, f', i) && AtRest(g, f'.nets[i]) && f'.nets[i].hasFirst && !f'.nets[i].halted
      && (Reported(g, f'.nets[i]) || i in f'.m.queue.told)
  {
    hide FleetRun, AllWired, Books, NetStep, Wired;
    var f := FleetRun(g, nInit, es);
    if Reported(g, f.nets[i]) {
      es' := es;
    } else {
      ToldRun(g, nInit, es, i);
      WiredInRun(g, nInit, es, i);
      ToldSettles(g, f.nets[i]);
      OnlyTold(g, nInit, es, i);
      var more := Drains(g, nInit, es + [Told(i)], i);
      es' := es + [Told(i)] + more;
    }
  }

  lemma OnlyTold(g: Geo, nInit: nat, es: seq<FleetEvent>, i: nat)
    requires g.Valid() && i < nInit == |FleetRun(g, nInit, es).nets| && i in FleetRun(g, nInit, es).m.queue.told
    ensures OnlyMoved(FleetRun(g, nInit, es), FleetRun(g, nInit, es + [Told(i)]), i)
  {
    hide FleetRun, NetStep, Wired;
    FleetPush(g, nInit, es, Told(i));
  }

  lemma ToldSettles(g: Geo, n: Net)
    requires g.Valid() && Wired(g, n) && n.hasFirst && !n.halted
    ensures Settling(NetStep(g, n, FastDoneArrives))
  {
  }

  lemma {:induction false} AllRest(g: Geo, nInit: nat, es: seq<FleetEvent>, k: nat) returns (es': seq<FleetEvent>)
    requires g.Valid() && k <= nInit == |FleetRun(g, nInit, es).nets| && Reached(g, FleetRun(g, nInit, es))
    ensures es <= es' && |FleetRun(g, nInit, es').nets| == nInit && Reached(g, FleetRun(g, nInit, es'))
    ensures forall i :: 0 <= i < k ==> AtRest(g, FleetRun(g, nInit, es').nets[i])
    decreases k
  {
    hide FleetRun, AtRest, Reported;
    if k == 0 {
      es' := es;
    } else {
      var before := AllRest(g, nInit, es, k - 1);
      es' := Rests(g, nInit, before, k - 1);
    }
  }

  // ---- a push can always be completed

  /** However a push has gone, once all receivers have been heard and as long as none has failed an assertion, it can be
      continued to the point where the completion message is made. */
  lemma CanComplete(g: Geo, nInit: nat, es: seq<FleetEvent>)
    requires g.Valid() && nInit == |FleetRun(g, nInit, es).nets| > 0 && Sound(FleetRun(g, nInit, es))
    requires FleetRun(g, nInit, es).m.seqEnd < SEQNUM_MAX
    ensures exists es' :: es <= es' && FleetRun(g, nInit, es').m.created == 1
  {
    hide FleetRun, AtRest, Reported, AllSent;
    var a := ReachesEnd(g, nInit, es);
    var c := FleetRun(g, nInit, a).m.queue.clock;
    var late := c + FAST_DONE_TIMEOUT + 1;
    var b := a + [Polls(c, c)] + [Polls(late, late)];
    TwoScansReachAll(g, nInit, a, c, c, late, late);
    ReachedByScans(g, nInit, b);
    var d := AllRest(g, nInit, b, nInit);
    DrainedCompletes(g, nInit, d);
    assert es <= d;
  }

  lemma ReachedByScans(g: Geo, nInit: nat, es: seq<FleetEvent>)
    requires g.Valid() && nInit == |FleetRun(g, nInit, es).nets| > 0 && Sound(FleetRun(g, nInit, es))
    requires forall i :: 0 <= i < nInit ==> Accounted(FleetRun(g, nInit, es).m, i)
    ensures Reached(g, FleetRun(g, nInit, es))
  {
    var f := FleetRun(g, nInit, es);
    FleetRunBooks(g, nInit, es);
    forall i | 0 <= i < nInit ensures Reported(g, f.nets[i]) || i in f.m.queue.told {
      assert Known(g, f, i, f.nets[i]) && Accounted(f.m, i);
    }
  }

  // ---- where a push can break off

  // The stream goes on by `n` packets, and packet `k` of it reaches the only receiver.
  function Hearing(es: seq<FleetEvent>, n: nat, k: nat): seq<FleetEvent> { Sending(es, n) + [Hears(0, k, [])] }

  lemma HearingIs(g: Geo, es: seq<FleetEvent>, n: nat, k: nat)
    requires g.Valid() && FleetRun(g, 1, es).state != Dead && |FleetRun(g, 1, es).nets| == 1
    requires k < FleetRun(g, 1, es).cur + n < SEQNUM_MAX
    ensures var f, f' := FleetRun(g, 1, es), FleetRun(g, 1, Hearing(es, n, k));
      && f'.state == f.state && f'.cur == f.cur + n && |f'.nets| == 1
      && Abs(g, f'.nets[0]) == Single.Apply(g, Abs(g, f.nets[0]), Steps.Fast(k % g.N, []))
  {
    hide FleetRun, Wired, NetStep, Abs, Single.Apply;
    var f := FleetRun(g, 1, es);
    SendingIs(g, 1, es, n);
    FleetPush(g, 1, Sending(es, n), Hears(0, k, []));
    WiredInRun(g, 1, es, 0);
    HearsApplies(g, f.nets[0], k % g.N);
  }

  lemma HearsApplies(g: Geo, n: Net, c: nat)
    requires g.Valid() && Wired(g, n) && c < g.N
    ensures Abs(g, NetStep(g, n, FastArrives(c, []))) == Single.Apply(g, Abs(g, n), Steps.Fast(c, []))
  {
    StepWired(g, n, FastArrives(c, []));
  }

  // Packets 2 and 4 of the stream arrive, and packets 7 and 9 of the next round: 2, 0, 3 and 1 of a file of four.
  const TwoRoundEvents: seq<FleetEvent> :=
    Hearing(Hearing(Hearing(Hearing([Granted], 3, 2), 2, 4), 3, 7), 2, 9)

  lemma TwoRoundsOfStream(g: Geo, es: seq<FleetEvent>)
    requires g.Valid() && g.N == 4 && FleetRun(g, 1, es) == FleetInit(1).(granted := true, state := Initiated)
    ensures var f := FleetRun(g, 1, Hearing(Hearing(Hearing(Hearing(es, 3, 2), 2, 4), 3, 7), 2, 9));
      |f.nets| == 1 && f.cur == 10 && Abs(g, f.nets[0]).halted
  {
    hide FleetRun, Abs, Hearing, Single.Run;
    var a := Hearing(es, 3, 2);
    var b := Hearing(a, 2, 4);
    var c := Hearing(b, 3, 7);
    NetInitWired(g);
    HearingIs(g, es, 3, 2);
    HearingIs(g, a, 2, 4);
    HearingIs(g, b, 3, 7);
    HearingIs(g, c, 2, 9);
    TwoRoundsApplied(g, FleetRun(g, 1, es).nets[0]);
  }

  lemma TwoRoundsApplied(g: Geo, n: Net)
    requires g.Valid() && g.N == 4 && Abs(g, n) == Steps.Init()
    ensures Single.Apply(g, Single.Apply(g, Single.Apply(g, Single.Apply(g, Abs(g, n),
      Steps.Fast(2, [])), Steps.Fast(0, [])), Steps.Fast(3, [])), Steps.Fast(1, [])).halted
  {
    hide Single.Apply, Abs;
    var a := [] + [Steps.Fast(2, [])];
    var b := a + [Steps.Fast(0, [])];
    var c := b + [Steps.Fast(3, [])];
    Single.RunPush(g, [], Steps.Fast(2, []));
    Single.RunPush(g, a, Steps.Fast(0, []));
    Single.RunPush(g, b, Steps.Fast(3, []));
    Single.RunPush(g, c, Steps.Fast(1, []));
    Single.TwoRoundsHalt(g, []);
  }

  lemma GrantedIs(g: Geo, f: Fleet)
    requires g.Valid() && AllWired(g, f.nets) && !f.granted
    ensures FleetStep(g, f, Granted) == f.(granted := true, state := Initiated)
  {
    hide AllWired;
  }

  lemma NoEvents(g: Geo, nInit: nat)
    requires g.Valid()
    ensures FleetRun(g, nInit, []) == FleetInit(nInit)
  {
    hide AllWired, FleetStep;
  }

  lemma GrantedFirst(g: Geo)
    requires g.Valid()
    ensures FleetRun(g, 1, [Granted]) == FleetInit(1).(granted := true, state := Initiated)
  {
    hide FleetRun, FleetStep, AllWired;
    NoEvents(g, 1);
    FleetPush(g, 1, [], Granted);
    GrantedIs(g, FleetInit(1));
    assert [] + [Granted] == [Granted];
  }

  /** The assertion at thread_data.c:235 fails in a push of four packets to one receiver, while the sender goes through
      the second round of its stream. */
  lemma PushHalts()
    ensures Single.FourPackets().Valid()
    ensures var f := FleetRun(Single.FourPackets(), 1, TwoRoundEvents); |f.nets| == 1 && f.cur == 10 && f.nets[0].halted
  {
    hide FleetRun, Hearing;
    Single.FourPacketsValid();
    GrantedFirst(Single.FourPackets());
    TwoRoundsOfStream(Single.FourPackets(), [Granted]);
  }
}
