/**
 * The sender with all its receivers: every receiver over its own channels, the counters and the FAST_DONE queue of the
 * multicast, and the clock of the stream that joins them.
 */
module Fleet {
  import opened Basics
  import opened Drain
  import opened FastDoneQueue
  import opened Geometry
  import opened Multicast
  import opened ReceiverSpec
  import opened Transport
  import Placement
  import Ends = Termination

  datatype Fleet = Fleet(
    nets: seq<Net>,            // the receivers of the push
    m: Multi,
    cur: nat,                  // seq_cur: packets of the endless stream sent so far
    state: BcdState,
    granted: bool,
    firstAt: map<nat, nat>,    // history: number in the stream of each receiver's first packet,
    readAt: map<nat, (nat, nat)>)   // and the two readings of the clock its end was worked out from

  datatype FleetEvent =
    | Granted                                       // bcd_state = INITIATED (thread_service.c:272)
    | Sends                                         // one packet of the stream (thread_data.c:454-495)
    | Dies                                          // all is sent: DEAD (thread_data.c:657-659)
    | Hears(i: nat, k: nat, junk: seq<byte>)        // packet k of the stream reaches receiver i
    | Works(i: nat, e: NetEvent)                    // one of the channels of receiver i moves
    | Told(i: nat)                                  // FAST_DONE reaches receiver i
    | Reads(i: nat, between: nat, place: nat)       // the sender handles a message of receiver i; the clock moves on
                                                    // by `between` while it works out the end, which goes to `place`
    | Polls(now: int, later: int)                   // one turn of the send loop (thread_send.c:97-131)

  function FleetInit(nInit: nat): Fleet {
    Fleet(seq(nInit, _ => NetInit()), Unheard(), 0, Dead, false, map[], map[])
  }

  ghost predicate AllWired(g: Geo, nets: seq<Net>)
    requires g.Valid()
  {
    forall i :: 0 <= i < |nets| ==> Wired(g, nets[i])
  }

  function With(f: Fleet, i: nat, n: Net): Fleet
    requires i < |f.nets|
  {
    f.(nets := f.nets[i := n])
  }

  predicate Silent(n: Net) { n.halted || n.up == [] }

  // seq_cur is read once more before the division (hero.c:1000-1007).
  function Later(cur: nat, between: nat): nat { if cur + between < SEQNUM_MAX then cur + between else cur }

  ghost function ReadStep(g: Geo, f: Fleet, i: nat, between: nat, place: nat): Fleet
    requires g.Valid() && AllWired(g, f.nets) && i < |f.nets| && !Silent(f.nets[i])
  {
    var n, later := f.nets[i], Later(f.cur, between);
    match n.up[0]
    case FirstSeq(first) =>
      var round := Ends.Round(first, f.cur, later, g.N);
      With(f, i, NetStep(g, n, SenderReads(round))).(
        m := FirstHeard(f.m, |f.nets|, g.N, i, Ends.SeqEnd(first, f.cur, later, g.N), place), cur := later,
        readAt := f.readAt[i := (f.cur, later)])
    case PatchReq(_) => With(f, i, NetStep(g, n, SenderReads(0)))
    case AllDone => With(f, i, NetStep(g, n, SenderReads(0))).(m := AllDoneHeard(f.m, |f.nets|, i))
  }

  ghost function HearStep(g: Geo, f: Fleet, i: nat, k: nat, junk: seq<byte>): Fleet
    requires g.Valid() && AllWired(g, f.nets) && i < |f.nets|
  {
    With(f, i, NetStep(g, f.nets[i], FastArrives(k % g.N, junk))).(
      firstAt := if f.nets[i].r.isFst then f.firstAt else f.firstAt[i := k])
  }

  ghost function WorkStep(g: Geo, f: Fleet, i: nat, e: NetEvent): Fleet
    requires g.Valid() && AllWired(g, f.nets) && i < |f.nets|
  {
    With(f, i, NetStep(g, f.nets[i], e))
  }

  predicate AllSent(f: Fleet) { f.granted && f.m.seqEnd <= f.cur && f.m.nFirstSeq == |f.nets| }

  predicate OnTheWay(e: NetEvent) { e.PipeDrains? || e.SenderPumps? || e.PatchArrives? }

  ghost function FleetStep(g: Geo, f: Fleet, e: FleetEvent): Fleet
    requires g.Valid() && AllWired(g, f.nets)
  {
    match e
    case Granted => if f.granted then f else f.(granted := true, state := Initiated)
    case Sends => if f.state != Dead && f.cur + 1 < SEQNUM_MAX then f.(cur := f.cur + 1) else f
    case Dies => if AllSent(f) then f.(state := Dead) else f
    case Hears(i, k, junk) => if i < |f.nets| && k < f.cur then HearStep(g, f, i, k, junk) else f
    case Works(i, e) => if i < |f.nets| && OnTheWay(e) then WorkStep(g, f, i, e) else f
    case Told(i) => if i < |f.nets| && i in f.m.queue.told then WorkStep(g, f, i, FastDoneArrives) else f
    case Reads(i, between, place) =>
      if i < |f.nets| && !Silent(f.nets[i]) then ReadStep(g, f, i, between, place) else f
    case Polls(now, later) =>
      if f.m.queue.clock <= now <= later then f.(m := Polled(f.m, f.cur, f.state, now, later)) else f
  }

  ghost function FleetRun(g: Geo, nInit: nat, es: seq<FleetEvent>): Fleet
    requires g.Valid()
    decreases |es|
  {
    if es == [] then FleetInit(nInit) else
    var f := FleetRun(g, nInit, es[..|es| - 1]);
    if AllWired(g, f.nets) then FleetStep(g, f, es[|es| - 1]) else f
  }

  // ---- the invariant

  // The window given to receiver `i` begins with its first packet and is whole, and it ends no further past the
  // readings of the clock than it must.
  ghost predicate Windowed(g: Geo, f: Fleet, i: nat, n: Net)
    requires g.N > 0
  {
    && n.hasFirst && n.r.isFst && i in f.firstAt && i in f.readAt
    && f.firstAt[i] % g.N == n.r.fst && f.firstAt[i] + g.N <= n.seqEnd
    && f.firstAt[i] < f.readAt[i].0 <= f.readAt[i].1 <= f.cur
    && Ends.Tight(n.r.fst, f.readAt[i].0, f.readAt[i].1, g.N, n.seqEnd)
  }

  // What the sender has noted of receiver `i` agrees with that receiver.
  ghost predicate Known(g: Geo, f: Fleet, i: nat, n: Net)
    requires g.N > 0
  {
    && (n.r.isFst ==> i in f.firstAt && f.firstAt[i] < f.cur && f.firstAt[i] % g.N == n.r.fst)
    && (n.hasFirst <==> i in f.m.ends)
    && (n.hasFirst ==> n.r.isFst && f.m.ends[i] == n.seqEnd && Windowed(g, f, i, n))
    && (n.hasAllDone <==> i in f.m.hasAllDone)
    && (n.done ==> i in f.m.queue.told)
  }

  // Before the grant nothing is sent; a multicast that was granted is dead only when all its windows are sent.
  ghost predicate Clocked(f: Fleet) {
    && f.cur < SEQNUM_MAX
    && (!f.granted ==> f.cur == 0 && f.state == Dead)
    && (f.granted && f.state == Dead ==> f.m.nFirstSeq == |f.nets| && f.m.seqEnd <= f.cur)
    && (f.m.queue.settled != [] ==> f.granted && f.state == Dead)
  }

  ghost predicate Books(g: Geo, nInit: nat, f: Fleet)
    requires g.N > 0
  {
    && 0 < nInit == |f.nets|
    && (forall i :: 0 <= i < nInit ==> Known(g, f, i, f.nets[i]))
    && Counts(f.m, nInit, g.N) && Queued(f.m, nInit, f.cur) && Clocked(f)
  }

  ghost predicate FleetInv(g: Geo, nInit: nat, f: Fleet)
    requires g.Valid()
  {
    AllWired(g, f.nets) && Books(g, nInit, f)
  }

  lemma FleetInitInv(g: Geo, nInit: nat)
    requires g.Valid() && nInit > 0
    ensures FleetInv(g, nInit, FleetInit(nInit))
  {
    NetInitWired(g);
    assert Members(EmptyQueue()) == [];
  }

  // One receiver moves, and the sender's books stay as they are.
  lemma OneMoves(g: Geo, nInit: nat, f: Fleet, i: nat, n: Net)
    requires g.N > 0 && Books(g, nInit, f) && i < nInit && SameBooks(f.nets[i], n)
    requires (n.r.isFst ==> f.nets[i].r.isFst) && (n.done ==> f.nets[i].done || i in f.m.queue.told)
    ensures Books(g, nInit, With(f, i, n))
  {
    var f' := With(f, i, n);
    forall j | 0 <= j < nInit ensures Known(g, f', j, f'.nets[j]) {
      assert Known(g, f, j, f.nets[j]);
    }
  }

  // A packet arrives, perhaps the first.
  lemma OneHears(g: Geo, nInit: nat, f: Fleet, i: nat, k: nat, n: Net)
    requires g.N > 0 && Books(g, nInit, f) && i < nInit && k < f.cur
    requires SameBooks(f.nets[i], n) && n.done == f.nets[i].done
    requires !f.nets[i].r.isFst && n.r.isFst ==> n.r.fst == k % g.N
    ensures Books(g, nInit, With(f, i, n).(firstAt := if f.nets[i].r.isFst then f.firstAt else f.firstAt[i := k]))
  {
    var f' := With(f, i, n).(firstAt := if f.nets[i].r.isFst then f.firstAt else f.firstAt[i := k]);
    forall j | 0 <= j < nInit ensures Known(g, f', j, f'.nets[j]) {
      assert Known(g, f, j, f.nets[j]);
    }
  }

  // ---- the sender handles a message

  /** What the handlers ask of their callers: a FIRST_SEQ comes from a receiver that has not been heard, an ALL_DONE
      from one that has been and has not reported. */
  lemma HeadIsNew(g: Geo, nInit: nat, f: Fleet, i: nat, n: Net, round: nat)
    requires g.N > 0 && Books(g, nInit, f) && i < nInit && Handled(g, f.nets[i], n, round)
    ensures match f.nets[i].up[0]
      case FirstSeq(first) => i !in f.m.ends && i !in Members(f.m.queue)
      case PatchReq(_) => true
      case AllDone => g.N > 1 && i in f.m.ends && i !in f.m.hasAllDone
  {
    assert Known(g, f, i, f.nets[i]);
  }

  lemma FirstSeqBooks(g: Geo, nInit: nat, f: Fleet, i: nat, n: Net, later: nat, place: nat)
    requires g.N > 0 && Books(g, nInit, f) && i < nInit && f.cur <= later < SEQNUM_MAX
    requires f.nets[i].up != [] && f.nets[i].up[0].FirstSeq?
    requires Handled(g, f.nets[i], n, Ends.Round(f.nets[i].up[0].first, f.cur, later, g.N))
    ensures var end := Ends.SeqEnd(f.nets[i].up[0].first, f.cur, later, g.N);
      Books(g, nInit, With(f, i, n).(m := FirstHeard(f.m, nInit, g.N, i, end, place), cur := later,
        readAt := f.readAt[i := (f.cur, later)]))
  {
    var first := f.nets[i].up[0].first;
    var end := Ends.SeqEnd(first, f.cur, later, g.N);
    assert Known(g, f, i, f.nets[i]);
    Ends.FullWindowGiven(f.firstAt[i], f.cur, later, g.N);
    Ends.EndIsTight(first, f.cur, later, g.N);
    FirstSeqKnown(g, nInit, f, i, n, end, later, place);
    UnheardIsAlive(f, nInit, g.N, i);
    FirstHeardCounts(f.m, nInit, g.N, i, end, place);
    QueuedLater(f.m, nInit, f.cur, later);
    FirstHeardQueued(f.m, nInit, g.N, i, end, place, later);
  }

  lemma UnheardIsAlive(f: Fleet, nInit: nat, seqMax: nat, i: nat)
    requires Counts(f.m, nInit, seqMax) && Clocked(f) && |f.nets| == nInit && i < nInit && i !in f.m.ends && f.cur > 0
    ensures f.granted && f.state != Dead && f.m.nFirstSeq < nInit
  {
    AllOf(f.m.ends.Keys, nInit);
  }

  lemma QueuedLater(m: Multi, nInit: nat, cur: nat, later: nat)
    requires Queued(m, nInit, cur) && cur <= later
    ensures Queued(m, nInit, later)
  {
  }

  lemma FirstSeqKnown(g: Geo, nInit: nat, f: Fleet, i: nat, n: Net, end: nat, later: nat, place: nat)
    requires g.N > 0 && Books(g, nInit, f) && i < nInit && i !in f.m.ends && f.cur <= later
    requires f.nets[i].r.isFst && n.r == f.nets[i].r && n.hasFirst && n.seqEnd == end
    requires i in f.firstAt && end >= f.firstAt[i] + g.N && Ends.Tight(n.r.fst, f.cur, later, g.N, end)
    requires n.hasAllDone == f.nets[i].hasAllDone && n.done == f.nets[i].done
    ensures var f' := With(f, i, n).(m := FirstHeard(f.m, nInit, g.N, i, end, place), cur := later,
        readAt := f.readAt[i := (f.cur, later)]);
      forall j :: 0 <= j < nInit ==> Known(g, f', j, f'.nets[j])
  {
    var f' := With(f, i, n).(m := FirstHeard(f.m, nInit, g.N, i, end, place), cur := later,
        readAt := f.readAt[i := (f.cur, later)]);
    forall j | 0 <= j < nInit ensures Known(g, f', j, f'.nets[j]) {
      assert Known(g, f, j, f.nets[j]);
    }
  }

  lemma AllDoneBooks(g: Geo, nInit: nat, f: Fleet, i: nat, n: Net)
    requires g.N > 0 && Books(g, nInit, f) && i < nInit && Handled(g, f.nets[i], n, 0) && f.nets[i].up[0].AllDone?
    ensures Books(g, nInit, With(f, i, n).(m := AllDoneHeard(f.m, nInit, i)))
  {
    var f' := With(f, i, n).(m := AllDoneHeard(f.m, nInit, i));
    assert Known(g, f, i, f.nets[i]);
    AllDoneHeardCounts(f.m, nInit, g.N, i);
    forall j | 0 <= j < nInit ensures Known(g, f', j, f'.nets[j]) {
      assert Known(g, f, j, f.nets[j]);
    }
  }

  // ---- the sender looks for FAST_DONE

  lemma PollsBooks(g: Geo, nInit: nat, f: Fleet, now: int, later: int)
    requires g.N > 0 && Books(g, nInit, f) && f.m.queue.clock <= now <= later
    ensures Books(g, nInit, f.(m := Polled(f.m, f.cur, f.state, now, later)))
  {
    var f' := f.(m := Polled(f.m, f.cur, f.state, now, later));
    PolledQueued(f.m, nInit, f.cur, f.state, now, later);
    PolledGrows(f.m, nInit, f.cur, f.state, now, later);
    forall j | 0 <= j < nInit ensures Known(g, f', j, f'.nets[j]) {
      assert Known(g, f, j, f.nets[j]);
    }
    if !f.granted {
      NobodyBeforeGrant(g, nInit, f);
      if f'.m.queue.settled != [] { SomebodyHeard(f'.m, nInit, f'.cur); }
    }
  }

  // Nobody is untold, and only a dead multicast settles anybody.
  lemma PolledGrows(m: Multi, nInit: nat, cur: nat, state: BcdState, now: int, later: int)
    requires Queued(m, nInit, cur) && m.queue.clock <= now <= later
    ensures var m' := Polled(m, cur, state, now, later);
      && m' == m.(queue := m'.queue) && (forall id :: id in m.queue.told ==> id in m'.queue.told)
      && (state != Dead ==> m'.queue.settled == m.queue.settled && m'.queue.told == m.queue.told)
  {
    RipenedInv(m.queue, cur, now, nInit);
    RipenExactly(m.queue, cur, now);
    if state == Dead { FireExactly(Ripened(m.queue, cur, now), later, m.hasAllDone); }
  }

  lemma NobodyBeforeGrant(g: Geo, nInit: nat, f: Fleet)
    requires g.N > 0 && Books(g, nInit, f) && f.cur == 0
    ensures f.m.ends == map[]
  {
    forall i: nat | i < nInit ensures i !in f.m.ends {
      assert Known(g, f, i, f.nets[i]);
    }
    assert f.m.ends.Keys == {};
  }

  lemma SomebodyHeard(m: Multi, nInit: nat, cur: nat)
    requires Queued(m, nInit, cur) && m.queue.settled != []
    ensures m.ends != map[]
  {
    var r := m.queue.settled[0];
    assert r in m.queue.settled;
    assert r.id in m.ends;
  }

  // ---- every step keeps the invariant

  lemma ClockBooks(g: Geo, nInit: nat, f: Fleet, f': Fleet)
    requires g.N > 0 && Books(g, nInit, f) && f'.cur >= f.cur && Clocked(f')
    requires f' == f.(cur := f'.cur, state := f'.state, granted := f'.granted)
    ensures Books(g, nInit, f')
  {
    forall j | 0 <= j < nInit ensures Known(g, f', j, f'.nets[j]) {
      assert Known(g, f, j, f.nets[j]);
    }
  }

  lemma SwapWired(g: Geo, nets: seq<Net>, i: nat, n: Net)
    requires g.Valid() && AllWired(g, nets) && i < |nets| && Wired(g, n)
    ensures AllWired(g, nets[i := n])
  {
    hide Wired;
  }

  lemma HearsInv(g: Geo, nInit: nat, f: Fleet, i: nat, k: nat, junk: seq<byte>)
    requires g.Valid() && FleetInv(g, nInit, f) && i < nInit && k < f.cur
    ensures FleetInv(g, nInit, HearStep(g, f, i, k, junk))
  {
    hide Wired, NetStep, Known, Counts, Queued, Clocked;
    var n, e := f.nets[i], FastArrives(k % g.N, junk);
    StepWired(g, n, e);
    StepFrame(g, n, e);
    SwapWired(g, f.nets, i, NetStep(g, n, e));
    OneHears(g, nInit, f, i, k, NetStep(g, n, e));
  }

  lemma WorksInv(g: Geo, nInit: nat, f: Fleet, i: nat, e: NetEvent)
    requires g.Valid() && FleetInv(g, nInit, f) && i < nInit
    requires OnTheWay(e) || (e.FastDoneArrives? && i in f.m.queue.told)
    ensures FleetInv(g, nInit, WorkStep(g, f, i, e))
  {
    hide Wired, NetStep, Known, Counts, Queued, Clocked;
    StepWired(g, f.nets[i], e);
    StepFrame(g, f.nets[i], e);
    SwapWired(g, f.nets, i, NetStep(g, f.nets[i], e));
    OneMoves(g, nInit, f, i, NetStep(g, f.nets[i], e));
  }

  lemma ReadsInv(g: Geo, nInit: nat, f: Fleet, i: nat, between: nat, place: nat)
    requires g.Valid() && FleetInv(g, nInit, f) && i < nInit && !Silent(f.nets[i])
    ensures FleetInv(g, nInit, ReadStep(g, f, i, between, place))
  {
    hide Wired, NetStep, Known, Counts, Queued;
    var n, later := f.nets[i], Later(f.cur, between);
    var round := if n.up[0].FirstSeq? then Ends.Round(n.up[0].first, f.cur, later, g.N) else 0;
    var n' := NetStep(g, n, SenderReads(round));
    StepWired(g, n, SenderReads(round));
    ReadHandles(g, n, round);
    SwapWired(g, f.nets, i, n');
    ReadBooks(g, nInit, f, i, n', round, later, place);
  }

  lemma ReadBooks(g: Geo, nInit: nat, f: Fleet, i: nat, n': Net, round: nat, later: nat, place: nat)
    requires g.N > 0 && Books(g, nInit, f) && i < nInit && f.cur <= later < SEQNUM_MAX
    requires Handled(g, f.nets[i], n', round)
    requires var head := f.nets[i].up[0];
      round == if head.FirstSeq? then Ends.Round(head.first, f.cur, later, g.N) else 0
    ensures Books(g, nInit,
      match f.nets[i].up[0]
      case FirstSeq(first) =>
        var end := Ends.SeqEnd(first, f.cur, later, g.N);
        With(f, i, n').(m := FirstHeard(f.m, nInit, g.N, i, end, place), cur := later,
        readAt := f.readAt[i := (f.cur, later)])
      case PatchReq(_) => With(f, i, n')
      case AllDone => With(f, i, n').(m := AllDoneHeard(f.m, nInit, i)))
  {
    match f.nets[i].up[0]
    case FirstSeq(_) => FirstSeqBooks(g, nInit, f, i, n', later, place);
    case PatchReq(_) => OneMoves(g, nInit, f, i, n');
    case AllDone => AllDoneBooks(g, nInit, f, i, n');
  }

  // One event at a time.

  lemma ClockStep(g: Geo, nInit: nat, f: Fleet, e: FleetEvent)
    requires g.Valid() && FleetInv(g, nInit, f) && (e.Granted? || e.Sends? || e.Dies?)
    ensures FleetInv(g, nInit, FleetStep(g, f, e))
  {
    ClockBooks(g, nInit, f, FleetStep(g, f, e));
  }

  lemma HearsStep(g: Geo, nInit: nat, f: Fleet, i: nat, k: nat, junk: seq<byte>)
    requires g.Valid() && FleetInv(g, nInit, f)
    ensures FleetInv(g, nInit, FleetStep(g, f, Hears(i, k, junk)))
  {
    hide Wired, NetStep, HearStep, WorkStep, ReadStep, Known, Counts, Queued, Clocked;
    if i < nInit && k < f.cur { HearsInv(g, nInit, f, i, k, junk); }
  }

  lemma WorksStep(g: Geo, nInit: nat, f: Fleet, i: nat, e: NetEvent)
    requires g.Valid() && FleetInv(g, nInit, f)
    ensures FleetInv(g, nInit, FleetStep(g, f, Works(i, e)))
  {
    hide Wired, NetStep, HearStep, WorkStep, ReadStep, Known, Counts, Queued, Clocked;
    if i < nInit && OnTheWay(e) { WorksInv(g, nInit, f, i, e); }
  }

  lemma ToldStep(g: Geo, nInit: nat, f: Fleet, i: nat)
    requires g.Valid() && FleetInv(g, nInit, f)
    ensures FleetInv(g, nInit, FleetStep(g, f, Told(i)))
  {
    hide Wired, NetStep, HearStep, WorkStep, ReadStep, Known, Counts, Queued, Clocked;
    if i < nInit && i in f.m.queue.told { WorksInv(g, nInit, f, i, FastDoneArrives); }
  }

  lemma ReadsStep(g: Geo, nInit: nat, f: Fleet, i: nat, between: nat, place: nat)
    requires g.Valid() && FleetInv(g, nInit, f)
    ensures FleetInv(g, nInit, FleetStep(g, f, Reads(i, between, place)))
  {
    hide Wired, NetStep, HearStep, WorkStep, ReadStep, Known, Counts, Queued, Clocked;
    if i < nInit && !Silent(f.nets[i]) { ReadsInv(g, nInit, f, i, between, place); }
  }

  lemma PollsStep(g: Geo, nInit: nat, f: Fleet, now: int, later: int)
    requires g.Valid() && FleetInv(g, nInit, f)
    ensures FleetInv(g, nInit, FleetStep(g, f, Polls(now, later)))
  {
    hide Wired, Polled, Known, Counts, Queued, Clocked;
    if f.m.queue.clock <= now <= later { PollsBooks(g, nInit, f, now, later); }
  }

  lemma FleetStepInv(g: Geo, nInit: nat, f: Fleet, e: FleetEvent)
    requires g.Valid() && FleetInv(g, nInit, f)
    ensures FleetInv(g, nInit, FleetStep(g, f, e))
  {
    hide FleetStep, FleetInv;
    match e
    case Hears(i, k, junk) => HearsStep(g, nInit, f, i, k, junk);
    case Works(i, w) => WorksStep(g, nInit, f, i, w);
    case Told(i) => ToldStep(g, nInit, f, i);
    case Reads(i, between, place) => ReadsStep(g, nInit, f, i, between, place);
    case Polls(now, later) => PollsStep(g, nInit, f, now, later);
    case Granted => ClockStep(g, nInit, f, e);
    case Sends => ClockStep(g, nInit, f, e);
    case Dies => ClockStep(g, nInit, f, e);
  }

  lemma {:induction false} FleetRunInv(g: Geo, nInit: nat, es: seq<FleetEvent>)
    requires g.Valid() && nInit > 0
    ensures FleetInv(g, nInit, FleetRun(g, nInit, es))
    decreases |es|
  {
    if es == [] {
      FleetInitInv(g, nInit);
    } else {
      FleetRunInv(g, nInit, es[..|es| - 1]);
      FleetStepInv(g, nInit, FleetRun(g, nInit, es[..|es| - 1]), es[|es| - 1]);
    }
  }

  // ---- what holds in every run

  /** Every call of a handler meets what the handler relies on. A FIRST_SEQ comes from a receiver that is neither
      counted nor queued; an ALL_DONE comes from a finished receiver that has been heard and has not reported. */
  lemma HandlersCallable(g: Geo, nInit: nat, es: seq<FleetEvent>, i: nat)
    requires g.Valid() && i < nInit == |FleetRun(g, nInit, es).nets| && !Silent(FleetRun(g, nInit, es).nets[i])
    ensures var f := FleetRun(g, nInit, es);
      match f.nets[i].up[0]
      case FirstSeq(first) =>
        i !in f.m.ends && i !in Members(f.m.queue) && first == f.nets[i].r.fst && (g.N == 1 ==> f.nets[i].r.isFinished)
      case PatchReq(_) => i in f.m.ends && f.nets[i].seqEnd % g.N == f.nets[i].r.fst
      case AllDone => g.N > 1 && i in f.m.ends && i !in f.m.hasAllDone && f.nets[i].r.isFinished
  {
    FleetRunInv(g, nInit, es);
    var f := FleetRun(g, nInit, es);
    ReadHandles(g, f.nets[i], 0);
    HeadOfQueue(g, f.nets[i]);
    HeadIsNew(g, nInit, f, i, NetStep(g, f.nets[i], SenderReads(0)), 0);
    assert Known(g, f, i, f.nets[i]);
  }

  // The sender has taken note that the receiver is done: by FIRST_SEQ when there is one packet, else by ALL_DONE.
  predicate Reported(g: Geo, n: Net) { if g.N == 1 then n.hasFirst else n.hasAllDone }

  lemma ReportedHolds(g: Geo, n: Net)
    requires g.Valid() && Wired(g, n) && Reported(g, n)
    ensures n.r.isFinished && Placement.Delivered(g, n.r)
  {
    ReportedIsFinished(g, n);
    NoFirstYet(g, n);
    if n.r.isFst { OnePacketFinished(g, n); }
  }

  lemma NoFirstYet(g: Geo, n: Net)
    requires g.N > 0 && Orderly(g, n)
    ensures n.hasFirst ==> n.r.isFst
  {
  }

  lemma DoneAreReported(g: Geo, nInit: nat, f: Fleet)
    requires g.N > 0 && Books(g, nInit, f)
    ensures forall i :: 0 <= i < nInit ==> (i in Done(f.m, g.N) <==> Reported(g, f.nets[i]))
    ensures |Done(f.m, g.N)| == nInit <==> forall i :: 0 <= i < nInit ==> Reported(g, f.nets[i])
  {
    forall i | 0 <= i < nInit ensures i in Done(f.m, g.N) <==> Reported(g, f.nets[i]) {
      assert Known(g, f, i, f.nets[i]);
    }
    AllOf(Done(f.m, g.N), nInit);
    if forall i :: 0 <= i < nInit ==> Reported(g, f.nets[i]) {
      assert forall i: nat :: i in Ids(nInit) ==> i in Done(f.m, g.N);
    }
  }

  /** The completion message is made at most once, exactly when every receiver has reported, and then every receiver
      holds the source bytes. The assertion at thread_send.c:341 never fails. */
  lemma CompletionMeans(g: Geo, nInit: nat, es: seq<FleetEvent>)
    requires g.Valid() && nInit > 0
    ensures var f := FleetRun(g, nInit, es);
      && |f.nets| == nInit && !f.m.failed && f.m.nAllDone <= f.m.nFirstSeq <= nInit && f.m.created <= 1
      && (f.m.created == 1 <==> forall i :: 0 <= i < nInit ==> Reported(g, f.nets[i]))
      && (f.m.created == 1 ==> forall i :: 0 <= i < nInit ==>
            f.nets[i].r.isFinished && Placement.Delivered(g, f.nets[i].r))
  {
    FleetRunInv(g, nInit, es);
    var f := FleetRun(g, nInit, es);
    DoneAreReported(g, nInit, f);
    CountersInOrder(f.m, nInit, g.N);
    AllDelivered(g, f.nets);
  }

  lemma CountersInOrder(m: Multi, nInit: nat, seqMax: nat)
    requires Counts(m, nInit, seqMax)
    ensures m.nAllDone <= m.nFirstSeq <= nInit
  {
    AllOf(m.ends.Keys, nInit);
    var rest := m.ends.Keys - Done(m, seqMax);
    assert m.ends.Keys == Done(m, seqMax) + rest;
    assert |m.ends.Keys| == |Done(m, seqMax)| + |rest|;
  }

  lemma AllDelivered(g: Geo, nets: seq<Net>)
    requires g.Valid() && AllWired(g, nets)
    ensures forall i :: 0 <= i < |nets| && Reported(g, nets[i]) ==>
      nets[i].r.isFinished && Placement.Delivered(g, nets[i].r)
  {
    forall i | 0 <= i < |nets| && Reported(g, nets[i])
      ensures nets[i].r.isFinished && Placement.Delivered(g, nets[i].r)
    {
      ReportedHolds(g, nets[i]);
    }
  }

  // The receiver has reported, or it has handled FAST_DONE and nothing is on its way in any of its channels.
  predicate AtRest(g: Geo, n: Net) {
    Reported(g, n) || (n.done && n.chan == [] && n.ring == [] && n.up == [] && n.pipe == [])
  }

  /** When every receiver is at rest, the completion message has been made. */
  lemma DrainedCompletes(g: Geo, nInit: nat, es: seq<FleetEvent>)
    requires g.Valid() && nInit > 0
    requires forall n :: n in FleetRun(g, nInit, es).nets ==> AtRest(g, n)
    ensures FleetRun(g, nInit, es).m.created == 1
  {
    FleetRunInv(g, nInit, es);
    RestCompletes(g, nInit, FleetRun(g, nInit, es));
  }

  lemma RestCompletes(g: Geo, nInit: nat, f: Fleet)
    requires g.Valid() && FleetInv(g, nInit, f) && forall n :: n in f.nets ==> AtRest(g, n)
    ensures f.m.created == 1
  {
    forall i | 0 <= i < nInit ensures Reported(g, f.nets[i]) {
      assert f.nets[i] in f.nets;
      RestIsReported(g, f.nets[i]);
    }
    DoneAreReported(g, nInit, f);
  }

  lemma RestIsReported(g: Geo, n: Net)
    requires g.Valid() && Wired(g, n) && AtRest(g, n)
    ensures Reported(g, n)
  {
    if !Reported(g, n) { DrainedNet(g, n); }
  }

  /** Once all have been heard, the end of the multicast is the end of one of them, and no other lies beyond it; each
      is at least a whole window past the first packet of its receiver. */
  lemma EndIsLargest(g: Geo, nInit: nat, es: seq<FleetEvent>)
    requires g.Valid() && nInit > 0
    ensures var f := FleetRun(g, nInit, es);
      && |f.nets| == nInit
      && (f.m.nFirstSeq == nInit <==> forall i :: 0 <= i < nInit ==> f.nets[i].hasFirst)
      && (f.m.nFirstSeq < nInit ==> f.m.seqEnd == SEQNUM_MAX)
      && (f.m.nFirstSeq == nInit ==>
            && (exists i :: 0 <= i < nInit && f.nets[i].seqEnd == f.m.seqEnd)
            && forall i :: 0 <= i < nInit ==> Windowed(g, f, i, f.nets[i]) && f.nets[i].seqEnd <= f.m.seqEnd)
  {
    FleetRunInv(g, nInit, es);
    var f := FleetRun(g, nInit, es);
    AllHeard(g, nInit, f);
    if f.m.nFirstSeq == nInit {
      assert 0 in Ids(nInit);
      assert f.m.ends.Keys == Ids(nInit);
      assert 0 in f.m.ends.Keys;
      var i :| i in f.m.ends && f.m.ends[i] == f.m.seqEndMax;
      assert i in f.m.ends.Keys && Known(g, f, i, f.nets[i]);
    }
  }

  lemma AllHeard(g: Geo, nInit: nat, f: Fleet)
    requires g.N > 0 && Books(g, nInit, f)
    ensures f.m.nFirstSeq <= nInit
    ensures f.m.nFirstSeq == nInit <==> f.m.ends.Keys == Ids(nInit)
    ensures f.m.nFirstSeq == nInit <==> forall i :: 0 <= i < nInit ==> f.nets[i].hasFirst
    ensures f.m.nFirstSeq == nInit ==>
      forall i :: 0 <= i < nInit ==> Windowed(g, f, i, f.nets[i]) && f.nets[i].seqEnd <= f.m.seqEndMax
  {
    AllOf(f.m.ends.Keys, nInit);
    forall i | 0 <= i < nInit
      ensures i in f.m.ends <==> f.nets[i].hasFirst
      ensures i in f.m.ends ==> Windowed(g, f, i, f.nets[i]) && f.nets[i].seqEnd <= f.m.seqEndMax
    {
      assert Known(g, f, i, f.nets[i]);
    }
    if forall i :: 0 <= i < nInit ==> f.nets[i].hasFirst {
      assert forall i: nat :: i in Ids(nInit) ==> i in f.m.ends.Keys;
    }
  }

  /** Nobody is told FAST_DONE before the whole window of every receiver has been sent, nor twice. */
  lemma ToldInTime(g: Geo, nInit: nat, es: seq<FleetEvent>, id: nat)
    requires g.Valid() && nInit > 0 && id in FleetRun(g, nInit, es).m.queue.told
    ensures var f := FleetRun(g, nInit, es);
      && |f.nets| == nInit && id < nInit && multiset(f.m.queue.told)[id] == 1 && f.state == Dead
      && forall i :: 0 <= i < nInit ==> Windowed(g, f, i, f.nets[i]) && f.nets[i].seqEnd <= f.cur
  {
    FleetRunInv(g, nInit, es);
    var f := FleetRun(g, nInit, es);
    ToldOnce(f.m.queue.told, id);
    ToldIsMember(f.m.queue, nInit, id);
    AllHeard(g, nInit, f);
  }

  lemma ToldIsMember(q: Queue, n: nat, id: nat)
    requires QueueInv(q, n) && id in q.told
    ensures q.settled != [] && id < n && multiset(q.told)[id] > 0
  {
    assert id in RipeIds(q.settled);
    var k :| 0 <= k < |q.settled| && RipeIds(q.settled)[k] == id;
    assert Members(q)[k] == id;
    assert Members(q)[k] in Members(q);
  }

  // ---- FAST_DONE for receivers that are done

  lemma FleetPush(g: Geo, nInit: nat, es: seq<FleetEvent>, e: FleetEvent)
    requires g.Valid() && nInit > 0
    ensures AllWired(g, FleetRun(g, nInit, es).nets)
    ensures FleetRun(g, nInit, es + [e]) == FleetStep(g, FleetRun(g, nInit, es), e)
  {
    FleetRunInv(g, nInit, es);
    assert (es + [e])[..|es|] == es;
  }

  /** A turn of the send loop tells a receiver whose completion has been counted exactly when the file has one packet
      (the guard at thread_send.c:310, which counts without setting the flag), the multicast is dead, and the receiver
      is due: ripe for longer than the timeout. */
  lemma ToldThoughReported(g: Geo, nInit: nat, es: seq<FleetEvent>, now: int, later: int, i: nat)
    requires g.Valid() && i < nInit == |FleetRun(g, nInit, es).nets| && Reported(g, FleetRun(g, nInit, es).nets[i])
    ensures var f, q' := FleetRun(g, nInit, es), FleetRun(g, nInit, es + [Polls(now, later)]).m.queue;
      (i in q'.told && i !in f.m.queue.told) <==>
        && g.N == 1 && f.state == Dead && f.m.queue.clock <= now <= later
        && DueAt(f.m.queue, i, now, later)
  {
    PollsRun(g, nInit, es, now, later);
    var f := FleetRun(g, nInit, es);
    if f.m.queue.clock <= now <= later { ReportedTold(g, nInit, f, now, later, i); }
  }

  lemma PollsRun(g: Geo, nInit: nat, es: seq<FleetEvent>, now: int, later: int)
    requires g.Valid() && nInit > 0
    ensures var f := FleetRun(g, nInit, es);
      && Books(g, nInit, f)
      && FleetRun(g, nInit, es + [Polls(now, later)]).m ==
           if f.m.queue.clock <= now <= later then Polled(f.m, f.cur, f.state, now, later) else f.m
  {
    FleetRunBooks(g, nInit, es);
    FleetPush(g, nInit, es, Polls(now, later));
    PollsIs(g, FleetRun(g, nInit, es), now, later);
  }

  lemma PollsIs(g: Geo, f: Fleet, now: int, later: int)
    requires g.Valid() && AllWired(g, f.nets)
    ensures FleetStep(g, f, Polls(now, later)).m ==
      if f.m.queue.clock <= now <= later then Polled(f.m, f.cur, f.state, now, later) else f.m
  {
  }

  lemma FleetRunBooks(g: Geo, nInit: nat, es: seq<FleetEvent>)
    requires g.Valid() && nInit > 0
    ensures Books(g, nInit, FleetRun(g, nInit, es))
  {
    FleetRunInv(g, nInit, es);
  }

  lemma ReportedTold(g: Geo, nInit: nat, f: Fleet, now: int, later: int, i: nat)
    requires g.N > 0 && Books(g, nInit, f) && i < nInit && Reported(g, f.nets[i]) && f.m.queue.clock <= now <= later
    ensures var q, q' := f.m.queue, Polled(f.m, f.cur, f.state, now, later).queue;
      (i in q'.told && i !in q.told) <==> (g.N == 1 && f.state == Dead && DueAt(q, i, now, later))
  {
    assert Known(g, f, i, f.nets[i]);
    PollTells(f.m, nInit, f.cur, f.state, now, later, i);
    if f.state == Dead {
      HeardIsGranted(g, nInit, f, i);
      EndsSent(f.m, nInit, g.N, f.cur);
      PollSettles(f.m, nInit, f.cur, now, later, i);
    }
  }

  lemma HeardIsGranted(g: Geo, nInit: nat, f: Fleet, i: nat)
    requires g.N > 0 && Books(g, nInit, f) && i < nInit && i in f.m.ends
    ensures f.granted
  {
    assert Known(g, f, i, f.nets[i]);
  }

  // Once the end of the multicast has been reached, so has the end of everybody in the queue.
  lemma EndsSent(m: Multi, nInit: nat, seqMax: nat, cur: nat)
    requires Counts(m, nInit, seqMax) && Queued(m, nInit, cur) && m.nFirstSeq == nInit && m.seqEnd <= cur
    ensures forall w :: w in m.queue.pq ==> w.seqEnd <= cur
  {
  }

  lemma PollSettles(m: Multi, nInit: nat, cur: nat, now: int, later: int, id: nat)
    requires Queued(m, nInit, cur) && m.queue.clock <= now <= later
    requires forall w :: w in m.queue.pq ==> w.seqEnd <= cur
    ensures var q' := Polled(m, cur, Dead, now, later).queue;
      (id in RipeIds(q'.settled) && id !in RipeIds(m.queue.settled)) <==> DueAt(m.queue, id, now, later)
  {
    RipenedInv(m.queue, cur, now, nInit);
    RipenExactly(m.queue, cur, now);
    FireSettles(Ripened(m.queue, cur, now), later, m.hasAllDone, nInit, id);
    RipeAfterScan(m.queue, cur, now, later, id);
  }

  /** A turn tells exactly the receivers it settles whose ALL_DONE has not been handled, and settles none unless the
      multicast is dead. */
  lemma PollTells(m: Multi, nInit: nat, cur: nat, state: BcdState, now: int, later: int, id: nat)
    requires Queued(m, nInit, cur) && m.queue.clock <= now <= later
    ensures var q' := Polled(m, cur, state, now, later).queue;
      && ((id in q'.told && id !in m.queue.told) <==>
            (id !in m.hasAllDone && id in RipeIds(q'.settled) && id !in RipeIds(m.queue.settled)))
      && (id in RipeIds(q'.settled) && id !in RipeIds(m.queue.settled) ==> state == Dead)
  {
    RipenedInv(m.queue, cur, now, nInit);
    RipenExactly(m.queue, cur, now);
    if state == Dead { FireTells(Ripened(m.queue, cur, now), later, m.hasAllDone, nInit, id); }
  }

  /** Whoever is settled has been told or has reported by ALL_DONE. */
  lemma SettledAccounted(g: Geo, nInit: nat, es: seq<FleetEvent>, i: nat)
    requires g.Valid() && nInit > 0
    ensures var m := FleetRun(g, nInit, es).m;
      i in RipeIds(m.queue.settled) ==> i in m.queue.told || i in m.hasAllDone
  {
    FleetRunBooks(g, nInit, es);
  }

  /** In a push of one packet those told are exactly those settled. */
  lemma OnePacketTellsAll(g: Geo, nInit: nat, es: seq<FleetEvent>, i: nat)
    requires g.Valid() && g.N == 1 && nInit > 0
    ensures var q := FleetRun(g, nInit, es).m.queue; i in q.told <==> i in RipeIds(q.settled)
  {
    FleetRunBooks(g, nInit, es);
  }

  /** Each of them is finished and counted by then, and FAST_DONE changes nothing but the note that it came. */
  lemma OnePacketIgnores(g: Geo, nInit: nat, es: seq<FleetEvent>, i: nat)
    requires g.Valid() && g.N == 1 && i < nInit == |FleetRun(g, nInit, es).nets|
    requires i in FleetRun(g, nInit, es).m.queue.told
    ensures |FleetRun(g, nInit, es + [Told(i)]).nets| == nInit
    ensures var n, n' := FleetRun(g, nInit, es).nets[i], FleetRun(g, nInit, es + [Told(i)]).nets[i];
      n.r.isFinished && Reported(g, n) && n' == n.(done := n'.done)
  {
    ToldRun(g, nInit, es, i);
    ToldInTime(g, nInit, es, i);
    FinishedTold(g, FleetRun(g, nInit, es).nets[i]);
  }

  lemma ToldRun(g: Geo, nInit: nat, es: seq<FleetEvent>, i: nat)
    requires g.Valid() && i < nInit == |FleetRun(g, nInit, es).nets| && i in FleetRun(g, nInit, es).m.queue.told
    ensures Wired(g, FleetRun(g, nInit, es).nets[i])
    ensures FleetRun(g, nInit, es + [Told(i)]).nets ==
      FleetRun(g, nInit, es).nets[i := NetStep(g, FleetRun(g, nInit, es).nets[i], FastDoneArrives)]
  {
    FleetPush(g, nInit, es, Told(i));
    ToldIs(g, FleetRun(g, nInit, es), i);
  }

  lemma ToldIs(g: Geo, f: Fleet, i: nat)
    requires g.Valid() && AllWired(g, f.nets) && i < |f.nets| && i in f.m.queue.told
    ensures Wired(g, f.nets[i]) && FleetStep(g, f, Told(i)).nets == f.nets[i := NetStep(g, f.nets[i], FastDoneArrives)]
  {
  }

  lemma FinishedTold(g: Geo, n: Net)
    requires g.Valid() && Wired(g, n) && Reported(g, n)
    ensures n.r.isFinished && NetStep(g, n, FastDoneArrives) == n.(done := NetStep(g, n, FastDoneArrives).done)
  {
    ReportedHolds(g, n);
    FinishedIgnoresFastDone(g, n);
  }

  // ---- a push of one packet to one receiver

  ghost function OnePacket(): Geo { Geo([7], 1, 1) }

  // The books once the only receiver has been heard, and after the scan that sees its window sent.
  function HeardOnce(q: Queue): Multi { Multi(1, 1, {}, map[0 := 1], 1, 1, 1, false, q) }

  function JustRipe(): Queue { Queue([], [Ripe(0, 1, 0)], [], 0, []) }

  // The packet is sent and heard, and FIRST_SEQ is handled.
  const HeardEvents: seq<FleetEvent> := [Granted, Sends, Hears(0, 0, []), Works(0, PipeDrains), Reads(0, 0, 0)]

  // The multicast ends; a scan finds the window sent, and the next one finds the timeout past.
  const ScanEvents: seq<FleetEvent> := [Dies, Polls(0, 0)]

  const LastScan: FleetEvent := Polls(1_000_001, 1_000_001)

  // One microsecond earlier, exactly at the timeout.
  const EarlyScan: FleetEvent := Polls(1_000_000, 1_000_000)

  lemma FirstAndOnly(g: Geo)
    requires g.Valid() && g.N == 1 && Wired(g, NetInit())
    ensures var n := NetStep(g, NetInit(), FastArrives(0, []));
      n.up == [] && n.pipe == [FirstSeq(0)] && !n.halted
  {
    var r := NetInit().r;
    FastMsgsFacts(g, r, FastStep(g, r, 0, []), 0);
  }

  lemma OneIsSent(g: Geo, es: seq<FleetEvent>)
    requires g.Valid() && g.N == 1 && FleetRun(g, 1, es) == FleetInit(1)
    ensures var f := FleetRun(g, 1, es + [Granted] + [Sends]);
      f == FleetInit(1).(granted := true, state := Initiated, cur := 1)
  {
    FleetPush(g, 1, es, Granted);
    FleetPush(g, 1, es + [Granted], Sends);
  }

  lemma OneIsHeard(g: Geo, es: seq<FleetEvent>)
    requires g.Valid() && g.N == 1
    requires FleetRun(g, 1, es) == FleetInit(1).(granted := true, state := Initiated, cur := 1)
    ensures var f := FleetRun(g, 1, es + [Hears(0, 0, [])] + [Works(0, PipeDrains)]);
      && |f.nets| == 1 && f.nets[0].up == [FirstSeq(0)] && !f.nets[0].halted
      && f.m == Unheard() && f.cur == 1 && f.state == Initiated && f.granted
  {
    NetInitWired(g);
    FirstAndOnly(g);
    FleetPush(g, 1, es, Hears(0, 0, []));
    FleetPush(g, 1, es + [Hears(0, 0, [])], Works(0, PipeDrains));
  }

  lemma OneIsRead(g: Geo, es: seq<FleetEvent>)
    requires g.Valid() && g.N == 1
    requires var f := FleetRun(g, 1, es);
      && |f.nets| == 1 && f.nets[0].up == [FirstSeq(0)] && !f.nets[0].halted
      && f.m == Unheard() && f.cur == 1 && f.state == Initiated && f.granted
    ensures var f := FleetRun(g, 1, es + [Reads(0, 0, 0)]);
      && |f.nets| == 1 && f.m == HeardOnce(Queue([Waiting(0, 1)], [], [], 0, []))
      && f.cur == 1 && f.state == Initiated && f.granted
  {
    FleetPush(g, 1, es, Reads(0, 0, 0));
    assert Ends.SeqEnd(0, 1, 1, 1) == 1;
    assert Inserted(EmptyQueue(), Waiting(0, 1), 0).pq == [Waiting(0, 1)];
    assert FirstHeard(Unheard(), 1, 1, 0, 1, 0).ends == map[0 := 1];
  }

  lemma OneIsRipe(g: Geo, es: seq<FleetEvent>)
    requires g.Valid() && g.N == 1
    requires var f := FleetRun(g, 1, es);
      && |f.nets| == 1 && f.m == HeardOnce(Queue([Waiting(0, 1)], [], [], 0, []))
      && f.cur == 1 && f.state == Initiated && f.granted
    ensures var f := FleetRun(g, 1, es + [Dies] + [Polls(0, 0)]);
      |f.nets| == 1 && f.m == HeardOnce(JustRipe()) && f.cur == 1 && f.state == Dead
  {
    FleetPush(g, 1, es, Dies);
    FleetPush(g, 1, es + [Dies], Polls(0, 0));
    var q := MovedOne(Queue([Waiting(0, 1)], [], [], 0, []), 0);
    assert q == JustRipe();
    assert Ripened(Queue([Waiting(0, 1)], [], [], 0, []), 1, 0) == JustRipe();
    assert Fired(JustRipe(), 0, {}) == JustRipe();
  }

  lemma OneIsSettled(g: Geo, es: seq<FleetEvent>)
    requires g.Valid() && g.N == 1
    requires var f := FleetRun(g, 1, es); f.m == HeardOnce(JustRipe()) && f.cur == 1 && f.state == Dead
    ensures FleetRun(g, 1, es + [LastScan]).m.queue.told == [0]
  {
    PollsRun(g, 1, es, 1_000_001, 1_000_001);
    var q := JustRipe().(clock := 1_000_001);
    assert Ripened(JustRipe(), 1, 1_000_001) == q;
    assert SettledOne(q, {}).told == [0] && SettledOne(q, {}).ripe == [];
    assert Fired(q, 1_000_001, {}) == Fired(SettledOne(q, {}), 1_000_001, {});
  }

  lemma OneWaits(g: Geo, es: seq<FleetEvent>)
    requires g.Valid() && g.N == 1
    requires var f := FleetRun(g, 1, es); f.m == HeardOnce(JustRipe()) && f.cur == 1 && f.state == Dead
    ensures FleetRun(g, 1, es + [EarlyScan]).m.queue.told == []
  {
    PollsRun(g, 1, es, 1_000_000, 1_000_000);
    var q := JustRipe().(clock := 1_000_000);
    assert Ripened(JustRipe(), 1, 1_000_000) == q;
    assert Fired(q, 1_000_000, {}) == q;
  }

  lemma OneIsTold(g: Geo, es: seq<FleetEvent>)
    requires g.Valid() && g.N == 1 && FleetRun(g, 1, es) == FleetInit(1)
    ensures var heard := es + [Granted] + [Sends] + [Hears(0, 0, [])] + [Works(0, PipeDrains)] + [Reads(0, 0, 0)];
      var ripe := heard + [Dies] + [Polls(0, 0)];
      && FleetRun(g, 1, ripe).m == HeardOnce(JustRipe())
      && FleetRun(g, 1, ripe + [EarlyScan]).m.queue.told == []
      && FleetRun(g, 1, ripe + [LastScan]).m.queue.told == [0]
  {
    var a := es + [Granted] + [Sends];
    var b := a + [Hears(0, 0, [])] + [Works(0, PipeDrains)];
    OneIsSent(g, es);
    OneIsHeard(g, a);
    OneIsRead(g, b);
    OneIsRipe(g, b + [Reads(0, 0, 0)]);
    OneWaits(g, b + [Reads(0, 0, 0)] + [Dies] + [Polls(0, 0)]);
    OneIsSettled(g, b + [Reads(0, 0, 0)] + [Dies] + [Polls(0, 0)]);
  }

  lemma OnePacketValid()
    ensures OnePacket().Valid()
  {
    assert OnePacket().Off(1) == OnePacket().Off(0) + 1;
  }

  lemma EventsInOrder()
    ensures [] + [Granted] + [Sends] + [Hears(0, 0, [])] + [Works(0, PipeDrains)] + [Reads(0, 0, 0)]
      + [Dies] + [Polls(0, 0)] == HeardEvents + ScanEvents
  {
  }

  /** A push of one packet to one receiver: the completion is counted and the message made, and only afterwards, when
      the timeout is past and not before, is FAST_DONE made for that receiver. */
  lemma OnePacketIsTold()
    ensures OnePacket().Valid()
    ensures var f := FleetRun(OnePacket(), 1, HeardEvents + ScanEvents); f.m.created == 1 && f.m.queue.told == []
    ensures FleetRun(OnePacket(), 1, HeardEvents + ScanEvents + [EarlyScan]).m.queue.told == []
    ensures FleetRun(OnePacket(), 1, HeardEvents + ScanEvents + [LastScan]).m.queue.told == [0]
  {
    OnePacketValid();
    EventsInOrder();
    OneIsTold(OnePacket(), []);
  }
}
