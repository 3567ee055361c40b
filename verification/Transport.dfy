/**
 * The channels between one receiver and the sender: the pipe between the receiver's threads, the receiver's
 * send queue, the sender's ring of ranges and its patch stream. Together they behave as one FIFO of packets.
 */
module Transport {
  import opened Basics
  import opened Geometry
  import opened ReceiverSpec
  import opened Cover
  import opened Transfer
  import opened Runs

  datatype Msg = FirstSeq(first: nat) | PatchReq(t: Tuple) | AllDone

  datatype Net = Net(
    r: Recv, fast: seq<nat>, slow: seq<nat>, done: bool, halted: bool,
    pipe: seq<Msg>,     // data thread to control thread
    up: seq<Msg>,       // receiver to sender
    hasFirst: bool,     // the sender has handled FIRST_SEQ
    seqEnd: nat,        // and computed the end of this receiver's window
    hasAllDone: bool,
    ring: seq<Tuple>,   // ranges the sender still has to read
    chan: seq<nat>)     // patches on their way

  datatype NetEvent =
    | FastArrives(c: nat, junk: seq<byte>)
    | PipeDrains
    | SenderReads(round: nat)   // `round` is what the sender's clock makes of seqEnd
    | SenderPumps
    | PatchArrives(junk: seq<byte>)
    | FastDoneArrives

  function NetInit(): Net { Net(Fresh(), [], [], false, false, [], [], false, 0, false, [], []) }

  // ---- what the channels hold

  function Flat(ring: seq<Tuple>): seq<nat> {
    if ring == [] then [] else Range(ring[0].stt, ring[0].end) + Flat(ring[1..])
  }

  // The sender's answer to one request (thread_send.c:378-424); `end` is where the receiver's window ends.
  function Normalise(g: Geo, end: nat, t: Tuple): seq<Tuple> {
    var stt := Wrap(g, t.stt);
    var e := if t.end == SEQ2WARDTHEEND then end else t.end;
    if stt < e then [Tuple(stt, e)]
    else if stt > e then [Tuple(0, e), Tuple(stt, g.N)]
    else []
  }

  function Asks(g: Geo, first: nat, ms: seq<Msg>): seq<nat> {
    if ms == [] then []
    else (if ms[0].PatchReq? then Names(g, first, ms[0].t) else []) + Asks(g, first, ms[1..])
  }

  function Reports(ms: seq<Msg>): nat {
    if ms == [] then 0 else (if ms[0].AllDone? then 1 else 0) + Reports(ms[1..])
  }

  lemma {:induction false} FlatAppend(a: seq<Tuple>, b: seq<Tuple>)
    ensures Flat(a + b) == Flat(a) + Flat(b)
  {
    hide Range;
    if a == [] {
      assert a + b == b;
    } else {
      FlatAppend(a[1..], b);
      assert (a + b)[1..] == a[1..] + b;
      Extend(Range(a[0].stt, a[0].end), Flat(a[1..]), Flat(b));
    }
  }

  lemma {:induction false} AsksAppend(g: Geo, first: nat, a: seq<Msg>, b: seq<Msg>)
    ensures Asks(g, first, a + b) == Asks(g, first, a) + Asks(g, first, b)
  {
    if a == [] {
      assert a + b == b;
    } else {
      AsksAppend(g, first, a[1..], b);
      assert (a + b)[1..] == a[1..] + b;
      Extend(if a[0].PatchReq? then Names(g, first, a[0].t) else [], Asks(g, first, a[1..]), Asks(g, first, b));
    }
  }

  lemma {:induction false} ReportsAppend(a: seq<Msg>, b: seq<Msg>)
    ensures Reports(a + b) == Reports(a) + Reports(b)
  {
    if a == [] {
      assert a + b == b;
    } else {
      ReportsAppend(a[1..], b);
      assert (a + b)[1..] == a[1..] + b;
    }
  }

  /** The ranges the sender makes of a request spell the packets the request names. */
  lemma NormaliseNames(g: Geo, end: nat, t: Tuple)
    ensures Flat(Normalise(g, end, t)) == Names(g, end, t)
  {
    var stt := Wrap(g, t.stt);
    var e := if t.end == SEQ2WARDTHEEND then end else t.end;
    if stt < e {
      FlatOne(Tuple(stt, e));
    } else if stt > e {
      assert [Tuple(0, e), Tuple(stt, g.N)] == [Tuple(0, e)] + [Tuple(stt, g.N)];
      FlatAppend([Tuple(0, e)], [Tuple(stt, g.N)]);
      FlatOne(Tuple(0, e));
      FlatOne(Tuple(stt, g.N));
    }
  }

  lemma FlatOne(t: Tuple)
    ensures Flat([t]) == Range(t.stt, t.end)
  {
    assert [t][1..] == [];
    assert Flat([]) == [];
  }

  // ---- the FIFO they implement

  function Pending(g: Geo, n: Net): seq<nat> {
    n.chan + Flat(n.ring) + Asks(g, n.r.fst, n.up) + Asks(g, n.r.fst, n.pipe)
  }

  function Abs(g: Geo, n: Net): Sys {
    Sys(n.r, Pending(g, n), n.fast, n.slow, n.done, n.halted)
  }

  predicate WellFormed(g: Geo, m: Msg) {
    match m
    case FirstSeq(_) => false
    case PatchReq(t) => t.stt <= g.N && (t.end <= g.N || t.end == SEQ2WARDTHEEND)
    case AllDone => true
  }

  predicate AllWellFormed(g: Geo, ms: seq<Msg>) {
    forall m :: m in ms ==> WellFormed(g, m)
  }

  // FIRST_SEQ goes ahead of everything else, and completion is reported once.
  ghost predicate Orderly(g: Geo, n: Net)
    requires g.N > 0
  {
    var queued := n.up + n.pipe;
    && (n.hasFirst ==> n.r.isFst && n.seqEnd % g.N == n.r.fst)
    && (!n.hasFirst ==> n.ring == [] && n.chan == [] && !n.done && !n.hasAllDone)
    && (!n.r.isFst ==> queued == [])
    && (n.r.isFst && !n.hasFirst ==> queued != [] && queued[0] == FirstSeq(n.r.fst))
    && AllWellFormed(g, if n.hasFirst || queued == [] then queued else queued[1..])
    && Reports(queued) + (if n.hasAllDone then 1 else 0) == (if n.r.isFinished && g.N > 1 then 1 else 0)
  }

  ghost predicate Wired(g: Geo, n: Net)
    requires g.Valid()
  {
    Inv(g, Abs(g, n)) && Orderly(g, n)
  }

  // ---- one event

  function FastMsgs(g: Geo, r: Recv, r': Recv, c: nat): seq<Msg> {
    (if r.isFst then [] else [FirstSeq(c)])
    + (if r'.isFinished && g.N > 1 then [AllDone] else [])
    + (if Loss(g, r, c).Some? then [PatchReq(Loss(g, r, c).value)] else [])
  }

  ghost function Arrive(g: Geo, n: Net, c: nat, junk: seq<byte>): Net
    requires g.Valid() && Wf(g, n.r)
  {
    if c >= g.N || !n.r.isFastpath then n
    else if Halts(n.r, c) then n.(halted := true)
    else
      var r' := FastStep(g, n.r, c, junk);
      n.(r := r', fast := if Accepts(g, n.r, c) then n.fast + [c] else n.fast,
         pipe := n.pipe + FastMsgs(g, n.r, r', c))
  }

  function Move(n: Net): Net {
    if n.pipe == [] then n else n.(up := n.up + [n.pipe[0]], pipe := n.pipe[1..])
  }

  function Read(g: Geo, n: Net, round: nat): Net
    requires g.N > 0
  {
    if n.up == [] then n else
    match n.up[0]
    case FirstSeq(f) => n.(up := n.up[1..], hasFirst := true, seqEnd := round * g.N + f)
    case PatchReq(t) => n.(up := n.up[1..], ring := n.ring + Normalise(g, n.seqEnd % g.N, t))
    case AllDone => if n.hasAllDone then n.(halted := true) else n.(up := n.up[1..], hasAllDone := true)
  }

  function Pump(n: Net): Net {
    if n.ring == [] then n
    else if n.ring[0].stt >= n.ring[0].end then n.(ring := n.ring[1..])
    else n.(chan := n.chan + [n.ring[0].stt], ring := n.ring[0 := Tuple(n.ring[0].stt + 1, n.ring[0].end)])
  }

  ghost function Patched(g: Geo, n: Net, junk: seq<byte>): Net
    requires g.Valid() && n.chan != [] && Wf(g, n.r) && n.r.isFst && n.chan[0] < g.N && TailReady(n.r, n.chan[0])
  {
    var r' := PatchStep(g, n.r, n.chan[0], junk);
    n.(r := r', slow := n.slow + [n.chan[0]], chan := n.chan[1..],
       up := if r'.isFinished then n.up + [AllDone] else n.up)
  }

  function Stopped(g: Geo, n: Net): Net {
    if !n.hasFirst || n.done then n else
    var loss := FastDoneLoss(g, n.r);
    n.(r := FastDoneStep(n.r), done := true, up := n.up + if loss.Some? then [PatchReq(loss.value)] else [])
  }

  ghost function NetStep(g: Geo, n: Net, e: NetEvent): Net
    requires g.Valid() && Wired(g, n)
  {
    if n.halted then n else
    match e
    case FastArrives(c, junk) => Arrive(g, n, c, junk)
    case PipeDrains => Move(n)
    case SenderReads(round) => Read(g, n, round)
    case SenderPumps => Pump(n)
    case PatchArrives(junk) => if n.chan == [] then n else ArrivalEnabled(g, n, junk); Patched(g, n, junk)
    case FastDoneArrives => Stopped(g, n)
  }

  lemma ArrivalEnabled(g: Geo, n: Net, junk: seq<byte>)
    requires g.Valid() && Inv(g, Abs(g, n)) && n.chan != [] && !n.halted
    ensures Enabled(g, Abs(g, n), Patch(junk)) && Pending(g, n)[0] == n.chan[0] && n.chan[0] != n.r.fst
    ensures n.r.isFst && n.chan[0] < g.N && TailReady(n.r, n.chan[0])
  {
    PatchEnabled(g, Abs(g, n), junk);
  }

  // The step of the FIFO model that an event amounts to, if any.
  ghost function Match(g: Geo, n: Net, e: NetEvent): seq<Event>
    requires g.Valid()
  {
    match e
    case FastArrives(c, junk) => [Fast(c, junk)]
    case PatchArrives(junk) => if n.chan == [] then [] else [Patch(junk)]
    case FastDoneArrives =>
      if !n.hasFirst || n.done then [] else [FastDone(|n.chan + Flat(n.ring) + Asks(g, n.r.fst, n.up)|)]
    case _ => []
  }

  ghost function AbsStep(g: Geo, s: Sys, es: seq<Event>): Sys
    requires g.Valid() && |es| <= 1
  {
    if es == [] then s else Apply(g, s, es[0])
  }

  lemma MoveRefines(g: Geo, n: Net)
    requires g.Valid() && Orderly(g, n)
    ensures Orderly(g, Move(n)) && Abs(g, Move(n)) == Abs(g, n)
  {
    if n.pipe != [] {
      assert Move(n).up + Move(n).pipe == n.up + n.pipe;
      MovePending(g, n.r.fst, n.up, n.pipe, n.chan + Flat(n.ring));
    }
  }

  lemma MovePending(g: Geo, first: nat, up: seq<Msg>, pipe: seq<Msg>, a: seq<nat>)
    requires pipe != []
    ensures a + Asks(g, first, up + [pipe[0]]) + Asks(g, first, pipe[1..])
         == a + Asks(g, first, up) + Asks(g, first, pipe)
  {
    AsksAppend(g, first, up, [pipe[0]]);
    AsksAppend(g, first, [pipe[0]], pipe[1..]);
    assert pipe == [pipe[0]] + pipe[1..];
    var b, c, d := Asks(g, first, up), Asks(g, first, [pipe[0]]), Asks(g, first, pipe[1..]);
    Regroup(a, b, c, d, []);
    Extend(a, b, c);
    Extend(a + b, c, d);
  }

  lemma PumpRefines(g: Geo, n: Net)
    requires g.Valid() && Orderly(g, n)
    ensures Orderly(g, Pump(n)) && Abs(g, Pump(n)) == Abs(g, n)
  {
    if n.ring != [] { PumpKeepsStream(n); }
  }

  lemma PumpKeepsStream(n: Net)
    requires n.ring != []
    ensures Pump(n).chan + Flat(Pump(n).ring) == n.chan + Flat(n.ring)
  {
    var t := n.ring[0];
    if t.stt < t.end {
      var t' := Tuple(t.stt + 1, t.end);
      assert n.ring[0 := t'][1..] == n.ring[1..];
      RangeHead(t.stt, t.end);
      Shift(n.chan, t.stt, Range(t'.stt, t'.end), Flat(n.ring[1..]));
    } else {
      assert Range(t.stt, t.end) == [];
    }
  }

  lemma RangeHead(a: nat, b: nat)
    requires a < b
    ensures Range(a, b) == [a] + Range(a + 1, b)
  {
  }

  lemma Shift(a: seq<nat>, x: nat, b: seq<nat>, c: seq<nat>)
    ensures a + [x] + (b + c) == a + ([x] + b + c)
  {
  }

  lemma QueuedTail(n: Net)
    requires n.up != []
    ensures n.up + n.pipe == [n.up[0]] + (n.up[1..] + n.pipe) && (n.up + n.pipe)[0] == n.up[0]
    ensures (n.up + n.pipe)[1..] == n.up[1..] + n.pipe
    ensures Reports(n.up + n.pipe) == (if n.up[0].AllDone? then 1 else 0) + Reports(n.up[1..] + n.pipe)
  {
    assert (n.up + n.pipe)[1..] == n.up[1..] + n.pipe;
  }

  lemma EndOfWindow(round: nat, N: nat, f: nat)
    requires f < N
    ensures (round * N + f) % N == f
  {
    RemainderIs(round * N + f, N, round, f);
  }

  lemma ReadRefines(g: Geo, n: Net, round: nat)
    requires g.Valid() && Orderly(g, n) && (n.r.isFst ==> n.r.fst < g.N)
    ensures Orderly(g, Read(g, n, round)) && Abs(g, Read(g, n, round)) == Abs(g, n)
  {
    if n.up != [] {
      var m := n.up[0];
      QueuedTail(n);
      assert m in n.up + n.pipe;
      assert m.FirstSeq? <==> !n.hasFirst;
      ReadOrderly(g, n, round);
      ReadPending(g, n, round);
    }
  }

  lemma ReadPending(g: Geo, n: Net, round: nat)
    requires g.N > 0 && n.up != [] && (n.up[0].PatchReq? ==> n.seqEnd % g.N == n.r.fst)
    ensures Pending(g, Read(g, n, round)) == Pending(g, n)
  {
    match n.up[0]
    case FirstSeq(_) => AsksTail(g, n.r.fst, n.up);
    case PatchReq(t) => ReadRequest(g, n, t);
    case AllDone => AsksTail(g, n.r.fst, n.up);
  }

  lemma AsksTail(g: Geo, first: nat, ms: seq<Msg>)
    requires ms != [] && !ms[0].PatchReq?
    ensures Asks(g, first, ms) == Asks(g, first, ms[1..])
  {
    assert [] + Asks(g, first, ms[1..]) == Asks(g, first, ms[1..]);
  }

  lemma ReadOrderly(g: Geo, n: Net, round: nat)
    requires g.Valid() && Orderly(g, n) && (n.r.isFst ==> n.r.fst < g.N)
    requires n.up != [] && (n.up[0].FirstSeq? <==> !n.hasFirst)
    ensures Orderly(g, Read(g, n, round))
    ensures n.up[0].AllDone? ==> !n.hasAllDone
  {
    QueuedTail(n);
    var q := n.up + n.pipe;
    assert forall m :: m in q[1..] ==> m in q;
    if n.up[0].FirstSeq? { EndOfWindow(round, g.N, n.up[0].first); }
  }

  lemma ReadRequest(g: Geo, n: Net, t: Tuple)
    requires n.up != [] && n.up[0] == PatchReq(t)
    ensures var n' := n.(up := n.up[1..], ring := n.ring + Normalise(g, n.r.fst, t));
      Pending(g, n') == Pending(g, n)
  {
    var names := Names(g, n.r.fst, t);
    NormaliseNames(g, n.r.fst, t);
    FlatAppend(n.ring, Normalise(g, n.r.fst, t));
    Regroup(n.chan, Flat(n.ring), names, Asks(g, n.r.fst, n.up[1..]), Asks(g, n.r.fst, n.pipe));
  }

  lemma Regroup(a: seq<nat>, b: seq<nat>, c: seq<nat>, d: seq<nat>, e: seq<nat>)
    ensures a + (b + c) + d + e == a + b + (c + d) + e
  {
  }

  lemma FastMsgsFacts(g: Geo, r: Recv, r': Recv, c: nat)
    requires g.N > 0 && (r.isFst ==> r.lst < g.N) && c < g.N && (Loss(g, r, c).Some? ==> r.isFst)
    ensures var ms := FastMsgs(g, r, r', c);
      && Asks(g, r.fst, ms) == LossNames(g, r.fst, Loss(g, r, c))
      && Reports(ms) == (if r'.isFinished && g.N > 1 then 1 else 0)
      && (!r.isFst ==> ms != [] && ms[0] == FirstSeq(c) && LossNames(g, r.fst, Loss(g, r, c)) == [])
      && AllWellFormed(g, if r.isFst then ms else ms[1..])
  {
    var a := if r.isFst then [] else [FirstSeq(c)];
    var b := if r'.isFinished && g.N > 1 then [AllDone] else [];
    var d := if Loss(g, r, c).Some? then [PatchReq(Loss(g, r, c).value)] else [];
    AsksAppend(g, r.fst, a + b, d);
    AsksAppend(g, r.fst, a, b);
    ReportsAppend(a + b, d);
    ReportsAppend(a, b);
    if !r.isFst { assert (a + b + d)[1..] == b + d; }
  }

  lemma ArriveRefines(g: Geo, n: Net, c: nat, junk: seq<byte>)
    requires g.Valid() && Wired(g, n) && !n.halted
    ensures Orderly(g, Arrive(g, n, c, junk))
    ensures Abs(g, Arrive(g, n, c, junk)) == Apply(g, Abs(g, n), Fast(c, junk))
  {
    if c >= g.N {
    } else if !n.r.isFastpath {
      IdleForm(g, Abs(g, n), c, junk);
    } else if Halts(n.r, c) {
      HaltForm(g, Abs(g, n), c, junk);
    } else {
      TakenRefines(g, n, c, junk);
    }
  }

  lemma TakenRefines(g: Geo, n: Net, c: nat, junk: seq<byte>)
    requires g.Valid() && Wired(g, n) && !n.halted && c < g.N && n.r.isFastpath && !Halts(n.r, c)
    ensures Orderly(g, Arrive(g, n, c, junk))
    ensures Abs(g, Arrive(g, n, c, junk)) == Apply(g, Abs(g, n), Fast(c, junk))
  {
    var n', r' := Arrive(g, n, c, junk), FastStep(g, n.r, c, junk);
    FastFields(g, n.r, c, junk);
    FastMsgsFacts(g, n.r, r', c);
    ArrivePending(g, n, n', c);
    ArriveOrderly(g, n, n', FastMsgs(g, n.r, r', c));
    FastForm(g, Abs(g, n), c, junk);
  }

  // A packet that arrives after the fast path was turned off does nothing.
  lemma IdleForm(g: Geo, s: Sys, c: nat, junk: seq<byte>)
    requires g.Valid() && !s.halted && Wf(g, s.r) && c < g.N && !s.r.isFastpath
    ensures Apply(g, s, Fast(c, junk)) == s
  {
    assert s.pending + [] == s.pending;
  }

  lemma HaltForm(g: Geo, s: Sys, c: nat, junk: seq<byte>)
    requires g.Valid() && !s.halted && Wf(g, s.r) && c < g.N && Halts(s.r, c)
    ensures Apply(g, s, Fast(c, junk)) == s.(halted := true)
  {
  }

  lemma ArrivePending(g: Geo, n: Net, n': Net, c: nat)
    requires g.N > 0 && Orderly(g, n) && c < g.N && (n.r.isFst ==> n.r.lst < g.N)
    requires n'.chan == n.chan && n'.ring == n.ring && n'.up == n.up && n'.pipe == n.pipe + FastMsgs(g, n.r, n'.r, c)
    requires n'.r.fst == (if n.r.isFst then n.r.fst else c)
    ensures Pending(g, n') == Pending(g, n) + LossNames(g, n.r.fst, Loss(g, n.r, c))
  {
    hide FastMsgs;
    var ms := FastMsgs(g, n.r, n'.r, c);
    FastMsgsFacts(g, n.r, n'.r, c);
    if n.r.isFst {
      AsksAppend(g, n.r.fst, n.pipe, ms);
      Extend(n.chan + Flat(n.ring) + Asks(g, n.r.fst, n.up), Asks(g, n.r.fst, n.pipe), Asks(g, n.r.fst, ms));
    } else {
      assert |n.up + n.pipe| == 0;
      assert n.up == [] && n.pipe == [] && n'.pipe == ms;
      FirstAsksNothing(g, c, n.r, n'.r);
    }
  }

  lemma Extend(a: seq<nat>, b: seq<nat>, c: seq<nat>)
    ensures a + (b + c) == a + b + c
  {
  }

  lemma FirstAsksNothing(g: Geo, c: nat, r: Recv, r': Recv)
    requires !r.isFst
    ensures Asks(g, c, FastMsgs(g, r, r', c)) == []
  {
    var b := if r'.isFinished && g.N > 1 then [AllDone] else [];
    assert FastMsgs(g, r, r', c) == [FirstSeq(c)] + b;
    AsksAppend(g, c, [FirstSeq(c)], b);
  }

  lemma ArriveOrderly(g: Geo, n: Net, n': Net, ms: seq<Msg>)
    requires g.N > 0 && Orderly(g, n) && !n.r.isFinished
    requires n' == n.(r := n'.r, fast := n'.fast, pipe := n.pipe + ms)
    requires n'.r.isFst && (n.r.isFst ==> n'.r.fst == n.r.fst)
    requires Reports(ms) == (if n'.r.isFinished && g.N > 1 then 1 else 0)
    requires !n.r.isFst ==> ms != [] && ms[0] == FirstSeq(n'.r.fst)
    requires AllWellFormed(g, if n.r.isFst then ms else ms[1..])
    ensures Orderly(g, n')
  {
    var q := n.up + n.pipe;
    assert n'.up + n'.pipe == q + ms;
    ReportsAppend(q, ms);
    if q != [] { assert (q + ms)[1..] == q[1..] + ms; } else { assert q + ms == ms; }
  }

  lemma PatchedRefines(g: Geo, n: Net, junk: seq<byte>)
    requires g.Valid() && Wired(g, n) && !n.halted && n.chan != []
    requires n.r.isFst && n.chan[0] < g.N && TailReady(n.r, n.chan[0])
    ensures Orderly(g, Patched(g, n, junk))
    ensures Abs(g, Patched(g, n, junk)) == Apply(g, Abs(g, n), Patch(junk))
  {
    var n' := Patched(g, n, junk);
    ArrivalEnabled(g, n, junk);
    NotFinishedYet(g, n);
    PatchStepFields(g, n.r, n.chan[0], junk);
    PatchedPending(g, n, n');
    PatchedOrderly(g, n, n');
  }

  lemma PatchedPending(g: Geo, n: Net, n': Net)
    requires n.chan != [] && n'.chan == n.chan[1..] && n'.ring == n.ring && n'.pipe == n.pipe && n'.r.fst == n.r.fst
    requires n'.up == n.up || n'.up == n.up + [AllDone]
    ensures Pending(g, n') == Pending(g, n)[1..]
  {
    AsksAppend(g, n.r.fst, n.up, [AllDone]);
    assert [AllDone][1..] == [];
    assert Asks(g, n.r.fst, [AllDone]) == [];
    Behead(n.chan, Flat(n.ring), Asks(g, n.r.fst, n.up), Asks(g, n.r.fst, n.pipe));
  }

  lemma Behead(a: seq<nat>, b: seq<nat>, c: seq<nat>, d: seq<nat>)
    requires a != []
    ensures a[1..] + b + c + d == (a + b + c + d)[1..]
  {
  }

  lemma NotFinishedYet(g: Geo, n: Net)
    requires g.Valid() && Inv(g, Abs(g, n)) && n.chan != [] && n.r.isFst
    ensures !n.r.isFinished && g.N > 1
  {
    var s := Abs(g, n);
    CoverFacts(g, s);
    assert |s.pending| > 0 && |s.fast| > 0;
  }

  lemma PatchStepFields(g: Geo, r: Recv, s: nat, junk: seq<byte>)
    requires g.Valid() && Wf(g, r) && r.isFst && s < g.N && TailReady(r, s)
    ensures PatchStep(g, r, s, junk).isFst && PatchStep(g, r, s, junk).fst == r.fst
  {
  }

  lemma PatchedOrderly(g: Geo, n: Net, n': Net)
    requires g.N > 1 && Orderly(g, n) && !n.r.isFinished && n.hasFirst
    requires n' == n.(r := n'.r, slow := n'.slow, chan := n'.chan,
                      up := if n'.r.isFinished then n.up + [AllDone] else n.up)
    requires n'.r.isFst && n'.r.fst == n.r.fst
    ensures Orderly(g, n')
  {
    ReportsAppend(n.up, n.pipe);
    ReportsAppend(n'.up, n.pipe);
    ReportsAppend(n.up, [AllDone]);
    assert Reports([AllDone]) == 1;
    assert forall m :: m in n'.up + n'.pipe ==> m in n.up + n.pipe || m == AllDone;
  }

  lemma StoppedRefines(g: Geo, n: Net)
    requires g.Valid() && Orderly(g, n) && Wf(g, n.r) && !n.halted && n.hasFirst && !n.done
    ensures Orderly(g, Stopped(g, n))
    ensures var at := |n.chan + Flat(n.ring) + Asks(g, n.r.fst, n.up)|;
      Abs(g, Stopped(g, n)) == Apply(g, Abs(g, n), FastDone(at))
  {
    var d := if FastDoneLoss(g, n.r).Some? then [PatchReq(FastDoneLoss(g, n.r).value)] else [];
    var at := |n.chan + Flat(n.ring) + Asks(g, n.r.fst, n.up)|;
    StoppedPending(g, n, d);
    StoppedOrderly(g, n, Stopped(g, n), d);
    FastDoneForm(g, Abs(g, n), at);
  }

  lemma FastDoneForm(g: Geo, s: Sys, at: nat)
    requires g.Valid() && !s.halted && Wf(g, s.r) && s.r.isFst && !s.done && at <= |s.pending|
    ensures Apply(g, s, FastDone(at)) ==
      s.(r := FastDoneStep(s.r), done := true,
         pending := s.pending[..at] + LossNames(g, s.r.fst, FastDoneLoss(g, s.r)) + s.pending[at..])
  {
  }

  lemma StoppedPending(g: Geo, n: Net, d: seq<Msg>)
    requires d == if FastDoneLoss(g, n.r).Some? then [PatchReq(FastDoneLoss(g, n.r).value)] else []
    ensures var at := |n.chan + Flat(n.ring) + Asks(g, n.r.fst, n.up)|;
      && at <= |Pending(g, n)|
      && n.chan + Flat(n.ring) + Asks(g, n.r.fst, n.up + d) + Asks(g, n.r.fst, n.pipe)
         == Pending(g, n)[..at] + LossNames(g, n.r.fst, FastDoneLoss(g, n.r)) + Pending(g, n)[at..]
  {
    AsksAppend(g, n.r.fst, n.up, d);
    assert Asks(g, n.r.fst, d) == LossNames(g, n.r.fst, FastDoneLoss(g, n.r)) by { if d != [] { assert d[1..] == []; } }
    Insert(n.chan + Flat(n.ring), Asks(g, n.r.fst, n.up), Asks(g, n.r.fst, d), Asks(g, n.r.fst, n.pipe));
  }

  lemma Insert(a: seq<nat>, b: seq<nat>, x: seq<nat>, c: seq<nat>)
    ensures a + (b + x) + c == (a + b + c)[..|a + b|] + x + (a + b + c)[|a + b|..]
  {
    assert (a + b + c)[..|a + b|] == a + b;
    assert (a + b + c)[|a + b|..] == c;
  }

  lemma StoppedOrderly(g: Geo, n: Net, n': Net, d: seq<Msg>)
    requires g.Valid() && Orderly(g, n) && n.hasFirst && n' == n.(r := FastDoneStep(n.r), done := true, up := n.up + d)
    requires forall m :: m in d ==> WellFormed(g, m) && m.PatchReq?
    requires |d| <= 1
    ensures Orderly(g, n')
  {
    ReportsAppend(n.up, n.pipe);
    ReportsAppend(n'.up, n.pipe);
    ReportsAppend(n.up, d);
    assert Reports(d) == 0 by { if d != [] { assert d[1..] == []; assert d[0] in d; } }
    assert forall m :: m in n'.up + n'.pipe ==> m in n.up + n.pipe || m in d;
  }

  /** Moving messages along the channels changes nothing; every other event is one step of the FIFO model. */
  lemma StepRefines(g: Geo, n: Net, e: NetEvent)
    requires g.Valid() && Wired(g, n)
    ensures Abs(g, NetStep(g, n, e)) == AbsStep(g, Abs(g, n), Match(g, n, e))
    ensures Orderly(g, NetStep(g, n, e))
  {
    if !n.halted {
      match e
      case FastArrives(c, junk) => ArriveRefines(g, n, c, junk);
      case PipeDrains => MoveRefines(g, n);
      case SenderReads(round) => ReadRefines(g, n, round);
      case SenderPumps => PumpRefines(g, n);
      case PatchArrives(junk) => if n.chan != [] { ArrivalEnabled(g, n, junk); PatchedRefines(g, n, junk); }
      case FastDoneArrives => if n.hasFirst && !n.done { StoppedRefines(g, n); }
    }
  }

  lemma StepWired(g: Geo, n: Net, e: NetEvent)
    requires g.Valid() && Wired(g, n)
    ensures Wired(g, NetStep(g, n, e))
    ensures Abs(g, NetStep(g, n, e)) == AbsStep(g, Abs(g, n), Match(g, n, e))
  {
    StepRefines(g, n, e);
    var es := Match(g, n, e);
    if es != [] { ApplyInv(g, Abs(g, n), es[0]); }
  }

  // ---- whole runs

  ghost function NetRun(g: Geo, es: seq<NetEvent>): Net
    requires g.Valid()
    decreases |es|
  {
    if es == [] then NetInit() else
    var n := NetRun(g, es[..|es| - 1]);
    if Wired(g, n) then NetStep(g, n, es[|es| - 1]) else n
  }

  // The FIFO model's part of a run over the channels.
  ghost function Projected(g: Geo, es: seq<NetEvent>): seq<Event>
    requires g.Valid()
    decreases |es|
  {
    if es == [] then [] else
    var before := es[..|es| - 1];
    Projected(g, before) + Match(g, NetRun(g, before), es[|es| - 1])
  }

  lemma NetInitWired(g: Geo)
    requires g.Valid()
    ensures Wired(g, NetInit()) && Abs(g, NetInit()) == Init()
  {
    InitInv(g);
  }

  /** Every run over the channels is a run of the FIFO model, so all that holds there holds here. */
  lemma {:induction false} NetRefines(g: Geo, es: seq<NetEvent>)
    requires g.Valid()
    ensures Wired(g, NetRun(g, es))
    ensures Abs(g, NetRun(g, es)) == Run(g, Projected(g, es))
    decreases |es|
  {
    if es == [] {
      NetInitWired(g);
    } else {
      var before, e := es[..|es| - 1], es[|es| - 1];
      NetRefines(g, before);
      StepExtends(g, NetRun(g, before), Projected(g, before), e);
    }
  }

  lemma StepExtends(g: Geo, n: Net, xs: seq<Event>, e: NetEvent)
    requires g.Valid() && Wired(g, n) && Abs(g, n) == Run(g, xs)
    ensures Wired(g, NetStep(g, n, e)) && Abs(g, NetStep(g, n, e)) == Run(g, xs + Match(g, n, e))
  {
    StepWired(g, n, e);
    RunAppend(g, xs, Match(g, n, e));
  }

  lemma RunAppend(g: Geo, xs: seq<Event>, ys: seq<Event>)
    requires g.Valid() && |ys| <= 1
    ensures Run(g, xs + ys) == AbsStep(g, Run(g, xs), ys)
  {
    if ys != [] { assert (xs + ys)[..|xs|] == xs; } else { assert xs + ys == xs; }
  }

  /** Over the real channels too, a finished receiver holds the source bytes. */
  lemma NetReconstruction(g: Geo, es: seq<NetEvent>)
    requires g.Valid() && NetRun(g, es).r.isFinished
    ensures var r := NetRun(g, es).r;
      && 0 <= r.start <= r.jump <= |r.file| == |g.data|
      && r.file[r.start..r.jump] + r.file[..r.start] + r.file[r.jump..] == g.data
  {
    NetRefines(g, es);
    Reconstruction(g, Projected(g, es));
  }

  /** The sender finds each completion report new, and hears of the first packet before any request; for a file of
      one packet that is the completion report. */
  lemma SenderHearsOnce(g: Geo, es: seq<NetEvent>)
    requires g.Valid()
    ensures g.N == 1 && NetRun(g, es).r.isFst ==> NetRun(g, es).r.isFinished
    ensures var n := NetRun(g, es);
      n.up != [] ==>
        && (n.up[0].AllDone? ==> n.hasFirst && !n.hasAllDone && n.r.isFinished && g.N > 1)
        && (n.up[0].PatchReq? ==> n.hasFirst && n.seqEnd % g.N == n.r.fst)
        && (n.up[0].FirstSeq? ==> !n.hasFirst && n.up[0].first == n.r.fst && (g.N == 1 ==> n.r.isFinished))
  {
    NetRefines(g, es);
    HeadOfQueue(g, NetRun(g, es));
    if NetRun(g, es).r.isFst { OnePacketFinished(g, NetRun(g, es)); }
  }

  /** A file of one packet is complete with its first packet, so FIRST_SEQ reports completion. */
  lemma OnePacketFinished(g: Geo, n: Net)
    requires g.Valid() && Wired(g, n) && n.r.isFst
    ensures g.N == 1 ==> n.r.isFinished
  {
    CoverFacts(g, Abs(g, n));
    assert |n.fast| > 0;
  }

  /** A receiver whose ALL_DONE has been handled is finished. */
  lemma ReportedIsFinished(g: Geo, n: Net)
    requires g.N > 0 && Orderly(g, n)
    ensures n.hasAllDone ==> n.hasFirst && n.r.isFinished && g.N > 1
  {
  }

  // What the sender knows of the receiver is as it was, and so is its first packet.
  predicate SameBooks(n: Net, n': Net) {
    && n'.hasFirst == n.hasFirst && n'.seqEnd == n.seqEnd && n'.hasAllDone == n.hasAllDone
    && (n.r.isFst ==> n'.r.isFst && n'.r.fst == n.r.fst)
  }

  lemma ArriveFrame(g: Geo, n: Net, c: nat, junk: seq<byte>)
    requires g.Valid() && Wf(g, n.r)
    ensures var n' := Arrive(g, n, c, junk);
      SameBooks(n, n') && n'.done == n.done && (n'.r.isFst && !n.r.isFst ==> n'.r.fst == c)
  {
    if c < g.N && n.r.isFastpath && !Halts(n.r, c) { FastFields(g, n.r, c, junk); }
  }

  lemma PatchedFrame(g: Geo, n: Net, junk: seq<byte>)
    requires g.Valid() && n.chan != [] && Wf(g, n.r) && n.r.isFst && n.chan[0] < g.N && TailReady(n.r, n.chan[0])
    ensures var n' := Patched(g, n, junk);
      SameBooks(n, n') && n'.done == n.done && (n'.r.isFst ==> n.r.isFst)
  {
    PatchStepFields(g, n.r, n.chan[0], junk);
  }

  /** An event on the receiver's side, or on the way, leaves the sender's books alone. */
  lemma StepFrame(g: Geo, n: Net, e: NetEvent)
    requires g.Valid() && Wired(g, n) && !e.SenderReads?
    ensures var n' := NetStep(g, n, e);
      && SameBooks(n, n') && (n'.r.isFst && !n.r.isFst ==> e.FastArrives? && n'.r.fst == e.c)
      && (!e.FastDoneArrives? ==> n'.done == n.done)
  {
    if !n.halted {
      match e
      case FastArrives(c, junk) => ArriveFrame(g, n, c, junk);
      case PatchArrives(junk) => if n.chan != [] { ArrivalEnabled(g, n, junk); PatchedFrame(g, n, junk); }
      case FastDoneArrives => StoppedFrame(g, n);
      case _ => MoveFrame(n);
    }
  }

  lemma MoveFrame(n: Net)
    ensures SameBooks(n, Move(n)) && Move(n).r == n.r && Move(n).done == n.done
    ensures SameBooks(n, Pump(n)) && Pump(n).r == n.r && Pump(n).done == n.done
  {
  }

  lemma StoppedFrame(g: Geo, n: Net)
    ensures SameBooks(n, Stopped(g, n)) && Stopped(g, n).r.isFst == n.r.isFst
  {
  }

  // What becomes of the books when the sender handles the oldest message.
  predicate Handled(g: Geo, n: Net, n': Net, round: nat) {
    n.up != [] && n'.r == n.r && n'.done == n.done &&
    match n.up[0]
    case FirstSeq(first) =>
      && n.r.isFst && first == n.r.fst && !n.hasFirst && !n.hasAllDone && (g.N == 1 ==> n.r.isFinished)
      && n'.hasFirst && n'.seqEnd == round * g.N + first && !n'.hasAllDone
    case PatchReq(_) => SameBooks(n, n')
    case AllDone =>
      && n.r.isFinished && n.hasFirst && !n.hasAllDone && g.N > 1
      && n'.hasFirst && n'.seqEnd == n.seqEnd && n'.hasAllDone
  }

  lemma ReadHandles(g: Geo, n: Net, round: nat)
    requires g.Valid() && Wired(g, n) && !n.halted && n.up != []
    ensures Handled(g, n, NetStep(g, n, SenderReads(round)), round)
  {
    HeadOfQueue(g, n);
    HeadSeen(g, n);
    if n.r.isFst { OnePacketFinished(g, n); }
  }

  lemma HeadSeen(g: Geo, n: Net)
    requires g.N > 0 && Orderly(g, n) && n.up != []
    ensures n.r.isFst && (n.up[0].FirstSeq? ==> !n.hasFirst && !n.hasAllDone)
  {
    QueuedTail(n);
    assert n.up[0] in n.up + n.pipe;
  }

  /** A finished receiver takes no notice of FAST_DONE. */
  lemma FinishedIgnoresFastDone(g: Geo, n: Net)
    requires g.Valid() && Wired(g, n) && n.r.isFinished
    ensures NetStep(g, n, FastDoneArrives) == n.(done := NetStep(g, n, FastDoneArrives).done)
  {
    hide Wired;
    assert n.up + [] == n.up;
  }

  lemma HeadOfQueue(g: Geo, n: Net)
    requires g.N > 0 && Orderly(g, n)
    ensures n.up != [] ==>
      && (n.up[0].AllDone? ==> n.hasFirst && !n.hasAllDone && n.r.isFinished && g.N > 1)
      && (n.up[0].PatchReq? ==> n.hasFirst && n.seqEnd % g.N == n.r.fst)
      && (n.up[0].FirstSeq? ==> !n.hasFirst && n.up[0].first == n.r.fst)
  {
    if n.up != [] {
      QueuedTail(n);
      assert n.up[0] in n.up + n.pipe;
    }
  }

  lemma DrainedNet(g: Geo, n: Net)
    requires g.Valid() && Wired(g, n) && n.done && n.chan == [] && n.ring == [] && n.up == [] && n.pipe == []
    ensures n.hasFirst && n.r.isFinished && (g.N > 1 ==> n.hasAllDone)
  {
    CoverFacts(g, Abs(g, n));
    assert n.up + n.pipe == [];
  }

  /** When nothing is left in the channels after FAST_DONE, the receiver is finished. */
  lemma NetDrained(g: Geo, es: seq<NetEvent>)
    requires g.Valid()
    requires var n := NetRun(g, es); n.done && n.chan == [] && n.ring == [] && n.up == [] && n.pipe == []
    ensures NetRun(g, es).r.isFinished
    ensures g.N > 1 ==> NetRun(g, es).hasAllDone
  {
    NetRefines(g, es);
    DrainedNet(g, NetRun(g, es));
  }
}
