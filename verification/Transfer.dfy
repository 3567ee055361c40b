/**
 * One receiver and the requests it has in flight, over whole runs: fast packets in any order and with any
 * loss, patches in the order they were asked for, FAST_DONE at any moment.
 */
module Transfer {
  import opened Basics
  import opened Geometry
  import opened ReceiverSpec
  import opened Cover
  import opened Placement

  datatype Sys = Sys(
    r: Recv,
    pending: seq<nat>,  // packets asked for and not yet received, in delivery order
    fast: seq<nat>,     // packets accepted from the fast path so far
    slow: seq<nat>,     // packets received as patches so far
    done: bool,         // FAST_DONE has been handled
    halted: bool)       // an assertion of the source has failed

  datatype Event =
    | Fast(c: nat, junk: seq<byte>)   // packet `c` arrives; `junk` is what malloc would return
    | Patch(junk: seq<byte>)          // the oldest outstanding patch arrives
    | FastDone(at: nat)               // its request enters the FIFO before those still in the thread pipe

  function Init(): Sys { Sys(Fresh(), [], [], [], false, false) }

  ghost predicate Enabled(g: Geo, s: Sys, e: Event)
    requires g.Valid()
  {
    !s.halted && Wf(g, s.r) &&
    match e
    case Fast(c, _) => c < g.N
    case Patch(_) => s.pending != [] && s.r.isFst && s.pending[0] < g.N && TailReady(s.r, s.pending[0])
    case FastDone(at) => s.r.isFst && !s.done && at <= |s.pending|
  }

  ghost function Step(g: Geo, s: Sys, e: Event): Sys
    requires g.Valid() && Enabled(g, s, e)
  {
    match e
    case Fast(c, junk) =>
      if Halts(s.r, c) then s.(halted := true) else
      s.(r := FastStep(g, s.r, c, junk),
         pending := s.pending + LossNames(g, s.r.fst, Loss(g, s.r, c)),
         fast := if Accepts(g, s.r, c) then s.fast + [c] else s.fast)
    case Patch(junk) =>
      s.(r := PatchStep(g, s.r, s.pending[0], junk), pending := s.pending[1..], slow := s.slow + [s.pending[0]])
    case FastDone(at) =>
      s.(r := FastDoneStep(s.r), done := true,
         pending := s.pending[..at] + LossNames(g, s.r.fst, FastDoneLoss(g, s.r)) + s.pending[at..])
  }

  // The packets the receiver is answerable for.
  function Target(g: Geo, s: Sys): seq<nat> {
    if !s.r.isFst then [] else if s.done then Range(0, g.N) else Window(g, s.r.fst, s.r.lst)
  }

  ghost predicate Covered(g: Geo, s: Sys) {
    multiset(s.fast) + multiset(s.slow) + multiset(s.pending) == multiset(Target(g, s))
  }

  predicate ZeroFirst(r: Recv, p: seq<nat>) {
    forall j :: 0 <= j < |p| && Needs(r, p[j]) ==> 0 in p[..j]
  }

  predicate Has(s: Sys, x: nat) { x in s.fast || x in s.slow }

  ghost predicate Stored(g: Geo, s: Sys)
    requires g.Valid()
  {
    forall x: nat :: Has(s, x) ==> x < g.N && SlotHolds(g, s.r, x) && (s.r.start < 0 ==> x >= s.r.fst)
  }

  ghost predicate Counted(g: Geo, s: Sys) {
    && s.r.numFast == |s.fast| && s.r.numSlow == |s.slow|
    && (s.r.isFinished <==> |s.fast| + |s.slow| == g.N)
    && (Has(s, 0) ==> s.r.isZero)
  }

  ghost predicate Tight(g: Geo, r: Recv) {
    && (r.isFst && !r.isFinished ==> |r.file| <= BodyEnd(g, r.tail))
    && (r.isFst && r.isFastpath ==> |r.file| <= r.pos)
  }

  ghost predicate Inv(g: Geo, s: Sys)
    requires g.Valid()
  {
    && Wf(g, s.r)
    && Covered(g, s)
    && Counted(g, s)
    && Stored(g, s)
    && Tight(g, s.r)
    && ZeroFirst(s.r, s.pending)
    && (s.r.isFst ==> s.r.fst in s.fast)
    && (s.done ==> s.r.isFst && !s.r.isFastpath)
    && (s.r.isFinished ==> Delivered(g, s.r))
  }

  lemma InitInv(g: Geo)
    requires g.Valid()
    ensures Inv(g, Init())
  {
  }

  // ---- counting

  lemma CoverFacts(g: Geo, s: Sys)
    requires g.Valid() && Wf(g, s.r) && Covered(g, s) && s.r.isFst
    ensures |s.fast| + |s.slow| + |s.pending| == |Target(g, s)| <= g.N
    ensures forall x: nat :: Has(s, x) || x in s.pending ==> x < g.N && (!s.done ==> InWindow(g, s.r.fst, s.r.lst, x))
    ensures forall x: nat :: x in s.pending ==> !Has(s, x)
    ensures |s.fast| + |s.slow| == g.N ==> s.pending == [] && forall x :: 0 <= x < g.N ==> Has(s, x)
    ensures !s.done && |s.fast| + |s.slow| == g.N ==> Next(g, s.r.lst) == s.r.fst
  {
    var all := multiset(s.fast) + multiset(s.slow) + multiset(s.pending);
    assert |all| == |s.fast| + |s.slow| + |s.pending|;
    assert |multiset(Target(g, s))| == |Target(g, s)|;
    WindowSize(g, s.r.fst, s.r.lst);
    forall x: nat
      ensures all[x] == (if x < g.N && (s.done || InWindow(g, s.r.fst, s.r.lst, x)) then 1 else 0)
    {
      RangeCount(0, g.N, x);
      WindowCount(g, s.r.fst, s.r.lst, x);
    }
    forall x | Has(s, x) || x in s.pending
      ensures all[x] > 0 && (x in s.pending ==> !Has(s, x))
    {
      assert x in s.fast ==> multiset(s.fast)[x] > 0;
      assert x in s.slow ==> multiset(s.slow)[x] > 0;
      assert x in s.pending ==> multiset(s.pending)[x] > 0;
    }
    if |s.fast| + |s.slow| == g.N {
      forall x: nat | x < g.N ensures Has(s, x) {
        assert s.pending == [];
        if !s.done { assert InWindow(g, s.r.fst, s.r.lst, x); }
        assert all[x] == 1;
      }
    }
  }

  // ---- the end of a step: the completion test

  ghost predicate Consistent(g: Geo, r: Recv) {
    && Placed(g, r) && r.isFst && r.lst < g.N
    && (if r.isZero then r.seqMax == g.N && |r.tailBuf| == g.D() - BodyEnd(g, r.tail) else r.seqMax == 0)
  }

  /** The completion test succeeds exactly when every packet is stored, and then the file reads as the source. */
  lemma Complete(g: Geo, s: Sys)
    requires g.Valid() && Consistent(g, s.r) && Covered(g, s) && Stored(g, s)
    requires s.r.numFast == |s.fast| && s.r.numSlow == |s.slow| && (Has(s, 0) ==> s.r.isZero)
    requires !s.r.isFinished && s.r.fst in s.fast && |s.r.file| <= BodyEnd(g, s.r.tail)
    requires |s.fast| + |s.slow| == g.N ==> forall x :: 0 <= x < g.N ==> Has(s, x)
    ensures var s' := s.(r := IfComplete(s.r));
      && Counted(g, s') && Stored(g, s')
      && (s'.r.isFinished ==> Delivered(g, s'.r))
      && (!s'.r.isFinished ==> s'.r == s.r)
  {
    if |s.fast| + |s.slow| == g.N {
      assert Has(s, 0);
      forall x | 0 <= x < g.N ensures SlotHolds(g, s.r, x) { assert Has(s, x); }
      Reassemble(g, s.r);
    }
    var s' := s.(r := IfComplete(s.r));
    forall x: nat | Has(s', x) ensures x < g.N && SlotHolds(g, s'.r, x) && (s'.r.start < 0 ==> x >= s'.r.fst) {
      assert Has(s, x);
      if s'.r.isFinished { FinishKeeps(g, s.r, x); }
    }
  }

  // ---- a fast packet

  lemma FastFields(g: Geo, r: Recv, c: nat, junk: seq<byte>)
    requires g.Valid() && Wf(g, r) && c < g.N && !Halts(r, c) && r.isFastpath
    ensures var r' := FastStep(g, r, c, junk);
      && r'.isFst && r'.fst == First(r, c).fst
      && r'.lst == (if Accepts(g, r, c) then c else r.lst)
      && r'.tail == (if Accepts(g, r, c) && CutsTail(r, c) then r.lst else r.tail)
      && r'.isZero == (r.isZero || c == 0)
      && r'.numFast == (if Accepts(g, r, c) then r.numFast + 1 else r.numFast)
      && r'.numSlow == r.numSlow
      && r'.isFastpath == (Next(g, c) != r'.fst)
  {
    hide ByteFile.WriteAt;
    PreparedFacts(g, r, c, junk);
  }

  lemma FastCovered(g: Geo, s: Sys, c: nat, junk: seq<byte>)
    requires g.Valid() && Inv(g, s) && Enabled(g, s, Fast(c, junk)) && !Halts(s.r, c) && s.r.isFastpath
    ensures Covered(g, Step(g, s, Fast(c, junk)))
  {
    FastFields(g, s.r, c, junk);
    FastGrows(g, s, Step(g, s, Fast(c, junk)), c);
  }

  lemma FastGrows(g: Geo, s: Sys, s': Sys, c: nat)
    requires g.Valid() && Wf(g, s.r) && Covered(g, s) && c < g.N && s.r.isFastpath && (s.done ==> s.r.isFst)
    requires s'.r.isFst && s'.r.fst == First(s.r, c).fst && s'.r.lst == (if Accepts(g, s.r, c) then c else s.r.lst)
    requires s'.slow == s.slow && s'.done == s.done && !s.done
    requires s'.fast == if Accepts(g, s.r, c) then s.fast + [c] else s.fast
    requires s'.pending == s.pending + LossNames(g, s.r.fst, Loss(g, s.r, c))
    ensures Covered(g, s')
  {
    if !s.r.isFst {
      NothingYet(g, s);
      assert Window(g, c, c) == [c];
    } else if Accepts(g, s.r, c) {
      AcceptCovers(g, s.r, c);
      BagsGrow(s.fast, s.slow, s.pending, c, LossNames(g, s.r.fst, Loss(g, s.r, c)));
    } else {
      assert Loss(g, s.r, c) == None && s'.pending == s.pending;
    }
  }

  lemma BagsGrow(fast: seq<nat>, slow: seq<nat>, pending: seq<nat>, c: nat, names: seq<nat>)
    ensures multiset(fast + [c]) + multiset(slow) + multiset(pending + names)
         == multiset(fast) + multiset(slow) + multiset(pending) + multiset([c]) + multiset(names)
  {
  }

  // Taking in the metadata and cutting the tail move nothing that is stored.
  lemma PreparedStored(g: Geo, s: Sys, c: nat, junk: seq<byte>, x: nat)
    requires g.Valid() && Inv(g, s) && Enabled(g, s, Fast(c, junk)) && !Halts(s.r, c) && s.r.isFastpath
    requires Has(s, x)
    ensures var p := Prepared(g, s.r, c, junk);
      x < g.N && SlotHolds(g, p, x) && (p.start < 0 ==> x >= p.fst)
  {
    if !s.r.isFst { NothingYet(g, s); }
    CoverFacts(g, s);
    StartNonNegative(g, s.r.fst, s.r.tail);
    SlotStable(g, s.r, c, junk, x);
    g.EndStep(x);
  }

  lemma NothingYet(g: Geo, s: Sys)
    requires g.Valid() && Covered(g, s) && !s.r.isFst
    ensures s.fast == [] && s.slow == [] && s.pending == []
  {
    var all := multiset(s.fast) + multiset(s.slow) + multiset(s.pending);
    assert |all| == |s.fast| + |s.slow| + |s.pending|;
    assert all == multiset(Target(g, s)) && Target(g, s) == [];
    assert |all| == 0;
  }

  // Storing the packet at the cursor keeps what is stored and adds the packet itself.
  lemma TakenStored(g: Geo, p: Recv, taken: bool, c: nat, x: nat)
    requires g.Valid() && c < g.N && x < g.N && ReadyFor(g, p, taken, c)
    requires (taken && x == c) || (SlotHolds(g, p, x) && (p.start < 0 ==> x >= p.fst))
    ensures var q := Taken(g, p, taken, c);
      SlotHolds(g, q, x) && (q.start < 0 ==> x >= q.fst)
  {
    if taken {
      var q, q' := Store(g, p, c), Taken(g, p, taken, c);
      StartNonNegative(g, p.fst, p.tail);
      FileWrite(g, p, q, c, x);
      SlotHoldsSame(g, q, q', x);
    } else {
      SlotHoldsSame(g, p, Taken(g, p, taken, c), x);
    }
  }

  /** The fast cursor never moves back, so nothing it has written is written again. */
  lemma CursorAdvances(g: Geo, r: Recv, c: nat, junk: seq<byte>)
    requires g.Valid() && Wf(g, r) && c < g.N && !Halts(r, c) && Accepts(g, r, c)
    ensures var p := Prepared(g, r, c, junk);
      r.pos <= FilePosition(g, p, c) && FilePosition(g, p, c) + g.Len(c) <= BodyEnd(g, p.tail)
  {
    var p := Prepared(g, r, c, junk);
    PreparedFacts(g, r, c, junk);
    PreparedWf(g, r, c, junk);
    g.EndStep(c);
    if c < p.fst { g.EndMonotone(c + 1, p.fst); } else { g.EndMonotone(c + 1, g.N); }
    if !r.isFst {
    } else if r.lst < c {
      g.EndMonotone(r.lst + 1, c);
    } else {
      g.EndMonotone(r.lst + 1, g.N);
    }
    StartNonNegative(g, p.fst, p.tail);
  }

  lemma TakenConsistent(g: Geo, p: Recv, taken: bool, c: nat)
    requires g.Valid() && c < g.N && ReadyFor(g, p, taken, c)
    requires if taken then |p.file| <= FilePosition(g, p, c) && FilePosition(g, p, c) + g.Len(c) <= BodyEnd(g, p.tail)
             else |p.file| <= p.pos && |p.file| <= BodyEnd(g, p.tail)
    ensures var q := Taken(g, p, taken, c);
      && |q.file| <= BodyEnd(g, q.tail) && |q.file| <= q.pos
      && Consistent(g, q) && !q.isFinished && q.fst == p.fst
  {
  }

  // The system after the packet is stored and before the completion test.
  ghost function AfterStore(g: Geo, s: Sys, c: nat, junk: seq<byte>): Sys
    requires g.Valid() && Inv(g, s) && Enabled(g, s, Fast(c, junk)) && !Halts(s.r, c) && s.r.isFastpath
  {
    PreparedFacts(g, s.r, c, junk);
    Step(g, s, Fast(c, junk)).(r := Taken(g, Prepared(g, s.r, c, junk), Accepts(g, s.r, c), c))
  }

  lemma AfterStoreStored(g: Geo, s: Sys, c: nat, junk: seq<byte>)
    requires g.Valid() && Inv(g, s) && Enabled(g, s, Fast(c, junk)) && !Halts(s.r, c) && s.r.isFastpath
    ensures Stored(g, AfterStore(g, s, c, junk))
  {
    var s1 := AfterStore(g, s, c, junk);
    forall x: nat | Has(s1, x) ensures x < g.N && SlotHolds(g, s1.r, x) && (s1.r.start < 0 ==> x >= s1.r.fst) {
      AfterStoreHas(g, s, c, junk, x);
      PreparedWf(g, s.r, c, junk);
      if Has(s, x) { PreparedStored(g, s, c, junk, x); }
      TakenStored(g, Prepared(g, s.r, c, junk), Accepts(g, s.r, c), c, x);
    }
  }

  lemma AfterStoreHas(g: Geo, s: Sys, c: nat, junk: seq<byte>, x: nat)
    requires g.Valid() && Inv(g, s) && Enabled(g, s, Fast(c, junk)) && !Halts(s.r, c) && s.r.isFastpath
    requires Has(AfterStore(g, s, c, junk), x)
    ensures Has(s, x) || (Accepts(g, s.r, c) && x == c)
  {
  }

  lemma AfterStoreTight(g: Geo, s: Sys, c: nat, junk: seq<byte>)
    requires g.Valid() && Inv(g, s) && Enabled(g, s, Fast(c, junk)) && !Halts(s.r, c) && s.r.isFastpath
    ensures var q := AfterStore(g, s, c, junk).r;
      && |q.file| <= BodyEnd(g, q.tail) && |q.file| <= q.pos
      && Consistent(g, q) && !q.isFinished && q.fst == First(s.r, c).fst
  {
    var p := Prepared(g, s.r, c, junk);
    PreparedWf(g, s.r, c, junk);
    if Accepts(g, s.r, c) { CursorAdvances(g, s.r, c, junk); }
    assert p.file == s.r.file;
    TakenConsistent(g, p, Accepts(g, s.r, c), c);
  }

  lemma FastCompletes(g: Geo, s: Sys, c: nat, junk: seq<byte>)
    requires g.Valid() && Inv(g, s) && Enabled(g, s, Fast(c, junk)) && !Halts(s.r, c) && s.r.isFastpath
    requires Covered(g, Step(g, s, Fast(c, junk)))
    ensures var s' := Step(g, s, Fast(c, junk));
      Counted(g, s') && Stored(g, s') && Tight(g, s'.r) && (s'.r.isFinished ==> Delivered(g, s'.r))
  {
    var s', s1 := Step(g, s, Fast(c, junk)), AfterStore(g, s, c, junk);
    AfterStoreStored(g, s, c, junk);
    AfterStoreTight(g, s, c, junk);
    AfterStoreCounts(g, s, c, junk);
    if Next(g, c) == s1.r.fst {
      Complete(g, s1);
      assert s' == s1.(r := IfComplete(s1.r));
    } else {
      assert s' == s1;
    }
  }

  lemma AfterStoreCounts(g: Geo, s: Sys, c: nat, junk: seq<byte>)
    requires g.Valid() && Inv(g, s) && Enabled(g, s, Fast(c, junk)) && !Halts(s.r, c) && s.r.isFastpath
    requires Covered(g, Step(g, s, Fast(c, junk)))
    ensures var s1 := AfterStore(g, s, c, junk);
      && Covered(g, s1) && s1.r.fst in s1.fast && (Has(s1, 0) ==> s1.r.isZero)
      && s1.r.numFast == |s1.fast| && s1.r.numSlow == |s1.slow|
      && (|s1.fast| + |s1.slow| == g.N ==> Next(g, c) == s1.r.fst && forall x :: 0 <= x < g.N ==> Has(s1, x))
  {
    hide Prepared;
    var s', s1 := Step(g, s, Fast(c, junk)), AfterStore(g, s, c, junk);
    FastFields(g, s.r, c, junk);
    FastWf(g, s.r, c, junk);
    AfterStoreFields(g, s, c, junk);
    if !s.r.isFst { NothingYet(g, s); } else { CoverFacts(g, s); }
    CoverFacts(g, s');
    assert forall x: nat :: Has(s', x) ==> Has(s1, x);
  }

  lemma AfterStoreFields(g: Geo, s: Sys, c: nat, junk: seq<byte>)
    requires g.Valid() && Inv(g, s) && Enabled(g, s, Fast(c, junk)) && !Halts(s.r, c) && s.r.isFastpath
    ensures var s', s1 := Step(g, s, Fast(c, junk)), AfterStore(g, s, c, junk);
      && s1.fast == s'.fast && s1.slow == s'.slow && s1.pending == s'.pending && s1.done == s'.done
      && s1.r.isFst && s1.r.fst == s'.r.fst && s1.r.lst == s'.r.lst && s1.r.isZero == s'.r.isZero
      && s1.r.numFast == s'.r.numFast && s1.r.numSlow == s'.r.numSlow
  {
    PreparedFacts(g, s.r, c, junk);
  }

  lemma FastInv(g: Geo, s: Sys, c: nat, junk: seq<byte>)
    requires g.Valid() && Inv(g, s) && Enabled(g, s, Fast(c, junk)) && !Halts(s.r, c) && s.r.isFastpath
    ensures Inv(g, Step(g, s, Fast(c, junk)))
  {
    FastFields(g, s.r, c, junk);
    FastWf(g, s.r, c, junk);
    FastCovered(g, s, c, junk);
    FastCompletes(g, s, c, junk);
    FastZeroFirst(g, s, c, junk);
    if !s.r.isFst { NothingYet(g, s); }
  }

  lemma FastZeroFirst(g: Geo, s: Sys, c: nat, junk: seq<byte>)
    requires g.Valid() && Inv(g, s) && Enabled(g, s, Fast(c, junk)) && !Halts(s.r, c) && s.r.isFastpath
    ensures ZeroFirst(FastStep(g, s.r, c, junk), Step(g, s, Fast(c, junk)).pending)
  {
    hide Covered, Counted, Stored, Tight, Placement.Delivered, FastStep;
    var r', names := FastStep(g, s.r, c, junk), LossNames(g, s.r.fst, Loss(g, s.r, c));
    FastFields(g, s.r, c, junk);
    FastWf(g, s.r, c, junk);
    if !s.r.isFst {
      NothingYet(g, s);
    } else if !r'.isZero {
      CoverFacts(g, s);
      StillZeroFirst(g, s.r, r', s.pending, c);
      if Accepts(g, s.r, c) { LossZeroFirst(g, s.r, r', c); }
      ZeroFirstInsert(r', s.pending, |s.pending|, names);
      assert s.pending[..|s.pending|] + names + s.pending[|s.pending|..] == s.pending + names;
    }
  }

  // What is outstanding needs no more after a fast packet than before.
  lemma StillZeroFirst(g: Geo, r: Recv, r': Recv, p: seq<nat>, c: nat)
    requires g.Valid() && Wf(g, r) && Wf(g, r') && r.isFst && r'.isFst && !r.isZero && !r'.isZero && r.isFastpath
    requires r'.fst == r.fst && r'.tail == (if Accepts(g, r, c) && CutsTail(r, c) then r.lst else r.tail)
    requires ZeroFirst(r, p) && forall x :: x in p ==> x < g.N && InWindow(g, r.fst, r.lst, x)
    ensures ZeroFirst(r', p)
  {
    StartNonNegative(g, r'.fst, r'.tail);
    forall j | 0 <= j < |p| && Needs(r', p[j]) ensures 0 in p[..j] {
      assert p[j] in p;
      assert Needs(r, p[j]);
    }
  }

  /** A request that reaches around the wrap names packet 0 first. */
  lemma LossZeroFirst(g: Geo, r: Recv, r': Recv, c: nat)
    requires g.Valid() && Wf(g, r) && Wf(g, r') && r.isFst && r'.isFst && Accepts(g, r, c) && 0 < c < g.N
    requires !r.isZero && !r'.isZero && r'.fst == r.fst && r'.tail == (if CutsTail(r, c) then r.lst else r.tail)
    ensures ZeroFirst(r', LossNames(g, r.fst, Loss(g, r, c)))
  {
    var names := LossNames(g, r.fst, Loss(g, r, c));
    StartNonNegative(g, r'.fst, r'.tail);
    if c < r.fst <= r.lst {
      forall j | 0 <= j < |names| && Needs(r', names[j]) ensures 0 in names[..j] {
        assert names[0] == 0;
        assert names[..j][0] == 0;
      }
    } else {
      assert forall j :: 0 <= j < |names| ==> names[j] == r.lst + 1 + j < c;
    }
  }

  lemma ZeroFirstInsert(r: Recv, p: seq<nat>, at: nat, q: seq<nat>)
    requires at <= |p| && ZeroFirst(r, p) && ZeroFirst(r, q)
    ensures ZeroFirst(r, p[..at] + q + p[at..])
  {
    var w := p[..at] + q + p[at..];
    forall j | 0 <= j < |w| && Needs(r, w[j]) ensures 0 in w[..j] {
      if j < at {
        assert w[..j] == p[..j];
      } else if j < at + |q| {
        assert 0 in q[..j - at];
        var i :| 0 <= i < j - at && q[i] == 0;
        assert w[..j][at + i] == 0;
      } else {
        assert 0 in p[..j - |q|];
        var i :| 0 <= i < j - |q| && p[i] == 0;
        assert w[..j][if i < at then i else i + |q|] == 0;
      }
    }
  }

  // ---- a patch

  /** Whatever is outstanding can be written when it arrives: its place, and the tail buffer, exist by then. */
  lemma PatchEnabled(g: Geo, s: Sys, junk: seq<byte>)
    requires g.Valid() && Inv(g, s) && s.pending != [] && !s.halted
    ensures Enabled(g, s, Patch(junk)) && !Needs(s.r, s.pending[0]) && s.pending[0] != s.r.fst && !Has(s, s.pending[0])
  {
    if !s.r.isFst { NothingYet(g, s); }
    CoverFacts(g, s);
    assert s.pending[0] in s.pending;
    assert 0 !in s.pending[..0];
  }

  ghost function AfterPatch(g: Geo, s: Sys, junk: seq<byte>): Sys
    requires g.Valid() && Enabled(g, s, Patch(junk))
  {
    Step(g, s, Patch(junk)).(r := PatchWrite(g, s.r, s.pending[0], junk))
  }

  lemma PatchKeepsSlot(g: Geo, r: Recv, s: nat, junk: seq<byte>, x: nat)
    requires g.Valid() && Wf(g, r) && r.isFst && s < g.N && x < g.N && !Needs(r, s)
    requires x == s || (SlotHolds(g, r, x) && (r.start < 0 ==> x >= r.fst))
    ensures var q := PatchWrite(g, r, s, junk);
      SlotHolds(g, q, x) && (q.start < 0 ==> x >= q.fst)
  {
    StartNonNegative(g, r.fst, r.tail);
    if r.tail > 0 && s > r.tail {
      TailSlotFits(g, r.tail, s);
      BufWrite(g, r, PatchWrite(g, r, s, junk), s, x);
    } else {
      PatchKeepsFileSlot(g, r, s, junk, x);
    }
  }

  lemma PatchKeepsFileSlot(g: Geo, r: Recv, s: nat, junk: seq<byte>, x: nat)
    requires g.Valid() && Wf(g, r) && r.isFst && s < g.N && x < g.N && !Needs(r, s) && !(r.tail > 0 && s > r.tail)
    requires x == s || (SlotHolds(g, r, x) && (r.start < 0 ==> x >= r.fst))
    ensures var q := PatchWrite(g, r, s, junk);
      SlotHolds(g, q, x) && (q.start < 0 ==> x >= q.fst)
  {
    StartNonNegative(g, r.fst, r.tail);
    WfBodyEnd(g, r.tail);
    var q := if s == 0 && !r.isZero then WithMetadata(g, r, junk) else r;
    PatchOffset(g, q, s);
    if x != s && !r.isZero { MetadataKeepsSlot(g, r, junk, x); }
    FileWrite(g, q, PatchWrite(g, r, s, junk), s, x);
  }

  lemma MetadataKeepsSlot(g: Geo, r: Recv, junk: seq<byte>, x: nat)
    requires g.Valid() && Wf(g, r) && r.isFst && x < g.N && BodyEnd(g, r.tail) <= g.D()
    requires SlotHolds(g, r, x) && (r.start < 0 ==> x >= r.fst) && !r.isZero
    ensures SlotHolds(g, WithMetadata(g, r, junk), x)
  {
    assert !SlotOf(g, r, x).inBuf;
    assert SlotOf(g, WithMetadata(g, r, junk), x) == SlotOf(g, r, x) by { StartNonNegative(g, r.fst, r.tail); }
  }

  /** A patch never reaches past the bytes the fast cursor has passed, nor past the end of the file proper. */
  lemma PatchFits(g: Geo, r: Recv, s: nat, junk: seq<byte>)
    requires g.Valid() && Wf(g, r) && r.isFst && s < g.N && !Needs(r, s) && Tight(g, r) && !r.isFinished
    requires r.isFastpath ==> InWindow(g, r.fst, r.lst, s) && s != r.fst
    ensures var q := PatchWrite(g, r, s, junk);
      && |q.file| <= BodyEnd(g, q.tail) && (q.isFastpath ==> |q.file| <= q.pos)
      && Consistent(g, q) && !q.isFinished && q.fst == r.fst && q.lst == r.lst
      && (q.isZero <==> r.isZero || s == 0) && q.numFast == r.numFast && q.numSlow == r.numSlow + 1
      && Wf(g, q)
  {
    StartNonNegative(g, r.fst, r.tail);
    WfBodyEnd(g, r.tail);
    PatchWriteWf(g, r, s, junk);
    PatchWriteFields(g, r, s, junk);
    if r.tail > 0 && s > r.tail {
    } else {
      var q := if s == 0 && !r.isZero then WithMetadata(g, r, junk) else r;
      if s == 0 && !r.isZero { MetadataWf(g, r, junk); }
      PatchOffset(g, q, s);
      PatchSlotEnd(g, q, s);
    }
  }

  lemma PatchSlotEnd(g: Geo, q: Recv, s: nat)
    requires g.Valid() && Wf(g, q) && q.isFst && s < g.N && !(q.tail > 0 && s > q.tail) && (s < q.fst ==> q.start >= 0)
    ensures FilePosition(g, q, s) + g.Len(s) <= BodyEnd(g, q.tail)
    ensures q.isFastpath && InWindow(g, q.fst, q.lst, s) ==> FilePosition(g, q, s) + g.Len(s) <= q.pos
  {
    StartNonNegative(g, q.fst, q.tail);
    g.EndStep(s);
    if s < q.fst {
      g.EndMonotone(s + 1, q.fst);
      if s <= q.lst { g.EndMonotone(s + 1, q.lst + 1); }
    } else {
      g.EndMonotone(s + 1, if q.tail > 0 then q.tail + 1 else g.N);
      if s <= q.lst { g.EndMonotone(s + 1, q.lst + 1); }
    }
  }

  lemma AfterPatchStored(g: Geo, s: Sys, junk: seq<byte>)
    requires g.Valid() && Inv(g, s) && s.pending != [] && !s.halted
    requires Enabled(g, s, Patch(junk))
    ensures Stored(g, AfterPatch(g, s, junk))
  {
    var s1, x := AfterPatch(g, s, junk), s.pending[0];
    PatchEnabled(g, s, junk);
    forall y: nat | Has(s1, y) ensures y < g.N && SlotHolds(g, s1.r, y) && (s1.r.start < 0 ==> y >= s1.r.fst) {
      assert y == x || Has(s, y);
      PatchKeepsSlot(g, s.r, x, junk, y);
    }
  }

  lemma AfterPatchCounts(g: Geo, s: Sys, junk: seq<byte>)
    requires g.Valid() && Inv(g, s) && s.pending != [] && !s.halted
    requires Enabled(g, s, Patch(junk))
    ensures var s1 := AfterPatch(g, s, junk);
      && Wf(g, s1.r) && Consistent(g, s1.r) && Covered(g, s1) && s1.r.fst in s1.fast && (Has(s1, 0) ==> s1.r.isZero)
      && |s1.r.file| <= BodyEnd(g, s1.r.tail) && (s1.r.isFastpath ==> |s1.r.file| <= s1.r.pos) && !s1.r.isFinished
      && s1.r.numFast == |s1.fast| && s1.r.numSlow == |s1.slow|
      && (s1.r.isFastpath ==> |s1.fast| + |s1.slow| < g.N)
  {
    var s1, x := AfterPatch(g, s, junk), s.pending[0];
    PatchEnabled(g, s, junk);
    CoverFacts(g, s);
    assert x in s.pending;
    PatchFits(g, s.r, x, junk);
    PatchCovered(g, s, junk);
    CoverFacts(g, s1);
  }

  lemma PatchInv(g: Geo, s: Sys, junk: seq<byte>)
    requires g.Valid() && Inv(g, s) && s.pending != [] && !s.halted
    requires Enabled(g, s, Patch(junk))
    ensures Inv(g, Step(g, s, Patch(junk)))
  {
    var s', s1 := Step(g, s, Patch(junk)), AfterPatch(g, s, junk);
    AfterPatchStored(g, s, junk);
    AfterPatchCounts(g, s, junk);
    CoverFacts(g, s1);
    Complete(g, s1);
    PatchEnabled(g, s, junk);
    assert s' == s1.(r := IfComplete(s1.r));
    PatchZeroFirst(s.r, s1.r, s.pending);
  }

  lemma PatchCovered(g: Geo, s: Sys, junk: seq<byte>)
    requires g.Valid() && Inv(g, s) && s.pending != [] && !s.halted && s.r.isFst && Enabled(g, s, Patch(junk))
    ensures Covered(g, AfterPatch(g, s, junk))
  {
    var s1 := AfterPatch(g, s, junk);
    MoveHead(s.fast, s.slow, s.pending);
    assert Target(g, s1) == Target(g, s) by { PatchWriteFields(g, s.r, s.pending[0], junk); }
  }

  lemma MoveHead(fast: seq<nat>, slow: seq<nat>, pending: seq<nat>)
    requires pending != []
    ensures multiset(fast) + multiset(slow + [pending[0]]) + multiset(pending[1..])
         == multiset(fast) + multiset(slow) + multiset(pending)
  {
    assert pending == [pending[0]] + pending[1..];
  }

  lemma PatchWriteFields(g: Geo, r: Recv, s: nat, junk: seq<byte>)
    requires g.Valid() && Wf(g, r) && r.isFst && s < g.N && TailReady(r, s)
    ensures var q := PatchWrite(g, r, s, junk);
      && q.isFst && q.fst == r.fst && q.lst == r.lst && q.tail == r.tail && q.pos == r.pos
      && q.isFastpath == r.isFastpath && q.isFinished == r.isFinished
      && q.numFast == r.numFast && q.numSlow == r.numSlow + 1
  {
  }

  lemma PatchZeroFirst(r: Recv, r': Recv, p: seq<nat>)
    requires p != [] && ZeroFirst(r, p)
    requires r'.isZero == (r.isZero || p[0] == 0) && r'.fst == r.fst && r'.tail == r.tail
    requires !r'.isZero ==> r'.start == r.start
    ensures ZeroFirst(r', p[1..])
  {
    forall j | 0 <= j < |p[1..]| && Needs(r', p[1..][j]) ensures 0 in p[1..][..j] {
      assert Needs(r, p[j + 1]);
      var i :| 0 <= i < j + 1 && p[i] == 0;
      assert p[1..][..j][i - 1] == 0;
    }
  }

  // ---- FAST_DONE

  lemma FastDoneCovered(g: Geo, s: Sys, at: nat)
    requires g.Valid() && Inv(g, s) && Enabled(g, s, FastDone(at))
    ensures Covered(g, Step(g, s, FastDone(at)))
  {
    var names := LossNames(g, s.r.fst, FastDoneLoss(g, s.r));
    assert s.pending == s.pending[..at] + s.pending[at..];
    if s.r.isFinished {
      CoverFacts(g, s);
      FullWindow(g, s.r.fst, s.r.lst);
    } else {
      FastDoneCovers(g, s.r);
    }
  }

  lemma FastDoneInv(g: Geo, s: Sys, at: nat)
    requires g.Valid() && Inv(g, s) && Enabled(g, s, FastDone(at))
    ensures Inv(g, Step(g, s, FastDone(at)))
  {
    var s', names := Step(g, s, FastDone(at)), LossNames(g, s.r.fst, FastDoneLoss(g, s.r));
    FastDoneCovered(g, s, at);
    FastDoneZeroFirst(g, s.r);
    ZeroFirstInsert(s.r, s.pending, at, names);
    QuietInv(g, s, s');
  }

  // Turning the fast path off disturbs nothing else.
  lemma QuietInv(g: Geo, s: Sys, s': Sys)
    requires g.Valid() && Inv(g, s) && s.r.isFst && s'.r == FastDoneStep(s.r) && s'.done
    requires s'.fast == s.fast && s'.slow == s.slow && Covered(g, s') && ZeroFirst(s.r, s'.pending)
    ensures Inv(g, s')
  {
    assert Stored(g, s') by {
      forall x: nat | Has(s', x) ensures x < g.N && SlotHolds(g, s'.r, x) && (s'.r.start < 0 ==> x >= s'.r.fst) {
        assert Has(s, x);
        SlotHoldsSame(g, s.r, s'.r, x);
      }
    }
    assert ZeroFirst(s'.r, s'.pending) by {
      forall j | 0 <= j < |s'.pending| && Needs(s'.r, s'.pending[j]) ensures 0 in s'.pending[..j] {
        assert Needs(s.r, s'.pending[j]);
      }
    }
    assert Has(s', 0) ==> Has(s, 0);
    assert Wf(g, s'.r) && Counted(g, s') && Tight(g, s'.r);
  }

  lemma SlotHoldsSame(g: Geo, r: Recv, r': Recv, x: nat)
    requires g.Valid() && x < g.N && SlotHolds(g, r, x)
    requires r'.fst == r.fst && r'.tail == r.tail && r'.start == r.start && r'.file == r.file && r'.tailBuf == r.tailBuf
    ensures SlotHolds(g, r', x)
  {
  }

  lemma FastDoneZeroFirst(g: Geo, r: Recv)
    requires g.Valid() && Wf(g, r) && r.isFst
    ensures ZeroFirst(r, LossNames(g, r.fst, FastDoneLoss(g, r)))
  {
    var names := LossNames(g, r.fst, FastDoneLoss(g, r));
    StartNonNegative(g, r.fst, r.tail);
    if r.lst < r.fst {
      assert forall j :: 0 <= j < |names| ==> names[j] < r.fst;
    } else {
      forall j | 0 <= j < |names| && Needs(r, names[j]) ensures 0 in names[..j] {
        assert names[0] == 0;
        assert names[..j][0] == 0;
      }
    }
  }
}
