/** Safety and completeness of one receiver over every run. */
module Runs {
  import opened Basics
  import opened Geometry
  import opened ReceiverSpec
  import opened Cover
  import opened Placement
  import opened Transfer

  // An event that is not enabled does nothing.
  ghost function Apply(g: Geo, s: Sys, e: Event): Sys
    requires g.Valid()
  {
    if Enabled(g, s, e) then Step(g, s, e) else s
  }

  ghost function RunFrom(g: Geo, s: Sys, es: seq<Event>): Sys
    requires g.Valid()
    decreases |es|
  {
    if es == [] then s else Apply(g, RunFrom(g, s, es[..|es| - 1]), es[|es| - 1])
  }

  ghost function Run(g: Geo, es: seq<Event>): Sys
    requires g.Valid()
  {
    RunFrom(g, Init(), es)
  }

  lemma RunPush(g: Geo, es: seq<Event>, e: Event)
    requires g.Valid()
    ensures Run(g, es + [e]) == Apply(g, Run(g, es), e)
  {
    assert (es + [e])[..|es|] == es;
  }

  lemma ApplyInv(g: Geo, s: Sys, e: Event)
    requires g.Valid() && Inv(g, s)
    ensures Inv(g, Apply(g, s, e))
  {
    if Enabled(g, s, e) {
      match e
      case Fast(c, junk) =>
        if s.r.isFastpath {
          if Halts(s.r, c) { HaltedInv(g, s); } else { FastInv(g, s, c, junk); }
        } else {
          assert Step(g, s, e) == s;
        }
      case Patch(junk) => PatchInv(g, s, junk);
      case FastDone(at) => FastDoneInv(g, s, at);
    }
  }

  lemma HaltedInv(g: Geo, s: Sys)
    requires g.Valid() && Inv(g, s)
    ensures Inv(g, s.(halted := true))
  {
    var h := s.(halted := true);
    assert forall x :: Has(h, x) <==> Has(s, x);
  }

  lemma {:induction false} RunFromInv(g: Geo, s: Sys, es: seq<Event>)
    requires g.Valid() && Inv(g, s)
    ensures Inv(g, RunFrom(g, s, es))
    decreases |es|
  {
    if es != [] {
      RunFromInv(g, s, es[..|es| - 1]);
      ApplyInv(g, RunFrom(g, s, es[..|es| - 1]), es[|es| - 1]);
    }
  }

  lemma RunInv(g: Geo, es: seq<Event>)
    requires g.Valid()
    ensures Inv(g, Run(g, es))
  {
    InitInv(g);
    RunFromInv(g, Init(), es);
  }

  lemma FastForm(g: Geo, s: Sys, c: nat, junk: seq<byte>)
    requires g.Valid() && !s.halted && Wf(g, s.r) && c < g.N && !Halts(s.r, c)
    ensures Apply(g, s, Fast(c, junk)) ==
      s.(r := FastStep(g, s.r, c, junk),
         pending := s.pending + LossNames(g, s.r.fst, Loss(g, s.r, c)),
         fast := if Accepts(g, s.r, c) then s.fast + [c] else s.fast)
  {
  }

  // ---- the main results

  /** Whatever was lost and however patches interleave, a finished file reads as the source bytes. */
  lemma Reconstruction(g: Geo, es: seq<Event>)
    requires g.Valid() && Run(g, es).r.isFinished
    ensures var r := Run(g, es).r;
      && 0 <= r.start <= r.jump <= |r.file| == |g.data|
      && r.file[r.start..r.jump] + r.file[..r.start] + r.file[r.jump..] == g.data
  {
    RunInv(g, es);
  }

  /** Accepted packets, delivered patches and outstanding requests share out the window, each packet once;
      after FAST_DONE they share out the whole cycle. */
  lemma ExactCover(g: Geo, es: seq<Event>, x: nat)
    requires g.Valid() && Run(g, es).r.isFst
    ensures var s := Run(g, es);
      multiset(s.fast)[x] + multiset(s.slow)[x] + multiset(s.pending)[x] ==
        if (if s.done then x < g.N else InWindow(g, s.r.fst, s.r.lst, x)) then 1 else 0
  {
    RunInv(g, es);
    var s := Run(g, es);
    RangeCount(0, g.N, x);
    WindowCount(g, s.r.fst, s.r.lst, x);
    assert (multiset(s.fast) + multiset(s.slow) + multiset(s.pending))[x] == multiset(Target(g, s))[x];
  }

  /** The counters meet the packet count exactly when every packet is stored, and the fast path is off by then. */
  lemma CountingIsSound(g: Geo, es: seq<Event>)
    requires g.Valid()
    ensures var s := Run(g, es);
      && (s.r.isFinished <==> s.r.numFast + s.r.numSlow == g.N)
      && (s.r.isFinished <==> forall x: nat :: x < g.N ==> Has(s, x))
      && (s.r.isFinished ==> !s.r.isFastpath && s.pending == [])
      && (forall x: nat :: Has(s, x) ==> x < g.N && SlotHolds(g, s.r, x))
  {
    RunInv(g, es);
    var s := Run(g, es);
    if s.r.isFst { CoverFacts(g, s); AllStoredCounts(g, s); } else { NothingYet(g, s); assert !Has(s, 0); }
  }

  lemma AllStoredCounts(g: Geo, s: Sys)
    requires g.Valid() && Inv(g, s) && s.r.isFst
    ensures (forall x: nat :: x < g.N ==> Has(s, x)) ==> |s.fast| + |s.slow| == g.N
  {
    if forall x: nat :: x < g.N ==> Has(s, x) {
      CoverFacts(g, s);
      var stored, all: multiset<nat> := multiset(s.fast) + multiset(s.slow), multiset(Range(0, g.N));
      forall x: nat ensures all[x] <= stored[x] {
        RangeCount(0, g.N, x);
        if x < g.N { assert Has(s, x); }
      }
      assert stored == all + (stored - all);
      assert |stored| == |all| + |stored - all|;
    }
  }

  /** Whatever the run, the oldest outstanding patch meets what its handler asks of its caller: its place and, for
      a packet beyond the cut, the tail buffer exist. */
  lemma PatchHandlerCallable(g: Geo, es: seq<Event>)
    requires g.Valid() && Run(g, es).pending != [] && !Run(g, es).halted
    ensures var s := Run(g, es);
      && s.r.isFst && s.pending[0] < g.N && s.pending[0] != s.r.fst && TailReady(s.r, s.pending[0])
      && !Needs(s.r, s.pending[0]) && !Has(s, s.pending[0])
      && (s.r.isFastpath ==> s.r.numFast + s.r.numSlow + 1 < g.N)
  {
    RunInv(g, es);
    PatchEnabled(g, Run(g, es), []);
    AfterPatchCounts(g, Run(g, es), []);
  }

  /** Finishing happens once: nothing changes a finished receiver. */
  lemma FinishedIsFinal(g: Geo, es: seq<Event>, e: Event)
    requires g.Valid() && Run(g, es).r.isFinished
    ensures Run(g, es + [e]).r == Run(g, es).r
    ensures Run(g, es + [e]).fast == Run(g, es).fast && Run(g, es + [e]).slow == Run(g, es).slow
  {
    RunInv(g, es);
    CoverFacts(g, Run(g, es));
    RunPush(g, es, e);
  }

  /** An accepted packet is strictly further along the window than the one before it. */
  lemma AcceptedAdvances(g: Geo, es: seq<Event>, c: nat)
    requires g.Valid() && Run(g, es).r.isFst && c < g.N && Accepts(g, Run(g, es).r, c)
    ensures var r := Run(g, es).r; (r.lst - r.fst) % g.N < (c - r.fst) % g.N
  {
    RunInv(g, es);
    AheadIsWindowOrder(g, Run(g, es).r.fst, Run(g, es).r.lst, c);
  }

  /** The place of a packet that is stored or asked for moves at one moment only: when packet 0 comes as a patch
      and tells a receiver that has not gone round the cycle where the packets before its first one belong. */
  lemma PlaceMovesExactly(g: Geo, es: seq<Event>, e: Event, x: nat)
    requires g.Valid() && Run(g, es).r.isFst && !Run(g, es).halted
    requires Has(Run(g, es), x) || x in Run(g, es).pending
    ensures var s, s' := Run(g, es), Run(g, es + [e]);
      SlotOf(g, s'.r, x) != SlotOf(g, s.r, x) <==>
        e.Patch? && s.pending != [] && s.pending[0] == 0 && !s.r.isZero && s.r.start < 0 && x < s.r.fst
  {
    var s := Run(g, es);
    RunInv(g, es);
    RunPush(g, es, e);
    CoverFacts(g, s);
    match e
    case Fast(c, junk) =>
      if c < g.N && s.r.isFastpath && !Halts(s.r, c) { SlotStable(g, s.r, c, junk, x); }
    case Patch(junk) =>
      if s.pending != [] {
        PatchEnabled(g, s, junk);
        SlotMovesExactly(g, s.r, s.pending[0], junk, x);
      }
    case FastDone(at) =>
  }

  /** It is never moved once it has been written. */
  lemma StoredStaysInPlace(g: Geo, es: seq<Event>, e: Event, x: nat)
    requires g.Valid() && Has(Run(g, es), x)
    ensures SlotOf(g, Run(g, es + [e]).r, x) == SlotOf(g, Run(g, es).r, x)
  {
    var s := Run(g, es);
    RunInv(g, es);
    RunPush(g, es, e);
    if !s.r.isFst {
      NothingYet(g, s);
    } else if !s.halted {
      PlaceMovesExactly(g, es, e, x);
    }
  }

  // Packet `c` is the first, or further along the window than the last one taken; but packet 0 is dropped when its
  // metadata is already there, and a packet around the wrap that leaves a gap is dropped while only the first is held.
  predicate ToBeTaken(g: Geo, r: Recv, c: nat)
    requires g.N > 0
  {
    !r.isFst ||
      (&& (r.lst - r.fst) % g.N < (c - r.fst) % g.N
       && !(c == 0 && r.isZero)
       && !(r.lst == r.fst && c < r.fst && (r.lst + 1) % g.N != c))
  }

  // The packets strictly between `last` and `c` along the cycle, packet 0 first if they go round.
  function Gap(g: Geo, last: nat, c: nat): seq<nat> {
    if last < c then Range(last + 1, c) else Range(0, c) + Range(last + 1, g.N)
  }

  /** What a fast packet does to a receiver that listens, in terms of numbers alone: it is stored if and only if it is
      to be taken, the packets skipped are asked for, and the fast path ends with the packet before the first one. */
  lemma TakenExactly(g: Geo, es: seq<Event>, c: nat, junk: seq<byte>)
    requires g.Valid() && c < g.N && Run(g, es).r.isFastpath && !Run(g, es + [Fast(c, junk)]).halted
    ensures var s, s' := Run(g, es), Run(g, es + [Fast(c, junk)]);
      var taken := ToBeTaken(g, s.r, c);
      && s'.fast == (if taken then s.fast + [c] else s.fast) && s'.slow == s.slow
      && s'.pending == (if taken && s.r.isFst then s.pending + Gap(g, s.r.lst, c) else s.pending)
      && s'.r.isFst && s'.r.fst == (if s.r.isFst then s.r.fst else c)
      && s'.r.lst == (if taken then c else s.r.lst)
      && s'.r.tail == (if taken && s.r.isFst && 0 < c < s.r.fst < s.r.lst then s.r.lst else s.r.tail)
      && s'.r.isZero == (s.r.isZero || c == 0)
      && (s'.r.isFastpath <==> (c + 1) % g.N != s'.r.fst)
      && (!s'.r.isFastpath && !s'.r.isFinished ==> s'.r.jump == s'.r.pos)
  {
    var s := Run(g, es);
    RunInv(g, es);
    RunPush(g, es, Fast(c, junk));
    EndsWithJump(g, s.r, c, junk);
    AcceptsIsToBeTaken(g, s.r, c);
    FastForm(g, s, c, junk);
    FastFields(g, s.r, c, junk);
    NextIsMod(g, c);
    if s.r.isFst && Accepts(g, s.r, c) { LossIsGap(g, s.r, c); }
    assert s.pending + [] == s.pending;
  }

  // The jump position is where the fast path stopped, until the file is finished.
  lemma EndsWithJump(g: Geo, r: Recv, c: nat, junk: seq<byte>)
    requires g.Valid() && Wf(g, r) && c < g.N && r.isFastpath && !Halts(r, c)
    ensures var r' := FastStep(g, r, c, junk); !r'.isFastpath && !r'.isFinished ==> r'.jump == r'.pos
  {
    hide ByteFile.WriteAt;
    PreparedFacts(g, r, c, junk);
  }

  lemma AcceptsIsToBeTaken(g: Geo, r: Recv, c: nat)
    requires g.Valid() && Wf(g, r) && c < g.N && r.isFastpath
    ensures Accepts(g, r, c) <==> ToBeTaken(g, r, c)
  {
    if r.isFst {
      AheadIsWindowOrder(g, r.fst, r.lst, c);
      NextIsMod(g, r.lst);
    }
  }

  lemma LossIsGap(g: Geo, r: Recv, c: nat)
    requires g.Valid() && Wf(g, r) && c < g.N && r.isFst && Accepts(g, r, c)
    ensures LossNames(g, r.fst, Loss(g, r, c)) == Gap(g, r.lst, c)
  {
  }

  /** Packet 0 from the fast path, by the numbers the source tests (thread_data.c:161-191): it is taken without a
      request when it is the first or follows the last packet, with a request for the end of the cycle when packets
      after the first one have been taken, and dropped otherwise. Its metadata is kept in any case. */
  lemma ZeroTakenExactly(g: Geo, es: seq<Event>, junk: seq<byte>)
    requires g.Valid() && Run(g, es).r.isFastpath && !Run(g, es).halted
    ensures var s, s' := Run(g, es), Run(g, es + [Fast(0, junk)]);
      && s'.r.isZero && !s'.halted
      && (if !s.r.isFst || (!s.r.isZero && s.r.lst + 1 == g.N) then
            s'.fast == s.fast + [0] && s'.pending == s.pending
          else if !s.r.isZero && s.r.lst > s.r.fst > 0 then
            s'.fast == s.fast + [0] && s'.pending == s.pending + Range(s.r.lst + 1, g.N)
          else
            s'.fast == s.fast && s'.pending == s.pending && s'.r.lst == s.r.lst)
  {
    hide Run, FastStep;
    var s := Run(g, es);
    RunInv(g, es);
    HaltsExactly(g, es, 0, junk);
    RunPush(g, es, Fast(0, junk));
    FastForm(g, s, 0, junk);
    FastFields(g, s.r, 0, junk);
    ZeroAccepted(g, s.r);
    assert s.pending + [] == s.pending;
  }

  lemma ZeroAccepted(g: Geo, r: Recv)
    requires g.Valid() && Wf(g, r) && r.isFastpath
    ensures Accepts(g, r, 0) <==> !r.isFst || (!r.isZero && (r.lst + 1 == g.N || r.lst > r.fst > 0))
    ensures r.isFst && Accepts(g, r, 0) ==>
      LossNames(g, r.fst, Loss(g, r, 0)) == if r.lst + 1 == g.N then [] else Range(r.lst + 1, g.N)
    ensures !Accepts(g, r, 0) || !r.isFst ==> Loss(g, r, 0) == None
  {
  }

  /** A request made on FAST_DONE names at least one packet, unless the window is complete and packet 0 is still on its
      way: then the request names nothing. No request is made exactly when nothing is missing that has not been asked
      for and packet 0 is known. */
  lemma FastDoneAsks(g: Geo, es: seq<Event>)
    requires g.Valid() && Run(g, es).r.isFst && !Run(g, es).r.isFinished
    ensures var r := Run(g, es).r;
      && (FastDoneLoss(g, r) == None <==> r.isZero && (r.lst + 1) % g.N == r.fst)
      && (FastDoneLoss(g, r).Some? ==>
            (LossNames(g, r.fst, FastDoneLoss(g, r)) == [] <==> !r.isZero && (r.lst + 1) % g.N == r.fst))
  {
    RunInv(g, es);
    NextIsMod(g, Run(g, es).r.lst);
  }

  function PatchArrivals(junk: seq<byte>, n: nat): seq<Event> {
    if n == 0 then [] else PatchArrivals(junk, n - 1) + [Patch(junk)]
  }

  /** No request is ever stuck: after FAST_DONE, delivering what is outstanding finishes the transfer. */
  lemma DrainFinishes(g: Geo, es: seq<Event>, junk: seq<byte>)
    requires g.Valid() && Run(g, es).done && !Run(g, es).halted
    ensures Run(g, es + PatchArrivals(junk, |Run(g, es).pending|)).r.isFinished
  {
    var n := |Run(g, es).pending|;
    DrainFrom(g, es, junk, n);
    NothingOutstanding(g, es + PatchArrivals(junk, n));
  }

  lemma {:induction false} DrainFrom(g: Geo, es: seq<Event>, junk: seq<byte>, n: nat)
    requires g.Valid() && Run(g, es).done && !Run(g, es).halted && n <= |Run(g, es).pending|
    ensures var s' := Run(g, es + PatchArrivals(junk, n));
      s'.done && !s'.halted && s'.pending == Run(g, es).pending[n..]
    decreases n
  {
    if n == 0 {
      assert es + PatchArrivals(junk, 0) == es;
    } else {
      DrainFrom(g, es, junk, n - 1);
      DrainOne(g, es + PatchArrivals(junk, n - 1), junk);
      assert es + PatchArrivals(junk, n - 1) + [Patch(junk)] == es + PatchArrivals(junk, n);
    }
  }

  lemma DrainOne(g: Geo, es: seq<Event>, junk: seq<byte>)
    requires g.Valid() && Run(g, es).done && !Run(g, es).halted && Run(g, es).pending != []
    ensures var s' := Run(g, es + [Patch(junk)]);
      s'.done && !s'.halted && s'.pending == Run(g, es).pending[1..]
  {
    RunInv(g, es);
    PatchEnabled(g, Run(g, es), junk);
    RunPush(g, es, Patch(junk));
  }

  lemma NothingOutstanding(g: Geo, es: seq<Event>)
    requires g.Valid() && Run(g, es).done && Run(g, es).pending == []
    ensures Run(g, es).r.isFinished
  {
    RunInv(g, es);
    CoverFacts(g, Run(g, es));
  }

  // ---- nothing lost

  // The k-th packet after `first`, along the cycle.
  function Along(g: Geo, first: nat, k: nat): nat {
    if first + k < g.N then first + k else first + k - g.N
  }

  function Lossless(g: Geo, first: nat, k: nat): seq<Event>
  {
    if k == 0 then [] else Lossless(g, first, k - 1) + [Fast(Along(g, first, k - 1), [])]
  }

  // `k` packets in a row have been taken, and nothing has been asked for.
  ghost predicate Smooth(g: Geo, s: Sys, first: nat, k: nat) {
    && !s.halted && s.pending == [] && s.slow == [] && |s.fast| == k
    && (k == 0 ==> s == Init())
    && (k > 0 ==> s.r.isFst && s.r.fst == first && s.r.lst == Along(g, first, k - 1))
    && (s.r.isZero <==> k > 0 && (first == 0 || first + k > g.N))
    && (s.r.isFastpath <==> k < g.N)
  }

  lemma {:induction false} LosslessIsSmooth(g: Geo, first: nat, k: nat)
    requires g.Valid() && first < g.N && k <= g.N
    ensures Smooth(g, Run(g, Lossless(g, first, k)), first, k)
  {
    if k > 0 {
      LosslessIsSmooth(g, first, k - 1);
      SmoothStep(g, Lossless(g, first, k - 1), first, k - 1);
    }
  }

  lemma SmoothStep(g: Geo, es: seq<Event>, first: nat, k: nat)
    requires g.Valid() && first < g.N && k < g.N && Smooth(g, Run(g, es), first, k)
    ensures Smooth(g, Run(g, es + [Fast(Along(g, first, k), [])]), first, k + 1)
  {
    var s, c := Run(g, es), Along(g, first, k);
    RunInv(g, es);
    RunPush(g, es, Fast(c, []));
    AlongIsNext(g, first, k);
    SmoothTakes(g, s, first, k);
    FastForm(g, s, c, []);
    FastFields(g, s.r, c, []);
    SmoothFields(g, s, Apply(g, s, Fast(c, [])), first, k);
  }

  lemma AlongIsNext(g: Geo, first: nat, k: nat)
    requires first < g.N && k < g.N
    ensures Along(g, first, k) < g.N && (k == 0 ==> Along(g, first, k) == first)
    ensures k > 0 ==> Next(g, Along(g, first, k - 1)) == Along(g, first, k) != first
    ensures Next(g, Along(g, first, k)) == first <==> k + 1 == g.N
    ensures Along(g, first, k) == 0 <==> (k == 0 == first) || first + k == g.N
  {
  }

  // The next packet of a window without loss is taken, and nothing is asked for.
  lemma SmoothTakes(g: Geo, s: Sys, first: nat, k: nat)
    requires g.Valid() && first < g.N && k < g.N && Smooth(g, s, first, k) && Wf(g, s.r)
    ensures var c := Along(g, first, k);
      !Halts(s.r, c) && Accepts(g, s.r, c) && Loss(g, s.r, c) == None && !CutsTail(s.r, c)
  {
    AlongIsNext(g, first, k);
  }

  lemma SmoothFields(g: Geo, s: Sys, s': Sys, first: nat, k: nat)
    requires g.Valid() && first < g.N && k < g.N && Smooth(g, s, first, k)
    requires var c := Along(g, first, k);
      && !s'.halted && s'.pending == s.pending && s'.slow == s.slow && s'.fast == s.fast + [c]
      && s'.r.isFst && s'.r.fst == First(s.r, c).fst && s'.r.lst == c && s'.r.isZero == (s.r.isZero || c == 0)
      && s'.r.isFastpath == (Next(g, c) != s'.r.fst)
    ensures Smooth(g, s', first, k + 1)
  {
    AlongIsNext(g, first, k);
  }

  /** With nothing lost, one window taken in order completes the file with no request made. */
  lemma LosslessFinishes(g: Geo, first: nat)
    requires g.Valid() && first < g.N
    ensures var s := Run(g, Lossless(g, first, g.N));
      s.r.isFinished && s.pending == [] && s.slow == [] && Delivered(g, s.r)
  {
    LosslessIsSmooth(g, first, g.N);
    CountingIsSound(g, Lossless(g, first, g.N));
    RunInv(g, Lossless(g, first, g.N));
  }

  // ---- the assertions of the wrap branch

  /** A fast packet stops the run exactly when the cycle wraps with packet 0 lost and the metadata already in. */
  lemma HaltsExactly(g: Geo, es: seq<Event>, c: nat, junk: seq<byte>)
    requires g.Valid() && c < g.N && !Run(g, es).halted
    ensures var r := Run(g, es).r;
      Run(g, es + [Fast(c, junk)]).halted <==> r.isFastpath && r.isFst && 0 < c < r.fst < r.lst && r.isZero
  {
    RunInv(g, es);
    var r := Run(g, es).r;
    if r.isFst { StartNonNegative(g, r.fst, r.tail); }
    RunPush(g, es, Fast(c, junk));
  }

  // The receiver's view after one more fast packet.
  lemma FastEffect(g: Geo, es: seq<Event>, c: nat)
    requires g.Valid() && c < g.N && !Run(g, es).halted && Run(g, es).r.isFastpath && !Halts(Run(g, es).r, c)
    ensures var r, s' := Run(g, es).r, Run(g, es + [Fast(c, [])]);
      && !s'.halted && s'.r.isFst && s'.r.fst == First(r, c).fst
      && s'.r.lst == (if Accepts(g, r, c) then c else r.lst)
      && s'.r.isZero == (r.isZero || c == 0)
      && s'.r.isFastpath == (Next(g, c) != s'.r.fst)
      && (!r.isZero && c != 0 && !CutsTail(r, c) ==> s'.r.tail == r.tail)
  {
    RunInv(g, es);
    FastFields(g, Run(g, es).r, c, []);
    RunPush(g, es, Fast(c, []));
    FastForm(g, Run(g, es), c, []);
  }

  ghost function FourPackets(): Geo { Geo([7, 7, 7, 7], 1, 4) }

  // Two sender rounds with losses only: 2 and 0 of the first round, then 3 and 1 of the second.
  const TwoRounds: seq<Event> := [Fast(2, []), Fast(0, []), Fast(3, []), Fast(1, [])]

  lemma FourPacketsValid()
    ensures FourPackets().Valid()
  {
    var g := FourPackets();
    assert g.Off(1) == 1 && g.Off(2) == 2 && g.Off(3) == 3 && g.Off(4) == 4;
  }

  // From a fresh receiver: 2 is taken, 0 is dropped but its metadata kept, 3 is taken, and 1 stops the run.
  lemma TwoRoundsHalt(g: Geo, es: seq<Event>)
    requires g.Valid() && g.N == 4 && Run(g, es).r == Fresh() && !Run(g, es).halted
    ensures Run(g, es + [Fast(2, [])] + [Fast(0, [])] + [Fast(3, [])] + [Fast(1, [])]).halted
  {
    FastEffect(g, es, 2);
    var a := es + [Fast(2, [])];
    FastEffect(g, a, 0);
    var b := a + [Fast(0, [])];
    FastEffect(g, b, 3);
    HaltsExactly(g, b + [Fast(3, [])], 1, []);
  }

  /** Over more than one round the assertion can fail. */
  lemma AssertReachable()
    ensures FourPackets().Valid() && Run(FourPackets(), TwoRounds).halted
  {
    FourPacketsValid();
    TwoRoundsHalt(FourPackets(), []);
    assert [] + [Fast(2, [])] + [Fast(0, [])] + [Fast(3, [])] + [Fast(1, [])] == TwoRounds;
  }

  // After packet 2 and FAST_DONE, packets 0, 1 and 3 of four are outstanding, in that order.
  lemma AskedAfterDone(g: Geo, es: seq<Event>)
    requires g.Valid() && g.N == 4 && Run(g, es) == Init()
    ensures var s := Run(g, es + [Fast(2, [])] + [FastDone(0)]);
      !s.halted && s.r.isFst && s.r.fst == 2 && !s.r.isZero && s.r.start < 0 && s.pending == [0, 1, 3]
  {
    var a := es + [Fast(2, [])];
    FastEffect(g, es, 2);
    RunPush(g, es, Fast(2, []));
    RunInv(g, a);
    RunPush(g, a, FastDone(0));
    assert Names(g, 2, Tuple(3, SEQ2WARDTHEEND)) == [0, 1, 3];
  }

  /** A place does move: a receiver that has packet 2 of four and is told FAST_DONE asks for 0, 1 and 3, and packet 0
      moves the place of packet 1. */
  lemma PlaceMoves()
    ensures FourPackets().Valid()
    ensures var g, es := FourPackets(), [Fast(2, []), FastDone(0)];
      1 in Run(g, es).pending && SlotOf(g, Run(g, es + [Patch([])]).r, 1) != SlotOf(g, Run(g, es).r, 1)
  {
    FourPacketsValid();
    AskedAfterDone(FourPackets(), []);
    assert [] + [Fast(2, [])] + [FastDone(0)] == [Fast(2, []), FastDone(0)];
    PlaceMovesExactly(FourPackets(), [Fast(2, []), FastDone(0)], Patch([]), 1);
  }

  /** The empty request does occur: packets 2, 3 and 1 of four complete the window, packet 0 is asked for and has not
      arrived, and FAST_DONE makes a request that names nothing. */
  lemma EmptyRequest()
    ensures FourPackets().Valid()
    ensures var g, es := FourPackets(), [Fast(2, []), Fast(3, []), Fast(1, [])];
      var r := Run(g, es).r;
      r.isFst && !r.isFinished && FastDoneLoss(g, r).Some? && LossNames(g, r.fst, FastDoneLoss(g, r)) == []
  {
    FourPacketsValid();
    WindowWithoutZero(FourPackets(), []);
    assert [] + [Fast(2, [])] + [Fast(3, [])] + [Fast(1, [])] == [Fast(2, []), Fast(3, []), Fast(1, [])];
    FastDoneAsks(FourPackets(), [Fast(2, []), Fast(3, []), Fast(1, [])]);
  }

  lemma WindowWithoutZero(g: Geo, es: seq<Event>)
    requires g.Valid() && g.N == 4 && Run(g, es) == Init()
    ensures var r := Run(g, es + [Fast(2, [])] + [Fast(3, [])] + [Fast(1, [])]).r;
      r.isFst && !r.isFinished && !r.isZero && r.fst == 2 && r.lst == 1
  {
    var a := es + [Fast(2, [])];
    var b := a + [Fast(3, [])];
    FastEffect(g, es, 2);
    FastEffect(g, a, 3);
    FastEffect(g, b, 1);
    RunInv(g, b + [Fast(1, [])]);
    FinishedHasZero(g, b + [Fast(1, [])]);
  }

  lemma FinishedHasZero(g: Geo, es: seq<Event>)
    requires g.Valid()
    ensures Run(g, es).r.isFinished ==> Run(g, es).r.isZero
  {
    RunInv(g, es);
    if Run(g, es).r.isFinished { CountingIsSound(g, es); assert Has(Run(g, es), 0); }
  }

  // The first and the last fast packet to arrive, accepted or not.
  function FirstFast(es: seq<Event>): Option<nat>
    decreases |es|
  {
    if es == [] then None
    else if FirstFast(es[..|es| - 1]).Some? then FirstFast(es[..|es| - 1])
    else if es[|es| - 1].Fast? then Some(es[|es| - 1].c) else None
  }

  function LastFast(es: seq<Event>): nat
    decreases |es|
  {
    if es == [] then 0 else if es[|es| - 1].Fast? then es[|es| - 1].c else LastFast(es[..|es| - 1])
  }

  // One window, delivered in order and with losses only.
  predicate InOrder(g: Geo, es: seq<Event>)
    decreases |es|
  {
    es == [] ||
    var before, e := es[..|es| - 1], es[|es| - 1];
    InOrder(g, before) &&
    (e.Fast? ==> e.c < g.N && (FirstFast(before).Some? ==>
      WindowPos(g, FirstFast(before).value, LastFast(before)) < WindowPos(g, FirstFast(before).value, e.c)))
  }

  // Metadata that came before the wrap came with a dropped packet 0, and nothing but the first packet was taken.
  ghost predicate OrderInv(g: Geo, s: Sys, es: seq<Event>) {
    && !s.halted
    && (FirstFast(es) == if s.r.isFst then Some(s.r.fst) else None)
    && (s.r.isFst && s.r.isFastpath && s.r.isZero && 0 < s.r.fst <= s.r.lst ==>
          s.r.lst == s.r.fst && LastFast(es) < s.r.fst)
  }

  /** Over one window in order, with any losses and any interleaving of patches, no assertion fails. */
  lemma {:induction false} InOrderNeverHalts(g: Geo, es: seq<Event>)
    requires g.Valid() && InOrder(g, es)
    ensures !Run(g, es).halted && OrderInv(g, Run(g, es), es)
    decreases |es|
  {
    if es != [] {
      var before, e := es[..|es| - 1], es[|es| - 1];
      InOrderNeverHalts(g, before);
      RunInv(g, before);
      OrderStep(g, Run(g, before), es);
    }
  }

  lemma OrderStep(g: Geo, s: Sys, es: seq<Event>)
    requires g.Valid() && es != [] && InOrder(g, es) && Inv(g, s) && OrderInv(g, s, es[..|es| - 1])
    ensures OrderInv(g, Apply(g, s, es[|es| - 1]), es)
  {
    match es[|es| - 1]
    case Fast(c, junk) => OrderFast(g, s, es, c, junk);
    case Patch(junk) => OrderPatch(g, s, es, junk);
    case FastDone(at) =>
  }

  lemma OrderFast(g: Geo, s: Sys, es: seq<Event>, c: nat, junk: seq<byte>)
    requires g.Valid() && es != [] && InOrder(g, es) && Inv(g, s) && OrderInv(g, s, es[..|es| - 1])
    requires es[|es| - 1] == Fast(c, junk)
    ensures OrderInv(g, Apply(g, s, Fast(c, junk)), es)
  {
    if s.r.isFst { StartNonNegative(g, s.r.fst, s.r.tail); }
    if s.r.isFastpath && !Halts(s.r, c) {
      FastFields(g, s.r, c, junk);
    } else {
      assert !Halts(s.r, c);
    }
  }

  lemma OrderPatch(g: Geo, s: Sys, es: seq<Event>, junk: seq<byte>)
    requires g.Valid() && es != [] && Inv(g, s) && OrderInv(g, s, es[..|es| - 1])
    requires es[|es| - 1] == Patch(junk)
    ensures OrderInv(g, Apply(g, s, Patch(junk)), es)
  {
    if s.pending != [] {
      PatchEnabled(g, s, junk);
      CoverFacts(g, s);
      assert s.pending[0] in s.pending;
      PatchFits(g, s.r, s.pending[0], junk);
    }
  }
}
