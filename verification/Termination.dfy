/**
 * When the sender may stop: the control thread works out where each receiver's window ends while the data
 * thread keeps sending. Every read and write of a shared counter is a step of its own.
 */
module Termination {
  import opened Basics
  import opened Geometry

  // What multicastState_updateSeqEnd computes from its two readings of seq_cur (hero.c:1000-1007).
  function SeqEnd(first: nat, atTest: nat, atDivision: nat, N: nat): nat
    requires N > 0
  {
    Round(first, atTest, atDivision, N) * N + first
  }

  function Round(first: nat, atTest: nat, atDivision: nat, N: nat): nat
    requires N > 0
  {
    if first >= atTest % N then atDivision / N else atDivision / N + 1
  }

  lemma Quotients(f: nat, a: nat, N: nat)
    requires N > 0
    ensures f == (f / N) * N + f % N && a == (a / N) * N + a % N
    ensures f < a ==> f / N <= a / N
    ensures f < a && a % N <= f % N ==> f / N < a / N
  {
    var qf, qa := f / N, a / N;
    if f < a {
      if qf > qa { Scale(qa + 1, qf, N); }
      if qf == qa && a % N <= f % N { assert false; }
    }
  }

  lemma Scale(p: nat, q: nat, N: nat)
    requires p <= q
    ensures p * N <= q * N
  {
  }

  /** A receiver whose first packet had index `f` is given at least one whole window, ending where it began,
      even if the clock advances between the two readings. */
  lemma FullWindowGiven(f: nat, atTest: nat, atDivision: nat, N: nat)
    requires N > 0 && f < atTest <= atDivision
    ensures SeqEnd(f % N, atTest, atDivision, N) >= f + N
    ensures exists k: nat :: SeqEnd(f % N, atTest, atDivision, N) == f + k * N
  {
    Quotients(f, atTest, N);
    if atTest < atDivision { Quotients(atTest, atDivision, N); }
    var first, qf := f % N, f / N;
    var round := if first >= atTest % N then atDivision / N else atDivision / N + 1;
    assert round >= qf + 1;
    Scale(qf + 1, round, N);
    assert (qf + 1) * N == qf * N + N;
    assert round * N - qf * N == (round - qf) * N;
    assert SeqEnd(first, atTest, atDivision, N) == f + (round - qf) * N;
  }

  /** The end lies no further than it must. Read in one round of the cycle, it is the first number at or after the first
      reading that is congruent to the receiver's first packet; if a new round begins between the readings, it is at
      most a round later. */
  ghost predicate Tight(first: nat, atTest: nat, atDivision: nat, N: nat, end: nat)
    requires N > 0
  {
    && end % N == first % N
    && (atTest / N == atDivision / N ==> atTest <= end < atTest + N)
    && end < atDivision + 2 * N
    && (first % N >= atTest % N ==> end < atDivision + N)
  }

  lemma EndIsTight(first: nat, atTest: nat, atDivision: nat, N: nat)
    requires N > 0 && first < N && atTest <= atDivision
    ensures Tight(first, atTest, atDivision, N, SeqEnd(first, atTest, atDivision, N))
  {
    var q := Round(first, atTest, atDivision, N);
    Parts(atTest, N);
    Parts(atDivision, N);
    RemainderIs(q * N + first, N, q, first);
    RemainderIs(first, N, 0, first);
    assert (atDivision / N + 1) * N == (atDivision / N) * N + N;
  }

  lemma Parts(a: nat, N: nat)
    requires N > 0
    ensures a == (a / N) * N + a % N && 0 <= a % N < N
  {
  }

  lemma SameRemainder(x: int, y: int, n: int)
    requires n > 0 && x % n == y % n && -n < x - y < n
    ensures x == y
  {
    var d := x / n - y / n;
    assert x - y == d * n;
    assert d * n < n && d * n > -n;
    assert d == 0;
  }

  /** With one reading of the clock this fixes the end. */
  lemma TightIsUnique(first: nat, a: nat, N: nat, end: nat)
    requires N > 0 && first < N && Tight(first, a, a, N, end)
    ensures end == SeqEnd(first, a, a, N)
  {
    hide SeqEnd;
    EndIsTight(first, a, a, N);
    SameRemainder(end, SeqEnd(first, a, a, N), N);
  }

  // ---- the two threads

  datatype Control = Idle | Counted | Tested(another: bool) | Placed | Raised

  datatype Data = Ready | Sending(left: int) | Checking(past: bool)

  /** Receivers are numbered in the order their FIRST_SEQ is handled; `fs[i]` is the index of receiver i's first
      packet. */
  datatype Cast = Cast(fs: seq<nat>, N: nat, burst: nat)

  datatype State = State(
    cur: nat, nFirst: nat, ends: seq<nat>, endMax: nat, seqEnd: nat,
    control: Control, data: Data, stopped: bool,
    testedAt: nat, setAt: nat,   // history: the clock at the last test, and when seq_end was set,
    readings: seq<(nat, nat)>)   // and the two readings each end was worked out from

  datatype Event =
    | FirstSeq            // n_first_seq++ (thread_send.c:331)
    | Test | Divide       // the two readings of seq_cur (hero.c:1000-1007)
    | Raise               // seq_end_max (hero.c:1016-1020)
    | SetEnd              // seq_end, once all have reported (hero.c:1021-1025)
    | Allow(k: int)       // the allowance of one burst (thread_data.c:384-421)
    | SendOne             // one packet (thread_data.c:454-495)
    | CheckEnd            // seq_cur >= seq_end (thread_data.c:384, 502)
    | CheckCount          // && n_init == n_first_seq

  function Init(): State {
    State(0, 0, [], 0, SEQNUM_MAX, Idle, Ready, false, 0, 0, [])
  }

  function Step(c: Cast, s: State, e: Event): State
    requires c.N > 0
  {
    match e
    case FirstSeq =>
      if s.control.Idle? && s.nFirst < |c.fs| && c.fs[s.nFirst] < s.cur then
        s.(nFirst := s.nFirst + 1, control := Counted)
      else s
    case Test =>
      if s.control.Counted? && 0 < s.nFirst <= |c.fs| then
        s.(control := Tested(c.fs[s.nFirst - 1] % c.N < s.cur % c.N), testedAt := s.cur)
      else s
    case Divide =>
      if s.control.Tested? && 0 < s.nFirst <= |c.fs| then
        var round := s.cur / c.N + if s.control.another then 1 else 0;
        s.(control := Placed, ends := s.ends + [round * c.N + c.fs[s.nFirst - 1] % c.N],
           readings := s.readings + [(s.testedAt, s.cur)])
      else s
    case Raise =>
      if s.control.Placed? && s.ends != [] then
        s.(control := Raised, endMax := if s.ends[|s.ends| - 1] > s.endMax then s.ends[|s.ends| - 1] else s.endMax)
      else s
    case SetEnd =>
      if s.control.Raised? then
        if s.nFirst == |c.fs| then s.(control := Idle, seqEnd := s.endMax, setAt := s.cur) else s.(control := Idle)
      else s
    case Allow(k) =>
      if s.data.Ready? && !s.stopped && k <= c.burst then
        s.(data := Sending(if s.seqEnd != SEQNUM_MAX && k > s.seqEnd - s.cur then s.seqEnd - s.cur else k))
      else s
    case SendOne =>
      if s.data.Sending? && s.data.left > 0 && s.cur + 1 < SEQNUM_MAX then
        s.(cur := s.cur + 1, data := Sending(s.data.left - 1))
      else s
    case CheckEnd =>
      if !s.data.Checking? then s.(data := Checking(s.cur >= s.seqEnd)) else s
    case CheckCount =>
      if s.data.Checking? then s.(data := Ready, stopped := s.stopped || (s.data.past && s.nFirst == |c.fs|)) else s
  }

  function Run(c: Cast, es: seq<Event>): State
    requires c.N > 0
    decreases |es|
  {
    if es == [] then Init() else Step(c, Run(c, es[..|es| - 1]), es[|es| - 1])
  }

  function Left(s: State): int { if s.data.Sending? && s.data.left > 0 then s.data.left else 0 }

  // What receiver i is owed: an end one whole number of windows, at least one, after its first packet, and no further
  // past the readings it was worked out from than it must.
  ghost predicate Owed(c: Cast, i: nat, end: nat, reading: (nat, nat), cur: nat)
    requires i < |c.fs| && c.N > 0
  {
    && end >= c.fs[i] + c.N && (exists k: nat :: end == c.fs[i] + k * c.N)
    && c.fs[i] < reading.0 <= reading.1 <= cur && Tight(c.fs[i] % c.N, reading.0, reading.1, c.N, end)
  }

  // `m` is the largest of the ends, or 0 when there is none yet.
  ghost predicate Largest(ends: seq<nat>, m: nat) {
    && (forall i :: 0 <= i < |ends| ==> ends[i] <= m)
    && (if ends == [] then m == 0 else exists i :: 0 <= i < |ends| && ends[i] == m)
  }

  // The ends that have been taken into account.
  function Merged(s: State): seq<nat> { if s.control.Placed? && s.ends != [] then s.ends[..|s.ends| - 1] else s.ends }

  ghost predicate Inv(c: Cast, s: State)
    requires c.N > 0
  {
    && s.cur < SEQNUM_MAX && s.nFirst <= |c.fs|
    && |s.ends| == (if s.control.Counted? || s.control.Tested? then s.nFirst - 1 else s.nFirst)
    && (!s.control.Idle? ==> s.nFirst > 0 && c.fs[s.nFirst - 1] < s.cur)
    && (s.control.Tested? ==>
          c.fs[s.nFirst - 1] < s.testedAt <= s.cur
          && s.control.another == (c.fs[s.nFirst - 1] % c.N < s.testedAt % c.N))
    && |s.readings| == |s.ends| && (forall i :: 0 <= i < |s.ends| ==> Owed(c, i, s.ends[i], s.readings[i], s.cur))
    && Largest(Merged(s), s.endMax)
    && (s.seqEnd != SEQNUM_MAX ==> s.control.Idle? && 0 < s.nFirst == |c.fs| && s.seqEnd == s.endMax)
    && (s.control.Idle? && 0 < s.nFirst == |c.fs| ==> s.seqEnd == s.endMax)
    && (s.data.Checking? && s.data.past ==> s.seqEnd != SEQNUM_MAX && s.cur >= s.seqEnd)
    && (s.stopped ==> s.seqEnd != SEQNUM_MAX && s.cur >= s.seqEnd && !s.data.Sending?)
    && Left(s) <= c.burst
    && (s.seqEnd != SEQNUM_MAX ==> s.setAt <= s.cur && s.cur + Left(s) <= Max(s.seqEnd, s.setAt + c.burst))
  }

  lemma StepInv(c: Cast, s: State, e: Event)
    requires c.N > 0 && Inv(c, s)
    ensures Inv(c, Step(c, s, e))
    ensures s.stopped ==> Step(c, s, e).cur == s.cur && Step(c, s, e).stopped
  {
    match e
    case Divide => if s.control.Tested? { DivideInv(c, s); }
    case Raise => RaiseInv(c, s);
    case Allow(_) => BurstInv(c, s, e);
    case SendOne => BurstInv(c, s, e);
    case CheckEnd => CheckInv(c, s, e);
    case CheckCount => CheckInv(c, s, e);
    case _ => HeardInv(c, s, e);
  }

  lemma BurstInv(c: Cast, s: State, e: Event)
    requires c.N > 0 && Inv(c, s) && (e.Allow? || e.SendOne?)
    ensures Inv(c, Step(c, s, e))
    ensures s.stopped ==> Step(c, s, e).cur == s.cur && Step(c, s, e).stopped
  {
  }

  lemma CheckInv(c: Cast, s: State, e: Event)
    requires c.N > 0 && Inv(c, s) && (e.CheckEnd? || e.CheckCount?)
    ensures Inv(c, Step(c, s, e))
    ensures s.stopped ==> Step(c, s, e).cur == s.cur && Step(c, s, e).stopped
  {
  }

  lemma HeardInv(c: Cast, s: State, e: Event)
    requires c.N > 0 && Inv(c, s) && (e.FirstSeq? || e.Test? || e.SetEnd?)
    ensures Inv(c, Step(c, s, e))
    ensures Step(c, s, e).cur == s.cur && Step(c, s, e).stopped == s.stopped
  {
  }

  lemma DivideInv(c: Cast, s: State)
    requires c.N > 0 && Inv(c, s) && s.control.Tested?
    ensures Inv(c, Step(c, s, Divide))
  {
    var f, s' := c.fs[s.nFirst - 1], Step(c, s, Divide);
    assert Merged(s') == s.ends;
    FullWindowGiven(f, s.testedAt, s.cur, c.N);
    assert s'.ends[|s.ends|] == SeqEnd(f % c.N, s.testedAt, s.cur, c.N);
    EndIsTight(f % c.N, s.testedAt, s.cur, c.N);
    assert Owed(c, |s.ends|, s'.ends[|s.ends|], s'.readings[|s.ends|], s'.cur);
  }

  lemma RaiseInv(c: Cast, s: State)
    requires c.N > 0 && Inv(c, s)
    ensures Inv(c, Step(c, s, Raise))
  {
    if s.control.Placed? {
      var last := |s.ends| - 1;
      LargestPush(s.ends[..last], s.endMax, s.ends[last]);
      assert s.ends[..last] + [s.ends[last]] == s.ends;
    }
  }

  lemma LargestPush(ends: seq<nat>, m: nat, end: nat)
    requires Largest(ends, m)
    ensures Largest(ends + [end], if end > m then end else m)
  {
    var es := ends + [end];
    if end > m || ends == [] {
      assert es[|ends|] == end;
    } else {
      var i :| 0 <= i < |ends| && ends[i] == m;
      assert es[i] == m;
    }
  }

  lemma {:induction false} RunInv(c: Cast, es: seq<Event>)
    requires c.N > 0
    ensures Inv(c, Run(c, es))
    decreases |es|
  {
    if es != [] {
      RunInv(c, es[..|es| - 1]);
      StepInv(c, Run(c, es[..|es| - 1]), es[|es| - 1]);
    }
  }

  /** Under every interleaving, the multicast stops only after each receiver's whole window has been sent, and at most
      one burst beyond its end or the moment its end was set, whichever is later. The end is that of one of the
      receivers. */
  lemma StopsAfterEveryWindow(c: Cast, es: seq<Event>)
    requires c.N > 0 && Run(c, es).stopped
    ensures var s := Run(c, es);
      && |s.ends| == |s.readings| == |c.fs| == s.nFirst
      && (forall i :: 0 <= i < |c.fs| ==> c.fs[i] + c.N <= s.ends[i] <= s.seqEnd <= s.cur)
      && (forall i :: 0 <= i < |c.fs| ==> Owed(c, i, s.ends[i], s.readings[i], s.cur))
      && (exists i :: 0 <= i < |c.fs| && s.ends[i] == s.seqEnd)
      && s.setAt <= s.cur <= Max(s.seqEnd, s.setAt + c.burst)
      && (s.setAt <= s.seqEnd ==> s.cur <= s.seqEnd + c.burst)
  {
    hide Run, Tight;
    RunInv(c, es);
    var s := Run(c, es);
    forall i | 0 <= i < |c.fs| ensures c.fs[i] + c.N <= s.ends[i] {
      assert Owed(c, i, s.ends[i], s.readings[i], s.cur);
    }
  }

  /** Once stopped, nothing more is sent. */
  lemma StoppedStays(c: Cast, es: seq<Event>, e: Event)
    requires c.N > 0 && Run(c, es).stopped
    ensures Run(c, es + [e]).stopped && Run(c, es + [e]).cur == Run(c, es).cur
  {
    RunInv(c, es);
    StepInv(c, Run(c, es), e);
    assert (es + [e])[..|es|] == es;
  }

  // ---- how far past its end a multicast may go

  lemma RunPush(c: Cast, es: seq<Event>, e: Event)
    requires c.N > 0
    ensures Run(c, es + [e]) == Step(c, Run(c, es), e)
  {
    assert (es + [e])[..|es|] == es;
  }

  // One packet in a burst of its own, and the test after it.
  function OneMore(es: seq<Event>): seq<Event> { es + [Allow(1)] + [SendOne] + [CheckEnd] + [CheckCount] }

  lemma OneMoreSent(c: Cast, es: seq<Event>)
    requires c.N > 0 && c.burst == 1
    requires var s := Run(c, es); s.data == Ready && !s.stopped && s.seqEnd == SEQNUM_MAX && s.cur + 1 < SEQNUM_MAX
    ensures var s := Run(c, es); Run(c, OneMore(es)) == s.(cur := s.cur + 1)
  {
    var a := es + [Allow(1)];
    var b := a + [SendOne];
    RunPush(c, es, Allow(1));
    RunPush(c, a, SendOne);
    RunPush(c, b, CheckEnd);
    RunPush(c, b + [CheckEnd], CheckCount);
  }

  // `m` packets more, while the control thread does not get to run.
  function Delayed(es: seq<Event>, m: nat): seq<Event> {
    if m == 0 then es else OneMore(Delayed(es, m - 1))
  }

  lemma {:induction false} DelayedSent(c: Cast, es: seq<Event>, m: nat)
    requires c.N > 0 && c.burst == 1
    requires var s := Run(c, es); s.data == Ready && !s.stopped && s.seqEnd == SEQNUM_MAX && s.cur + m < SEQNUM_MAX
    ensures var s := Run(c, es); Run(c, Delayed(es, m)) == s.(cur := s.cur + m)
    decreases m
  {
    if m > 0 {
      DelayedSent(c, es, m - 1);
      OneMoreSent(c, Delayed(es, m - 1));
    }
  }

  // A file of one packet, one receiver, bursts of one packet.
  const SMALLEST: Cast := Cast([0], 1, 1)

  // The end is worked out after one packet, and published after `m` more.
  function Late(m: nat): seq<Event> {
    Delayed(OneMore([]) + [FirstSeq] + [Test] + [Divide], m) + [Raise] + [SetEnd] + [CheckEnd] + [CheckCount]
  }

  lemma EndWorkedOut()
    ensures Run(SMALLEST, OneMore([]) + [FirstSeq] + [Test] + [Divide])
         == State(1, 1, [1], 0, SEQNUM_MAX, Placed, Ready, false, 1, 0, [(1, 1)])
  {
    hide Run, OneMore;
    var c, a := SMALLEST, OneMore([]);
    NothingYet(c);
    OneMoreSent(c, []);
    RunPush(c, a, FirstSeq);
    RunPush(c, a + [FirstSeq], Test);
    RunPush(c, a + [FirstSeq] + [Test], Divide);
  }

  lemma NothingYet(c: Cast)
    requires c.N > 0
    ensures Run(c, []) == Init()
  {
  }

  /** No bound in terms of the end and the burst alone holds: the longer the control thread takes between working out
      an end and publishing it, the further the multicast goes past it. */
  lemma Overshoots(m: nat)
    requires m + 1 < SEQNUM_MAX
    ensures var s := Run(SMALLEST, Late(m)); s.stopped && s.seqEnd == 1 && s.setAt == s.cur == 1 + m
  {
    var c, a := SMALLEST, OneMore([]) + [FirstSeq] + [Test] + [Divide];
    EndWorkedOut();
    DelayedSent(c, a, m);
    var b := Delayed(a, m);
    RunPush(c, b, Raise);
    RunPush(c, b + [Raise], SetEnd);
    RunPush(c, b + [Raise] + [SetEnd], CheckEnd);
    RunPush(c, b + [Raise] + [SetEnd] + [CheckEnd], CheckCount);
  }

  // ---- the multicast does stop

  // The control thread finishes what it is at.
  lemma Publishes(c: Cast, es: seq<Event>) returns (es': seq<Event>)
    requires c.N > 0
    requires var s := Run(c, es); 0 < s.nFirst == |c.fs| && s.endMax < SEQNUM_MAX && s.cur + 2 * c.N < SEQNUM_MAX
    requires var s := Run(c, es); forall i :: 0 <= i < |s.ends| ==> s.ends[i] < SEQNUM_MAX
    ensures es <= es'
    ensures var s, s' := Run(c, es), Run(c, es');
      s'.seqEnd < SEQNUM_MAX && s'.nFirst == s.nFirst && s'.data == s.data && s'.stopped == s.stopped && s'.cur == s.cur
    decreases ToPublish(Run(c, es).control)
  {
    hide Run;
    var s := Run(c, es);
    RunInv(c, es);
    if s.control.Idle? {
      es' := es;
    } else {
      var e := NextControl(s.control);
      RunPush(c, es, e);
      ControlGoesOn(c, s);
      es' := Publishes(c, es + [e]);
    }
  }

  function ToPublish(k: Control): nat {
    match k case Counted => 4 case Tested(_) => 3 case Placed => 2 case Raised => 1 case Idle => 0
  }

  function NextControl(k: Control): Event {
    match k case Counted => Test case Tested(_) => Divide case Placed => Raise case Raised => SetEnd case Idle => SetEnd
  }

  lemma ControlGoesOn(c: Cast, s: State)
    requires c.N > 0 && Inv(c, s) && !s.control.Idle? && s.endMax < SEQNUM_MAX && s.cur + 2 * c.N < SEQNUM_MAX
    requires forall i :: 0 <= i < |s.ends| ==> s.ends[i] < SEQNUM_MAX
    ensures var s' := Step(c, s, NextControl(s.control));
      && ToPublish(s'.control) < ToPublish(s.control) && s'.nFirst == s.nFirst && s'.data == s.data && s'.cur == s.cur
      && s'.stopped == s.stopped && s'.endMax < SEQNUM_MAX && forall i :: 0 <= i < |s'.ends| ==> s'.ends[i] < SEQNUM_MAX
  {
    if s.control.Tested? {
      var f := c.fs[s.nFirst - 1];
      EndIsTight(f % c.N, s.testedAt, s.cur, c.N);
      assert Step(c, s, Divide).ends[|s.ends|] == SeqEnd(f % c.N, s.testedAt, s.cur, c.N);
    }
  }

  // The data thread comes to the top of its loop.
  lemma ComesRound(c: Cast, es: seq<Event>) returns (es': seq<Event>)
    requires c.N > 0
    ensures es <= es' && Run(c, es').data == Ready
    ensures var s, s' := Run(c, es), Run(c, es');
      s' == s.(data := Ready, stopped := s'.stopped)
  {
    hide Run;
    var s := Run(c, es);
    if s.data == Ready {
      es' := es;
    } else if s.data.Checking? {
      RunPush(c, es, CheckCount);
      es' := es + [CheckCount];
    } else {
      RunPush(c, es, CheckEnd);
      RunPush(c, es + [CheckEnd], CheckCount);
      es' := es + [CheckEnd] + [CheckCount];
    }
  }

  lemma SendsOne(c: Cast, es: seq<Event>)
    requires c.N > 0 && c.burst >= 1
    requires var s := Run(c, es); s.data == Ready && !s.stopped && s.cur < s.seqEnd < SEQNUM_MAX
    ensures var s, s' := Run(c, es), Run(c, OneMore(es)); s' == s.(cur := s.cur + 1, stopped := s'.stopped)
  {
    hide Run;
    var a := es + [Allow(1)];
    var b := a + [SendOne];
    RunPush(c, es, Allow(1));
    RunPush(c, a, SendOne);
    RunPush(c, b, CheckEnd);
    RunPush(c, b + [CheckEnd], CheckCount);
  }

  lemma SendsToEnd(c: Cast, es: seq<Event>) returns (es': seq<Event>)
    requires c.N > 0 && c.burst >= 1
    requires var s := Run(c, es); s.data == Ready && s.seqEnd < SEQNUM_MAX && s.nFirst == |c.fs|
    ensures es <= es' && Run(c, es').stopped
    decreases Run(c, es).seqEnd - Run(c, es).cur
  {
    hide Run;
    var s := Run(c, es);
    if s.stopped {
      es' := es;
    } else if s.cur < s.seqEnd {
      SendsOne(c, es);
      es' := SendsToEnd(c, OneMore(es));
    } else {
      RunPush(c, es, CheckEnd);
      RunPush(c, es + [CheckEnd], CheckCount);
      es' := es + [CheckEnd] + [CheckCount];
    }
  }

  /** Once all receivers have been heard, the multicast can always be brought to its stop, whatever the burst limit. The
      numbers must stay below the one that stands for an unset end. */
  lemma CanStop(c: Cast, es: seq<Event>)
    requires c.N > 0 && c.burst >= 1
    requires var s := Run(c, es); 0 < s.nFirst == |c.fs| && s.endMax < SEQNUM_MAX && s.cur + 2 * c.N < SEQNUM_MAX
    requires var s := Run(c, es); forall i :: 0 <= i < |s.ends| ==> s.ends[i] < SEQNUM_MAX
    ensures exists es' :: es <= es' && Run(c, es').stopped
  {
    hide Run;
    var a := Publishes(c, es);
    var b := ComesRound(c, a);
    var d := SendsToEnd(c, b);
    assert es <= d;
  }
}
