/** Ranges of sequence numbers as bags: which packets a window holds, and which ones a patch request names. */
module Cover {
  import opened Basics
  import opened Geometry
  import opened ReceiverSpec

  function Range(a: nat, b: nat): (s: seq<nat>)
    ensures |s| == if a < b then b - a else 0
    ensures forall i :: 0 <= i < |s| ==> s[i] == a + i
  {
    if a < b then seq(b - a, i requires 0 <= i < b - a => a + i) else []
  }

  lemma {:induction false} RangeCount(a: nat, b: nat, x: nat)
    ensures multiset(Range(a, b))[x] == if a <= x < b then 1 else 0
    decreases b
  {
    if a < b {
      RangeCount(a, b - 1, x);
      assert Range(a, b) == Range(a, b - 1) + [b - 1];
    } else {
      assert Range(a, b) == [];
    }
  }

  // The packets from `first` to `last` along the cycle.
  function Window(g: Geo, first: nat, last: nat): seq<nat>
  {
    if last >= first then Range(first, last + 1) else Range(first, g.N) + Range(0, last + 1)
  }

  predicate InWindow(g: Geo, first: nat, last: nat, x: nat) {
    x < g.N && if last >= first then first <= x <= last else first <= x || x <= last
  }

  lemma WindowCount(g: Geo, first: nat, last: nat, x: nat)
    requires first < g.N && last < g.N
    ensures multiset(Window(g, first, last))[x] == if InWindow(g, first, last, x) then 1 else 0
  {
    RangeCount(first, last + 1, x);
    RangeCount(first, g.N, x);
    RangeCount(0, last + 1, x);
  }

  lemma WindowSize(g: Geo, first: nat, last: nat)
    requires first < g.N && last < g.N
    ensures |Window(g, first, last)| == WindowPos(g, first, last) + 1 <= g.N
    ensures |Window(g, first, last)| == g.N <==> Next(g, last) == first
  {
  }

  // `l + 1` of a receiver that ended at the last packet stands for packet 0 (thread_send.c:380).
  function Wrap(g: Geo, i: nat): nat { if i == g.N then 0 else i }

  /** What the sender queues for one request of a receiver that began at `first` (thread_send.c:378-424). */
  function Names(g: Geo, first: nat, t: Tuple): seq<nat> {
    var stt := Wrap(g, t.stt);
    var end := if t.end == SEQ2WARDTHEEND then first else t.end;
    if stt < end then Range(stt, end)
    else if stt > end then Range(0, end) + Range(stt, g.N)
    else []
  }

  function LossNames(g: Geo, first: nat, loss: Option<Tuple>): seq<nat> {
    match loss case None => [] case Some(t) => Names(g, first, t)
  }

  lemma NamesCount(g: Geo, first: nat, t: Tuple, x: nat)
    requires first < g.N && t.stt <= g.N && (t.end <= g.N || t.end == SEQ2WARDTHEEND)
    ensures var stt := Wrap(g, t.stt);
      var end := if t.end == SEQ2WARDTHEEND then first else t.end;
      multiset(Names(g, first, t))[x] ==
        if stt < end then (if stt <= x < end then 1 else 0)
        else if stt > end then (if x < end || stt <= x < g.N then 1 else 0)
        else 0
  {
    var stt := Wrap(g, t.stt);
    var end := if t.end == SEQ2WARDTHEEND then first else t.end;
    RangeCount(stt, end, x);
    RangeCount(0, end, x);
    RangeCount(stt, g.N, x);
  }

  /** An accepted packet extends the window by itself and by exactly the packets its request names. */
  lemma AcceptCovers(g: Geo, r: Recv, c: nat)
    requires g.Valid() && Wf(g, r) && c < g.N && r.isFst && Accepts(g, r, c)
    ensures multiset(Window(g, r.fst, c))
         == multiset(Window(g, r.fst, r.lst)) + multiset([c]) + multiset(LossNames(g, r.fst, Loss(g, r, c)))
  {
    forall x: nat
      ensures multiset(Window(g, r.fst, c))[x]
           == (multiset(Window(g, r.fst, r.lst)) + multiset([c]) + multiset(LossNames(g, r.fst, Loss(g, r, c))))[x]
    {
      WindowCount(g, r.fst, c, x);
      WindowCount(g, r.fst, r.lst, x);
      match Loss(g, r, c)
      case None =>
      case Some(t) => NamesCount(g, r.fst, t, x);
    }
  }

  /** The request made on FAST_DONE names exactly what the window lacks, known packet count or not. */
  lemma FastDoneCovers(g: Geo, r: Recv)
    requires g.Valid() && Wf(g, r) && r.isFst && !r.isFinished
    ensures multiset(Range(0, g.N))
         == multiset(Window(g, r.fst, r.lst)) + multiset(LossNames(g, r.fst, FastDoneLoss(g, r)))
  {
    forall x: nat
      ensures multiset(Range(0, g.N))[x]
           == (multiset(Window(g, r.fst, r.lst)) + multiset(LossNames(g, r.fst, FastDoneLoss(g, r))))[x]
    {
      RangeCount(0, g.N, x);
      WindowCount(g, r.fst, r.lst, x);
      match FastDoneLoss(g, r)
      case None =>
      case Some(t) => NamesCount(g, r.fst, t, x);
    }
  }

  lemma FullWindow(g: Geo, first: nat, last: nat)
    requires first < g.N && last < g.N && Next(g, last) == first
    ensures multiset(Window(g, first, last)) == multiset(Range(0, g.N))
  {
    forall x: nat ensures multiset(Window(g, first, last))[x] == multiset(Range(0, g.N))[x] {
      WindowCount(g, first, last, x);
      RangeCount(0, g.N, x);
    }
  }
}
