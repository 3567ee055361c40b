/** What one receiver does with one packet, stated on the window of sequence numbers that starts at its first packet. */
module ReceiverSpec {
  import opened Basics
  import opened Geometry
  import opened ByteFile

  datatype Recv = Recv(
    isFst: bool, fst: nat, lst: nat, tail: nat,
    isZero: bool, dataSize: nat, seqMax: nat, payloadMin: nat, tailBuf: seq<byte>,
    file: seq<byte>, pos: int,
    numFast: nat, numSlow: nat,
    isFastpath: bool, isFinished: bool, start: int, jump: int)

  function Fresh(): Recv {
    Recv(false, 0, 0, 0, false, 0, 0, 0, [], [], 0, 0, 0, true, false, -1, -1)
  }

  // Where packet `cur` belongs: in the rotated file, or beyond its cut.
  function FilePosition(g: Geo, r: Recv, cur: nat): int {
    if cur >= r.fst then
      if r.tail > 0 && cur > r.tail then g.Off(cur) else g.Off(cur) - g.Off(r.fst)
    else
      r.start + g.Off(cur)
  }

  // Sequence number that follows `i` in the sender's cycle.
  function Next(g: Geo, i: nat): nat { if i + 1 == g.N then 0 else i + 1 }

  lemma NextIsMod(g: Geo, i: nat)
    requires i < g.N
    ensures (i + 1) % g.N == Next(g, i)
  {
    if i + 1 < g.N { RemainderIs(i + 1, g.N, 0, i + 1); } else { RemainderIs(i + 1, g.N, 1, 0); }
  }

  // Distance of `i` from the first packet `first`, along the cycle.
  function WindowPos(g: Geo, first: nat, i: nat): int { if i >= first then i - first else i + g.N - first }

  /** `c` comes after `last` in the window of `first`, whatever the length of the cycle is. */
  predicate Ahead(first: nat, last: nat, c: nat) {
    if (c < first) == (last < first) then last < c else c < first
  }

  // Bytes kept in the file proper once the window has wrapped after packet `tail` (0: nothing lost around the wrap).
  function BodyEnd(g: Geo, tail: nat): nat { if tail > 0 then g.End(tail + 1) else g.D() }

  // Offset of packet 0 in the file.
  function StartVal(g: Geo, first: nat, tail: nat): int {
    if first == 0 then 0 else BodyEnd(g, tail) - g.Off(first)
  }

  // Offset one past the last accepted packet.
  function NextPos(g: Geo, r: Recv): int {
    if r.lst >= r.fst then g.End(r.lst + 1) - g.Off(r.fst) else r.start + g.End(r.lst + 1)
  }

  // `n` bytes of freshly allocated memory, holding whatever `junk` says.
  function Fill(junk: seq<byte>, n: nat): (b: seq<byte>)
    ensures |b| == n && (|junk| == n ==> b == junk)
  {
    seq(n, i requires 0 <= i < n => if i < |junk| then junk[i] else 0)
  }

  ghost predicate Wf(g: Geo, r: Recv) {
    if !r.isFst then r == Fresh() else
    && r.fst < g.N && r.lst < g.N
    && (r.tail > 0 ==> r.lst < r.fst < r.tail < g.N)
    && (r.lst < r.fst ==> r.tail > 0 || r.isZero)
    && (r.fst == 0 ==> r.isZero)
    && r.start == (if r.tail > 0 || r.isZero then StartVal(g, r.fst, r.tail) else -1)
    && (if r.isZero then
          && r.dataSize == g.D() && r.seqMax == g.N && r.payloadMin == g.D() - g.Off(g.N - 1)
          && |r.tailBuf| == g.D() - BodyEnd(g, r.tail)
        else r.seqMax == 0 && r.tailBuf == [])
    && (r.isFastpath ==> !r.isFinished && r.pos == NextPos(g, r) && Next(g, r.lst) != r.fst)
  }

  // Packet 0 carries the metadata (hero.c:128-186).
  function WithMetadata(g: Geo, r: Recv, junk: seq<byte>): Recv
    requires g.Valid() && BodyEnd(g, r.tail) <= g.D()
  {
    var buf := Fill(junk, g.D() - BodyEnd(g, r.tail));
    r.(isZero := true, dataSize := g.D(), seqMax := g.N, payloadMin := g.Len(g.N - 1), tailBuf := buf,
       start := StartVal(g, r.fst, r.tail), jump := BodyEnd(g, r.tail))
  }

  function Finish(r: Recv): Recv {
    r.(jump := |r.file|, file := r.file + r.tailBuf, pos := |r.file| + |r.tailBuf|, isFinished := true)
  }

  function IfComplete(r: Recv): Recv {
    if r.numFast + r.numSlow == r.seqMax then Finish(r) else r
  }

  // ---- the fast path

  // The run stops on an assertion (thread_data.c:234-235).
  predicate Halts(r: Recv, c: nat) {
    r.isFastpath && r.isFst && 0 < c < r.fst < r.lst && (r.tail != 0 || r.start != -1)
  }

  // The cycle wraps right after a window that holds the first packet only.
  predicate OnlyFirst(g: Geo, r: Recv, c: nat) {
    r.lst == r.fst && c < r.fst && Next(g, r.lst) != c
  }

  predicate Accepts(g: Geo, r: Recv, c: nat) {
    r.isFastpath &&
    (!r.isFst || (Ahead(r.fst, r.lst, c) && !OnlyFirst(g, r, c) && !(c == 0 && r.isZero)))
  }

  // Both ends of the cycle were lost: the file is cut after the last packet before the wrap.
  predicate CutsTail(r: Recv, c: nat) { 0 < c < r.fst < r.lst }

  // The half-open range asked for when `c` is accepted.
  function Loss(g: Geo, r: Recv, c: nat): Option<Tuple> {
    if Accepts(g, r, c) && r.isFst && Next(g, r.lst) != c then
      Some(Tuple(r.lst + 1, if c == 0 then g.N else c))
    else None
  }

  function First(r: Recv, c: nat): Recv {
    if r.isFst then r else r.(isFst := true, fst := c, lst := c)
  }

  function Cut(g: Geo, r: Recv, c: nat): Recv {
    if CutsTail(r, c) then r.(tail := r.lst, start := StartVal(g, r.fst, r.lst)) else r
  }

  function Store(g: Geo, r: Recv, c: nat): Recv
    requires g.Valid() && c < g.N && 0 <= FilePosition(g, r, c)
  {
    var off := FilePosition(g, r, c);
    r.(file := WriteAt(r.file, off, g.Packet(c)), pos := off + g.Len(c), numFast := r.numFast + 1, lst := c)
  }

  // The state after the metadata, if any, has been taken in and the tail, if any, has been cut.
  function Prepared(g: Geo, r: Recv, c: nat, junk: seq<byte>): (r': Recv)
    requires g.Valid() && Wf(g, r) && c < g.N && !Halts(r, c)
  {
    var r1 := First(r, c);
    WfBodyEnd(g, r1.tail);
    var r2 := if c == 0 && !r1.isZero then WithMetadata(g, r1, junk) else r1;
    if Accepts(g, r, c) then Cut(g, r2, c) else r2
  }

  // The packet is stored, if it is taken; the last packet of the window turns the fast path off.
  function Taken(g: Geo, p: Recv, taken: bool, c: nat): Recv
    requires g.Valid() && c < g.N && 0 <= FilePosition(g, p, c)
  {
    var q := if taken then Store(g, p, c) else p;
    if Next(g, c) == q.fst then q.(isFastpath := false, jump := q.pos) else q
  }

  function Settle(g: Geo, p: Recv, taken: bool, c: nat): Recv
    requires g.Valid() && c < g.N && 0 <= FilePosition(g, p, c)
  {
    var q := Taken(g, p, taken, c);
    if Next(g, c) == q.fst then IfComplete(q) else q
  }

  function FastStep(g: Geo, r: Recv, c: nat, junk: seq<byte>): Recv
    requires g.Valid() && Wf(g, r) && c < g.N && !Halts(r, c)
  {
    if !r.isFastpath then r else
    PreparedFacts(g, r, c, junk);
    Settle(g, Prepared(g, r, c, junk), Accepts(g, r, c), c)
  }

  lemma WfBodyEnd(g: Geo, tail: nat)
    requires g.Valid() && tail < g.N
    ensures BodyEnd(g, tail) <= g.D()
    ensures tail > 0 && tail + 1 < g.N ==> g.D() - BodyEnd(g, tail) == g.Off(g.N - 1) - g.Off(tail + 1) + g.Len(g.N - 1)
  {
    g.EndMonotone(tail + 1, g.N);
  }

  lemma StartNonNegative(g: Geo, first: nat, tail: nat)
    requires g.Valid() && first < g.N && (tail > 0 ==> first < tail < g.N)
    ensures 0 <= StartVal(g, first, tail) <= g.D()
  {
    if tail > 0 { g.EndMonotone(first, tail + 1); } else { g.EndMonotone(first, g.N); }
    WfBodyEnd(g, tail);
  }

  lemma PreparedFacts(g: Geo, r: Recv, c: nat, junk: seq<byte>)
    requires g.Valid() && Wf(g, r) && c < g.N && !Halts(r, c) && r.isFastpath
    ensures var p := Prepared(g, r, c, junk);
      && p.fst < g.N && (p.tail > 0 ==> p.fst < p.tail < g.N)
      && p.start == (if p.tail > 0 || p.isZero then StartVal(g, p.fst, p.tail) else -1)
      && p.start >= -1
      && 0 <= FilePosition(g, p, c)
  {
    var p := Prepared(g, r, c, junk);
    StartNonNegative(g, p.fst, p.tail);
    if c >= p.fst { g.OffMonotone(p.fst, c); }
  }

  // ---- the slow path

  // The tail buffer exists when a packet beyond the tail arrives.
  predicate TailReady(r: Recv, s: nat) { r.tail > 0 && s > r.tail ==> r.isZero }

  // The patch is written at its place and counted.
  function PatchWrite(g: Geo, r: Recv, s: nat, junk: seq<byte>): Recv
    requires g.Valid() && Wf(g, r) && r.isFst && s < g.N && TailReady(r, s)
  {
    if r.tail > 0 && s > r.tail then
      g.OffMonotone(r.tail + 1, s);
      r.(tailBuf := WriteAt(r.tailBuf, g.Off(s) - g.Off(r.tail + 1), g.Packet(s)), numSlow := r.numSlow + 1)
    else
      WfBodyEnd(g, r.tail);
      var q := if s == 0 && !r.isZero then WithMetadata(g, r, junk) else r;
      PatchOffset(g, q, s);
      q.(file := WriteAt(q.file, FilePosition(g, q, s), g.Packet(s)), numSlow := q.numSlow + 1)
  }

  // A patch for the first packet is refused (thread_recv.c:134-138).
  function PatchStep(g: Geo, r: Recv, s: nat, junk: seq<byte>): Recv
    requires g.Valid() && Wf(g, r) && r.isFst && s < g.N && TailReady(r, s)
  {
    if s == r.fst then r else IfComplete(PatchWrite(g, r, s, junk))
  }

  lemma PatchOffset(g: Geo, q: Recv, s: nat)
    requires g.Valid() && s < g.N && q.fst < g.N && (q.tail > 0 ==> q.fst < q.tail < g.N)
    requires q.start == (if q.tail > 0 || q.isZero then StartVal(g, q.fst, q.tail) else -1)
    requires s == 0 ==> q.isZero
    ensures 0 <= FilePosition(g, q, s)
  {
    StartNonNegative(g, q.fst, q.tail);
    if s >= q.fst { g.OffMonotone(q.fst, s); }
  }

  // FAST_DONE: what is still missing, if anything (thread_recv.c:185-219).
  function FastDoneStep(r: Recv): Recv {
    if r.isFinished then r else r.(isFastpath := false)
  }

  function FastDoneLoss(g: Geo, r: Recv): Option<Tuple> {
    if r.isFinished then None
    else if !r.isZero then Some(Tuple(r.lst + 1, SEQ2WARDTHEEND))
    else if Next(g, r.lst) == r.fst then None
    else Some(Tuple(r.lst + 1, r.fst))
  }

  // ---- facts about one step

  /** Being ahead is being strictly further along the window, for every cycle length. */
  lemma AheadIsWindowOrder(g: Geo, first: nat, last: nat, c: nat)
    requires first < g.N && last < g.N && c < g.N
    ensures Ahead(first, last, c) <==> (last - first) % g.N < (c - first) % g.N
  {
    WindowPosIsMod(g, first, last);
    WindowPosIsMod(g, first, c);
  }

  lemma WindowPosIsMod(g: Geo, first: nat, i: nat)
    requires first < g.N && i < g.N
    ensures WindowPos(g, first, i) == (i - first) % g.N
  {
    if i < first { ModShift(i - first, g.N); } else { ModShift(i - first - g.N, g.N); }
  }

  lemma ModShift(x: int, n: int)
    requires 0 < n && -n <= x < 0
    ensures x % n == x + n || x == -n
    ensures (x + n) % n == x + n
  {
  }

  /** The structural invariant survives every fast packet that does not stop the run. */
  lemma FastWf(g: Geo, r: Recv, c: nat, junk: seq<byte>)
    requires g.Valid() && Wf(g, r) && c < g.N && !Halts(r, c)
    ensures Wf(g, FastStep(g, r, c, junk))
  {
    if r.isFastpath {
      PreparedFacts(g, r, c, junk);
      PreparedWf(g, r, c, junk);
      SettleWf(g, Prepared(g, r, c, junk), Accepts(g, r, c), c);
    }
  }

  // What holds between taking in the metadata and storing the packet.
  ghost predicate ReadyFor(g: Geo, p: Recv, taken: bool, c: nat)
    requires g.Valid() && c < g.N
  {
    && p.isFst && !p.isFinished && p.isFastpath
    && p.fst < g.N && (p.tail > 0 ==> p.fst < p.tail < g.N)
    && p.start == (if p.tail > 0 || p.isZero then StartVal(g, p.fst, p.tail) else -1) >= -1
    && 0 <= FilePosition(g, p, c)
    && (p.fst == 0 ==> p.isZero)
    && (if p.isZero then
          && p.dataSize == g.D() && p.seqMax == g.N && p.payloadMin == g.D() - g.Off(g.N - 1)
          && |p.tailBuf| == g.D() - BodyEnd(g, p.tail)
        else p.seqMax == 0 && p.tailBuf == [])
    && if taken then
         && (p.tail > 0 ==> c < p.fst)
         && (c < p.fst ==> p.tail > 0 || p.isZero)
         && FilePosition(g, p, c) + g.Len(c) == NextPos(g, p.(lst := c))
       else Wf(g, p)
  }

  lemma SettleWf(g: Geo, p: Recv, taken: bool, c: nat)
    requires g.Valid() && c < g.N && ReadyFor(g, p, taken, c)
    ensures Wf(g, Settle(g, p, taken, c))
  {
    hide WriteAt;
    if taken {
      var q := Store(g, p, c);
      assert NextPos(g, q) == NextPos(g, p.(lst := c));
    }
  }

  lemma PreparedWf(g: Geo, r: Recv, c: nat, junk: seq<byte>)
    requires g.Valid() && Wf(g, r) && c < g.N && !Halts(r, c) && r.isFastpath
    ensures ReadyFor(g, Prepared(g, r, c, junk), Accepts(g, r, c), c)
  {
    hide Fill;
    var p := Prepared(g, r, c, junk);
    if r.isFst { StartNonNegative(g, r.fst, r.tail); }
    WfBodyEnd(g, First(r, c).tail);
    WfBodyEnd(g, p.tail);
    PreparedFacts(g, r, c, junk);
    g.EndStep(c);
  }

  lemma MetadataWf(g: Geo, r: Recv, junk: seq<byte>)
    requires g.Valid() && Wf(g, r) && r.isFst && !r.isZero && BodyEnd(g, r.tail) <= g.D()
    ensures Wf(g, WithMetadata(g, r, junk))
  {
    StartNonNegative(g, r.fst, r.tail);
  }

  lemma PatchWriteWf(g: Geo, r: Recv, s: nat, junk: seq<byte>)
    requires g.Valid() && Wf(g, r) && r.isFst && s < g.N && TailReady(r, s)
    ensures Wf(g, PatchWrite(g, r, s, junk))
  {
    WfBodyEnd(g, r.tail);
    if r.tail > 0 && s > r.tail {
      TailSlotFits(g, r.tail, s);
    } else if s == 0 && !r.isZero {
      MetadataWf(g, r, junk);
    }
  }

  lemma PatchWf(g: Geo, r: Recv, s: nat, junk: seq<byte>)
    requires g.Valid() && Wf(g, r) && r.isFst && s < g.N && TailReady(r, s)
    requires r.isFastpath ==> r.numFast + r.numSlow + 1 < g.N
    ensures Wf(g, PatchStep(g, r, s, junk))
  {
    PatchWriteWf(g, r, s, junk);
    var q := PatchWrite(g, r, s, junk);
    assert q.isFastpath ==> q.numFast + q.numSlow != q.seqMax;
  }

  /** Each packet beyond the tail fits in the tail buffer. */
  lemma TailSlotFits(g: Geo, tail: nat, s: nat)
    requires g.Valid() && 0 < tail < s < g.N
    ensures 0 <= g.Off(s) - g.Off(tail + 1)
    ensures g.Off(s) - g.Off(tail + 1) + g.Len(s) == g.End(s + 1) - BodyEnd(g, tail) <= g.D() - BodyEnd(g, tail)
  {
    g.EndStep(s);
    g.OffMonotone(tail + 1, s);
  }
}
