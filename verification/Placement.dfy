/** Where each packet is kept, and why no write disturbs another packet. */
module Placement {
  import opened Basics
  import opened Geometry
  import opened ByteFile
  import opened ReceiverSpec
  import opened Cover

  datatype Slot = Slot(inBuf: bool, off: int)

  // The place of packet `x`: in the tail buffer, or in the file.
  function SlotOf(g: Geo, r: Recv, x: nat): Slot {
    if r.tail > 0 && x > r.tail then Slot(true, g.Off(x) - g.Off(r.tail + 1))
    else Slot(false, FilePosition(g, r, x))
  }

  ghost predicate SlotHolds(g: Geo, r: Recv, x: nat)
    requires g.Valid() && x < g.N
  {
    Holds(if SlotOf(g, r, x).inBuf then r.tailBuf else r.file, SlotOf(g, r, x).off, g.Packet(x))
  }

  // A packet whose place is not known before packet 0 has arrived.
  predicate Needs(r: Recv, x: nat) {
    !r.isZero && x != 0 && ((r.start < 0 && x < r.fst) || (r.tail > 0 && x > r.tail))
  }

  ghost predicate Apart(g: Geo, r: Recv, x: nat, y: nat)
    requires g.Valid() && x < g.N && y < g.N
  {
    var a, b := SlotOf(g, r, x), SlotOf(g, r, y);
    a.inBuf != b.inBuf || a.off + g.Len(x) <= b.off || b.off + g.Len(y) <= a.off
  }

  // The fields that place packets are consistent.
  ghost predicate Placed(g: Geo, r: Recv) {
    && r.fst < g.N && (r.tail > 0 ==> r.fst < r.tail < g.N)
    && r.start == (if r.tail > 0 || r.isZero then StartVal(g, r.fst, r.tail) else -1)
  }

  /** Two packets never share a byte, wherever the tail was cut. */
  lemma SlotsDisjoint(g: Geo, r: Recv, x: nat, y: nat)
    requires g.Valid() && Placed(g, r) && x < g.N && y < g.N && x != y
    requires r.start < 0 ==> x >= r.fst && y >= r.fst
    ensures Apart(g, r, x, y)
  {
    if x < y { SlotsDisjointOrdered(g, r, x, y); } else { SlotsDisjointOrdered(g, r, y, x); }
  }

  lemma SlotsDisjointOrdered(g: Geo, r: Recv, x: nat, y: nat)
    requires g.Valid() && Placed(g, r) && x < y < g.N
    requires r.start < 0 ==> x >= r.fst
    ensures Apart(g, r, x, y)
  {
    g.PacketsApart(x, y);
    g.EndStep(y);
    if x < r.fst <= y && !SlotOf(g, r, y).inBuf {
      var last := if r.tail > 0 then r.tail + 1 else g.N;
      g.EndMonotone(y + 1, last);
      assert BodyEnd(g, r.tail) == g.End(last);
    }
  }

  /** The place of a packet already asked for or stored does not move when a fast packet is taken in. */
  lemma SlotStable(g: Geo, r: Recv, c: nat, junk: seq<byte>, x: nat)
    requires g.Valid() && Wf(g, r) && r.isFst && r.isFastpath && c < g.N && !Halts(r, c)
    requires InWindow(g, r.fst, r.lst, x)
    ensures SlotOf(g, Prepared(g, r, c, junk), x) == SlotOf(g, r, x)
    ensures SlotOf(g, FastStep(g, r, c, junk), x) == SlotOf(g, r, x)
  {
    StartNonNegative(g, r.fst, r.tail);
    PreparedFacts(g, r, c, junk);
    var p := Prepared(g, r, c, junk);
    assert SlotOf(g, p, x) == SlotOf(g, r, x);
    SettleKeepsSlots(g, p, Accepts(g, r, c), c, x);
  }

  lemma SettleKeepsSlots(g: Geo, p: Recv, taken: bool, c: nat, x: nat)
    requires g.Valid() && c < g.N && 0 <= FilePosition(g, p, c)
    ensures SlotOf(g, Settle(g, p, taken, c), x) == SlotOf(g, p, x)
  {
  }

  /** A patch moves the place of a packet in one case only: it is packet 0, it brings the metadata to a receiver
      that has not gone round the cycle, and the packet comes before the first one received. */
  lemma SlotMovesExactly(g: Geo, r: Recv, s: nat, junk: seq<byte>, x: nat)
    requires g.Valid() && Wf(g, r) && r.isFst && s < g.N && TailReady(r, s) && x < g.N
    ensures SlotOf(g, PatchStep(g, r, s, junk), x) != SlotOf(g, r, x)
       <==> s == 0 && !r.isZero && r.start < 0 && x < r.fst
  {
    hide WriteAt;
    StartNonNegative(g, r.fst, r.tail);
  }

  /** Storing a packet at its place fills that place and keeps every other one. */
  lemma FileWrite(g: Geo, r: Recv, r': Recv, c: nat, x: nat)
    requires g.Valid() && Placed(g, r) && c < g.N && x < g.N
    requires !SlotOf(g, r, c).inBuf && 0 <= FilePosition(g, r, c)
    requires r'.fst == r.fst && r'.tail == r.tail && r'.start == r.start && r'.tailBuf == r.tailBuf
    requires r'.file == WriteAt(r.file, FilePosition(g, r, c), g.Packet(c))
    requires r.start < 0 ==> x >= r.fst && c >= r.fst
    ensures x == c || SlotHolds(g, r, x) ==> SlotHolds(g, r', x)
  {
    if x == c {
      WriteHolds(r.file, FilePosition(g, r, c), g.Packet(c));
    } else if SlotHolds(g, r, x) && !SlotOf(g, r, x).inBuf {
      SlotsDisjoint(g, r, x, c);
      WriteKeeps(r.file, FilePosition(g, r, c), g.Packet(c), SlotOf(g, r, x).off, g.Packet(x));
    }
  }

  lemma SameSlots(g: Geo, r: Recv, r': Recv, x: nat)
    requires r'.fst == r.fst && r'.tail == r.tail && r'.start == r.start
    ensures SlotOf(g, r', x) == SlotOf(g, r, x)
  {
  }

  lemma BufWrite(g: Geo, r: Recv, r': Recv, c: nat, x: nat)
    requires g.Valid() && Placed(g, r) && c < g.N && x < g.N
    requires SlotOf(g, r, c).inBuf && 0 <= SlotOf(g, r, c).off
    requires r'.fst == r.fst && r'.tail == r.tail && r'.start == r.start && r'.file == r.file
    requires r'.tailBuf == WriteAt(r.tailBuf, SlotOf(g, r, c).off, g.Packet(c))
    requires r.start < 0 ==> x >= r.fst && c >= r.fst
    ensures x == c || SlotHolds(g, r, x) ==> SlotHolds(g, r', x)
  {
    var off, pc := SlotOf(g, r, c).off, g.Packet(c);
    SameSlots(g, r, r', x);
    SameSlots(g, r, r', c);
    if x == c {
      WriteHolds(r.tailBuf, off, pc);
    } else if SlotHolds(g, r, x) && SlotOf(g, r, x).inBuf {
      SlotsDisjoint(g, r, x, c);
      BufKeeps(r.tailBuf, off, pc, SlotOf(g, r, x).off, g.Packet(x), r'.tailBuf);
      assert SlotOf(g, r', x).inBuf;
    }
  }

  lemma BufKeeps(buf: seq<byte>, off: int, pc: seq<byte>, at: int, px: seq<byte>, buf': seq<byte>)
    requires 0 <= off && Holds(buf, at, px) && buf' == WriteAt(buf, off, pc)
    requires at + |px| <= off || off + |pc| <= at
    ensures Holds(buf', at, px)
  {
    WriteKeeps(buf, off, pc, at, px);
  }

  /** Appending the tail buffer keeps what the file holds. */
  lemma FinishKeeps(g: Geo, r: Recv, x: nat)
    requires g.Valid() && x < g.N && SlotHolds(g, r, x)
    ensures SlotHolds(g, Finish(r), x) && Finish(r).pos == |Finish(r).file|
  {
    var off, p := SlotOf(g, r, x).off, g.Packet(x);
    if !SlotOf(g, r, x).inBuf {
      assert (r.file + r.tailBuf)[off..off + |p|] == r.file[off..off + |p|];
    }
  }

  // ---- reading the rotated file back

  // The order documented at hero.h:104: [start, jump), [0, start), [jump, end).
  function ReadOrder(file: seq<byte>, start: int, jump: int): seq<byte>
    requires 0 <= start <= jump <= |file|
  {
    file[start..jump] + file[..start] + file[jump..]
  }

  ghost predicate Delivered(g: Geo, r: Recv) {
    0 <= r.start <= r.jump <= |r.file| == g.D() && ReadOrder(r.file, r.start, r.jump) == g.data
  }

  // Packet `i` is stored as far into `f` as into the data, up to a shift.
  ghost predicate PacketAt(g: Geo, f: seq<byte>, base: int, i: nat)
    requires g.Valid() && i < g.N
  {
    Holds(f, base + g.Off(i), g.Packet(i))
  }

  lemma PacketAtSlice(g: Geo, f: seq<byte>, base: int, i: nat)
    requires g.Valid() && i < g.N && PacketAt(g, f, base, i)
    ensures 0 <= base + g.End(i) <= base + g.End(i + 1) <= |f|
    ensures 0 <= g.End(i) <= g.End(i + 1) <= g.D()
    ensures f[base + g.End(i)..base + g.End(i + 1)] == g.data[g.End(i)..g.End(i + 1)]
  {
    g.EndStep(i);
  }

  // Consecutive packets stored one after the other spell out the data they cut.
  lemma {:induction false} Assemble(g: Geo, f: seq<byte>, base: int, lo: nat, hi: nat)
    requires g.Valid() && lo <= hi <= g.N && 0 <= base + g.End(lo) <= |f|
    requires forall i :: lo <= i < hi ==> PacketAt(g, f, base, i)
    ensures g.End(lo) <= g.End(hi) <= g.D() && base + g.End(hi) <= |f|
    ensures f[base + g.End(lo)..base + g.End(hi)] == g.data[g.End(lo)..g.End(hi)]
    decreases hi
  {
    g.EndMonotone(lo, hi);
    if lo < hi {
      Assemble(g, f, base, lo, hi - 1);
      PacketAtSlice(g, f, base, hi - 1);
      SliceJoin(f, base + g.End(lo), base + g.End(hi - 1), base + g.End(hi),
                g.data, g.End(lo), g.End(hi - 1), g.End(hi));
    }
  }

  lemma SliceJoin(f: seq<byte>, a: int, m: int, b: int, d: seq<byte>, a': int, m': int, b': int)
    requires 0 <= a <= m <= b <= |f| && 0 <= a' <= m' <= b' <= |d|
    requires f[a..m] == d[a'..m'] && f[m..b] == d[m'..b']
    ensures f[a..b] == d[a'..b']
  {
    assert f[a..b] == f[a..m] + f[m..b];
    assert d[a'..b'] == d[a'..m'] + d[m'..b'];
  }

  /** Once every packet is at its place, the read order spells the source bytes. */
  lemma Reassemble(g: Geo, r: Recv)
    requires g.Valid() && Placed(g, r) && r.isZero && |r.tailBuf| == g.D() - BodyEnd(g, r.tail)
    requires |r.file| <= BodyEnd(g, r.tail)
    requires forall x :: 0 <= x < g.N ==> SlotHolds(g, r, x)
    ensures Delivered(g, Finish(r))
  {
    var F, T := r.fst, if r.tail > 0 then r.tail + 1 else g.N;
    var body, f := r.file, r.file + r.tailBuf;
    StartNonNegative(g, F, r.tail);
    assert BodyEnd(g, r.tail) == g.End(T);
    g.EndMonotone(F, T);
    BodyAssembles(g, r, T);
    assert |body| == g.End(T);
    TailAssembles(g, r, T);
    Stitch(g.data, f, r.start, |body|, g.End(F));
  }

  lemma BodyAssembles(g: Geo, r: Recv, T: nat)
    requires g.Valid() && Placed(g, r) && r.isZero && T == (if r.tail > 0 then r.tail + 1 else g.N)
    requires forall x :: 0 <= x < g.N ==> SlotHolds(g, r, x)
    ensures var F := r.fst;
      && 0 <= g.End(T) - g.End(F) <= |r.file| && g.End(F) <= g.End(T) <= g.D()
      && r.file[..g.End(T) - g.End(F)] == g.data[g.End(F)..g.End(T)]
      && (F > 0 ==> g.End(T) <= |r.file| && r.file[r.start..g.End(T)] == g.data[..g.End(F)])
  {
    var F := r.fst;
    var base := 0 - g.Off(F);
    forall i | F <= i < T ensures PacketAt(g, r.file, base, i) { assert SlotHolds(g, r, i); }
    g.EndMonotone(F, T);
    Assemble(g, r.file, base, F, T);
    if F > 0 {
      forall i | 0 <= i < F ensures PacketAt(g, r.file, r.start, i) { assert SlotHolds(g, r, i); }
      Assemble(g, r.file, r.start, 0, F);
    }
  }

  lemma TailAssembles(g: Geo, r: Recv, T: nat)
    requires g.Valid() && Placed(g, r) && T == (if r.tail > 0 then r.tail + 1 else g.N)
    requires |r.tailBuf| == g.D() - g.End(T)
    requires forall x :: 0 <= x < g.N ==> SlotHolds(g, r, x)
    ensures g.End(T) <= g.D() && r.tailBuf == g.data[g.End(T)..]
  {
    g.EndMonotone(T, g.N);
    if T < g.N {
      var base := 0 - g.Off(T);
      forall i | T <= i < g.N ensures PacketAt(g, r.tailBuf, base, i) { assert SlotHolds(g, r, i); }
      Assemble(g, r.tailBuf, base, T, g.N);
      assert r.tailBuf[0..|r.tailBuf|] == r.tailBuf;
    }
  }

  lemma Stitch(data: seq<byte>, f: seq<byte>, start: int, jump: int, cut: int)
    requires 0 <= start <= jump <= |f| == |data| && (cut == jump - start || (cut == 0 == start))
    requires 0 <= cut <= jump
    requires f[jump..] == data[jump..]
    requires if cut == 0 == start then f[..jump] == data[..jump]
             else f[start..jump] == data[..cut] && f[..start] == data[cut..jump]
    ensures ReadOrder(f, start, jump) == data
  {
    if cut == 0 == start {
      assert f[start..jump] == f[..jump];
      assert data == data[..jump] + data[jump..];
    } else {
      assert data == data[..cut] + data[cut..jump] + data[jump..];
    }
  }
}
