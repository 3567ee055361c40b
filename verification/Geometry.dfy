/** How a byte string of `D` bytes is cut into `N` packets of `P` bytes, the last one shorter. */
module Geometry {
  import opened Basics

  // global.h:123 and hero.h:56
  const SEQNUM_MAX: nat := 0x7FFF_FFFF - 100
  const SEQ2WARDTHEEND: nat := SEQNUM_MAX

  // A half-open range of lost sequence numbers (msg.h:117-121).
  datatype Tuple = Tuple(stt: nat, end: nat)

  /** The transfer both ends agree on: the bytes sent, the payload size and the number of packets. */
  datatype Geo = Geo(data: seq<byte>, P: nat, N: nat) {

    ghost predicate Valid() {
      && 0 < P < 0x1_0000
      && 0 < N < SEQNUM_MAX
      && Off(N - 1) < |data| <= Off(N) < 0x8000_0000
    }

    function D(): nat { |data| }

    // Offset of packet `i` in the data: `i * P`, kept as a sum so that offsets stay linear in proofs.
    function Off(i: nat): nat { if i == 0 then 0 else Off(i - 1) + P }

    // First byte after the first `i` packets.
    function End(i: nat): nat { if i < N then Off(i) else |data| }

    function Len(i: nat): nat
      requires i < N && Valid()
    {
      if i + 1 == N then |data| - Off(N - 1) else P
    }

    function Packet(i: nat): (p: seq<byte>)
      requires i < N && Valid()
      ensures |p| == Len(i) && 0 < |p| <= P
    {
      EndStep(i);
      data[Off(i)..End(i + 1)]
    }

    lemma EndStep(i: nat)
      requires i < N && Valid()
      ensures End(i + 1) == Off(i) + Len(i) <= |data|
      ensures 0 < Len(i) <= P
    {
      if i + 1 < N { OffMonotone(i + 1, N - 1); }
    }

    lemma EndMonotone(i: nat, j: nat)
      requires i <= j <= N && Valid()
      ensures End(i) <= End(j) <= |data|
    {
      OffMonotone(i, j);
      if j < N { OffMonotone(j, N - 1); } else if i < N { OffMonotone(i, N - 1); }
    }

    // Packets `i < j` do not overlap.
    lemma PacketsApart(i: nat, j: nat)
      requires i < j <= N && Valid()
      ensures Off(i) + Len(i) <= End(j)
    {
      EndStep(i);
      EndMonotone(i + 1, j);
    }

    lemma {:induction false} OffMonotone(i: nat, j: nat)
      requires i <= j
      ensures Off(i) <= Off(j)
      decreases j
    {
      if i < j { OffMonotone(i, j - 1); }
    }

    lemma {:induction false} OffIsProduct(i: nat)
      ensures Off(i) == i * P
    {
      if i > 0 { OffIsProduct(i - 1); }
    }

    lemma OffDifference(i: nat, j: nat)
      requires j <= i
      ensures Off(i) - Off(j) == (i - j) * P
    {
      OffIsProduct(i);
      OffIsProduct(j);
    }
  }

  // multicast sender, hero.c:866-873
  function SenderSeqMax(size: nat, payload: nat): nat
    requires payload > 0
  {
    if size % payload == 0 then size / payload else size / payload + 1
  }

  function SenderPayloadMin(size: nat, payload: nat): nat
    requires payload > 0
  {
    if size % payload == 0 then payload else size % payload
  }

  // receiver, hero.c:140-145: the count is the ceiling of a quotient of doubles
  function Ceil(x: real): int { -((-x).Floor) }

  function Quotient(size: nat, payload: nat): real
    requires payload > 0
  {
    (1.0 * size as real) / (1.0 * payload as real)
  }

  lemma DivBounds(q: nat, r: nat, payload: nat, size: nat, N: nat)
    requires payload > 0 && r < payload && size == q * payload + r
    requires 0 < N && (N - 1) * payload < size <= N * payload
    ensures N == (if r == 0 then q else q + 1)
  {
  }

  lemma SenderGeometry(g: Geo)
    requires g.Valid()
    ensures SenderSeqMax(|g.data|, g.P) == g.N && SenderPayloadMin(|g.data|, g.P) == g.Len(g.N - 1)
  {
    g.OffIsProduct(g.N);
    g.OffIsProduct(g.N - 1);
    QuotientAgrees(|g.data|, g.P, g.N);
  }

  const TWO_TO_53: real := 9007199254740992.0

  // `y` may be the double nearest to `x`: exact for a whole number, else off by at most one part in 2^53.
  ghost predicate DoubleOf(x: real, y: real) {
    && (x == x.Floor as real ==> y == x)
    && x - x / TWO_TO_53 <= y <= x + x / TWO_TO_53
  }

  /** Division on the sender and the ceiling of a double on the receiver give the same packet count and last
      length: rounding never carries the quotient past a whole number. */
  lemma BothEndsAgree(g: Geo, quotient: real)
    requires g.Valid() && DoubleOf(Quotient(|g.data|, g.P), quotient)
    ensures SenderSeqMax(|g.data|, g.P) == g.N == Ceil(quotient)
    ensures SenderPayloadMin(|g.data|, g.P) == g.Len(g.N - 1)
  {
    SenderGeometry(g);
    g.OffIsProduct(g.N);
    g.OffIsProduct(g.N - 1);
    RoundedCeil(|g.data|, g.P, g.N, quotient);
  }

  lemma RoundedCeil(size: nat, payload: nat, N: nat, y: real)
    requires 0 < payload < 0x1_0000 && size < 0x8000_0000
    requires 0 < N && (N - 1) * payload < size <= N * payload
    requires DoubleOf(Quotient(size, payload), y)
    ensures Ceil(y) == N
  {
    var x := Quotient(size, payload);
    if size == N * payload {
      QuotientOf(N, 0, payload);
      assert x == N as real;
      FloorOfInt(N);
    } else {
      Grain(size, payload);
      QuotientAtLeast(size, N - 1, payload);
      QuotientAtMost(size, N, payload);
      assert x - x / TWO_TO_53 <= y <= x + x / TWO_TO_53;
    }
    FloorIs(y, N);
  }

  lemma QuotientOf(n: nat, r: int, payload: nat)
    requires payload > 0
    ensures (n * payload + r) as real / payload as real == n as real + r as real / payload as real
  {
    assert (n * payload + r) as real == n as real * payload as real + r as real;
  }

  lemma QuotientAtLeast(size: nat, n: nat, payload: nat)
    requires payload > 0 && n * payload < size
    ensures Quotient(size, payload) >= n as real + 1.0 / payload as real
  {
    QuotientOf(n, 1, payload);
    DivMonotone((n * payload + 1) as real, size as real, payload as real);
  }

  lemma QuotientAtMost(size: nat, n: nat, payload: nat)
    requires payload > 0 && size < n * payload
    ensures Quotient(size, payload) <= n as real - 1.0 / payload as real
  {
    QuotientOf(n, -1, payload);
    DivMonotone(size as real, (n * payload - 1) as real, payload as real);
    assert -1 as real / payload as real == -(1.0 / payload as real);
  }

  lemma DivMonotone(x: real, y: real, p: real)
    requires 0.0 < p && x <= y
    ensures x / p <= y / p
  {
  }

  // The rounding error of the quotient is less than the distance of a fraction from the next whole number.
  lemma Grain(size: nat, payload: nat)
    requires 0 < payload < 0x1_0000 && size < 0x8000_0000
    ensures Quotient(size, payload) / TWO_TO_53 < 1.0 / payload as real
  {
    var p: real := payload as real;
    DivMonotone(1.0 * p, 65536.0, p * 65536.0);
    assert (1.0 * p) / (p * 65536.0) == 1.0 / 65536.0;
    assert 65536.0 / (p * 65536.0) == 1.0 / p;
    QuotientSmall(size as real, p);
  }

  lemma QuotientSmall(x: real, p: real)
    requires 0.0 <= x && 1.0 <= p
    ensures x / p <= x
  {
  }

  lemma FloorOfInt(n: int)
    ensures (n as real).Floor == n
  {
  }

  lemma QuotientAgrees(size: nat, payload: nat, N: nat)
    requires payload > 0 && 0 < N && (N - 1) * payload < size <= N * payload
    ensures SenderSeqMax(size, payload) == N
    ensures SenderPayloadMin(size, payload) == size - (N - 1) * payload
  {
    var q, r := size / payload, size % payload;
    assert size == q * payload + r;
    DivBounds(q, r, payload, size, N);
    assert (q - 1) * payload == q * payload - payload;
  }

  lemma FloorIs(x: real, n: int)
    requires (n - 1) as real < x <= n as real
    ensures Ceil(x) == n
  {
  }

  /** Every non-empty byte string has a geometry, for each payload size, under the 32-bit bounds. */
  lemma GeometryExists(data: seq<byte>, P: nat, N: nat)
    requires |data| > 0 && 0 < P < 0x1_0000 && N == SenderSeqMax(|data|, P)
    requires N < SEQNUM_MAX && N * P < 0x8000_0000
    ensures Geo(data, P, N).Valid()
  {
    QuotientBounds(|data|, P, N);
    Geo(data, P, N).OffIsProduct(N - 1);
    Geo(data, P, N).OffIsProduct(N);
  }

  lemma QuotientBounds(size: nat, payload: nat, N: nat)
    requires 0 < size && 0 < payload && N == SenderSeqMax(size, payload)
    ensures 0 < N && (N - 1) * payload < size <= N * payload
  {
    var q, r := size / payload, size % payload;
    assert size == q * payload + r;
    assert (q - 1) * payload == q * payload - payload;
    assert (q + 1) * payload == q * payload + payload;
  }
}
