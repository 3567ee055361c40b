/** A file as its bytes: `fwrite` at a cursor, where a cursor past the end leaves a hole of zeros. */
module ByteFile {
  import opened Basics

  // The first `n` bytes, or all of them and a hole.
  function Upto(f: seq<byte>, n: nat): (p: seq<byte>)
    ensures |p| == n
  {
    if n <= |f| then f[..n] else f + Zeros(n - |f|)
  }

  function WriteAt(f: seq<byte>, pos: int, b: seq<byte>): (f': seq<byte>)
    requires 0 <= pos
    ensures |f'| == (if b == [] then |f| else Max(|f|, pos + |b|))
  {
    if b == [] then f
    else Upto(f, pos) + b + if pos + |b| < |f| then f[pos + |b|..] else []
  }

  // `b` is stored in `f` at offset `pos`.
  ghost predicate Holds(f: seq<byte>, pos: int, b: seq<byte>) {
    0 <= pos && pos + |b| <= |f| && f[pos..pos + |b|] == b
  }

  lemma WriteHolds(f: seq<byte>, pos: int, b: seq<byte>)
    requires 0 <= pos && b != []
    ensures Holds(WriteAt(f, pos, b), pos, b)
  {
  }

  /** A cursor past the end leaves a hole of zeros. */
  lemma WriteLeavesHole(f: seq<byte>, pos: int, b: seq<byte>, i: nat)
    requires |f| <= i < pos && b != []
    ensures WriteAt(f, pos, b)[i] == 0
  {
  }

  /** A write leaves every range it does not overlap as it was. */
  lemma WriteKeeps(f: seq<byte>, pos: int, b: seq<byte>, at: int, c: seq<byte>)
    requires 0 <= pos && Holds(f, at, c)
    requires at + |c| <= pos || pos + |b| <= at
    ensures Holds(WriteAt(f, pos, b), at, c)
  {
    var f' := WriteAt(f, pos, b);
    forall i | at <= i < at + |c| ensures f'[i] == f[i] {}
    assert f'[at..at + |c|] == f[at..at + |c|];
  }
}
