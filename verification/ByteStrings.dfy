/// Byte strings, little-endian numbers, and strings joined from parts.
module ByteStrings {
  import opened Naturals

  type Byte = x: nat | x < 256

  type Bytes = seq<Byte>

  const U32: nat := 0x1_0000_0000
  const U64: nat := 0x1_0000_0000_0000_0000

  function LittleEndian(v: nat, n: nat): (b: Bytes)
    ensures |b| == n
  {
    if n == 0 then [] else [(v % 256) as Byte] + LittleEndian(v / 256, n - 1)
  }

  function Number(b: Bytes): nat {
    if b == [] then 0 else b[0] + 256 * Number(b[1..])
  }

  function Pow256(n: nat): nat {
    if n == 0 then 1 else 256 * Pow256(n - 1)
  }

  lemma Widths()
    ensures Pow256(1) == 256 && Pow256(2) == 65536 && Pow256(4) == U32 && Pow256(8) == U64
    ensures Pow256(3) == 0x100_0000 && Pow256(7) == 0x100_0000_0000_0000
  {
    assert Pow256(4) == U32;
    assert Pow256(8) == 256 * Pow256(7) && Pow256(7) == 256 * Pow256(6) && Pow256(6) == 256 * Pow256(5);
  }

  lemma {:induction false} NumberOfLittleEndian(v: nat, n: nat)
    requires v < Pow256(n)
    ensures Number(LittleEndian(v, n)) == v
  {
    if n > 0 {
      NumberOfLittleEndian(v / 256, n - 1);
      assert LittleEndian(v, n)[1..] == LittleEndian(v / 256, n - 1);
    }
  }

  function Zeros(n: nat): (b: Bytes)
    ensures |b| == n && forall i :: 0 <= i < n ==> b[i] == 0
  {
    seq(n, _ => 0)
  }

  // -- Joining and cutting -------------------------------------------------------------------

  function Join(parts: seq<Bytes>): Bytes {
    if parts == [] then [] else Join(parts[..|parts| - 1]) + parts[|parts| - 1]
  }

  /// Where part i starts in the joined string.
  function Start(parts: seq<Bytes>, i: nat): nat
    requires i <= |parts|
  {
    if i == 0 then 0 else Start(parts, i - 1) + |parts[i - 1]|
  }

  lemma {:induction false} StartOfPrefix(parts: seq<Bytes>, more: seq<Bytes>, i: nat)
    requires i <= |parts| && parts <= more
    ensures Start(parts, i) == Start(more, i)
  {
    if i > 0 { StartOfPrefix(parts, more, i - 1); }
  }

  lemma {:induction false} JoinPart(parts: seq<Bytes>, i: nat)
    requires i < |parts|
    ensures Start(parts, i) + |parts[i]| <= |Join(parts)| == Start(parts, |parts|)
    ensures Join(parts)[Start(parts, i)..Start(parts, i) + |parts[i]|] == parts[i]
    decreases |parts|
  {
    var front, last := parts[..|parts| - 1], parts[|parts| - 1];
    JoinLength(parts);
    JoinLength(front);
    StartOfPrefix(front, parts, |front|);
    if i < |front| {
      JoinPart(front, i);
      StartOfPrefix(front, parts, i);
    }
  }

  lemma {:induction false} JoinLength(parts: seq<Bytes>)
    ensures |Join(parts)| == Start(parts, |parts|)
  {
    if parts != [] {
      JoinLength(parts[..|parts| - 1]);
      StartOfPrefix(parts[..|parts| - 1], parts, |parts| - 1);
    }
  }

  lemma {:induction false} JoinConcat(a: seq<Bytes>, b: seq<Bytes>)
    ensures Join(a + b) == Join(a) + Join(b)
    decreases |b|
  {
    if b == [] {
      assert a + b == a && Join(a) + [] == Join(a);
    } else {
      var front := b[..|b| - 1];
      assert (a + b)[..|a + b| - 1] == a + front;
      JoinConcat(a, front);
      Assoc(Join(a), Join(front), b[|b| - 1]);
    }
  }

  lemma Assoc(a: Bytes, b: Bytes, c: Bytes)
    ensures (a + b) + c == a + (b + c)
  {
  }

  /// The string cut into pieces of `size` bytes, the last one possibly shorter.
  function Chunks(b: Bytes, size: nat): (c: seq<Bytes>)
    requires size > 0
    ensures forall i :: 0 <= i < |c| ==> 0 < |c[i]| <= size
  {
    if b == [] then [] else if |b| <= size then [b] else [b[..size]] + Chunks(b[size..], size)
  }

  /// Full pieces can be cut off first.
  lemma {:induction false} ChunksConcat(full: Bytes, b: Bytes, size: nat)
    requires size > 0 && |full| % size == 0
    ensures Chunks(full + b, size) == Chunks(full, size) + Chunks(b, size)
    decreases |full|
  {
    if full == [] {
      assert full + b == b;
    } else {
      assert |full| >= size;
      var rest := full[size..];
      assert |rest| % size == 0 by { Remove(|full|, size); }
      ChunksConcat(rest, b, size);
      assert (full + b)[..size] == full[..size] && (full + b)[size..] == rest + b;
      if |full| == size {
        assert rest == [] && full[..size] == full && rest + b == b;
        if b == [] { assert full + b == full; }
      } else {
        assert |full + b| > size;
      }
    }
  }

  lemma Remove(n: nat, size: nat)
    requires size > 0 && n >= size && n % size == 0
    ensures (n - size) % size == 0
  {
    var q := n / size;
    assert n - size == (q - 1) * size;
    DivisionIsUnique(n - size, size, q - 1, 0);
  }

  lemma {:induction false} JoinChunks(b: Bytes, size: nat)
    requires size > 0
    ensures Join(Chunks(b, size)) == b
    decreases |b|
  {
    if b != [] {
      if |b| <= size {
        assert Join([b]) == [] + b;
      } else {
        JoinChunks(b[size..], size);
        JoinConcat([b[..size]], Chunks(b[size..], size));
        assert Join([b[..size]]) == [] + b[..size];
        assert b == b[..size] + b[size..];
      }
    }
  }

  /// The length of piece k of n bytes.
  function PieceLength(n: nat, size: nat, k: nat): int {
    if size < n - k * size then size else n - k * size
  }

  lemma {:induction false} ChunkAt(b: Bytes, size: nat, k: nat)
    requires size > 0 && k < |Chunks(b, size)|
    ensures k * size < |b| && 0 < PieceLength(|b|, size, k) && k * size + PieceLength(|b|, size, k) <= |b|
    ensures Chunks(b, size)[k] == b[k * size..k * size + PieceLength(|b|, size, k)]
    decreases k
  {
    if k > 0 {
      var rest := b[size..];
      ChunkAt(rest, size, k - 1);
      assert k * size == (k - 1) * size + size;
      assert Chunks(b, size)[k] == Chunks(rest, size)[k - 1];
      assert rest[(k - 1) * size..(k - 1) * size + PieceLength(|rest|, size, k - 1)]
          == b[k * size..k * size + PieceLength(|b|, size, k)];
    }
  }

  /// How many pieces n bytes make.
  function Pieces(n: nat, size: nat): nat
    requires size > 0
  {
    n / size + if n % size != 0 then 1 else 0
  }

  lemma {:induction false} ChunkCount(b: Bytes, size: nat)
    requires size > 0
    ensures |Chunks(b, size)| == Pieces(|b|, size)
    decreases |b|
  {
    FewPieces(|b|, size);
    if |b| > size { ChunkCount(b[size..], size); }
  }

  lemma FewPieces(n: nat, size: nat)
    requires size > 0
    ensures n == 0 ==> Pieces(n, size) == 0
    ensures 0 < n <= size ==> Pieces(n, size) == 1
    ensures n > size ==> Pieces(n, size) == Pieces(n - size, size) + 1
  {
    if n == 0 { DivisionIsUnique(0, size, 0, 0); }
    else if n < size { DivisionIsUnique(n, size, 0, n); }
    else if n == size { DivisionIsUnique(n, size, 1, 0); }
    else {
      var q, r := (n - size) / size, (n - size) % size;
      assert n == (q + 1) * size + r;
      DivisionIsUnique(n, size, q + 1, r);
    }
  }
}
