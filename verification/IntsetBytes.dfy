/** Integers of two, four and eight bytes in a byte buffer, and what writes and moves do to them. */
module IntsetBytes {
  import opened Sequences

  /** Two's complement, least significant byte first. */
  function Encode(v: int, n: nat): (b: seq<byte>)
    ensures |b| == n
    decreases n
  {
    if n == 0 then [] else [v % 256] + Encode(v / 256, n - 1)
  }

  /** Two, four and eight bytes, least significant first. */
  lemma LittleEndian(v: int)
    ensures Encode(v, 2) == [v % 256, v / 256 % 256]
    ensures Encode(v, 4) == [v % 256, v / 256 % 256, v / 0x1_0000 % 256, v / 0x100_0000 % 256]
    ensures Encode(v, 8) == Encode(v, 4) + Encode(v / 0x1_0000_0000, 4)
  {
    var v1 := v / 256;
    var v2 := v1 / 256;
    var v3 := v2 / 256;
    assert v2 == v / 0x1_0000 && v3 == v / 0x100_0000 && v3 / 256 == v / 0x1_0000_0000;
    assert Encode(v, 4) == [v % 256] + Encode(v1, 3);
    assert Encode(v, 8) == [v % 256] + ([v1 % 256] + ([v2 % 256] + ([v3 % 256] + Encode(v3 / 256, 4))));
  }

  function Decode(b: seq<byte>): int
    requires b != []
  {
    if |b| == 1 then (if b[0] < 128 then b[0] else b[0] - 256) else b[0] + 256 * Decode(b[1..])
  }

  /** Numbers of n bytes lie between -Half(n) and Half(n) - 1. */
  function Half(n: nat): nat
    requires n > 0
  {
    if n == 1 then 128 else 256 * Half(n - 1)
  }

  predicate Fits(v: int, n: nat)
    requires n > 0
  {
    -(Half(n) as int) <= v < Half(n)
  }

  lemma {:induction false} DecodeEncode(v: int, n: nat)
    requires n > 0 && Fits(v, n)
    ensures Decode(Encode(v, n)) == v
    decreases n
  {
    if n == 1 {
      assert Encode(v / 256, 0) == [];
    } else {
      assert Encode(v, n)[1..] == Encode(v / 256, n - 1);
      DecodeEncode(v / 256, n - 1);
    }
  }

  lemma {:induction false} DecodeFits(b: seq<byte>)
    requires b != []
    ensures Fits(Decode(b), |b|)
    decreases |b|
  {
    if |b| > 1 {
      DecodeFits(b[1..]);
    }
  }

  const INT16: nat := 2
  const INT32: nat := 4
  const INT64: nat := 8

  predicate IsEncoding(e: nat) {
    e == INT16 || e == INT32 || e == INT64
  }

  const INT16_MAX: int := 0x7FFF
  const INT32_MAX: int := 0x7FFF_FFFF
  const INT64_MAX: int := 0x7FFF_FFFF_FFFF_FFFF

  predicate Int64(v: int) {
    -INT64_MAX - 1 <= v <= INT64_MAX
  }

  /** _intsetValueEncoding. */
  function ValueEncoding(v: int): nat {
    if v < -INT32_MAX - 1 || v > INT32_MAX then INT64
    else if v < -INT16_MAX - 1 || v > INT16_MAX then INT32
    else INT16
  }

  lemma Halves()
    ensures Half(2) == 0x8000 && Half(4) == 0x8000_0000 && Half(8) == 0x8000_0000_0000_0000
  {
    assert Half(1) == 128;
    assert Half(3) == 256 * Half(2);
    assert Half(4) == 256 * Half(3);
    assert Half(5) == 256 * Half(4);
    assert Half(6) == 256 * Half(5);
    assert Half(7) == 256 * Half(6);
  }

  /** The encoding of a value is the smallest it fits. */
  lemma ValueEncodingLeast(v: int, e: nat)
    requires Int64(v) && IsEncoding(e)
    ensures Fits(v, e) <==> ValueEncoding(v) <= e
  {
    Halves();
  }

  /** The widths hold the signed integers of 16, 32 and 64 bits. */
  lemma FitsRange(v: int)
    ensures Fits(v, 2) <==> -0x8000 <= v <= 0x7fff
    ensures Fits(v, 4) <==> -0x8000_0000 <= v <= 0x7fff_ffff
    ensures Fits(v, 8) <==> -0x8000_0000_0000_0000 <= v <= 0x7fff_ffff_ffff_ffff
    ensures INT16 == 2 && INT32 == 4 && INT64 == 8
  {
    Halves();
  }

  // ---- elements in a buffer

  function Elem(c: seq<byte>, e: nat, i: nat): int
    requires e > 0 && i * e + e <= |c|
  {
    Decode(c[i * e..i * e + e])
  }

  lemma Within(i: nat, n: nat, e: nat)
    requires i < n
    ensures i * e + e <= n * e && 0 <= i * e
  {
    assert (i + 1) * e <= n * e;
    assert (i + 1) * e == i * e + e;
  }

  function Values(c: seq<byte>, e: nat, n: nat): (s: seq<int>)
    requires e > 0 && n * e <= |c|
    ensures |s| == n
  {
    seq(n, i requires 0 <= i < n => Within(i, n, e); Elem(c, e, i))
  }

  function Write(c: seq<byte>, off: nat, b: seq<byte>): (r: seq<byte>)
    requires off + |b| <= |c|
    ensures |r| == |c|
  {
    c[..off] + b + c[off + |b|..]
  }

  /** A write leaves the elements it does not overlap, of whatever width. */
  lemma ElemFrame(c: seq<byte>, off: nat, b: seq<byte>, e: nat, i: nat)
    requires off + |b| <= |c| && e > 0 && i * e + e <= |c|
    requires i * e + e <= off || off + |b| <= i * e
    ensures Elem(Write(c, off, b), e, i) == Elem(c, e, i)
  {
    assert Write(c, off, b)[i * e..i * e + e] == c[i * e..i * e + e];
  }

  lemma ElemWritten(c: seq<byte>, e: nat, i: nat, v: int)
    requires e > 0 && i * e + e <= |c| && Fits(v, e)
    ensures Elem(Write(c, i * e, Encode(v, e)), e, i) == v
  {
    assert Write(c, i * e, Encode(v, e))[i * e..i * e + e] == Encode(v, e);
    DecodeEncode(v, e);
  }

  lemma Apart(i: nat, j: nat, e: nat)
    requires i < j
    ensures i * e + e <= j * e
  {
    assert (i + 1) * e <= j * e;
    assert (i + 1) * e == i * e + e;
  }

  /** One element is stored. */
  lemma ValuesStore(c: seq<byte>, e: nat, n: nat, p: nat, v: int)
    requires e > 0 && n * e <= |c| && p < n && Fits(v, e)
    ensures p * e + e <= n * e
    ensures Values(Write(c, p * e, Encode(v, e)), e, n) == Values(c, e, n)[p := v]
  {
    Within(p, n, e);
    forall i | 0 <= i < n
      ensures Values(Write(c, p * e, Encode(v, e)), e, n)[i] == Values(c, e, n)[p := v][i]
    {
      Within(i, n, e);
      if i < p {
        Apart(i, p, e);
        ElemFrame(c, p * e, Encode(v, e), e, i);
      } else if i > p {
        Apart(p, i, e);
        ElemFrame(c, p * e, Encode(v, e), e, i);
      } else {
        ElemWritten(c, e, p, v);
      }
    }
  }

  lemma Spread(a: nat, b: nat, e: nat)
    ensures (a + b) * e == a * e + b * e
  {
  }

  /** memmove of k elements from one place to another. */
  function Moved(c: seq<byte>, e: nat, from: nat, to: nat, k: nat): seq<byte>
    requires (from + k) * e <= |c| && (to + k) * e <= |c|
    ensures |Moved(c, e, from, to, k)| == |c|
  {
    Spread(from, k, e);
    Spread(to, k, e);
    Write(c, to * e, c[from * e..(from + k) * e])
  }

  lemma SliceOfSlice(c: seq<byte>, off: nat, len: nat, x: nat, e: nat)
    requires off + len <= |c| && x + e <= len
    ensures c[off + x..off + x + e] == c[off..off + len][x..x + e]
  {
    var a, b := c[off + x..off + x + e], c[off..off + len][x..x + e];
    assert |a| == |b|;
    forall k | 0 <= k < e
      ensures a[k] == b[k]
    {
      assert a[k] == c[off + x + k];
      assert b[k] == c[off..off + len][x + k];
    }
  }

  /** A slice inside what was written is the slice of what was written. */
  lemma SliceWritten(c: seq<byte>, off: nat, src: nat, len: nat, x: nat, e: nat)
    requires off + len <= |c| && src + len <= |c| && x + e <= len
    ensures Write(c, off, c[src..src + len])[off + x..off + x + e] == c[src + x..src + x + e]
  {
    var b := c[src..src + len];
    var w := Write(c, off, b);
    assert w[off..off + len] == b;
    SliceOfSlice(w, off, len, x, e);
    SliceOfSlice(c, src, len, x, e);
  }

  lemma ElemMovedIn(c: seq<byte>, e: nat, from: nat, to: nat, k: nat, d: nat)
    requires e > 0 && (from + k) * e <= |c| && (to + k) * e <= |c| && d < k
    ensures (from + d) * e + e <= |c| && (to + d) * e + e <= |c|
    ensures Elem(Moved(c, e, from, to, k), e, to + d) == Elem(c, e, from + d)
  {
    Spread(from, k, e);
    Spread(to, k, e);
    Within(d, k, e);
    Spread(to, d, e);
    Spread(from, d, e);
    SliceWritten(c, to * e, from * e, k * e, d * e, e);
  }

  lemma ElemMovedOut(c: seq<byte>, e: nat, from: nat, to: nat, k: nat, i: nat)
    requires e > 0 && (from + k) * e <= |c| && (to + k) * e <= |c| && i * e + e <= |c|
    requires i < to || to + k <= i
    ensures Elem(Moved(c, e, from, to, k), e, i) == Elem(c, e, i)
  {
    Spread(from, k, e);
    Spread(to, k, e);
    if i < to {
      Apart(i, to, e);
    } else if i > to + k {
      Apart(to + k, i, e);
    }
    ElemFrame(c, to * e, c[from * e..(from + k) * e], e, i);
  }

  lemma InsertRoom(e: nat, n: nat, p: nat, size: nat)
    requires (n + 1) * e <= size && p <= n
    ensures n * e <= size && p * e + e <= size && (p + 1 + (n - p)) * e <= size && (p + (n - p)) * e <= size
  {
    Spread(n, 1, e);
    Within(p, n + 1, e);
  }

  lemma ValuesShifted(c: seq<byte>, e: nat, n: nat, p: nat, i: nat)
    requires e > 0 && (n + 1) * e <= |c| && p <= n && i <= n && i != p
    ensures (p + 1 + (n - p)) * e <= |c| && (p + (n - p)) * e <= |c| && n * e <= |c|
    ensures Values(Moved(c, e, p, p + 1, n - p), e, n + 1)[i] == Values(c, e, n)[if i < p then i else i - 1]
  {
    InsertRoom(e, n, p, |c|);
    Within(i, n + 1, e);
    hide Moved, Elem;
    if i < p {
      ElemMovedOut(c, e, p, p + 1, n - p, i);
    } else {
      ElemMovedIn(c, e, p, p + 1, n - p, i - p - 1);
    }
  }

  /** Growing the buffer, moving the tail up and storing inserts. */
  lemma ValuesInsert(c: seq<byte>, e: nat, n: nat, p: nat, v: int)
    requires e > 0 && (n + 1) * e <= |c| && p <= n && Fits(v, e)
    ensures n * e <= |c| && p * e + e <= |c|
    ensures (p + 1 + (n - p)) * e <= |c| && (p + (n - p)) * e <= |c|
    ensures Values(Write(Moved(c, e, p, p + 1, n - p), p * e, Encode(v, e)), e, n + 1) == InsertAt(Values(c, e, n), p, v)
  {
    InsertRoom(e, n, p, |c|);
    hide Moved, Elem, Values, Fits, Encode, Write;
    var m := Moved(c, e, p, p + 1, n - p);
    ValuesStore(m, e, n + 1, p, v);
    var a, b := Values(m, e, n + 1)[p := v], InsertAt(Values(c, e, n), p, v);
    forall i | 0 <= i < n + 1
      ensures a[i] == b[i]
    {
      if i != p {
        ValuesShifted(c, e, n, p, i);
      }
    }
  }

  /** The grown buffer after the move and the store. */
  function Inserted(c: seq<byte>, e: nat, n: nat, p: nat, v: int): (r: seq<byte>)
    requires e > 0 && (n + 1) * e <= |c| && p <= n
    ensures |r| == |c|
  {
    InsertRoom(e, n, p, |c|);
    Write(Moved(c, e, p, p + 1, n - p), p * e, Encode(v, e))
  }

  lemma ValuesInserted(c: seq<byte>, e: nat, n: nat, p: nat, v: int)
    requires e > 0 && (n + 1) * e <= |c| && p <= n && Fits(v, e)
    ensures n * e <= |c| && Values(Inserted(c, e, n, p, v), e, n + 1) == InsertAt(Values(c, e, n), p, v)
  {
    ValuesInsert(c, e, n, p, v);
  }

  /** Moving the tail down removes. */
  lemma ValuesRemove(c: seq<byte>, e: nat, n: nat, p: nat)
    requires e > 0 && n * e <= |c| && p < n
    ensures (p + 1 + (n - p - 1)) * e <= |c| && (p + (n - p - 1)) * e <= |c| && (n - 1) * e <= |c|
    ensures Values(Moved(c, e, p + 1, p, n - p - 1), e, n - 1) == RemoveAt(Values(c, e, n), p)
  {
    Within(n - 1, n, e);
    assert p + (n - p - 1) == n - 1 && p + 1 + (n - p - 1) == n;
    var m := Moved(c, e, p + 1, p, n - p - 1);
    forall i | 0 <= i < n - 1
      ensures Values(m, e, n - 1)[i] == RemoveAt(Values(c, e, n), p)[i]
    {
      Within(i, n - 1, e);
      Within(i, n, e);
      if i < p {
        ElemMovedOut(c, e, p + 1, p, n - p - 1, i);
      } else {
        ElemMovedIn(c, e, p + 1, p, n - p - 1, i - p);
        Within(i + 1, n, e);
      }
    }
  }

  // ---- widening in place

  /** Half-way through the widening: the first k values are still narrow, the rest are wide, p places further on. */
  ghost predicate Widening(c: seq<byte>, s: seq<int>, e: nat, w: nat, p: nat, k: nat)
    requires 0 < e <= w && k <= |s| && (|s| + p) * w <= |c|
  {
    && (forall i :: 0 <= i < k ==> NarrowAt(c, e, i, s[i]))
    && (forall i :: k <= i < |s| ==> NarrowAt(c, w, i + p, s[i]))
  }

  predicate NarrowAt(c: seq<byte>, e: nat, i: nat, v: int)
    requires e > 0
  {
    i * e + e <= |c| && Elem(c, e, i) == v
  }

  lemma WiderApart(j: nat, k: nat, e: nat, w: nat, p: nat)
    requires j < k && e <= w
    ensures j * e + e <= (k + p) * w
  {
    Apart(j, k, e);
    assert k * e <= k * w;
    Spread(k, p, w);
  }

  /** From the back, a wide value never lands on a narrow one that is still unread. */
  lemma WidenStep(c: seq<byte>, s: seq<int>, e: nat, w: nat, p: nat, k: nat)
    requires 0 < e <= w && k < |s| && (|s| + p) * w <= |c| && Fits(s[k], w)
    requires Widening(c, s, e, w, p, k + 1)
    ensures (k + p) * w + w <= |c|
    ensures Widening(Write(c, (k + p) * w, Encode(s[k], w)), s, e, w, p, k)
  {
    Apart(k + p, |s| + p, w);
    var off, b := (k + p) * w, Encode(s[k], w);
    var c1 := Write(c, off, b);
    forall i | 0 <= i < k
      ensures NarrowAt(c1, e, i, s[i])
    {
      assert NarrowAt(c, e, i, s[i]);
      WiderApart(i, k, e, w, p);
      ElemFrame(c, off, b, e, i);
    }
    forall i | k <= i < |s|
      ensures NarrowAt(c1, w, i + p, s[i])
    {
      Apart(i + p, |s| + p, w);
      if i == k {
        ElemWritten(c, w, k + p, s[k]);
      } else {
        assert NarrowAt(c, w, i + p, s[i]);
        Apart(k + p, i + p, w);
        ElemFrame(c, off, b, w, i + p);
      }
    }
  }
}
