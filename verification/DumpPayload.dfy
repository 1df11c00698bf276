/** The payload of DUMP: an object's bytes, the format version and a checksum of both, least significant bytes
    first. */
module DumpPayload {
  import opened Sequences
  import opened CrcTable
  import opened Checksum

  const REDIS_RDB_VERSION: bv16 := 6

  function WordBytes(w: Word): (b: Bytes)
    ensures |b| == 8
  {
    [w.b0, w.b1, w.b2, w.b3, w.b4, w.b5, w.b6, w.b7]
  }

  function Versioned(content: Bytes): Bytes {
    content + [(REDIS_RDB_VERSION & 0xff) as bv8, ((REDIS_RDB_VERSION >> 8) & 0xff) as bv8]
  }

  /** createDumpPayload, given what rdbSaveObjectType and rdbSaveObject write. */
  method CreateDumpPayload(content: Bytes) returns (payload: Bytes)
    ensures payload == Versioned(content) + WordBytes(Crc(ZERO, Versioned(content)))
    ensures |payload| == |content| + 10 && payload[..|content|] == content
    ensures payload[|content|] == 6 && payload[|content| + 1] == 0
    ensures Footer(payload, Crc(ZERO, content + [6, 0]))
  {
    VersionBytes();
    hide Crc;
    payload := content;
    var b0, b1 := (REDIS_RDB_VERSION & 0xff) as bv8, ((REDIS_RDB_VERSION >> 8) & 0xff) as bv8;
    payload := payload + [b0, b1];
    var crc := Crc64(ZERO, payload);
    payload := payload + WordBytes(crc);
  }

  /** The last eight bytes are the word, least significant byte first. */
  predicate Footer(p: Bytes, w: Word)
    requires |p| >= 8
  {
    var n := |p| - 8;
    && p[n] == w.b0 && p[n + 1] == w.b1 && p[n + 2] == w.b2 && p[n + 3] == w.b3
    && p[n + 4] == w.b4 && p[n + 5] == w.b5 && p[n + 6] == w.b6 && p[n + 7] == w.b7
  }

  /** The payloads verifyDumpPayload lets through. */
  predicate Accepted(p: Bytes) {
    |p| >= 10 &&
    ((p[|p| - 9] as bv16 << 8) | p[|p| - 10] as bv16) == REDIS_RDB_VERSION &&
    WordBytes(Crc(ZERO, p[..|p| - 8])) == p[|p| - 8..]
  }

  method VerifyDumpPayload(p: Bytes) returns (ok: bool)
    ensures ok == Accepted(p)
    ensures ok <==> |p| >= 10 && p[|p| - 10] == 6 && p[|p| - 9] == 0 && Footer(p, Crc(ZERO, p[..|p| - 8]))
  {
    AcceptedIff(p);
    hide Crc, Footer, WordBytes;
    var len := |p|;
    if len < 10 {
      return false;
    }
    var footer := len - 10;
    var rdbver := (p[footer + 1] as bv16 << 8) | p[footer] as bv16;
    if rdbver != REDIS_RDB_VERSION {
      return false;
    }
    var crc := Crc64(ZERO, p[..len - 8]);
    ok := WordBytes(crc) == p[footer + 2..];
  }

  lemma VersionIs(b0: bv8, b1: bv8)
    ensures ((b1 as bv16 << 8) | b0 as bv16) == REDIS_RDB_VERSION <==> b0 == 6 && b1 == 0
  {
  }

  lemma FooterIs(p: Bytes, w: Word)
    requires |p| >= 8
    ensures WordBytes(w) == p[|p| - 8..] <==> Footer(p, w)
  {
    var b, f := WordBytes(w), p[|p| - 8..];
    assert Footer(p, w) <==> forall i :: 0 <= i < 8 ==> b[i] == f[i];
  }

  /** Accepted are payloads of at least ten bytes with version 6 and the checksum of what precedes it. */
  lemma AcceptedIff(p: Bytes)
    ensures Accepted(p) <==>
      |p| >= 10 && p[|p| - 10] == 6 && p[|p| - 9] == 0 && Footer(p, Crc(ZERO, p[..|p| - 8]))
  {
    if |p| >= 10 {
      VersionIs(p[|p| - 10], p[|p| - 9]);
      FooterIs(p, Crc(ZERO, p[..|p| - 8]));
    }
  }

  /** A payload of another version is refused, whatever its checksum. */
  lemma OtherVersionRefused(content: Bytes, b0: bv8, b1: bv8, footer: Bytes)
    requires |footer| == 8 && !(b0 == 6 && b1 == 0)
    ensures !Accepted(content + [b0, b1] + footer)
  {
    AcceptedIff(content + [b0, b1] + footer);
  }

  lemma VersionBytes()
    ensures var b0: bv8, b1: bv8 := (REDIS_RDB_VERSION & 0xff) as bv8, ((REDIS_RDB_VERSION >> 8) & 0xff) as bv8;
      b0 == 6 && b1 == 0 && ((b1 as bv16 << 8) | b0 as bv16) == REDIS_RDB_VERSION
  {
  }

  /** What is created is accepted. */
  lemma CreatedAccepted(content: Bytes)
    ensures Accepted(Versioned(content) + WordBytes(Crc(ZERO, Versioned(content))))
  {
    hide Crc;
    VersionBytes();
    var body := Versioned(content);
    var p := body + WordBytes(Crc(ZERO, body));
    assert p[..|p| - 8] == body && p[|p| - 8..] == WordBytes(Crc(ZERO, body));
  }

  /** The k last bytes of a word's image are its k top bytes. */
  lemma TopOfBytes(x: Word, y: Word, k: nat)
    requires k <= 8 && forall i :: 8 - k <= i < 8 ==> WordBytes(x)[i] == WordBytes(y)[i]
    ensures SameTop(x, y, k)
  {
    assert k >= 1 ==> WordBytes(x)[7] == WordBytes(y)[7];
    assert k >= 2 ==> WordBytes(x)[6] == WordBytes(y)[6];
    assert k >= 3 ==> WordBytes(x)[5] == WordBytes(y)[5];
    assert k >= 4 ==> WordBytes(x)[4] == WordBytes(y)[4];
    assert k >= 5 ==> WordBytes(x)[3] == WordBytes(y)[3];
    assert k >= 6 ==> WordBytes(x)[2] == WordBytes(y)[2];
    assert k >= 7 ==> WordBytes(x)[1] == WordBytes(y)[1];
    assert k >= 8 ==> WordBytes(x)[0] == WordBytes(y)[0];
  }

  /** p and q are equally long and differ at most in the eight bytes from off on. */
  ghost predicate DifferWithin(p: Bytes, q: Bytes, off: nat) {
    |p| == |q| && forall i :: 0 <= i < |p| && !(off <= i < off + 8) ==> p[i] == q[i]
  }

  ghost predicate Sealed(p: Bytes) {
    |p| >= 8 && WordBytes(Crc(ZERO, p[..|p| - 8])) == p[|p| - 8..]
  }

  lemma Window(a: Bytes, b: Bytes, off: nat, end: nat)
    requires DifferWithin(a, b, off) && off <= end <= |a| && end <= off + 8
    requires end == off + 8 || end == |a|
    ensures a[..off] == b[..off] && a[end..] == b[end..]
    ensures a == a[..off] + a[off..end] + a[end..] && b == b[..off] + b[off..end] + b[end..]
  {
  }

  lemma TopAll(x: Word, k: nat)
    ensures SameTop(x, x, k)
  {
  }

  lemma TopEight(x: Word, y: Word)
    requires SameTop(x, y, 8)
    ensures x == y
  {
  }

  /** Bodies that differ within eight bytes and have checksums whose top bytes agree for every one of those
      eight that lies in the body are the same. */
  lemma BodiesSame(a: Bytes, b: Bytes, off: nat)
    requires DifferWithin(a, b, off)
    requires off < |a| ==> SameTop(Crc(ZERO, a), Crc(ZERO, b), if off + 8 <= |a| then 8 else |a| - off)
    ensures a == b
  {
    if off < |a| {
      var end := if off + 8 <= |a| then off + 8 else |a|;
      var pre, x, y, post := a[..off], a[off..end], b[off..end], a[end..];
      Window(a, b, off, end);
      hide *;
      CrcConcat(ZERO, pre + x, post);
      CrcConcat(ZERO, pre + y, post);
      CrcConcat(ZERO, pre, x);
      CrcConcat(ZERO, pre, y);
      var s := Crc(ZERO, pre);
      if off + 8 <= |a| {
        TopEight(Crc(ZERO, a), Crc(ZERO, b));
        TailInjective(Crc(s, x), Crc(s, y), post);
        TopAll(Crc(s, x), 8);
      } else {
        assert pre + x + post == pre + x && pre + y + post == pre + y;
      }
      LastBytesKnown(s, x, y);
    }
  }

  /** Two sealed payloads that differ only within eight consecutive bytes, wherever those lie, are the same. */
  lemma SealedSame(p: Bytes, q: Bytes, off: nat)
    requires Sealed(p) && Sealed(q) && DifferWithin(p, q, off)
    ensures p == q
  {
    var n := |p| - 8;
    var a, b := p[..n], q[..n];
    var x, y := Crc(ZERO, a), Crc(ZERO, b);
    assert forall i :: 0 <= i < 8 ==> WordBytes(x)[i] == p[n + i] && WordBytes(y)[i] == q[n + i];
    hide Crc, WordBytes, SameTop;
    if off < n {
      var k := if off + 8 <= n then 8 else n - off;
      forall i | 8 - k <= i < 8
        ensures WordBytes(x)[i] == WordBytes(y)[i]
      {
        assert p[n + i] == q[n + i];
      }
      TopOfBytes(x, y, k);
    }
    BodiesSame(a, b, off);
    assert p == a + p[n..] && q == b + q[n..];
  }

  /** Every damage to a created payload that stays within eight consecutive bytes is found. */
  lemma DamageRejected(content: Bytes, q: Bytes, off: nat)
    requires var p := Versioned(content) + WordBytes(Crc(ZERO, Versioned(content)));
      DifferWithin(p, q, off) && q != p
    ensures !Accepted(q)
  {
    var p := Versioned(content) + WordBytes(Crc(ZERO, Versioned(content)));
    CreatedAccepted(content);
    hide Crc, WordBytes, Versioned, DifferWithin;
    if Accepted(q) {
      SealedSame(p, q, off);
    }
  }
}
