/** BITOP: words while every source has them, bytes after that. */
module Bitop {
  import opened Wrappers
  import opened Sequences

  datatype Op = OpAnd | OpOr | OpXor | OpNot

  function Apply(op: Op, a: bv8, b: bv8): bv8 {
    match op
    case OpAnd => a & b
    case OpOr => a | b
    case OpXor => a ^ b
    case OpNot => a
  }

  /** A source, zero-padded; a key that does not exist is an empty string. */
  function ByteAt(key: Option<Bytes>, j: nat): bv8 {
    if key.Some? && j < |key.value| then key.value[j] else 0
  }

  function Length(key: Option<Bytes>): nat {
    if key.Some? then |key.value| else 0
  }

  /** Byte j of the first n sources taken together. */
  function Fold(op: Op, keys: seq<Option<Bytes>>, j: nat, n: nat): bv8
    requires 1 <= n <= |keys|
    decreases n
  {
    if n == 1 then (if op == OpNot then !ByteAt(keys[0], j) else ByteAt(keys[0], j))
    else Apply(op, Fold(op, keys, j, n - 1), ByteAt(keys[n - 1], j))
  }

  function MaxLength(keys: seq<Option<Bytes>>): nat
    decreases |keys|
  {
    if keys == [] then 0 else
      var m := MaxLength(keys[..|keys| - 1]);
      var l := Length(keys[|keys| - 1]);
      if l > m then l else m
  }

  /** The lookup loop's minlen: no larger than any source, and zero if one does not exist. */
  ghost predicate IsMin(keys: seq<Option<Bytes>>, minlen: nat) {
    forall i :: 0 <= i < |keys| ==> minlen <= Length(keys[i])
  }

  method Lengths(keys: seq<Option<Bytes>>) returns (minlen: nat, maxlen: nat)
    ensures IsMin(keys, minlen) && maxlen == MaxLength(keys)
  {
    minlen, maxlen := 0, 0;
    assert keys[..0] == [];
    for j := 0 to |keys|
      invariant IsMin(keys[..j], minlen) && maxlen == MaxLength(keys[..j])
    {
      assert keys[..j + 1][..j] == keys[..j] && keys[..j + 1] == keys[..j] + [keys[j]];
      if keys[j].None? {
        minlen := 0;
      } else {
        var len := |keys[j].value|;
        if len > maxlen {
          maxlen := len;
        }
        if j == 0 || len < minlen {
          minlen := len;
        }
      }
    }
    assert keys[..|keys|] == keys;
  }

  // ---- words

  /** sizeof(unsigned long). */
  const WORD: nat := 8

  ghost predicate SameOutside(a: Bytes, b: Bytes, from: nat, to: nat) {
    |a| == |b| && forall k :: 0 <= k < |a| && !(from <= k < to) ==> a[k] == b[k]
  }

  /** An operation on an unsigned long acts on each of its bytes. */
  method OpWord(op: Op, res: array<bv8>, off: nat, src: Bytes)
    requires off + WORD <= res.Length && off + WORD <= |src|
    modifies res
    ensures SameOutside(res[..], old(res[..]), off, off + WORD)
    ensures forall k :: off <= k < off + WORD ==> res[k] == Apply(op, old(res[k]), src[k])
  {
    forall k | off <= k < off + WORD {
      res[k] := Apply(op, res[k], src[k]);
    }
  }

  method NotWord(res: array<bv8>, off: nat)
    requires off + WORD <= res.Length
    modifies res
    ensures SameOutside(res[..], old(res[..]), off, off + WORD)
    ensures forall k :: off <= k < off + WORD ==> res[k] == !old(res[k])
  {
    forall k | off <= k < off + WORD {
      res[k] := !res[k];
    }
  }

  /** Four words of one more source. */
  method OpFour(op: Op, res: array<bv8>, off: nat, src: Bytes)
    requires off + 4 * WORD <= res.Length && off + 4 * WORD <= |src|
    modifies res
    ensures SameOutside(res[..], old(res[..]), off, off + 4 * WORD)
    ensures forall k :: off <= k < off + 4 * WORD ==> res[k] == Apply(op, old(res[k]), src[k])
  {
    hide Apply;
    ghost var was := res[..];
    for w := 0 to 4
      invariant SameOutside(res[..], was, off, off + w * WORD)
      invariant forall k :: off <= k < off + w * WORD ==> res[k] == Apply(op, was[k], src[k])
    {
      OpWord(op, res, off + w * WORD, src);
    }
  }

  method NotFour(res: array<bv8>, off: nat)
    requires off + 4 * WORD <= res.Length
    modifies res
    ensures SameOutside(res[..], old(res[..]), off, off + 4 * WORD)
    ensures forall k :: off <= k < off + 4 * WORD ==> res[k] == !old(res[k])
  {
    ghost var was := res[..];
    for w := 0 to 4
      invariant SameOutside(res[..], was, off, off + w * WORD)
      invariant forall k :: off <= k < off + w * WORD ==> res[k] == !was[k]
    {
      NotWord(res, off + w * WORD);
    }
  }

  /** The first j bytes are done; from there to end the first source stands as it is. */
  ghost predicate Halfway(op: Op, keys: seq<Option<Bytes>>, res: Bytes, j: nat, end: nat)
    requires keys != [] && j <= end <= |res|
  {
    && (forall k :: 0 <= k < j ==> res[k] == Fold(op, keys, k, |keys|))
    && (forall k :: j <= k < end ==> res[k] == ByteAt(keys[0], k))
  }

  /** The fast path, for at most sixteen sources; j is the next byte to process. */
  method FastPath(op: Op, keys: seq<Option<Bytes>>, res: array<bv8>, minlen0: nat) returns (j: nat)
    requires keys != [] && (op == OpNot ==> |keys| == 1)
    requires 0 < minlen0 <= res.Length && IsMin(keys, minlen0)
    modifies res
    ensures j <= minlen0 && forall k :: 0 <= k < j ==> res[k] == Fold(op, keys, k, |keys|)
  {
    var minlen := minlen0;
    forall k | 0 <= k < minlen {
      res[k] := keys[0].value[k];
    }
    j := 0;
    assert forall i :: 0 <= i < |keys| ==> keys[i].Some? && minlen0 <= |keys[i].value|;
    hide Fold, Apply;
    while minlen >= 4 * WORD
      invariant j <= minlen0 && j + minlen == minlen0
      invariant Halfway(op, keys, res[..], j, minlen0)
    {
      FastBlock(op, keys, res, j, minlen0);
      j := j + 4 * WORD;
      minlen := minlen - 4 * WORD;
    }
    assert forall k :: 0 <= k < j ==> res[..][k] == res[k];
  }

  /** One turn of the fast path's loop. */
  method FastBlock(op: Op, keys: seq<Option<Bytes>>, res: array<bv8>, j: nat, ghost end: nat)
    requires keys != [] && (op == OpNot ==> |keys| == 1)
    requires j + 4 * WORD <= end <= res.Length
    requires forall i :: 0 <= i < |keys| ==> keys[i].Some? && end <= |keys[i].value|
    requires Halfway(op, keys, res[..], j, end)
    modifies res
    ensures Halfway(op, keys, res[..], j + 4 * WORD, end)
  {
    hide Apply;
    ghost var was := res[..];
    if op == OpNot {
      NotFour(res, j);
    } else {
      for i := 1 to |keys|
        invariant SameOutside(res[..], was, j, j + 4 * WORD)
        invariant forall k :: j <= k < j + 4 * WORD ==> res[k] == Fold(op, keys, k, i)
      {
        OpFour(op, res, j, keys[i].value);
      }
    }
  }

  datatype Outcome = NotNeedsOneKey | Stored(bytes: Bytes) | Deleted

  /** bitopCommand, from the looked-up sources to what happens to the target key. */
  method Bitop(op: Op, keys: seq<Option<Bytes>>) returns (r: Outcome)
    requires keys != []
    ensures op == OpNot && |keys| != 1 <==> r == NotNeedsOneKey
    ensures r == Deleted ==> forall i :: 0 <= i < |keys| ==> Length(keys[i]) == 0
    ensures r.Stored? ==> |r.bytes| == MaxLength(keys) > 0
    ensures r.Stored? ==> forall j :: 0 <= j < |r.bytes| ==> r.bytes[j] == Fold(op, keys, j, |keys|)
  {
    if op == OpNot && |keys| != 1 {
      return NotNeedsOneKey;
    }
    var minlen, maxlen := Lengths(keys);
    MaxIsLargest(keys);
    if maxlen == 0 {
      return Deleted;
    }
    MinBelowMax(keys, minlen);
    var res := new bv8[maxlen];
    var j := 0;
    if minlen != 0 && |keys| <= 16 {
      j := FastPath(op, keys, res, minlen);
    }
    hide Fold, Apply, ByteAt;
    while j < maxlen
      invariant j <= maxlen && forall k :: 0 <= k < j ==> res[k] == Fold(op, keys, k, |keys|)
    {
      var output := ByteOf(op, keys, j);
      res[j] := output;
      j := j + 1;
    }
    r := Stored(res[..]);
  }

  /** The switch of the byte loop. */
  method Combine(op: Op, a: bv8, b: bv8) returns (r: bv8)
    ensures r == Apply(op, a, b)
  {
    match op
    case OpAnd => r := a & b;
    case OpOr => r := a | b;
    case OpXor => r := a ^ b;
    case OpNot => r := a;
  }

  /** The byte loop's body. */
  method ByteOf(op: Op, keys: seq<Option<Bytes>>, j: nat) returns (output: bv8)
    requires keys != []
    ensures output == Fold(op, keys, j, |keys|)
  {
    output := if Length(keys[0]) <= j then 0 else keys[0].value[j];
    if op == OpNot {
      output := !output;
    }
    hide Apply;
    for i := 1 to |keys|
      invariant output == Fold(op, keys, j, i)
    {
      var byte := if Length(keys[i]) <= j then 0 else keys[i].value[j];
      output := Combine(op, output, byte);
    }
  }

  lemma {:induction false} MaxIsLargest(keys: seq<Option<Bytes>>)
    ensures forall i :: 0 <= i < |keys| ==> Length(keys[i]) <= MaxLength(keys)
    ensures keys != [] ==> exists i :: 0 <= i < |keys| && Length(keys[i]) == MaxLength(keys)
    decreases |keys|
  {
    if keys != [] {
      var n := |keys| - 1;
      MaxIsLargest(keys[..n]);
      assert forall i :: 0 <= i < n ==> keys[..n][i] == keys[i];
      if n > 0 {
        var i :| 0 <= i < n && Length(keys[..n][i]) == MaxLength(keys[..n]);
        assert Length(keys[i]) == MaxLength(keys[..n]);
      }
      assert Length(keys[n]) <= MaxLength(keys);
    }
  }

  lemma MinBelowMax(keys: seq<Option<Bytes>>, minlen: nat)
    requires keys != [] && IsMin(keys, minlen)
    ensures minlen <= MaxLength(keys)
  {
    MaxIsLargest(keys);
    assert minlen <= Length(keys[0]);
  }

  // ---- what the operations mean, bit by bit

  /** The byte with bit i set. */
  function Mask(i: nat): (m: bv8)
    requires i < 8
    ensures m in {1, 2, 4, 8, 16, 32, 64, 128}
  {
    [1, 2, 4, 8, 16, 32, 64, 128][i]
  }

  predicate Bit(b: bv8, i: nat)
    requires i < 8
  {
    On(b, Mask(i))
  }

  predicate On(b: bv8, m: bv8) {
    b & m != 0
  }

  /** How many of the first n sources have bit i of byte j set. */
  function Votes(keys: seq<Option<Bytes>>, j: nat, i: nat, n: nat): nat
    requires n <= |keys| && i < 8
  {
    if n == 0 then 0 else Votes(keys, j, i, n - 1) + if Bit(ByteAt(keys[n - 1], j), i) then 1 else 0
  }

  lemma AndOn(a: bv8, b: bv8, m: bv8)
    requires m in {1, 2, 4, 8, 16, 32, 64, 128}
    ensures On(a & b, m) <==> On(a, m) && On(b, m)
  {
  }

  lemma OrOn(a: bv8, b: bv8, m: bv8)
    ensures On(a | b, m) <==> On(a, m) || On(b, m)
  {
  }

  lemma XorOn(a: bv8, b: bv8, m: bv8)
    requires m in {1, 2, 4, 8, 16, 32, 64, 128}
    ensures On(a ^ b, m) <==> On(a, m) != On(b, m)
  {
  }

  lemma NotOn(a: bv8, m: bv8)
    requires m in {1, 2, 4, 8, 16, 32, 64, 128}
    ensures On(!a, m) <==> !On(a, m)
  {
  }

  lemma ApplyBits(op: Op, a: bv8, b: bv8, i: nat)
    requires i < 8
    ensures Bit(Apply(op, a, b), i) <==>
      match op
      case OpAnd => Bit(a, i) && Bit(b, i)
      case OpOr => Bit(a, i) || Bit(b, i)
      case OpXor => Bit(a, i) != Bit(b, i)
      case OpNot => Bit(a, i)
  {
    hide Mask, On;
    var m := Mask(i);
    match op
    case OpAnd => AndOn(a, b, m);
    case OpOr => OrOn(a, b, m);
    case OpXor => XorOn(a, b, m);
    case OpNot =>
  }

  lemma NotBit(a: bv8, i: nat)
    requires i < 8
    ensures Bit(!a, i) <==> !Bit(a, i)
  {
    hide Mask, On;
    NotOn(a, Mask(i));
  }

  /** A bit of the result is set exactly where all sources have it set (AND), where one has (OR), where an odd number
      have (XOR), or where the source has not (NOT). */
  lemma {:induction false} FoldBits(op: Op, keys: seq<Option<Bytes>>, j: nat, i: nat, n: nat)
    requires 1 <= n <= |keys| && i < 8 && (op == OpNot ==> n == 1)
    ensures Bit(Fold(op, keys, j, n), i) <==>
      match op
      case OpAnd => Votes(keys, j, i, n) == n
      case OpOr => Votes(keys, j, i, n) > 0
      case OpXor => Votes(keys, j, i, n) % 2 == 1
      case OpNot => Votes(keys, j, i, n) == 0
    ensures Votes(keys, j, i, n) <= n
    decreases n
  {
    hide Bit, ByteAt, Apply;
    assert Votes(keys, j, i, 0) == 0;
    if n > 1 {
      FoldBits(op, keys, j, i, n - 1);
      ApplyBits(op, Fold(op, keys, j, n - 1), ByteAt(keys[n - 1], j), i);
    } else {
      NotBit(ByteAt(keys[0], j), i);
    }
  }

  /** The result is as long as the longest source. */
  lemma {:induction false} MaxLengthIs(keys: seq<Option<Bytes>>)
    ensures forall i :: 0 <= i < |keys| ==> Length(keys[i]) <= MaxLength(keys)
    ensures MaxLength(keys) == 0 || exists i :: 0 <= i < |keys| && Length(keys[i]) == MaxLength(keys)
    decreases |keys|
  {
    if keys != [] {
      var init := keys[..|keys| - 1];
      MaxLengthIs(init);
      assert forall i :: 0 <= i < |init| ==> init[i] == keys[i];
      if MaxLength(keys) == MaxLength(init) && MaxLength(init) != 0 {
        var i :| 0 <= i < |init| && Length(init[i]) == MaxLength(init);
        assert Length(keys[i]) == MaxLength(keys);
      }
    }
  }
}
