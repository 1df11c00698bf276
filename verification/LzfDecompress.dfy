/** lzf_decompress of lzf_d.c, with CHECK_INPUT. */
module LzfDecompress {
  import opened Wrappers
  import opened Sequences
  import opened LzfFormat

  lemma {:induction false} CopyBackNext(out: seq<byte>, dist: nat, n: nat)
    requires 0 < dist <= |out|
    ensures var r := CopyBack(out, dist, n); CopyBack(out, dist, n + 1) == r + [r[|r| - dist]]
    decreases n
  {
    if n > 0 {
      CopyBackNext(out + [out[|out| - dist]], dist, n - 1);
    }
  }

  /** The result for an output buffer of outLen bytes: the decoded bytes, if they fit. */
  function Expected(input: seq<byte>, outLen: nat): Option<seq<byte>> {
    var d := Decode(input, []);
    if d.Some? && |d.value| <= outLen then d else None
  }

  /** `do *op++ = *ip++; while (--ctrl);` */
  method CopyLiteral(input: seq<byte>, ip: nat, output: array<byte>, op: nat, n: nat)
    requires 0 < n && ip + n <= |input| && op + n <= output.Length
    modifies output
    ensures output[..op + n] == old(output[..op]) + input[ip..ip + n]
    ensures output[op + n..] == old(output[op + n..])
  {
    var k := 0;
    while k < n
      invariant k <= n
      invariant output[..op + k] == old(output[..op]) + input[ip..ip + k]
      invariant output[op + n..] == old(output[op + n..])
    {
      output[op + k] := input[ip + k];
      k := k + 1;
      assert output[..op + k] == output[..op + k - 1] + [input[ip + k - 1]];
    }
  }

  /** The byte-wise copy of a back reference, in place: later bytes may copy earlier ones. */
  method CopyReference(output: array<byte>, op: nat, dist: nat, n: nat)
    requires 0 < dist <= op && op + n <= output.Length
    modifies output
    ensures output[..op + n] == CopyBack(old(output[..op]), dist, n)
    ensures output[op + n..] == old(output[op + n..])
  {
    var k := 0;
    ghost var out := output[..op];
    while k < n
      invariant k <= n
      invariant output[..op + k] == CopyBack(out, dist, k)
      invariant output[op + n..] == old(output[op + n..])
    {
      CopyBackNext(out, dist, k);
      ghost var before := output[..op + k];
      output[op + k] := output[op + k - dist];
      assert output[..op + k] == before;
      assert before[|before| - dist] == output[op + k - dist];
      k := k + 1;
      assert output[..op + k] == before + [before[|before| - dist]];
    }
  }

  /** An instruction that does not fit makes the whole output too long. */
  lemma Overflow(rest: seq<byte>, out: seq<byte>, outLen: nat)
    requires rest != []
    requires FirstToken(rest).Some? ==>
      |out| + (match FirstToken(rest).value.0 case Literal(b) => |b| case BackRef(_, len) => len) > outLen
    ensures Decode(rest, out).Some? ==> |Decode(rest, out).value| > outLen
  {
    if Decode(rest, out).Some? {
      var (t, n) := FirstToken(rest).value;
      DecodeGrows(rest[n..], Apply(t, out).value);
    }
  }

  /** A back reference to before the output's start. */
  lemma NoSource(rest: seq<byte>, out: seq<byte>, outLen: nat, dist: nat)
    requires rest != [] && dist > |out|
    requires FirstToken(rest).Some? && FirstToken(rest).value.0.BackRef? && FirstToken(rest).value.0.dist == dist
    ensures Fails(rest, out, outLen)
  {
  }

  ghost predicate Fails(rest: seq<byte>, out: seq<byte>, outLen: nat) {
    Decode(rest, out).Some? ==> |Decode(rest, out).value| > outLen
  }

  /** The instruction at ip was carried out: it took the input up to ip' and filled the output up to op'. */
  ghost predicate Done(input: seq<byte>, ip: nat, ip': nat, out: seq<byte>, out': seq<byte>)
    requires ip < |input|
  {
    && ip < ip' <= |input| && FirstToken(input[ip..]).Some?
    && FirstToken(input[ip..]).value.1 == ip' - ip
    && Apply(FirstToken(input[ip..]).value.0, out) == Some(out')
  }

  lemma Continue(input: seq<byte>, ip: nat, ip': nat, out: seq<byte>, out': seq<byte>)
    requires ip < |input| && Done(input, ip, ip', out, out')
    ensures ip' <= |input| && Decode(input[ip..], out) == Decode(input[ip'..], out')
  {
    assert input[ip..][ip' - ip..] == input[ip'..];
  }

  lemma NothingLeft(rest: seq<byte>, out: seq<byte>)
    requires rest == []
    ensures Decode(rest, out) == Some(out)
  {
  }

  method LiteralRun(input: seq<byte>, ip: nat, output: array<byte>, op: nat, outLen: nat)
    returns (ok: bool, ip': nat, op': nat)
    requires ip < |input| && input[ip] < 32 && op <= outLen <= output.Length
    modifies output
    ensures ok ==> op < op' <= outLen && Done(input, ip, ip', old(output[..op]), output[..op'])
    ensures !ok ==> Fails(input[ip..], old(output[..op]), outLen)
    ensures output[outLen..] == old(output[outLen..])
  {
    ghost var rest, out := input[ip..], output[..op];
    ip', op' := ip + 1, op;
    var ctrl: int := input[ip];
    ctrl := ctrl + 1;
    if op + ctrl > outLen {
      Overflow(rest, out, outLen);
      return false, ip', op';
    }
    if ip' + ctrl > |input| {
      return false, ip', op';
    }
    CopyLiteral(input, ip', output, op, ctrl);
    assert rest[1..ctrl + 1] == input[ip'..ip' + ctrl];
    assert output[outLen..] == output[op + ctrl..][outLen - op - ctrl..];
    return true, ip' + ctrl, op + ctrl;
  }

  /** The bytes of a back reference, read from ip on; they may be missing. */
  method ReadReference(input: seq<byte>, ip: nat, op: nat) returns (ok: bool, ip': nat, ref: int, len: nat)
    requires ip < |input| && input[ip] >= 32
    ensures ok ==> ip < ip' <= |input| && ref < op
    ensures ok ==> FirstToken(input[ip..]) == Some((BackRef(op - ref, len + 2), ip' - ip))
    ensures !ok ==> FirstToken(input[ip..]) == None
  {
    ip' := ip + 1;
    var ctrl: int := input[ip];
    len := ctrl / 32;
    ref := op - ctrl % 32 * 256 - 1;
    if ip' >= |input| {
      return false, ip', ref, len;
    }
    if len == 7 {
      len := len + input[ip'];
      ip' := ip' + 1;
      if ip' >= |input| {
        return false, ip', ref, len;
      }
    }
    ref := ref - input[ip'];
    ip' := ip' + 1;
    ok := true;
  }

  method BackReference(input: seq<byte>, ip: nat, output: array<byte>, op: nat, outLen: nat)
    returns (ok: bool, ip': nat, op': nat)
    requires ip < |input| && input[ip] >= 32 && op <= outLen <= output.Length
    modifies output
    ensures ok ==> op < op' <= outLen && Done(input, ip, ip', old(output[..op]), output[..op'])
    ensures !ok ==> Fails(input[ip..], old(output[..op]), outLen)
    ensures output[outLen..] == old(output[outLen..])
  {
    ghost var rest, out := input[ip..], output[..op];
    var ref, len;
    ok, ip', ref, len := ReadReference(input, ip, op);
    op' := op;
    if !ok {
      return;
    }
    hide FirstToken, Decode, CopyBack;
    if op + len + 2 > outLen {
      Overflow(rest, out, outLen);
      return false, ip', op';
    }
    if ref < 0 {
      NoSource(rest, out, outLen, op - ref);
      return false, ip', op';
    }
    CopyReference(output, op, op - ref, len + 2);
    assert output[outLen..] == output[op + len + 2..][outLen - op - len - 2..];
    return true, ip', op + len + 2;
  }

  /** Every non-empty input is decoded to its end or rejected, inside both buffers. */
  method Decompress(input: seq<byte>, output: array<byte>, outLen: nat) returns (r: nat)
    requires input != [] && outLen <= output.Length
    modifies output
    ensures r == if Expected(input, outLen).Some? then |Expected(input, outLen).value| else 0
    ensures r > 0 <==> Expected(input, outLen).Some?
    ensures r > 0 ==> r <= outLen && output[..r] == Expected(input, outLen).value
    ensures output[outLen..] == old(output[outLen..])
  {
    if Decode(input, []).Some? {
      DecodeGrows(input, []);
    }
    hide Decode, Done;
    var ip, op := 0, 0;
    assert input[0..] == input && output[..0] == [];
    while ip < |input|
      invariant 0 <= ip <= |input| && 0 <= op <= outLen
      invariant Decode(input[ip..], output[..op]) == Decode(input, [])
      invariant output[outLen..] == old(output[outLen..])
    {
      ghost var before := output[..op];
      var ok, ip', op';
      if input[ip] < 32 {
        ok, ip', op' := LiteralRun(input, ip, output, op, outLen);
      } else {
        ok, ip', op' := BackReference(input, ip, output, op, outLen);
      }
      if !ok {
        return 0;
      }
      Continue(input, ip, ip', before, output[..op']);
      ip, op := ip', op';
    }
    NothingLeft(input[ip..], output[..op]);
    r := op;
  }
}
