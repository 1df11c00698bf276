/** The compressed format of lzf_c.c and lzf_d.c: what a byte string decodes to. */
module LzfFormat {
  import opened Wrappers
  import opened Sequences

  const MAX_LIT: nat := 32
  const MAX_OFF: nat := 8192
  const MAX_REF: nat := 264

  /** n bytes copied one by one from `dist` places back; the copy may overlap its own output. */
  function CopyBack(out: seq<byte>, dist: nat, n: nat): (r: seq<byte>)
    requires 0 < dist <= |out|
    ensures |r| == |out| + n && out <= r
    decreases n
  {
    if n == 0 then out else CopyBack(out + [out[|out| - dist]], dist, n - 1)
  }

  /** Every byte copied is the byte dist places before it, itself copied or not. */
  lemma {:induction false} CopyBackAt(out: seq<byte>, dist: nat, n: nat, i: nat)
    requires 0 < dist <= |out| && i < n
    ensures var r := CopyBack(out, dist, n);
      |r| == |out| + n && r[..|out|] == out && r[|out| + i] == r[|out| + i - dist]
    decreases n
  {
    var out1 := out + [out[|out| - dist]];
    var r := CopyBack(out1, dist, n - 1);
    assert CopyBack(out, dist, n) == r && out1 <= r;
    assert r[..|out|] == out1[..|out|] == out;
    if i > 0 {
      CopyBackAt(out1, dist, n - 1, i - 1);
    }
  }

  /** One instruction: a literal run, or a back reference of at least three bytes. */
  datatype Token = Literal(bytes: seq<byte>) | BackRef(dist: nat, len: nat)

  /** The instruction at the front of s and its size; None when s ends inside it. */
  function FirstToken(s: seq<byte>): Option<(Token, nat)>
    requires s != []
  {
    var ctrl: int := s[0];
    if ctrl < MAX_LIT then
      if 1 + ctrl + 1 > |s| then None else Some((Literal(s[1..ctrl + 2]), ctrl + 2))
    else if ctrl / 32 == 7 then
      if |s| < 3 then None else Some((BackRef(ctrl as int % 32 * 256 + s[2] + 1, s[1] as int + 9), 3))
    else
      if |s| < 2 then None else Some((BackRef(ctrl as int % 32 * 256 + s[1] + 1, ctrl as int / 32 + 2), 2))
  }

  /** The format, 000LLLLL and L + 1 bytes; LLLooooo oooooooo; 111ooooo LLLLLLLL oooooooo. */
  lemma LiteralForm(b: seq<byte>, rest: seq<byte>)
    requires 0 < |b| <= 32
    ensures FirstToken([|b| - 1] + b + rest) == Some((Literal(b), |b| + 1))
  {
    assert ([|b| - 1] + b + rest)[1..|b| + 1] == b;
  }

  lemma ShortForm(l: nat, o1: nat, o2: byte, rest: seq<byte>)
    requires 1 <= l <= 6 && o1 < 32
    ensures FirstToken([l * 32 + o1, o2] + rest) == Some((BackRef(o1 * 256 + o2 + 1, l + 2), 2))
  {
    Control(l, o1);
  }

  lemma LongForm(l: byte, o1: nat, o2: byte, rest: seq<byte>)
    requires o1 < 32
    ensures FirstToken([7 * 32 + o1, l, o2] + rest) == Some((BackRef(o1 * 256 + o2 + 1, l + 9), 3))
  {
    Control(7, o1);
  }

  /** An instruction of which bytes are missing is none. */
  lemma Truncated(s: seq<byte>)
    requires s != []
    ensures FirstToken(s) == None <==>
      |s| < if s[0] < 32 then s[0] as int + 2 else if s[0] < 224 then 2 else 3
  {
  }

  /** A back reference to before the output's start has no effect that could be decoded. */
  lemma NoSuchSource(dist: nat, len: nat, out: seq<byte>)
    ensures Apply(BackRef(dist, len), out) == None <==> dist == 0 || dist > |out|
  {
  }

  lemma Control(l: nat, o1: nat)
    requires o1 < 32
    ensures (l * 32 + o1) / 32 == l && (l * 32 + o1) % 32 == o1
  {
  }

  function Apply(t: Token, out: seq<byte>): Option<seq<byte>> {
    match t
    case Literal(b) => Some(out + b)
    case BackRef(dist, len) => if 0 < dist <= |out| then Some(CopyBack(out, dist, len)) else None
  }

  /** The bytes that s decodes to after `out`. */
  function Decode(s: seq<byte>, out: seq<byte>): Option<seq<byte>>
    decreases |s|
  {
    if s == [] then Some(out) else
      match FirstToken(s)
      case None => None
      case Some((t, n)) =>
        match Apply(t, out)
        case None => None
        case Some(out') => Decode(s[n..], out')
  }

  lemma FirstTokenPrefix(a: seq<byte>, b: seq<byte>)
    requires a != [] && FirstToken(a).Some?
    ensures FirstToken(a + b) == FirstToken(a) && 0 < FirstToken(a).value.1 <= |a|
  {
    if a[0] < MAX_LIT {
      assert (a + b)[1..a[0] as int + 2] == a[1..a[0] as int + 2];
    }
  }

  /** Decoding is done instruction by instruction. */
  lemma {:induction false} DecodeConcat(a: seq<byte>, b: seq<byte>, out: seq<byte>)
    requires Decode(a, out).Some?
    ensures Decode(a + b, out) == Decode(b, Decode(a, out).value)
    decreases |a|
  {
    if a == [] {
      assert a + b == b;
    } else {
      FirstTokenPrefix(a, b);
      var n := FirstToken(a).value.1;
      assert (a + b)[n..] == a[n..] + b;
      DecodeConcat(a[n..], b, Apply(FirstToken(a).value.0, out).value);
    }
  }

  lemma {:induction false} DecodeGrows(s: seq<byte>, out: seq<byte>)
    requires Decode(s, out).Some?
    ensures |Decode(s, out).value| >= |out| + (if s == [] then 0 else 1)
    decreases |s|
  {
    if s != [] {
      var (t, n) := FirstToken(s).value;
      DecodeGrows(s[n..], Apply(t, out).value);
    }
  }

  // ---- tokens against the input

  /** Equal stretches of n bytes start at i and at the later j. */
  ghost predicate Matches(input: seq<byte>, i: nat, j: nat, n: nat) {
    i < j && j + n <= |input| && input[i..i + n] == input[j..j + n]
  }

  lemma {:induction false} CopyBackMatches(input: seq<byte>, i: nat, j: nat, n: nat)
    requires Matches(input, i, j, n)
    ensures CopyBack(input[..j], j - i, n) == input[..j + n]
    decreases n
  {
    if n > 0 {
      assert input[i] == input[i..i + n][0] == input[j..j + n][0] == input[j];
      assert input[..j] + [input[i]] == input[..j + 1];
      assert input[i + 1..i + n] == input[i..i + n][1..] && input[j + 1..j + n] == input[j..j + n][1..];
      CopyBackMatches(input, i + 1, j + 1, n - 1);
    }
  }

  /** Output o decodes to the first n bytes of the input. */
  ghost predicate Encodes(o: seq<byte>, input: seq<byte>, n: nat) {
    n <= |input| && Decode(o, []) == Some(input[..n])
  }

  lemma DecodeOne(t: seq<byte>, out: seq<byte>, tok: Token)
    requires t != [] && FirstToken(t) == Some((tok, |t|)) && Apply(tok, out).Some?
    ensures Decode(t, out) == Apply(tok, out)
  {
    assert t[|t|..] == [];
  }

  /** Output that decodes to the first n bytes, followed by a token for the next ones. */
  lemma AppendToken(o: seq<byte>, t: seq<byte>, tok: Token, input: seq<byte>, n: nat, n': nat)
    requires Encodes(o, input, n) && n' <= |input|
    requires t != [] && FirstToken(t) == Some((tok, |t|)) && Apply(tok, input[..n]) == Some(input[..n'])
    ensures Encodes(o + t, input, n')
  {
    DecodeConcat(o, t, []);
    DecodeOne(t, input[..n], tok);
  }

  lemma LiteralToken(o: seq<byte>, input: seq<byte>, n: nat, lit: nat)
    requires Encodes(o, input, n) && 0 < lit <= MAX_LIT && n + lit <= |input|
    ensures Encodes(o + ([lit - 1] + input[n..n + lit]), input, n + lit)
  {
    var t := [lit - 1] + input[n..n + lit];
    assert t[1..lit + 1] == input[n..n + lit];
    assert input[..n] + input[n..n + lit] == input[..n + lit];
    AppendToken(o, t, Literal(input[n..n + lit]), input, n, n + lit);
  }

  /** The bytes lzf_compress writes for a match of len + 2 bytes at offset off + 1. */
  function RefBytes(off: nat, len: nat): (t: seq<byte>)
    requires off < MAX_OFF && 0 < len <= MAX_REF - 2
    ensures t != [] && FirstToken(t) == Some((BackRef(off + 1, len + 2), |t|))
  {
    if len < 7 then
      assert (off / 256 + len * 32) / 32 == len;
      [off / 256 + len * 32, off % 256]
    else
      [off / 256 + 7 * 32, len - 7, off % 256]
  }

  lemma RefToken(o: seq<byte>, input: seq<byte>, ref: nat, ip: nat, len: nat)
    requires Encodes(o, input, ip) && Matches(input, ref, ip, len + 2)
    requires ip - ref - 1 < MAX_OFF && 0 < len <= MAX_REF - 2
    ensures Encodes(o + RefBytes(ip - ref - 1, len), input, ip + len + 2)
  {
    hide Decode, CopyBack, FirstToken, RefBytes;
    CopyBackMatches(input, ref, ip, len + 2);
    AppendToken(o, RefBytes(ip - ref - 1, len), BackRef(ip - ref, len + 2), input, ip, ip + len + 2);
  }
}
