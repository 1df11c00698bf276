/** lzf_compress of lzf_c.c as configured by lzfP.h: HLOG 16, VERY_FAST, INIT_HTAB 0. Pointers are
    offsets from in_data, respectively out_data. */
module LzfCompress {
  import opened Wrappers
  import opened Sequences
  import opened LzfFormat
  import opened LzfDecompress
  import opened LzfGreedy

  /** `lit - 1` as the byte that is stored. */
  function Header(lit: nat): byte {
    (lit + 255) % 256
  }

  /** The state of the output at index op: complete instructions for the first ip - lit bytes of the
      input, a byte left for the header, and the lit bytes of the run it will announce. */
  ghost predicate Open(o: seq<byte>, input: seq<byte>, ip: nat, lit: nat) {
    && lit <= ip <= |input| && lit < |o|
    && Encodes(o[..|o| - lit - 1], input, ip - lit)
    && o[|o| - lit..] == input[ip - lit..ip]
    // at most one extra byte for each full run of 32
    && 32 * (|o| - lit - 1 - (ip - lit)) <= ip - lit
  }

  /** The run closed by its header byte, or undone when it is empty. */
  ghost predicate Closed(o: seq<byte>, input: seq<byte>, ip: nat, lit: nat, o': seq<byte>)
    requires Open(o, input, ip, lit)
  {
    && Encodes(o', input, ip)
    && |o'| == |o| - (if lit == 0 then 1 else 0)
  }

  lemma CloseRun(o: seq<byte>, input: seq<byte>, ip: nat, lit: nat)
    requires Open(o, input, ip, lit) && lit <= MAX_LIT
    ensures lit == 0 ==> Closed(o, input, ip, lit, o[..|o| - 1])
    ensures lit > 0 ==> Closed(o, input, ip, lit, o[|o| - lit - 1 := Header(lit)])
  {
    if lit > 0 {
      var s := |o| - lit - 1;
      LiteralToken(o[..s], input, ip - lit, lit);
      assert o[s := Header(lit)] == o[..s] + ([lit - 1] + input[ip - lit..ip]);
    }
  }

  /** The comparison loops: the length of the match, as long as it can be. */
  method MatchLength(input: seq<byte>, ref: nat, ip: nat, maxlen: nat) returns (len: nat)
    requires ref < ip && ip + 4 < |input| && Matches(input, ref, ip, 3)
    requires maxlen == if |input| - ip - 2 > MAX_REF then MAX_REF else |input| - ip - 2
    ensures len == Longest(input, ref, ip, 3)
    ensures 3 <= len <= MAX_REF && ip + len <= |input| && Matches(input, ref, ip, len)
    ensures len == Limit(|input|, ip) || input[ref + len] != input[ip + len]
  {
    LongestIs(input, ref, ip, 3);
    ghost var limit := Limit(|input|, ip);
    assert limit == if 16 < maxlen < 19 then 19 else maxlen;
    hide Matches, Limit, Longest;
    len := 2;
    if maxlen > 16 {
      var i := 0;
      while i < 16
        invariant i <= 16 && len == 2 + i && Longest(input, ref, ip, 3) == Longest(input, ref, ip, len + 1)
      {
        len := len + 1;
        LongestNext(input, ref, ip, len);
        if input[ref + len] != input[ip + len] {
          return;
        }
        i := i + 1;
      }
    }
    len := len + 1;
    while len < maxlen && input[ref + len] == input[ip + len]
      invariant 3 <= len <= limit && Longest(input, ref, ip, 3) == Longest(input, ref, ip, len)
      invariant maxlen > 16 ==> len >= 19
      decreases |input| - len
    {
      LongestNext(input, ref, ip, len);
      len := len + 1;
    }
    LongestNext(input, ref, ip, len);
  }

  /** One more literal byte, and the run closed when it is full. */
  method PutLiteral(input: seq<byte>, ip: nat, output: array<byte>, op: nat, lit: nat) returns (op': nat, lit': nat)
    requires lit < MAX_LIT && ip < |input| && 0 < op && op + 1 < output.Length
    requires Open(output[..op], input, ip, lit)
    modifies output
    ensures lit' == (if lit + 1 == MAX_LIT then 0 else lit + 1) && op' <= output.Length
    ensures Open(output[..op'], input, ip + 1, lit')
    ensures op' == op + 1 + (if lit' == 0 then 1 else 0)
  {
    hide Encodes;
    ghost var o := output[..op];
    lit' := lit + 1;
    output[op] := input[ip];
    op' := op + 1;
    assert output[..op'] == o + [input[ip]];
    LiteralOpen(o, input, ip, lit);
    if lit' == MAX_LIT {
      CloseRun(output[..op'], input, ip + 1, lit');
      ghost var o1 := output[..op'];
      output[op' - lit' - 1] := Header(lit');
      assert output[..op'] == o1[op' - lit' - 1 := Header(lit')];
      lit' := 0;
      op' := op' + 1;
      assert output[..op'][..op' - 1] == output[..op' - 1];
    }
  }

  lemma LiteralOpen(o: seq<byte>, input: seq<byte>, ip: nat, lit: nat)
    requires Open(o, input, ip, lit) && ip < |input|
    ensures Open(o + [input[ip]], input, ip + 1, lit + 1)
  {
    var o' := o + [input[ip]];
    assert o'[..|o'| - lit - 2] == o[..|o| - lit - 1];
    assert o'[|o'| - lit - 1..] == o[|o| - lit..] + [input[ip]];
    assert input[ip - lit..ip + 1] == input[ip - lit..ip] + [input[ip]];
  }

  /** An open output is at most 1/32 longer than the input it stands for, and its header byte. */
  lemma OpenBound(o: seq<byte>, input: seq<byte>, ip: nat, lit: nat)
    requires Open(o, input, ip, lit)
    ensures |o| <= ip + (ip - lit) / 32 + 1
  {
  }

  /** Closes the run before a match. */
  method StopRun(input: seq<byte>, ip: nat, output: array<byte>, op: nat, lit: nat) returns (op': nat)
    requires lit < MAX_LIT && op <= output.Length && Open(output[..op], input, ip, lit)
    modifies output
    ensures op' == op - (if lit == 0 then 1 else 0) && Closed(old(output[..op]), input, ip, lit, output[..op'])
  {
    ghost var o := output[..op];
    CloseRun(o, input, ip, lit);
    output[op - lit - 1] := Header(lit);
    op' := if lit == 0 then op - 1 else op;
    if lit == 0 {
      assert output[..op'] == o[..|o| - 1];
    } else {
      assert output[..op'] == o[|o| - lit - 1 := Header(lit)];
    }
  }

  /** Writes a back reference and starts a new run. */
  method PutReference(input: seq<byte>, ref: nat, ip: nat, output: array<byte>, op: nat, len: nat) returns (op': nat)
    requires op + 4 <= output.Length && Encodes(output[..op], input, ip)
    requires Matches(input, ref, ip, len + 2) && 0 < len <= MAX_REF - 2 && ip - ref - 1 < MAX_OFF
    requires 32 * (op - ip) <= ip + 32
    modifies output
    ensures op' <= output.Length && op' == op + RefSize(len + 2) + 1
    ensures Open(output[..op'], input, ip + len + 2, 0)
  {
    hide Matches, Encodes, RefBytes;
    ghost var o := output[..op];
    RefToken(o, input, ref, ip, len);
    assert 1 < |RefBytes(ip - ref - 1, len)| <= 3 by {
      RefBytesLength(ip - ref - 1, len);
    }
    op' := PutRefBytes(output, op, ip - ref - 1, len);
    op' := op' + 1;
    OpenFresh(output[..op' - 1], output[..op'], input, ip + len + 2);
  }

  lemma RefBytesLength(off: nat, len: nat)
    requires off < MAX_OFF && 0 < len <= MAX_REF - 2
    ensures |RefBytes(off, len)| == if len < 7 then 2 else 3
  {
  }

  /** A new run after complete instructions. */
  lemma OpenFresh(o: seq<byte>, o': seq<byte>, input: seq<byte>, n: nat)
    requires Encodes(o, input, n) && |o'| == |o| + 1 && o == o'[..|o|] && 32 * (|o| - n) <= n
    ensures Open(o', input, n, 0)
  {
    hide Decode;
    assert o'[..|o'| - 1] == o && o'[|o'|..] == input[n..n];
  }

  /** The bytes of a back reference. */
  method PutRefBytes(output: array<byte>, op: nat, off: nat, len: nat) returns (op': nat)
    requires op + 4 <= output.Length && off < MAX_OFF && 0 < len <= MAX_REF - 2
    modifies output
    ensures op' == op + |RefBytes(off, len)| <= output.Length && output[..op'] == old(output[..op]) + RefBytes(off, len)
  {
    if len < 7 {
      output[op] := off / 256 + len * 32;
      op' := op + 1;
    } else {
      output[op] := off / 256 + 7 * 32;
      op' := op + 1;
      output[op'] := len - 7;
      op' := op' + 1;
    }
    output[op'] := off % 256;
    op' := op' + 1;
  }

  /** Uninitialised slots may hold any value; only slots that point into the window are followed. */
  method Lookup(input: seq<byte>, ref: int, ip: nat) returns (found: bool)
    requires ip + 2 < |input|
    ensures found <==>
      && 0 < ref < ip && ip - ref <= 8192 && ip + 4 < |input|
      && input[ref] == input[ip] && input[ref + 1] == input[ip + 1] && input[ref + 2] == input[ip + 2]
    ensures found == Candidate(input, ref, ip)
    ensures found ==> Matches(input, ref, ip, 3)
  {
    var off := ip - ref - 1;
    found := 0 <= off < MAX_OFF && ip + 4 < |input| && ref > 0
      && input[ref] == input[ip] && input[ref + 1] == input[ip + 1] && input[ref + 2] == input[ip + 2];
    if found {
      assert input[ref..ref + 3] == [input[ref], input[ref + 1], input[ref + 2]];
      assert input[ip..ip + 3] == [input[ip], input[ip + 1], input[ip + 2]];
    }
  }

  /** The match branch: the run is stopped and the longest match at ref written. Fails when less than
      five bytes are left. */
  method PutMatch(input: seq<byte>, ref: nat, ip: nat, output: array<byte>, op: nat, lit: nat, outLen: nat)
    returns (ok: bool, ip': nat, op': nat)
    requires lit < MAX_LIT && op <= output.Length && outLen < output.Length && Open(output[..op], input, ip, lit)
    requires ref < ip && ip - ref - 1 < MAX_OFF && ip + 4 < |input| && Matches(input, ref, ip, 3)
    modifies output
    ensures ok ==> 0 < op' <= outLen && Open(output[..op'], input, ip', 0)
    ensures ok ==> ip' == ip + Longest(input, ref, ip, 3)
    ensures ok ==> op' == op - (if lit == 0 then 1 else 0) + RefSize(Longest(input, ref, ip, 3)) + 1
    ensures !ok <==> op - (if lit == 0 then 1 else 0) + 4 >= outLen
  {
    hide Longest;
    var maxlen := |input| - ip - 2;
    maxlen := if maxlen > MAX_REF then MAX_REF else maxlen;
    op' := StopRun(input, ip, output, op, lit);
    if op' + 3 + 1 >= outLen {
      return false, ip, op';
    }
    var len := MatchLength(input, ref, ip, maxlen);
    len := len - 2;
    op' := PutReference(input, ref, ip, output, op', len);
    return true, ip + len + 2, op';
  }

  /** The two positions before ip entered into the hash table. */
  method Rehash(input: seq<byte>, ip: nat, htab: array<int>) returns (hval: nat)
    requires 2 <= ip < |input| - 2 && htab.Length == HSIZE
    modifies htab
    ensures (htab[..], hval) == Rehashed(input, ip, old(htab[..]))
  {
    hide First, NextHash, Slot;
    hval := First(input, ip - 2);
    hval := NextHash(hval, input, ip - 2);
    htab[Slot(hval)] := ip - 2;
    hval := NextHash(hval, input, ip - 1);
    htab[Slot(hval)] := ip - 1;
  }

  /** The bytes left after the main loop, at most two, and the last run. */
  method Finish(input: seq<byte>, ip0: nat, output: array<byte>, op0: nat, lit0: nat, outLen: nat) returns (r: nat)
    requires |input| - 2 <= ip0 <= |input| && 0 < |input| && lit0 < MAX_LIT && 0 < op0 && op0 + 3 <= outLen < output.Length
    requires Open(output[..op0], input, ip0, lit0)
    modifies output
    ensures 0 < r <= outLen && Decode(output[..r], []) == Some(input)
    ensures r <= |input| + (|input| + 31) / 32
    ensures r == op0 + Cost(Lits(|input| - ip0), lit0)
  {
    hide Open, Decode, Cost;
    var ip: nat, op: nat, lit: nat := ip0, op0, lit0;
    while ip < |input|
      invariant ip <= |input| && 0 < op && lit < MAX_LIT
      invariant op + (|input| - ip) + (if lit + (|input| - ip) >= MAX_LIT then 1 else 0) <= outLen
      invariant Open(output[..op], input, ip, lit)
      invariant op + Cost(Lits(|input| - ip), lit) == op0 + Cost(Lits(|input| - ip0), lit0)
    {
      CostLit(Lits(|input| - ip - 1), lit);
      op, lit := PutLiteral(input, ip, output, op, lit);
      ip := ip + 1;
    }
    CostNone(lit);
    OpenBound(output[..op], input, ip, lit);
    r := StopRun(input, ip, output, op, lit);
    assert input[..|input|] == input;
    EncodingNotEmpty(output[..r], input);
  }

  lemma CostNone(lit: nat)
    ensures Cost(Lits(0), lit) == if lit == 0 then -1 else 0
  {
  }

  lemma EncodingNotEmpty(o: seq<byte>, input: seq<byte>)
    requires input != [] && Decode(o, []) == Some(input)
    ensures |o| > 0
  {
    assert Decode([], []) == Some([]);
  }

  /** Whatever the hash table holds at the start, a positive result is the length of an encoding of the
      input; `garbage` stands for the two bytes read from a shorter input. The output has one byte more
      than outLen, because a run may be closed before the capacity is tested. The encoding is the greedy one, and it is
      found whenever there are four bytes more than it takes. */
  method Compress(input: seq<byte>, output: array<byte>, outLen: nat, htab: array<int>, garbage: nat) returns (r: nat)
    requires outLen < output.Length && htab.Length == HSIZE
    modifies output, htab
    ensures r > 0 ==> r <= outLen && Decode(output[..r], []) == Some(input)
    ensures input != [] && outLen >= |input| + |input| / 32 + 4 ==> 0 < r <= |input| + (|input| + 31) / 32
    ensures r > 0 ==> r == Size(input, old(htab[..]), garbage)
    ensures input != [] && outLen >= Size(input, old(htab[..]), garbage) + 4 ==> r > 0
    ensures |input| > 2 && Uniform(input) && outLen >= 12 + 3 * ((|input| + 263) / 264) ==>
      0 < r <= 8 + 3 * ((|input| + 263) / 264)
  {
    if |input| > 2 && Uniform(input) {
      UniformSize(input, htab[..], garbage);
    }
    if input == [] || outLen == 0 {
      SizePositive(input, htab[..], garbage);
      return 0;
    }
    assert Open(output[..1], input, 0, 0) by {
      assert output[..1][..0] == [];
    }
    ghost var size := Size(input, htab[..], garbage);
    assert Uniform(input) && |input| > 2 ==> size <= 8 + 3 * ((|input| + 263) / 264);
    hide Open, Decode, Size, Cost, Uniform, Pieces;
    var ok, ip, op, lit := PackAll(input, output, outLen, htab, garbage);
    if !ok {
      return 0;
    }
    CostLow(Lits(|input| - ip), lit);
    OpenBound(output[..op], input, ip, lit);
    if op + 3 > outLen {
      return 0;
    }
    r := Finish(input, ip, output, op, lit, outLen);
  }

  lemma SizePositive(input: seq<byte>, htab: Htab, garbage: nat)
    ensures Size(input, htab, garbage) >= 0
  {
    CostLow(Greedy(input, 0, Start(input, garbage), htab), 0);
  }

  /** The main loop, for all but the last two bytes. It fails only when fewer than five bytes are left. */
  method PackAll(input: seq<byte>, output: array<byte>, outLen: nat, htab: array<int>, garbage: nat)
    returns (ok: bool, ip: nat, op: nat, lit: nat)
    requires input != [] && 0 < outLen < output.Length && htab.Length == HSIZE
    requires Open(output[..1], input, 0, 0)
    modifies output, htab
    ensures ok ==> |input| - 2 <= ip <= |input| && 0 < op <= outLen + 1 && lit < MAX_LIT
    ensures ok ==> Open(output[..op], input, ip, lit)
    ensures ok ==> op + Cost(Lits(|input| - ip), lit) == Size(input, old(htab[..]), garbage)
    ensures !ok ==> outLen < |input| + |input| / 32 + 4 && outLen < Size(input, old(htab[..]), garbage) + 4
  {
    ghost var size := Size(input, htab[..], garbage);
    hide Open, Decode, NextHash, First, Slot, Matches, Cost, Greedy, Candidate, Longest, RefSize;
    var n := |input|;
    ok, ip, op, lit := true, 0, 1, 0;
    var hval: nat := if n >= 2 then First(input, 0) else garbage;
    while ip < n - 2
      invariant ok && ip <= n && 0 < op <= outLen + 1 && lit < MAX_LIT
      invariant Open(output[..op], input, ip, lit)
      invariant op + Cost(Greedy(input, ip, hval, htab[..]), lit) == size
      decreases n - ip
    {
      ok, ip, op, lit, hval := Choose(input, ip, output, op, lit, outLen, htab, hval);
      if !ok {
        return;
      }
    }
    GreedyTail(input, ip, hval, htab[..]);
  }

  /** One turn of the main loop: a match or a literal. What the choices from here on cost is op and the cost. */
  method Choose(input: seq<byte>, ip0: nat, output: array<byte>, op0: nat, lit0: nat, outLen: nat, htab: array<int>,
      hval0: nat)
    returns (ok: bool, ip: nat, op: nat, lit: nat, hval: nat)
    requires ip0 + 2 < |input| && 0 < op0 <= outLen + 1 && outLen < output.Length && lit0 < MAX_LIT
    requires htab.Length == HSIZE && Open(output[..op0], input, ip0, lit0)
    modifies output, htab
    ensures ok ==> ip0 < ip <= |input| && 0 < op <= outLen + 1 && lit < MAX_LIT && Open(output[..op], input, ip, lit)
    ensures var total := op0 + Cost(Greedy(input, ip0, hval0, old(htab[..])), lit0);
      && (ok ==> op + Cost(Greedy(input, ip, hval, htab[..]), lit) == total)
      && (!ok ==> outLen < |input| + |input| / 32 + 4 && outLen < total + 4)
  {
    ghost var h0 := htab[..];
    hide Open, NextHash, Slot, Cost, Greedy, Candidate;
    hval := NextHash(hval0, input, ip0);
    var hslot := Slot(hval);
    var ref := htab[hslot];
    htab[hslot] := ip0;
    assert htab[..] == h0[hslot := ip0];
    var found := Lookup(input, ref, ip0);
    if found {
      MatchCost(input, ip0, hval0, h0, lit0);
      ok, ip, op, hval := TakeMatch(input, ref, ip0, output, op0, lit0, outLen, htab, hval);
      lit := 0;
    } else {
      LiteralCost(input, ip0, hval0, h0, lit0);
      OpenBound(output[..op0], input, ip0, lit0);
      ok, ip, op, lit := op0 < outLen, ip0, op0, lit0;
      if ok {
        op, lit := PutLiteral(input, ip, output, op, lit);
        ip := ip + 1;
      }
    }
  }

  /** The match branch of a turn. */
  method TakeMatch(input: seq<byte>, ref: nat, ip0: nat, output: array<byte>, op0: nat, lit0: nat, outLen: nat,
      htab: array<int>, hval0: nat)
    returns (ok: bool, ip: nat, op: nat, hval: nat)
    requires 0 < op0 && op0 <= output.Length && outLen < output.Length && lit0 < MAX_LIT && htab.Length == HSIZE
    requires Open(output[..op0], input, ip0, lit0)
    requires ref < ip0 && ip0 - ref - 1 < MAX_OFF && ip0 + 4 < |input| && Matches(input, ref, ip0, 3)
    modifies output, htab
    ensures var l := Longest(input, ref, ip0, 3);
      && (ok ==>
           && ip == ip0 + l && 0 < op <= outLen && Open(output[..op], input, ip, 0)
           && op == op0 - (if lit0 == 0 then 1 else 0) + RefSize(l) + 1
           && Greedy(input, ip, hval, htab[..]) == AfterMatch(input, ip0, hval0, old(htab[..]), l))
      && (!ok ==>
           outLen < |input| + |input| / 32 + 4 && op0 - (if lit0 == 0 then 1 else 0) + 4 >= outLen)
  {
    hide Open, Greedy, Longest, RefSize, Rehashed, Matches;
    OpenBound(output[..op0], input, ip0, lit0);
    ok, ip, op := PutMatch(input, ref, ip0, output, op0, lit0, outLen);
    hval := hval0;
    if ok && ip < |input| - 2 {
      hval := Rehash(input, ip, htab);
    }
  }

  /** What a literal and all that follows costs. */
  lemma LiteralCost(input: seq<byte>, ip: nat, hval: nat, htab: Htab, lit: nat)
    requires ip + 2 < |input|
    requires !Candidate(input, htab[Slot(NextHash(hval, input, ip))], ip)
    ensures var h := NextHash(hval, input, ip);
      var rest := Greedy(input, ip + 1, h, htab[Slot(h) := ip]);
      var cost := Cost(Greedy(input, ip, hval, htab), lit);
      && cost == 1 + (if lit + 1 == MAX_LIT then 1 + Cost(rest, 0) else Cost(rest, lit + 1))
      && cost >= 1
  {
    GreedyLiteral(input, ip, hval, htab);
    var h := NextHash(hval, input, ip);
    var rest := Greedy(input, ip + 1, h, htab[Slot(h) := ip]);
    hide Greedy, Cost, NextHash, Slot;
    CostLit(rest, lit);
    CostLow(rest, 0);
    CostLow(rest, lit + 1);
  }

  /** What a match and all that follows costs. */
  lemma MatchCost(input: seq<byte>, ip: nat, hval: nat, htab: Htab, lit: nat)
    requires ip + 4 < |input|
    requires Candidate(input, htab[Slot(NextHash(hval, input, ip))], ip)
    ensures var h := NextHash(hval, input, ip);
      var ref, t := htab[Slot(h)], htab[Slot(h) := ip];
      var l := Longest(input, ref, ip, 3);
      var rest := AfterMatch(input, ip, h, t, l);
      && Cost(Greedy(input, ip, hval, htab), lit) == (if lit == 0 then -1 else 0) + RefSize(l) + 1 + Cost(rest, 0)
      && Cost(rest, 0) >= -1 && RefSize(l) >= 2
  {
    GreedyMatch(input, ip, hval, htab);
    var h := NextHash(hval, input, ip);
    var ref, t := htab[Slot(h)], htab[Slot(h) := ip];
    var l := Longest(input, ref, ip, 3);
    var rest := AfterMatch(input, ip, h, t, l);
    hide Greedy, Cost, NextHash, Slot, Longest, AfterMatch;
    CostRef(ip - ref, l, rest, lit);
    CostLow(rest, 0);
  }

  /** What lzf_compress produces, lzf_decompress turns back into the input. */
  method RoundTrip(input: seq<byte>, packed: array<byte>, outLen: nat, htab: array<int>, garbage: nat, back: array<byte>)
    returns (r: nat, m: nat)
    requires outLen < packed.Length && htab.Length == HSIZE && back.Length >= |input| && packed != back
    modifies packed, htab, back
    ensures r > 0 ==> m == |input| && back[..m] == input
  {
    m := 0;
    r := Compress(input, packed, outLen, htab, garbage);
    if r > 0 {
      m := Decompress(packed[..r], back, back.Length);
    }
  }
}
