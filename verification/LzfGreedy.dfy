/** What lzf_compress chooses: at every position the longest match, up to its limit, at the one earlier position that
    the hash table remembers, and otherwise a literal byte. */
module LzfGreedy {
  import opened Wrappers
  import opened Sequences
  import opened LzfFormat

  const HSIZE: nat := 65536

  /** FRST. */
  function First(input: seq<byte>, p: nat): nat
    requires p + 1 < |input|
  {
    input[p] as int * 256 + input[p + 1]
  }

  /** NEXT, in 32 bits. */
  function NextHash(v: nat, input: seq<byte>, p: nat): nat
    requires p + 2 < |input|
  {
    (v * 256 + input[p + 2]) % 0x1_0000_0000
  }

  /** IDX: a slot of the hash table; subtraction wraps. */
  function Slot(h: nat): (i: nat)
    ensures i < HSIZE
  {
    (h / 256 - h * 5) % HSIZE
  }

  type Htab = t: seq<int> | |t| == HSIZE witness seq(HSIZE, i => 0)

  /** A slot that is followed: it points into the window, not to the input's start, and three bytes agree. */
  predicate Candidate(input: seq<byte>, ref: int, ip: nat) {
    && 0 < ref < ip && ip - ref - 1 < MAX_OFF && ip + 4 < |input|
    && input[ref] == input[ip] && input[ref + 1] == input[ip + 1] && input[ref + 2] == input[ip + 2]
  }

  /** How long a match may be: 264 bytes, or all but two of those left. The comparisons that are unrolled do not test
      for that, so a limit of 17 or 18 becomes 19. */
  function Limit(n: nat, ip: nat): (l: nat)
    requires ip + 4 < n
    ensures 3 <= l <= MAX_REF && ip + l <= n
  {
    var maxlen := if n - ip - 2 > MAX_REF then MAX_REF else n - ip - 2;
    if 16 < maxlen < 19 then 19 else maxlen
  }

  /** The length of the match, of which the first len bytes are known to agree. */
  function Longest(input: seq<byte>, ref: nat, ip: nat, len: nat): (l: nat)
    requires ref < ip && ip + 4 < |input| && 3 <= len <= Limit(|input|, ip)
    ensures len <= l <= Limit(|input|, ip)
    decreases |input| - len
  {
    if len < Limit(|input|, ip) && input[ref + len] == input[ip + len] then Longest(input, ref, ip, len + 1) else len
  }

  /** The match is as long as it can be: it ends at its limit or at bytes that differ. */
  lemma {:induction false} LongestIs(input: seq<byte>, ref: nat, ip: nat, len: nat)
    requires ref < ip && ip + 4 < |input| && 3 <= len <= Limit(|input|, ip) && Matches(input, ref, ip, len)
    ensures var l := Longest(input, ref, ip, len);
      Matches(input, ref, ip, l) && (l == Limit(|input|, ip) || input[ref + l] != input[ip + l])
    decreases |input| - len
  {
    hide Limit;
    if len < Limit(|input|, ip) && input[ref + len] == input[ip + len] {
      assert input[ref..ref + len + 1] == input[ref..ref + len] + [input[ref + len]];
      assert input[ip..ip + len + 1] == input[ip..ip + len] + [input[ip + len]];
      LongestIs(input, ref, ip, len + 1);
    }
  }

  lemma LongestNext(input: seq<byte>, ref: nat, ip: nat, len: nat)
    requires ref < ip && ip + 4 < |input| && 3 <= len <= Limit(|input|, ip)
    ensures Longest(input, ref, ip, len) ==
      if len < Limit(|input|, ip) && input[ref + len] == input[ip + len] then Longest(input, ref, ip, len + 1) else len
  {
  }

  // ---- the choices

  datatype Item = Lit | Ref(dist: nat, len: nat)

  /** The two positions before ip entered into the table after a match, and the hash value that leaves. */
  function Rehashed(input: seq<byte>, ip: nat, htab: Htab): (Htab, nat)
    requires 2 <= ip && ip + 2 < |input|
  {
    var h1 := NextHash(First(input, ip - 2), input, ip - 2);
    var h2 := NextHash(h1, input, ip - 1);
    (htab[Slot(h1) := ip - 2][Slot(h2) := ip - 1], h2)
  }

  /** The choices from ip on. */
  function Greedy(input: seq<byte>, ip: nat, hval: nat, htab: Htab): seq<Item>
    decreases |input| - ip
  {
    if ip >= |input| then []
    else if ip + 2 >= |input| then [Lit] + Greedy(input, ip + 1, hval, htab)
    else
      var h := NextHash(hval, input, ip);
      var ref, t := htab[Slot(h)], htab[Slot(h) := ip];
      if Candidate(input, ref, ip) then
        var l := Longest(input, ref, ip, 3);
        [Ref(ip - ref, l)] +
        if ip + l + 2 >= |input| then Greedy(input, ip + l, h, t) else
          var (t', h') := Rehashed(input, ip + l, t);
          Greedy(input, ip + l, h', t')
      else [Lit] + Greedy(input, ip + 1, h, t)
  }

  function Start(input: seq<byte>, garbage: nat): nat {
    if |input| >= 2 then First(input, 0) else garbage
  }

  // ---- what they cost

  function RefSize(len: nat): nat {
    if len < 9 then 2 else 3
  }

  /** The bytes still to be written when lit literals are in the current run, whose header has its place; an empty run
      gives its header back. */
  function Cost(items: seq<Item>, lit: nat): int
    decreases |items|
  {
    if items == [] then (if lit == 0 then -1 else 0)
    else if items[0].Lit? then
      1 + if lit + 1 == MAX_LIT then 1 + Cost(items[1..], 0) else Cost(items[1..], lit + 1)
    else (if lit == 0 then -1 else 0) + RefSize(items[0].len) + 1 + Cost(items[1..], 0)
  }

  /** The size of the greedy encoding. */
  function Size(input: seq<byte>, htab: Htab, garbage: nat): int {
    1 + Cost(Greedy(input, 0, Start(input, garbage), htab), 0)
  }

  lemma {:induction false} CostLow(items: seq<Item>, lit: nat)
    ensures Cost(items, lit) >= if lit == 0 then -1 else 0
    decreases |items|
  {
    if items != [] {
      CostLow(items[1..], 0);
      CostLow(items[1..], lit + 1);
    }
  }

  function Lits(k: nat): seq<Item> {
    if k == 0 then [] else [Lit] + Lits(k - 1)
  }

  lemma CostLit(rest: seq<Item>, lit: nat)
    ensures Cost([Lit] + rest, lit) == 1 + if lit + 1 == MAX_LIT then 1 + Cost(rest, 0) else Cost(rest, lit + 1)
  {
    assert ([Lit] + rest)[1..] == rest;
  }

  lemma CostRef(dist: nat, len: nat, rest: seq<Item>, lit: nat)
    ensures Cost([Ref(dist, len)] + rest, lit) == (if lit == 0 then -1 else 0) + RefSize(len) + 1 + Cost(rest, 0)
  {
    assert ([Ref(dist, len)] + rest)[1..] == rest;
  }

  /** The last two bytes are literals. */
  lemma {:induction false} GreedyTail(input: seq<byte>, ip: nat, hval: nat, htab: Htab)
    requires ip <= |input| <= ip + 2
    ensures Greedy(input, ip, hval, htab) == Lits(|input| - ip)
    decreases |input| - ip
  {
    if ip < |input| {
      GreedyTail(input, ip + 1, hval, htab);
    }
  }

  // ---- equal bytes

  ghost predicate Uniform(input: seq<byte>) {
    forall i :: 0 <= i < |input| ==> input[i] == input[0]
  }

  /** IDX looks at the last three bytes that were hashed only. */
  lemma SlotLow(h: nat)
    ensures Slot(h) == Slot(h % 0x100_0000)
  {
    var q, r := h / 0x100_0000, h % 0x100_0000;
    assert h == 0x100_0000 * q + r;
    assert h / 256 == 0x1_0000 * q + r / 256;
    assert h / 256 - h * 5 == (r / 256 - r * 5) + HSIZE * (q - 1280 * q);
    Multiple(r / 256 - r * 5, q - 1280 * q);
  }

  lemma Multiple(x: int, k: int)
    ensures (x + HSIZE * k) % HSIZE == x % HSIZE
  {
  }

  /** The slot of three bytes a. */
  function SlotOf(a: byte): nat {
    Slot(a as int * 0x1_0101)
  }

  /** Two bytes a. */
  function Pair(a: byte): nat {
    a as int * 0x101
  }

  lemma LowBytes(h: nat)
    ensures h % 0x1_0000_0000 % 0x100_0000 == h % 0x100_0000
    ensures h % 0x100_0000 % 0x1_0000 == h % 0x1_0000
  {
    var q, r := h / 0x1_0000_0000, h % 0x1_0000_0000;
    assert h == 0x1_0000_0000 * q + r;
    var q1, r1 := h / 0x100_0000, h % 0x100_0000;
    assert h == 0x100_0000 * q1 + r1;
    assert r == 0x100_0000 * (q1 - 256 * q) + r1;
    var q2, r2 := h / 0x1_0000, h % 0x1_0000;
    assert h == 0x1_0000 * q2 + r2;
    assert r1 == 0x1_0000 * (q2 - 256 * q1) + r2;
  }

  lemma Shifted(v: nat, a: byte)
    requires v % 0x1_0000 == Pair(a)
    ensures (v * 256 + a) % 0x100_0000 == a as int * 0x1_0101
    ensures a as int * 0x1_0101 % 0x1_0000 == Pair(a)
  {
    var q := v / 0x1_0000;
    assert v == 0x1_0000 * q + Pair(a);
    assert v * 256 + a == 0x100_0000 * q + a as int * 0x1_0101;
  }

  lemma HashUniform(input: seq<byte>, v: nat, p: nat)
    requires Uniform(input) && p + 2 < |input| && v % 0x1_0000 == Pair(input[0])
    ensures var h := NextHash(v, input, p); h % 0x1_0000 == Pair(input[0]) && Slot(h) == SlotOf(input[0])
  {
    var a := input[0];
    assert input[p + 2] == a;
    var x := v * 256 + a;
    var h := NextHash(v, input, p);
    assert h == x % 0x1_0000_0000;
    Shifted(v, a);
    LowBytes(x);
    LowBytes(h);
    hide *;
    SlotLow(h);
    SlotIs(a);
  }

  lemma SlotIs(a: byte)
    ensures SlotOf(a) == Slot(a as int * 0x1_0101)
  {
  }

  lemma FirstUniform(input: seq<byte>, p: nat)
    requires Uniform(input) && p + 1 < |input|
    ensures First(input, p) % 0x1_0000 == Pair(input[0])
  {
  }

  lemma {:induction false} LongestUniform(input: seq<byte>, ref: nat, ip: nat, len: nat)
    requires Uniform(input) && ref < ip && ip + 4 < |input| && 3 <= len <= Limit(|input|, ip)
    ensures Longest(input, ref, ip, len) == Limit(|input|, ip)
    decreases |input| - len
  {
    if len < Limit(|input|, ip) {
      LongestUniform(input, ref, ip, len + 1);
    }
  }

  function Pieces(m: nat): nat {
    (m + 263) / 264
  }

  lemma {:induction false} LitsCost(k: nat, lit: nat)
    requires k + lit < MAX_LIT
    ensures Cost(Lits(k), lit) == if k == 0 && lit == 0 then -1 else k
    decreases k
  {
    if k > 0 {
      CostLit(Lits(k - 1), lit);
      LitsCost(k - 1, lit + 1);
    }
  }

  /** The table remembers the position before ip for the three bytes that are everywhere. */
  ghost predicate Remembers(input: seq<byte>, ip: nat, hval: nat, htab: Htab) {
    ip + 2 < |input| ==> hval % 0x1_0000 == Pair(input[0]) && htab[SlotOf(input[0])] == ip - 1
  }

  /** The choices after a match of l bytes, with the table t. */
  function AfterMatch(input: seq<byte>, ip: nat, h: nat, t: Htab, l: nat): seq<Item>
    requires ip + l <= |input| && l >= 2
  {
    if ip + l + 2 >= |input| then Greedy(input, ip + l, h, t)
    else Greedy(input, ip + l, Rehashed(input, ip + l, t).1, Rehashed(input, ip + l, t).0)
  }

  /** A followed slot is a match. */
  lemma GreedyMatch(input: seq<byte>, ip: nat, hval: nat, htab: Htab)
    requires ip + 4 < |input|
    requires Candidate(input, htab[Slot(NextHash(hval, input, ip))], ip)
    ensures var h := NextHash(hval, input, ip);
      var ref, t := htab[Slot(h)], htab[Slot(h) := ip];
      var l := Longest(input, ref, ip, 3);
      Greedy(input, ip, hval, htab) == [Ref(ip - ref, l)] + AfterMatch(input, ip, h, t, l)
  {
    hide NextHash, Slot, Longest, Candidate, Rehashed, Limit;
  }

  /** Any other slot makes a literal. */
  lemma GreedyLiteral(input: seq<byte>, ip: nat, hval: nat, htab: Htab)
    requires ip + 2 < |input|
    requires !Candidate(input, htab[Slot(NextHash(hval, input, ip))], ip)
    ensures var h := NextHash(hval, input, ip);
      Greedy(input, ip, hval, htab) == [Lit] + Greedy(input, ip + 1, h, htab[Slot(h) := ip])
  {
    hide NextHash, Slot, Longest, Candidate, Rehashed, Limit;
  }

  lemma UniformCandidate(input: seq<byte>, ip: nat)
    requires Uniform(input) && 2 <= ip && ip + 4 < |input|
    ensures Candidate(input, ip - 1, ip)
  {
  }

  /** One choice among equal bytes: from the third position on a reference to the position before, as long as can be,
      while five bytes are left. */
  lemma UniformStep(input: seq<byte>, ip: nat, hval: nat, htab: Htab) returns (hval': nat, htab': Htab)
    requires Uniform(input) && 2 <= ip && ip + 4 < |input| && Remembers(input, ip, hval, htab)
    ensures var l := Limit(|input|, ip);
      && Remembers(input, ip + l, hval', htab')
      && Greedy(input, ip, hval, htab) == [Ref(1, l)] + Greedy(input, ip + l, hval', htab')
  {
    HashUniform(input, hval, ip);
    var h := NextHash(hval, input, ip);
    var t := htab[Slot(h) := ip];
    assert htab[Slot(h)] == ip - 1;
    UniformCandidate(input, ip);
    LongestUniform(input, ip - 1, ip, 3);
    hide Greedy, NextHash, Slot, Limit, Longest, Candidate, Rehashed, Uniform;
    GreedyMatch(input, ip, hval, htab);
    var l := Limit(|input|, ip);
    if ip + l + 2 >= |input| {
      hval', htab' := h, t;
    } else {
      RehashUniform(input, ip + l, t);
      hval', htab' := Rehashed(input, ip + l, t).1, Rehashed(input, ip + l, t).0;
    }
  }

  lemma RehashUniform(input: seq<byte>, ip: nat, htab: Htab)
    requires Uniform(input) && 2 <= ip && ip + 2 < |input|
    ensures Remembers(input, ip, Rehashed(input, ip, htab).1, Rehashed(input, ip, htab).0)
  {
    FirstUniform(input, ip - 2);
    HashUniform(input, First(input, ip - 2), ip - 2);
    HashUniform(input, NextHash(First(input, ip - 2), input, ip - 2), ip - 1);
    hide First, NextHash, Slot, SlotOf, Pair;
  }

  /** Fewer than five bytes are left. */
  lemma {:induction false} UniformEnd(input: seq<byte>, ip: nat, hval: nat, htab: Htab)
    requires ip <= |input| <= ip + 4
    ensures Greedy(input, ip, hval, htab) == Lits(|input| - ip)
    decreases |input| - ip
  {
    hide NextHash, Slot, Candidate;
    if ip + 2 >= |input| {
      GreedyTail(input, ip, hval, htab);
    } else {
      var h := NextHash(hval, input, ip);
      assert !Candidate(input, htab[Slot(h)], ip) by {
        NoRoom(input, htab[Slot(h)], ip);
      }
      UniformEnd(input, ip + 1, h, htab[Slot(h) := ip]);
    }
  }

  lemma NoRoom(input: seq<byte>, ref: int, ip: nat)
    requires |input| <= ip + 4
    ensures !Candidate(input, ref, ip)
  {
  }

  lemma PiecesNext(m: nat)
    requires m > 264
    ensures Pieces(m) == 1 + Pieces(m - 264)
  {
  }

  lemma PiecesLess(m: nat)
    requires m > 2
    ensures 1 <= Pieces(m - 2) <= Pieces(m)
  {
  }

  /** From the third position on, m equal bytes cost three bytes for each 264 of them, and four for the end. */
  lemma {:induction false} UniformCost(input: seq<byte>, ip: nat, hval: nat, htab: Htab, lit: nat)
    requires Uniform(input) && 2 <= ip <= |input| && Remembers(input, ip, hval, htab) && lit <= 2
    ensures Cost(Greedy(input, ip, hval, htab), lit)
         <= 3 * Pieces(|input| - ip) + 4 + if lit == 0 then 0 else 1
    decreases |input| - ip
  {
    hide Greedy, Remembers, Uniform, Cost;
    var m := |input| - ip;
    if m <= 4 {
      UniformEnd(input, ip, hval, htab);
      LitsCost(m, lit);
    } else {
      var hval', htab' := UniformStep(input, ip, hval, htab);
      var l := Limit(|input|, ip);
      CostRef(1, l, Greedy(input, ip + l, hval', htab'), lit);
      if m <= 266 {
        UniformEnd(input, ip + l, hval', htab');
        LitsCost(m - l, 0);
      } else {
        PiecesNext(m);
        UniformCost(input, ip + l, hval', htab', 0);
      }
    }
  }

  /** However the table is filled at the start, n equal bytes, n > 2, take at most eight bytes and three for each 264
      of them. */
  lemma UniformSize(input: seq<byte>, htab: Htab, garbage: nat)
    requires Uniform(input) && |input| > 2
    ensures Size(input, htab, garbage) <= 8 + 3 * Pieces(|input|)
  {
    var h0 := First(input, 0);
    FirstUniform(input, 0);
    HashUniform(input, h0, 0);
    var h1 := NextHash(h0, input, 0);
    var t1 := htab[Slot(h1) := 0];
    NotBefore(input, htab[Slot(h1)], 0);
    NotBefore(input, 0, 1);
    PiecesLess(|input|);
    assert Size(input, htab, garbage) == 1 + Cost(Greedy(input, 0, h0, htab), 0);
    hide Greedy, Cost, NextHash, First, Candidate, Uniform, Slot, SlotOf, Pair, Pieces, Size;
    GreedyLiteral(input, 0, h0, htab);
    CostLit(Greedy(input, 1, h1, t1), 0);
    if |input| == 3 {
      UniformEnd(input, 1, h1, t1);
      LitsCost(2, 1);
    } else {
      HashUniform(input, h1, 1);
      var h2 := NextHash(h1, input, 1);
      var t2 := t1[Slot(h2) := 1];
      GreedyLiteral(input, 1, h1, t1);
      CostLit(Greedy(input, 2, h2, t2), 1);
      UniformCost(input, 2, h2, t2, 2);
    }
  }

  lemma NotBefore(input: seq<byte>, ref: int, ip: nat)
    requires ip == 0 || (ip == 1 && ref == 0)
    ensures !Candidate(input, ref, ip)
  {
  }
}
