/** The append-only file as text: commands in the request protocol, as catAppendOnlyGenericCommand
    prints them and loadAppendOnlyFile reads them back. */
module AofFormat {
  import opened Wrappers

  // ---- numbers

  function Digit(d: nat): char
    requires d < 10
  {
    "0123456789"[d]
  }

  /** ll2string for a number that is not negative. */
  function Dec(n: nat): (s: string)
    ensures s != []
  {
    if n < 10 then [Digit(n)] else Dec(n / 10) + [Digit(n % 10)]
  }

  function DecInt(n: int): string {
    if n < 0 then "-" + Dec(-n) else Dec(n)
  }

  predicate IsDigit(c: char) {
    '0' <= c <= '9'
  }

  /** The value of the digits at the front of s, after those worth acc. */
  function Digits(s: string, acc: nat): nat {
    if s == [] || !IsDigit(s[0]) then acc else Digits(s[1..], 10 * acc + (s[0] as nat - '0' as nat))
  }

  /** atoi, strtol and strtoll, as far as numbers fit. */
  function Atoi(s: string): int {
    if s != [] && s[0] in " \t\n\r" then Atoi(s[1..])
    else if s != [] && s[0] == '-' then -(Digits(s[1..], 0) as int)
    else if s != [] && s[0] == '+' then Digits(s[1..], 0)
    else Digits(s, 0)
  }

  function Pow10(k: nat): (p: nat)
    ensures p > 0
  {
    if k == 0 then 1 else 10 * Pow10(k - 1)
  }

  lemma {:induction false} DecDigits(n: nat)
    ensures forall i :: 0 <= i < |Dec(n)| ==> IsDigit(Dec(n)[i])
  {
    if n >= 10 {
      DecDigits(n / 10);
    }
  }

  lemma {:induction false} DecLength(n: nat, k: nat)
    requires k > 0 && n < Pow10(k)
    ensures |Dec(n)| <= k
  {
    assert Pow10(1) == 10 * Pow10(0);
    if n >= 10 {
      DecLength(n / 10, k - 1);
    }
  }

  lemma {:induction false} DigitsAppend(s: string, rest: string, acc: nat)
    requires forall i :: 0 <= i < |s| ==> IsDigit(s[i])
    ensures Digits(s + rest, acc) == Digits(rest, Digits(s, acc))
  {
    if s == [] {
      assert s + rest == rest;
    } else {
      assert (s + rest)[1..] == s[1..] + rest;
      DigitsAppend(s[1..], rest, 10 * acc + (s[0] as nat - '0' as nat));
    }
  }

  lemma {:induction false} DigitsOfDec(n: nat)
    ensures Digits(Dec(n), 0) == n
  {
    if n >= 10 {
      DecDigits(n / 10);
      DigitsAppend(Dec(n / 10), [Digit(n % 10)], 0);
      DigitsOfDec(n / 10);
      OneDigit(n % 10, n / 10);
    } else {
      OneDigit(n, 0);
    }
  }

  lemma OneDigit(d: nat, acc: nat)
    requires d < 10
    ensures Digits([Digit(d)], acc) == 10 * acc + d
  {
    assert [Digit(d)][1..] == [];
  }

  /** A printed number is read back, whatever non-digit follows it. */
  lemma AtoiOfDec(n: nat, rest: string)
    requires rest == [] || !IsDigit(rest[0])
    ensures Atoi(Dec(n) + rest) == n
  {
    DecDigits(n);
    DigitsAppend(Dec(n), rest, 0);
    DigitsOfDec(n);
    assert (Dec(n) + rest)[0] == Dec(n)[0];
  }

  lemma AtoiOfDecInt(n: int)
    ensures Atoi(DecInt(n)) == n
  {
    if n < 0 {
      DigitsOfDec(-n);
      assert DecInt(n)[1..] == Dec(-n);
    } else {
      AtoiOfDec(n, []);
      assert Dec(n) + [] == Dec(n);
    }
  }

  // ---- printing

  const CRLF: string := "\r\n"

  /** `*<count>` or `$<length>` and the line end. */
  function Header(c: char, n: nat): string {
    [c] + Dec(n) + CRLF
  }

  function Bulk(s: string): string {
    Header('$', |s|) + s + CRLF
  }

  function Bulks(argv: seq<string>): string {
    if argv == [] then [] else Bulk(argv[0]) + Bulks(argv[1..])
  }

  function Print(argv: seq<string>): string {
    Header('*', |argv|) + Bulks(argv)
  }

  /** Counts and lengths are C integers: atoi reads the count into an int. */
  const INT_MAX: nat := 0x7FFF_FFFF
  const LLONG_MAX: nat := 0x7FFF_FFFF_FFFF_FFFF

  predicate Short(s: string) {
    |s| <= LLONG_MAX
  }

  type ShortString = s: string | Short(s)

  /** The range of a C long long. */
  predicate LongLong(n: int) {
    0 <= n + LLONG_MAX + 1 && n <= LLONG_MAX
  }

  ghost predicate Printable(argv: seq<string>) {
    0 < |argv| <= INT_MAX && forall i :: 0 <= i < |argv| ==> Short(argv[i])
  }

  lemma {:induction false} BulksConcat(a: seq<string>, b: seq<string>)
    ensures Bulks(a + b) == Bulks(a) + Bulks(b)
  {
    if a == [] {
      assert a + b == b;
    } else {
      assert (a + b)[1..] == a[1..] + b;
      BulksConcat(a[1..], b);
    }
  }

  /** One argument: its length line, its bytes and the line end. */
  method CatBulk(dst0: string, x: string) returns (dst: string)
    ensures dst == dst0 + Bulk(x)
  {
    dst := dst0 + (['$'] + Dec(|x|) + "\r\n");
    dst := dst + x;
    dst := dst + "\r\n";
  }

  lemma BulksNext(head: string, argv: seq<string>, j: nat)
    requires j < |argv|
    ensures head + Bulks(argv[..j]) + Bulk(argv[j]) == head + Bulks(argv[..j + 1])
  {
    assert argv[..j + 1] == argv[..j] + [argv[j]] && [argv[j]][1..] == [];
    BulksConcat(argv[..j], [argv[j]]);
  }

  /** catAppendOnlyGenericCommand. */
  method CatGenericCommand(dst0: string, argv: seq<string>) returns (dst: string)
    ensures dst == dst0 + Print(argv)
  {
    dst := dst0 + (['*'] + Dec(|argv|) + "\r\n");
    ghost var head := dst;
    var j := 0;
    while j < |argv|
      invariant j <= |argv| && dst == head + Bulks(argv[..j])
    {
      BulksNext(head, argv, j);
      dst := CatBulk(dst, argv[j]);
      j := j + 1;
    }
    assert argv[..|argv|] == argv;
  }

  // ---- reading

  const LINE_MAX: nat := 127

  /** The length of what fgets takes, from character n on: up to a line feed, the buffer's size, or the end. */
  function LineEnd(s: string, n: nat): (m: nat)
    requires n <= |s|
    ensures n <= m <= |s|
    decreases |s| - n
  {
    if n == |s| || n >= LINE_MAX then n else if s[n] == '\n' then n + 1 else LineEnd(s, n + 1)
  }

  /** The bulk at the front of s: its contents and what follows, None on a format or read error. */
  function ParseBulk(s: string): Option<(string, string)> {
    var n := LineEnd(s, 0);
    if n == 0 || s[0] != '$' then None else
      var len := Atoi(s[1..n]);
      if len < 0 || n + len + 2 > |s| then None
      else Some((s[n..n + len], s[n + len + 2..]))
  }

  function ParseBulks(s: string, n: nat): Option<(seq<string>, string)>
    decreases n
  {
    if n == 0 then Some(([], s)) else
      match ParseBulk(s)
      case None => None
      case Some((b, rest)) =>
        match ParseBulks(rest, n - 1)
        case None => None
        case Some((bs, rest')) => Some(([b] + bs, rest'))
  }

  /** One round of loadAppendOnlyFile's loop on a file that is not at its end. */
  function Parse(s: string): Option<(seq<string>, string)>
    requires s != []
  {
    var n := LineEnd(s, 0);
    if s[0] != '*' then None else
      var argc := Atoi(s[1..n]);
      if argc < 1 then None else ParseBulks(s[n..], argc)
  }

  lemma {:induction false} LineEndAppend(s: string, t: string, n: nat)
    requires n <= |s| && LineEnd(s, n) < |s|
    ensures LineEnd(s + t, n) == LineEnd(s, n)
    decreases |s| - n
  {
    if n < |s| && n < LINE_MAX && s[n] != '\n' {
      LineEndAppend(s, t, n + 1);
    }
  }

  lemma ParseBulkAppend(s: string, t: string)
    requires ParseBulk(s).Some?
    ensures var (b, rest) := ParseBulk(s).value; ParseBulk(s + t) == Some((b, rest + t)) && |rest| < |s|
  {
    LineEndAppend(s, t, 0);
    var n := LineEnd(s, 0);
    var len := Atoi(s[1..n]);
    assert (s + t)[1..n] == s[1..n] && (s + t)[n..n + len] == s[n..n + len];
    assert (s + t)[n + len + 2..] == s[n + len + 2..] + t;
  }

  lemma {:induction false} ParseBulksAppend(s: string, t: string, n: nat)
    requires ParseBulks(s, n).Some?
    ensures var (bs, rest) := ParseBulks(s, n).value;
      ParseBulks(s + t, n) == Some((bs, rest + t)) && |rest| <= |s| && (n > 0 ==> |rest| < |s|) && |bs| == n
    decreases n
  {
    if n > 0 {
      ParseBulkAppend(s, t);
      ParseBulksAppend(ParseBulk(s).value.1, t, n - 1);
    }
  }

  /** A command that is read completely is read the same with more text behind it. */
  lemma ParseAppend(s: string, t: string)
    requires s != [] && Parse(s).Some?
    ensures var (argv, rest) := Parse(s).value;
      Parse(s + t) == Some((argv, rest + t)) && |rest| < |s| && argv != []
  {
    hide Atoi, ParseBulks;
    var n := LineEnd(s, 0);
    var argc := Atoi(s[1..n]);
    ParseBulksAppend(s[n..], t, argc);
    assert n < |s|;
    LineEndAppend(s, t, 0);
    assert (s + t)[n..] == s[n..] + t && (s + t)[1..n] == s[1..n];
  }

  // ---- what is read

  /** A line as it is read: up to its line feed, or cut by the buffer. */
  ghost predicate IsLine(line: string, c: char, n: int) {
    line != [] && line[0] == c && Atoi(line[1..]) == n
  }

  /** What is read as a bulk is a line with `$` and its length, the bytes, and two more. */
  lemma BulkRead(s: string)
    ensures ParseBulk(s).Some? ==>
      var (b, rest) := ParseBulk(s).value;
      exists line, end: string :: IsLine(line, '$', |b|) && |end| == 2 && s == line + b + end + rest
  {
    hide Atoi;
    if ParseBulk(s).Some? {
      var n := LineEnd(s, 0);
      var len := Atoi(s[1..n]);
      var line, b, end, rest := s[..n], s[n..n + len], s[n + len..n + len + 2], s[n + len + 2..];
      assert line[1..] == s[1..n] && s == line + b + end + rest && IsLine(line, '$', |b|);
    }
  }

  /** What is read as a command is a line with `*` and the number of its arguments, at least one. */
  lemma CommandRead(s: string)
    requires s != []
    ensures Parse(s).Some? ==>
      var (argv, rest) := Parse(s).value;
      exists line, bulks: string ::
        && IsLine(line, '*', |argv|) && |argv| >= 1 && s == line + bulks
        && ParseBulks(bulks, |argv|) == Some((argv, rest))
  {
    hide Atoi, ParseBulks;
    if Parse(s).Some? {
      var n := LineEnd(s, 0);
      var argc := Atoi(s[1..n]);
      ParseBulksAppend(s[n..], [], argc);
      assert n > 0 by {
        FirstLine(s);
      }
      assert s[..n][1..] == s[1..n] && s == s[..n] + s[n..] && IsLine(s[..n], '*', argc);
    }
  }

  lemma FirstLine(s: string)
    requires s != []
    ensures LineEnd(s, 0) > 0
  {
  }

  // ---- what is printed is read back

  lemma {:induction false} LineEndAt(s: string, n: nat, m: nat)
    requires n <= m < |s| && s[m] == '\n' && m < LINE_MAX
    requires forall i :: n <= i < m ==> s[i] != '\n'
    ensures LineEnd(s, n) == m + 1
    decreases m - n
  {
    if n < m {
      LineEndAt(s, n + 1, m);
    }
  }

  lemma Small(n: nat)
    requires n <= LLONG_MAX + 1
    ensures |Dec(n)| <= 19
  {
    assert Pow10(19) > LLONG_MAX + 1 by {
      assert Pow10(4) == 10000;
      assert Pow10(8) == 10000 * Pow10(4);
      assert Pow10(12) == 10000 * Pow10(8);
      assert Pow10(16) == 10000 * Pow10(12);
      assert Pow10(19) == 1000 * Pow10(16);
    }
    DecLength(n, 19);
  }

  lemma HeaderLine(c: char, n: nat, rest: string)
    requires n <= LLONG_MAX && c != '\n'
    ensures var s := Header(c, n) + rest;
      && LineEnd(s, 0) == |Header(c, n)| && s[0] == c
      && Atoi(s[1..|Header(c, n)|]) == n && s[|Header(c, n)|..] == rest
  {
    var h := Header(c, n);
    var s := h + rest;
    DecDigits(n);
    Small(n);
    assert h == [c] + (Dec(n) + CRLF);
    forall i | 0 <= i < |h| - 1
      ensures s[i] != '\n'
    {
      if 0 < i < |h| - 2 {
        assert s[i] == Dec(n)[i - 1];
      }
    }
    LineEndAt(s, 0, |h| - 1);
    assert s[1..|h|] == Dec(n) + CRLF;
    AtoiOfDec(n, CRLF);
  }

  lemma ParseBulkPrinted(x: string, rest: string)
    requires |x| <= LLONG_MAX
    ensures ParseBulk(Bulk(x) + rest) == Some((x, rest))
  {
    var s := Bulk(x) + rest;
    assert s == Header('$', |x|) + (x + CRLF + rest);
    HeaderLine('$', |x|, x + CRLF + rest);
    var n := |Header('$', |x|)|;
    assert s[n..] == x + CRLF + rest;
    assert s[n..n + |x|] == x && s[n + |x| + 2..] == rest;
  }

  lemma {:induction false} ParseBulksPrinted(argv: seq<string>, rest: string)
    requires forall i :: 0 <= i < |argv| ==> |argv[i]| <= LLONG_MAX
    ensures ParseBulks(Bulks(argv) + rest, |argv|) == Some((argv, rest))
  {
    hide Bulk, ParseBulk;
    if argv == [] {
      assert Bulks(argv) + rest == rest;
    } else {
      assert Bulks(argv) + rest == Bulk(argv[0]) + (Bulks(argv[1..]) + rest);
      ParseBulkPrinted(argv[0], Bulks(argv[1..]) + rest);
      ParseBulksPrinted(argv[1..], rest);
      assert argv == [argv[0]] + argv[1..];
    }
  }

  /** Reading a printed command gives its arguments back, and leaves the text after it. */
  lemma ParsePrinted(argv: seq<string>, rest: string)
    requires Printable(argv)
    ensures Print(argv) + rest != [] && Parse(Print(argv) + rest) == Some((argv, rest))
  {
    var s := Print(argv) + rest;
    assert s == Header('*', |argv|) + (Bulks(argv) + rest);
    HeaderLine('*', |argv|, Bulks(argv) + rest);
    ParseBulksPrinted(argv, rest);
  }
}
