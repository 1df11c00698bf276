/** What pqsort promises: positions, permutations and comparison functions. */
module SortSpec {

  /** A comparison function in the sense of qsort(3): a total preorder by signs. */
  ghost predicate TotalPreorder<T(!new)>(cmp: (T, T) -> int) {
    && (forall x, y :: cmp(x, y) < 0 <==> cmp(y, x) > 0)
    && (forall x, y, z :: cmp(x, y) <= 0 && cmp(y, z) <= 0 ==> cmp(x, z) <= 0)
  }

  /** t is s with the elements lo..hi-1 rearranged. */
  ghost predicate PermRange<T>(s: seq<T>, t: seq<T>, lo: nat, hi: nat) {
    && |s| == |t| && lo <= hi <= |s|
    && s[..lo] == t[..lo] && s[hi..] == t[hi..]
    && multiset(s[lo..hi]) == multiset(t[lo..hi])
  }

  lemma PermTrans<T>(s: seq<T>, t: seq<T>, u: seq<T>, lo: nat, hi: nat)
    requires PermRange(s, t, lo, hi) && PermRange(t, u, lo, hi)
    ensures PermRange(s, u, lo, hi)
  {
  }

  lemma PermWiden<T>(s: seq<T>, t: seq<T>, lo: nat, hi: nat, lo': nat, hi': nat)
    requires PermRange(s, t, lo, hi) && lo' <= lo && hi <= hi' <= |s|
    ensures PermRange(s, t, lo', hi')
  {
    assert s[..lo'] == s[..lo][..lo'] && t[..lo'] == t[..lo][..lo'];
    assert s[hi'..] == s[hi..][hi' - hi..] && t[hi'..] == t[hi..][hi' - hi..];
    assert s[lo'..hi'] == s[..lo][lo'..] + s[lo..hi] + s[hi..][..hi' - hi];
    assert t[lo'..hi'] == t[..lo][lo'..] + t[lo..hi] + t[hi..][..hi' - hi];
  }

  /** An element of the rearranged range was in the range before. */
  lemma PermMember<T>(s: seq<T>, t: seq<T>, lo: nat, hi: nat, i: nat) returns (j: nat)
    requires PermRange(s, t, lo, hi) && lo <= i < hi
    ensures lo <= j < hi && s[j] == t[i]
  {
    assert t[i] == t[lo..hi][i - lo];
    assert t[i] in multiset(s[lo..hi]);
    var k :| 0 <= k < hi - lo && s[lo..hi][k] == t[i];
    j := lo + k;
  }

  lemma PermOutside<T>(s: seq<T>, t: seq<T>, lo: nat, hi: nat, i: nat)
    requires PermRange(s, t, lo, hi) && i < |s| && (i < lo || hi <= i)
    ensures s[i] == t[i]
  {
    if i < lo {
      assert s[i] == s[..lo][i];
    } else {
      assert s[i] == s[hi..][i - hi];
    }
  }

  function Swapped<T>(s: seq<T>, i: nat, j: nat): seq<T>
    requires i < |s| && j < |s|
  {
    s[i := s[j]][j := s[i]]
  }

  lemma SwapPerm<T>(s: seq<T>, i: nat, j: nat, lo: nat, hi: nat)
    requires lo <= i < hi <= |s| && lo <= j < hi
    ensures PermRange(s, Swapped(s, i, j), lo, hi)
  {
    var t := Swapped(s, i, j);
    assert t[lo..hi] == Swapped(s[lo..hi], i - lo, j - lo);
  }

  /** Element i is where sorting s[lo..hi] would put it. */
  ghost predicate Placed<T(!new)>(s: seq<T>, lo: nat, hi: nat, i: nat, cmp: (T, T) -> int)
    requires lo <= i < hi <= |s|
  {
    && (forall j :: lo <= j < i ==> cmp(s[j], s[i]) <= 0)
    && (forall j :: i < j < hi ==> cmp(s[i], s[j]) <= 0)
  }

  ghost predicate PlacedIn<T(!new)>(s: seq<T>, lo: nat, hi: nat, lrange: nat, rrange: nat, cmp: (T, T) -> int)
    requires lo <= hi <= |s|
  {
    forall i :: lo <= i < hi && lrange <= i <= rrange ==> Placed(s, lo, hi, i, cmp)
  }

  ghost predicate Sorted<T(!new)>(s: seq<T>, lo: nat, hi: nat, cmp: (T, T) -> int)
    requires lo <= hi <= |s|
  {
    forall i, j :: lo <= i < j < hi ==> cmp(s[i], s[j]) <= 0
  }

  // ---- a placed element is what a full sort puts there

  /** How many elements come strictly before v, by the sign given. */
  function Count<T>(s: seq<T>, v: T, cmp: (T, T) -> int, below: bool): nat {
    if s == [] then 0
    else (if (if below then cmp(s[0], v) < 0 else cmp(s[0], v) > 0) then 1 else 0) + Count(s[1..], v, cmp, below)
  }

  lemma {:induction false} CountConcat<T>(a: seq<T>, b: seq<T>, v: T, cmp: (T, T) -> int, below: bool)
    ensures Count(a + b, v, cmp, below) == Count(a, v, cmp, below) + Count(b, v, cmp, below)
  {
    if a == [] {
      assert a + b == b;
    } else {
      assert (a + b)[1..] == a[1..] + b;
      CountConcat(a[1..], b, v, cmp, below);
    }
  }

  lemma {:induction false} CountPerm<T>(s: seq<T>, t: seq<T>, v: T, cmp: (T, T) -> int, below: bool)
    requires multiset(s) == multiset(t)
    ensures Count(s, v, cmp, below) == Count(t, v, cmp, below)
  {
    if s == [] {
      assert |multiset(s)| == |multiset(t)|;
    } else {
      assert s[0] in multiset(t);
      var j :| 0 <= j < |t| && t[j] == s[0];
      var t' := t[..j] + t[j + 1..];
      assert t == t[..j] + ([t[j]] + t[j + 1..]);
      RemoveFirst(s, t, j);
      CountPerm(s[1..], t', v, cmp, below);
      CountConcat(t[..j], [t[j]] + t[j + 1..], v, cmp, below);
      CountConcat(t[..j], t[j + 1..], v, cmp, below);
    }
  }

  lemma RemoveFirst<T>(s: seq<T>, t: seq<T>, j: nat)
    requires multiset(s) == multiset(t) && s != [] && j < |t| && t[j] == s[0]
    ensures multiset(s[1..]) == multiset(t[..j] + t[j + 1..])
  {
    assert s == [s[0]] + s[1..];
    assert t == t[..j] + [t[j]] + t[j + 1..];
    var m, m' := multiset(s[1..]), multiset(t[..j] + t[j + 1..]);
    assert multiset(s) == multiset{s[0]} + m && multiset(t) == m' + multiset{t[j]};
    assert m == multiset(s) - multiset{s[0]} && m' == multiset(t) - multiset{s[0]};
  }

  lemma {:induction false} CountNone<T>(s: seq<T>, v: T, cmp: (T, T) -> int, below: bool)
    requires forall i :: 0 <= i < |s| ==> if below then cmp(s[i], v) >= 0 else cmp(s[i], v) <= 0
    ensures Count(s, v, cmp, below) == 0
  {
    if s != [] {
      CountNone(s[1..], v, cmp, below);
    }
  }

  lemma {:induction false} CountAll<T>(s: seq<T>, v: T, cmp: (T, T) -> int, below: bool)
    requires forall i :: 0 <= i < |s| ==> if below then cmp(s[i], v) < 0 else cmp(s[i], v) > 0
    ensures Count(s, v, cmp, below) == |s|
  {
    if s != [] {
      CountAll(s[1..], v, cmp, below);
    }
  }

  lemma {:induction false} CountAtMost<T>(s: seq<T>, v: T, cmp: (T, T) -> int, below: bool)
    ensures Count(s, v, cmp, below) <= |s|
  {
    if s != [] {
      CountAtMost(s[1..], v, cmp, below);
    }
  }

  lemma CountSplit<T>(s: seq<T>, m: nat, v: T, cmp: (T, T) -> int, below: bool)
    requires m <= |s|
    ensures Count(s, v, cmp, below) == Count(s[..m], v, cmp, below) + Count(s[m..], v, cmp, below)
  {
    assert s == s[..m] + s[m..];
    CountConcat(s[..m], s[m..], v, cmp, below);
  }

  lemma LessTrans<T(!new)>(x: T, y: T, v: T, cmp: (T, T) -> int)
    requires TotalPreorder(cmp)
    ensures cmp(x, y) <= 0 && cmp(y, v) < 0 ==> cmp(x, v) < 0
    ensures cmp(y, x) <= 0 && cmp(y, v) > 0 ==> cmp(x, v) > 0
    ensures cmp(x, x) == 0
    ensures cmp(x, y) == 0 <==> cmp(y, x) == 0
  {
  }

  /** At most i elements come before a placed s[i], and at most the rest after it. */
  lemma PlacedCount<T(!new)>(s: seq<T>, i: nat, cmp: (T, T) -> int)
    requires TotalPreorder(cmp) && i < |s| && Placed(s, 0, |s|, i, cmp)
    ensures Count(s, s[i], cmp, true) <= i && Count(s, s[i], cmp, false) <= |s| - i - 1
  {
    var v := s[i];
    LessTrans(v, v, v, cmp);
    CountSplit(s, i, v, cmp, true);
    CountNone(s[i..], v, cmp, true);
    CountAtMost(s[..i], v, cmp, true);
    CountSplit(s, i + 1, v, cmp, false);
    CountNone(s[..i + 1], v, cmp, false);
    CountAtMost(s[i + 1..], v, cmp, false);
  }

  lemma SortedCount<T(!new)>(t: seq<T>, i: nat, v: T, cmp: (T, T) -> int)
    requires TotalPreorder(cmp) && i < |t| && Sorted(t, 0, |t|, cmp)
    ensures cmp(t[i], v) < 0 ==> Count(t, v, cmp, true) > i
    ensures cmp(t[i], v) > 0 ==> Count(t, v, cmp, false) > |t| - i - 1
  {
    hide TotalPreorder;
    forall j | 0 <= j < |t|
      ensures j <= i && cmp(t[i], v) < 0 ==> cmp(t[j], v) < 0
      ensures j >= i && cmp(t[i], v) > 0 ==> cmp(t[j], v) > 0
    {
      LessTrans(t[j], t[i], v, cmp);
    }
    if cmp(t[i], v) < 0 {
      CountSplit(t, i + 1, v, cmp, true);
      CountAll(t[..i + 1], v, cmp, true);
    } else if cmp(t[i], v) > 0 {
      CountSplit(t, i, v, cmp, false);
      CountAll(t[i..], v, cmp, false);
    }
  }

  /** Any sorted rearrangement t of s holds at position i an element equivalent to a placed s[i]. */
  lemma PlacedAgrees<T(!new)>(s: seq<T>, t: seq<T>, i: nat, cmp: (T, T) -> int)
    requires TotalPreorder(cmp) && multiset(s) == multiset(t) && i < |s| == |t|
    requires Placed(s, 0, |s|, i, cmp) && Sorted(t, 0, |t|, cmp)
    ensures cmp(s[i], t[i]) == 0
  {
    PlacedCount(s, i, cmp);
    SortedCount(t, i, s[i], cmp);
    CountPerm(s, t, s[i], cmp, true);
    CountPerm(s, t, s[i], cmp, false);
    LessTrans(s[i], t[i], t[i], cmp);
  }
}
