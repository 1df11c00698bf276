/** pqsort.c: the Bentley-McIlroy quicksort that leaves subranges outside lrange..rrange alone. */
module PartialSort {
  import opened SortSpec

  method Swap<T>(a: array<T>, i: nat, j: nat)
    requires i < a.Length && j < a.Length
    modifies a
    ensures a[..] == Swapped(old(a[..]), i, j)
  {
    a[i], a[j] := a[j], a[i];
  }

  ghost predicate Between<T>(x: T, m: T, y: T, cmp: (T, T) -> int) {
    (cmp(x, m) <= 0 && cmp(m, y) <= 0) || (cmp(y, m) <= 0 && cmp(m, x) <= 0)
  }

  /** The median of three positions. */
  function Med3<T(!new)>(s: seq<T>, i: nat, j: nat, k: nat, cmp: (T, T) -> int): (m: nat)
    requires i < |s| && j < |s| && k < |s|
    ensures m == i || m == j || m == k
    ensures TotalPreorder(cmp) ==>
      || (m == i && Between(s[j], s[i], s[k], cmp))
      || (m == j && Between(s[i], s[j], s[k], cmp))
      || (m == k && Between(s[i], s[k], s[j], cmp))
  {
    if cmp(s[i], s[j]) < 0 then
      if cmp(s[j], s[k]) < 0 then j else if cmp(s[i], s[k]) < 0 then k else i
    else
      if cmp(s[j], s[k]) > 0 then j else if cmp(s[i], s[k]) < 0 then i else k
  }

  lemma Unsorted<T(!new)>(s: seq<T>, lo: nat, hi: nat, cmp: (T, T) -> int)
    requires lo <= hi <= |s|
    ensures PermRange(s, s, lo, hi) && Sorted(s, lo, lo, cmp) && (lo < hi ==> Sorted(s, lo, lo + 1, cmp))
  {
  }

  /** The insertion sort for fewer than seven elements. */
  method InsertionSort<T(!new)>(a: array<T>, lo: nat, n: nat, cmp: (T, T) -> int)
    requires lo + n <= a.Length && TotalPreorder(cmp)
    modifies a
    ensures PermRange(old(a[..]), a[..], lo, lo + n)
    ensures Sorted(a[..], lo, lo + n, cmp)
  {
    hide PermRange, TotalPreorder, Sorted;
    ghost var s0, hi := a[..], lo + n;
    Unsorted(s0, lo, hi, cmp);
    var pm := lo + 1;
    while pm < lo + n
      invariant lo < pm && (pm <= hi || n == 0) && PermRange(s0, a[..], lo, hi)
      invariant Sorted(a[..], lo, if n == 0 then lo else pm, cmp)
    {
      ghost var s := a[..];
      Insert(a, lo, pm, lo + n, cmp);
      PermTrans(s0, s, a[..], lo, hi);
      pm := pm + 1;
    }
  }

  /** s[lo..pm] is sorted but for the element at pl, which comes before those after it. */
  ghost predicate Sinking<T(!new)>(s: seq<T>, lo: nat, pl: nat, pm: nat, cmp: (T, T) -> int) {
    lo <= pl <= pm < |s| && forall i, j :: lo <= i < j <= pm && j != pl ==> cmp(s[i], s[j]) <= 0
  }

  lemma SinkingStep<T(!new)>(s: seq<T>, lo: nat, pl: nat, pm: nat, cmp: (T, T) -> int)
    requires TotalPreorder(cmp) && Sinking(s, lo, pl, pm, cmp) && lo < pl && cmp(s[pl - 1], s[pl]) > 0
    ensures Sinking(Swapped(s, pl, pl - 1), lo, pl - 1, pm, cmp)
  {
    var t := Swapped(s, pl, pl - 1);
    LessTrans(s[pl], s[pl - 1], s[pl], cmp);
    assert cmp(s[pl], s[pl - 1]) <= 0;
    hide TotalPreorder;
    forall i, j | lo <= i < j <= pm && j != pl - 1
      ensures cmp(t[i], t[j]) <= 0
    {
      var i' := if i == pl - 1 then pl else if i == pl then pl - 1 else i;
      var j' := if j == pl then pl - 1 else j;
      assert t[i] == s[i'] && t[j] == s[j'];
      assert i' < j' || (i' == pl && j' == pl - 1);
    }
  }

  lemma SinkingDone<T(!new)>(s: seq<T>, lo: nat, pl: nat, pm: nat, cmp: (T, T) -> int)
    requires TotalPreorder(cmp) && Sinking(s, lo, pl, pm, cmp) && (pl > lo ==> cmp(s[pl - 1], s[pl]) <= 0)
    ensures Sorted(s, lo, pm + 1, cmp)
  {
    forall i, j | lo <= i < j <= pm
      ensures cmp(s[i], s[j]) <= 0
    {
      if j == pl && i < pl - 1 {
        assert cmp(s[i], s[pl - 1]) <= 0;
      }
    }
  }

  /** The inner loop of the insertion sort: the element at pm sinks to its place. */
  method Insert<T(!new)>(a: array<T>, lo: nat, pm: nat, hi: nat, cmp: (T, T) -> int)
    requires lo <= pm < hi <= a.Length && TotalPreorder(cmp) && Sorted(a[..], lo, pm, cmp)
    modifies a
    ensures PermRange(old(a[..]), a[..], lo, hi)
    ensures Sorted(a[..], lo, pm + 1, cmp)
  {
    var pl := pm;
    assert Sinking(a[..], lo, pl, pm, cmp);
    while pl > lo && cmp(a[pl - 1], a[pl]) > 0
      invariant lo <= pl <= pm && PermRange(old(a[..]), a[..], lo, hi)
      invariant Sinking(a[..], lo, pl, pm, cmp)
    {
      ghost var s := a[..];
      SwapPerm(s, pl, pl - 1, lo, hi);
      SinkingStep(s, lo, pl, pm, cmp);
      Swap(a, pl, pl - 1);
      PermTrans(old(a[..]), s, a[..], lo, hi);
      pl := pl - 1;
    }
    SinkingDone(a[..], lo, pl, pm, cmp);
  }

  /** The partition in progress: equal, smaller, unknown, greater, equal. */
  ghost predicate Parts<T>(s: seq<T>, lo: nat, hi: nat, pa: int, pb: int, pc: int, pd: int, v: T, cmp: (T, T) -> int) {
    && lo < pa <= pb <= pc + 1 && pc <= pd < hi <= |s| && s[lo] == v
    && (forall i :: lo <= i < pa ==> cmp(s[i], v) == 0)
    && (forall i :: pa <= i < pb ==> cmp(s[i], v) < 0)
    && (forall i :: pc < i <= pd ==> cmp(s[i], v) > 0)
    && (forall i :: pd < i < hi ==> cmp(s[i], v) == 0)
  }

  lemma PermSame<T>(s: seq<T>, lo: nat, hi: nat)
    requires lo <= hi <= |s|
    ensures PermRange(s, s, lo, hi)
  {
  }

  lemma PartsPivot<T>(s: seq<T>, lo: nat, hi: nat, pa: int, pb: int, pc: int, pd: int, v: T, cmp: (T, T) -> int)
    requires Parts(s, lo, hi, pa, pb, pc, pd, v, cmp)
    ensures lo < pa <= pb <= pc + 1 && pc <= pd < hi <= |s| && s[lo] == v
  {
  }

  lemma PartsUp<T>(s: seq<T>, lo: nat, hi: nat, pa: int, pb: int, pc: int, pd: int, v: T, cmp: (T, T) -> int)
    requires Parts(s, lo, hi, pa, pb, pc, pd, v, cmp) && pb <= pc
    ensures cmp(s[pb], v) < 0 ==> Parts(s, lo, hi, pa, pb + 1, pc, pd, v, cmp)
    ensures cmp(s[pb], v) == 0 ==> Parts(Swapped(s, pa, pb), lo, hi, pa + 1, pb + 1, pc, pd, v, cmp)
  {
  }

  lemma PartsDown<T>(s: seq<T>, lo: nat, hi: nat, pa: int, pb: int, pc: int, pd: int, v: T, cmp: (T, T) -> int)
    requires Parts(s, lo, hi, pa, pb, pc, pd, v, cmp) && pb <= pc
    ensures cmp(s[pc], v) > 0 ==> Parts(s, lo, hi, pa, pb, pc - 1, pd, v, cmp)
    ensures cmp(s[pc], v) == 0 ==> Parts(Swapped(s, pc, pd), lo, hi, pa, pb, pc - 1, pd - 1, v, cmp)
  {
  }

  /** Two places exchanged, after other exchanges. */
  method SwapMore<T>(a: array<T>, i: nat, j: nat, ghost lo: nat, ghost hi: nat, ghost s0: seq<T>)
    requires lo <= i < hi <= a.Length && lo <= j < hi && PermRange(s0, a[..], lo, hi)
    modifies a
    ensures a[..] == Swapped(old(a[..]), i, j) && PermRange(s0, a[..], lo, hi)
  {
    hide PermRange, Swapped;
    SwapPerm(a[..], i, j, lo, hi);
    ghost var s := a[..];
    Swap(a, i, j);
    PermTrans(s0, s, a[..], lo, hi);
  }

  /** `while (pb <= pc && cmp(pb, a) <= 0)` */
  method ScanUp<T(!new)>(a: array<T>, lo: nat, hi: nat, pa: int, pb: int, pc: int, pd: int, ghost v: T, cmp: (T, T) -> int)
    returns (pa': int, pb': int)
    requires hi <= a.Length && Parts(a[..], lo, hi, pa, pb, pc, pd, v, cmp)
    modifies a
    ensures PermRange(old(a[..]), a[..], lo, hi)
    ensures Parts(a[..], lo, hi, pa', pb', pc, pd, v, cmp) && pb <= pb'
    ensures pb' > pc || cmp(a[pb'], v) > 0
  {
    ghost var s0 := a[..];
    PermSame(s0, lo, hi);
    PartsPivot(s0, lo, hi, pa, pb, pc, pd, v, cmp);
    hide PermRange, Parts, Swapped;
    pa', pb' := pa, pb;
    while pb' <= pc && cmp(a[pb'], a[lo]) <= 0
      invariant lo < pa' <= pb' <= pc + 1 && pc <= pd < hi && a[..][lo] == v
      invariant Parts(a[..], lo, hi, pa', pb', pc, pd, v, cmp) && pb <= pb'
      invariant PermRange(s0, a[..], lo, hi)
    {
      PartsUp(a[..], lo, hi, pa', pb', pc, pd, v, cmp);
      if cmp(a[pb'], a[lo]) == 0 {
        SwapMore(a, pa', pb', lo, hi, s0);
        pa' := pa' + 1;
      }
      pb' := pb' + 1;
      PartsPivot(a[..], lo, hi, pa', pb', pc, pd, v, cmp);
    }
  }

  /** `while (pb <= pc && cmp(pc, a) >= 0)` */
  method ScanDown<T(!new)>(a: array<T>, lo: nat, hi: nat, pa: int, pb: int, pc: int, pd: int, ghost v: T, cmp: (T, T) -> int)
    returns (pc': int, pd': int)
    requires hi <= a.Length && Parts(a[..], lo, hi, pa, pb, pc, pd, v, cmp)
    modifies a
    ensures PermRange(old(a[..]), a[..], lo, hi)
    ensures Parts(a[..], lo, hi, pa, pb, pc', pd', v, cmp) && pc' <= pc
    ensures pb <= pc' ==> a[..][pb] == old(a[..])[pb]
    ensures pb > pc' || cmp(a[pc'], v) < 0
  {
    ghost var s0 := a[..];
    PermSame(s0, lo, hi);
    PartsPivot(s0, lo, hi, pa, pb, pc, pd, v, cmp);
    hide PermRange, Parts;
    pc', pd' := pc, pd;
    while pb <= pc' && cmp(a[pc'], a[lo]) >= 0
      invariant lo < pa <= pb <= pc' + 1 && pc' <= pd' < hi && a[..][lo] == v
      invariant Parts(a[..], lo, hi, pa, pb, pc', pd', v, cmp) && pc' <= pc
      invariant PermRange(s0, a[..], lo, hi)
      invariant pb <= pc' ==> a[..][pb] == s0[pb]
      decreases pc'
    {
      PartsDown(a[..], lo, hi, pa, pb, pc', pd', v, cmp);
      if cmp(a[pc'], a[lo]) == 0 {
        SwapMore(a, pc', pd', lo, hi, s0);
        pd' := pd' - 1;
      }
      pc' := pc' - 1;
      PartsPivot(a[..], lo, hi, pa, pb, pc', pd', v, cmp);
    }
  }

  lemma PartsSwap<T>(s: seq<T>, lo: nat, hi: nat, pa: int, pb: int, pc: int, pd: int, v: T, cmp: (T, T) -> int)
    requires Parts(s, lo, hi, pa, pb, pc, pd, v, cmp) && pb < pc && cmp(s[pb], v) > 0 && cmp(s[pc], v) < 0
    ensures Parts(Swapped(s, pb, pc), lo, hi, pa, pb + 1, pc - 1, pd, v, cmp)
  {
  }

  /** `swap(pb, pc)` between the two scans' stopping points. */
  method SwapAcross<T>(a: array<T>, lo: nat, hi: nat, pa: int, pb: int, pc: int, pd: int, ghost v: T, cmp: (T, T) -> int)
    requires hi <= a.Length && Parts(a[..], lo, hi, pa, pb, pc, pd, v, cmp)
    requires pb <= pc && cmp(a[pb], v) > 0 && cmp(a[pc], v) < 0
    modifies a
    ensures PermRange(old(a[..]), a[..], lo, hi)
    ensures Parts(a[..], lo, hi, pa, pb + 1, pc - 1, pd, v, cmp)
  {
    SwapPerm(a[..], pb, pc, lo, hi);
    PartsSwap(a[..], lo, hi, pa, pb, pc, pd, v, cmp);
    Swap(a, pb, pc);
  }

  /** One round of the `for (;;)` loop. */
  method Round<T(!new)>(a: array<T>, lo: nat, hi: nat, pa: int, pb: int, pc: int, pd: int, ghost v: T, cmp: (T, T) -> int)
    returns (more: bool, pa': int, pb': int, pc': int, pd': int)
    requires hi <= a.Length && Parts(a[..], lo, hi, pa, pb, pc, pd, v, cmp)
    modifies a
    ensures PermRange(old(a[..]), a[..], lo, hi)
    ensures Parts(a[..], lo, hi, pa', pb', pc', pd', v, cmp)
    ensures if more then pc' - pb' < pc - pb else pb' == pc' + 1
  {
    hide PermRange;
    pa', pb' := ScanUp(a, lo, hi, pa, pb, pc, pd, v, cmp);
    ghost var s := a[..];
    pc', pd' := ScanDown(a, lo, hi, pa', pb', pc, pd, v, cmp);
    PermTrans(old(a[..]), s, a[..], lo, hi);
    more := pb' <= pc';
    if more {
      s := a[..];
      SwapAcross(a, lo, hi, pa', pb', pc', pd', v, cmp);
      PermTrans(old(a[..]), s, a[..], lo, hi);
      pb', pc' := pb' + 1, pc' - 1;
    }
  }

  /** The `for (;;)` loop: everything after the pivot at lo is compared with it. */
  method Partition<T(!new)>(a: array<T>, lo: nat, hi: nat, cmp: (T, T) -> int) returns (pa: int, pb: int, pc: int, pd: int)
    requires lo + 1 < hi <= a.Length && TotalPreorder(cmp)
    modifies a
    ensures PermRange(old(a[..]), a[..], lo, hi)
    ensures pb == pc + 1 && Parts(a[..], lo, hi, pa, pb, pc, pd, old(a[lo]), cmp)
  {
    ghost var v := a[lo];
    pa, pb := lo + 1, lo + 1;
    pc, pd := hi - 1, hi - 1;
    LessTrans(v, v, v, cmp);
    var more := true;
    while more
      invariant Parts(a[..], lo, hi, pa, pb, pc, pd, v, cmp)
      invariant PermRange(old(a[..]), a[..], lo, hi)
      invariant !more ==> pb == pc + 1
      decreases more, pc - pb + 1
    {
      ghost var s := a[..];
      more, pa, pb, pc, pd := Round(a, lo, hi, pa, pb, pc, pd, v, cmp);
      PermTrans(old(a[..]), s, a[..], lo, hi);
    }
  }

  lemma PartsBounds<T>(s: seq<T>, lo: nat, hi: nat, pa: int, pb: int, pc: int, pd: int, v: T, cmp: (T, T) -> int)
    requires Parts(s, lo, hi, pa, pb, pc, pd, v, cmp)
    ensures lo < pa <= pb && pc <= pd < hi <= |s|
  {
  }

  /** Smaller than v, equivalent to it, greater. */
  ghost predicate Three<T>(s: seq<T>, lo: nat, l: nat, r: nat, hi: nat, v: T, cmp: (T, T) -> int) {
    && lo <= l < r <= hi <= |s|
    && (forall i :: lo <= i < l ==> cmp(s[i], v) < 0)
    && (forall i :: l <= i < r ==> cmp(s[i], v) == 0)
    && (forall i :: r <= i < hi ==> cmp(s[i], v) > 0)
  }

  lemma ThreeBounds<T>(s: seq<T>, lo: nat, l: nat, r: nat, hi: nat, v: T, cmp: (T, T) -> int)
    requires Three(s, lo, l, r, hi, v, cmp)
    ensures lo <= l < r <= hi <= |s|
  {
  }

  /** The n elements at x and those at y exchanged. */
  function Exchanged<T>(s: seq<T>, x: nat, y: nat, n: nat): (t: seq<T>)
    requires x + n <= y && y + n <= |s|
    ensures |t| == |s|
  {
    seq(|s|, i requires 0 <= i < |s| =>
      if x <= i < x + n then s[i - x + y] else if y <= i < y + n then s[i - y + x] else s[i])
  }

  lemma ExchangedNext<T>(s: seq<T>, x: nat, y: nat, n: nat)
    requires x + n + 1 <= y && y + n + 1 <= |s|
    ensures Swapped(Exchanged(s, x, y, n), x + n, y + n) == Exchanged(s, x, y, n + 1)
  {
  }

  /** vecswap. */
  method VecSwap<T>(a: array<T>, x: nat, y: nat, n: nat, ghost lo: nat, ghost hi: nat)
    requires lo <= x && x + n <= y && y + n <= hi <= a.Length
    modifies a
    ensures PermRange(old(a[..]), a[..], lo, hi)
    ensures a[..] == Exchanged(old(a[..]), x, y, n)
  {
    ghost var s0 := a[..];
    PermSame(s0, lo, hi);
    assert s0 == Exchanged(s0, x, y, 0);
    hide PermRange, Exchanged, Swapped;
    var i := 0;
    while i < n
      invariant i <= n && PermRange(s0, a[..], lo, hi)
      invariant a[..] == Exchanged(s0, x, y, i)
    {
      ExchangedNext(s0, x, y, i);
      SwapMore(a, x + i, y + i, lo, hi, s0);
      i := i + 1;
    }
  }

  /** With the left equal elements moved: smaller, equal, greater, equal. */
  ghost predicate HalfGathered<T>(s: seq<T>, lo: nat, hi: nat, l: int, pb: int, pd: int, v: T, cmp: (T, T) -> int) {
    && lo <= l < pb <= pd + 1 <= hi <= |s|
    && (forall i :: lo <= i < l ==> cmp(s[i], v) < 0)
    && (forall i :: l <= i < pb ==> cmp(s[i], v) == 0)
    && (forall i :: pb <= i <= pd ==> cmp(s[i], v) > 0)
    && (forall i :: pd < i < hi ==> cmp(s[i], v) == 0)
  }

  lemma GatherLeft<T>(s: seq<T>, lo: nat, hi: nat, pa: int, pb: int, pc: int, pd: int, v: T, cmp: (T, T) -> int)
    requires pb == pc + 1 && Parts(s, lo, hi, pa, pb, pc, pd, v, cmp)
    ensures var r := if pa - lo < pb - pa then pa - lo else pb - pa;
      HalfGathered(Exchanged(s, lo, pb - r, r), lo, hi, lo + pb - pa, pb, pd, v, cmp)
  {
  }

  lemma GatherRight<T>(s: seq<T>, lo: nat, hi: nat, l: int, pb: int, pd: int, v: T, cmp: (T, T) -> int)
    requires HalfGathered(s, lo, hi, l, pb, pd, v, cmp)
    ensures var r := if pd + 1 - pb < hi - pd - 1 then pd + 1 - pb else hi - pd - 1;
      Three(Exchanged(s, pb, hi - r, r), lo, l, hi - (pd + 1 - pb), hi, v, cmp)
  {
  }

  /** The equal elements at both ends are moved to the middle. */
  method Gather<T>(a: array<T>, lo: nat, hi: nat, pa: int, pb: int, pc: int, pd: int, ghost v: T, cmp: (T, T) -> int)
    requires hi <= a.Length && pb == pc + 1 && Parts(a[..], lo, hi, pa, pb, pc, pd, v, cmp)
    modifies a
    ensures PermRange(old(a[..]), a[..], lo, hi)
    ensures Three(a[..], lo, lo + pb - pa, hi - (pd - pc), hi, v, cmp)
  {
    hide PermRange, HalfGathered, Three, Exchanged;
    GatherLeft(a[..], lo, hi, pa, pb, pc, pd, v, cmp);
    var r := if pa - lo < pb - pa then pa - lo else pb - pa;
    VecSwap(a, lo, pb - r, r, lo, hi);
    ghost var s := a[..];
    GatherRight(s, lo, hi, lo + pb - pa, pb, pd, v, cmp);
    r := if pd - pc < hi - pd - 1 then pd - pc else hi - pd - 1;
    VecSwap(a, pb, hi - r, r, lo, hi);
    PermTrans(old(a[..]), s, a[..], lo, hi);
  }

  /** The pivot's position: the middle, a median of three, or a median of three medians. */
  function PivotIndex<T(!new)>(s: seq<T>, lo: nat, n: nat, cmp: (T, T) -> int): (pm: nat)
    requires 7 <= n && lo + n <= |s|
    ensures lo <= pm < lo + n
  {
    var pm := lo + n / 2;
    if n == 7 then pm
    else if n <= 40 then Med3(s, lo, pm, lo + n - 1, cmp)
    else
      var d := n / 8;
      var pl := Med3(s, lo, lo + d, lo + 2 * d, cmp);
      var pn := Med3(s, lo + n - 1 - 2 * d, lo + n - 1 - d, lo + n - 1, cmp);
      Med3(s, pl, Med3(s, pm - d, pm, pm + d, cmp), pn, cmp)
  }

  /** Pivot choice, partition and gathering. */
  method Split<T(!new)>(a: array<T>, lo: nat, n: nat, cmp: (T, T) -> int) returns (l: nat, r: nat, ghost v: T)
    requires 7 <= n && lo + n <= a.Length && TotalPreorder(cmp)
    modifies a
    ensures PermRange(old(a[..]), a[..], lo, lo + n)
    ensures Three(a[..], lo, l, r, lo + n, v, cmp)
  {
    hide PermRange, Three, Parts, TotalPreorder, PivotIndex, Swapped;
    ghost var s0, hi := a[..], lo + n;
    var pm := PivotIndex(a[..], lo, n, cmp);
    SwapPerm(s0, lo, pm, lo, hi);
    Swap(a, lo, pm);
    v := a[lo];
    ghost var s1 := a[..];
    var pa, pb, pc, pd := Partition(a, lo, lo + n, cmp);
    ghost var s2 := a[..];
    PermTrans(s0, s1, s2, lo, hi);
    PartsBounds(s2, lo, hi, pa, pb, pc, pd, v, cmp);
    Gather(a, lo, lo + n, pa, pb, pc, pd, v, cmp);
    PermTrans(s0, s2, a[..], lo, hi);
    l, r := lo + pb - pa, lo + n - (pd - pc);
  }

  /** The subrange lo..hi-1 lies wholly before or wholly after lrange..rrange. */
  predicate Skipped(lo: nat, hi: nat, lrange: nat, rrange: nat) {
    (lrange < lo && rrange < lo) || (lrange >= hi && rrange >= hi)
  }

  /** Placing the elements of a part after the split places those of the whole, on that side. */
  lemma PlacedLeft<T(!new)>(s: seq<T>, t: seq<T>, lo: nat, l: nat, r: nat, hi: nat, v: T, cmp: (T, T) -> int)
    requires Three(s, lo, l, r, hi, v, cmp) && PermRange(s, t, lo, l)
    ensures Three(t, lo, l, r, hi, v, cmp)
  {
    forall i | lo <= i < hi
      ensures i < l ==> cmp(t[i], v) < 0
      ensures i >= l ==> t[i] == s[i]
    {
      if i < l {
        var j := PermMember(s, t, lo, l, i);
      } else {
        PermOutside(s, t, lo, l, i);
      }
    }
  }

  lemma PlacedRight<T(!new)>(s: seq<T>, t: seq<T>, lo: nat, l: nat, r: nat, hi: nat, v: T, cmp: (T, T) -> int)
    requires Three(s, lo, l, r, hi, v, cmp) && PermRange(s, t, r, hi)
    ensures Three(t, lo, l, r, hi, v, cmp)
    ensures forall i :: lo <= i < r ==> t[i] == s[i]
  {
    forall i | lo <= i < hi
      ensures i >= r ==> cmp(t[i], v) > 0
      ensures i < r ==> t[i] == s[i]
    {
      if i >= r {
        var j := PermMember(s, t, r, hi, i);
      } else {
        PermOutside(s, t, r, hi, i);
      }
    }
  }

  /** Three parts, each with its elements of the range placed, make a whole with them placed. */
  lemma PlacedWhole<T(!new)>(t: seq<T>, lo: nat, l: nat, r: nat, hi: nat, v: T, lrange: nat, rrange: nat, cmp: (T, T) -> int)
    requires TotalPreorder(cmp) && Three(t, lo, l, r, hi, v, cmp)
    requires PlacedIn(t, lo, l, lrange, rrange, cmp) && PlacedIn(t, r, hi, lrange, rrange, cmp)
    ensures PlacedIn(t, lo, hi, lrange, rrange, cmp)
  {
    forall i, j | lo <= i < j < hi
      ensures (i < l && j >= l) || (i < r && j >= r) || (l <= i && j < r) ==> cmp(t[i], t[j]) <= 0
    {
      Across(t[i], t[j], v, cmp);
    }
    hide TotalPreorder;
    forall i | lo <= i < hi && lrange <= i <= rrange
      ensures Placed(t, lo, hi, i, cmp)
    {
      if i < l {
        assert Placed(t, lo, l, i, cmp);
      } else if i >= r {
        assert Placed(t, r, hi, i, cmp);
      }
    }
  }

  lemma Across<T(!new)>(x: T, y: T, v: T, cmp: (T, T) -> int)
    requires TotalPreorder(cmp)
    ensures cmp(x, v) <= 0 && cmp(y, v) >= 0 ==> cmp(x, y) <= 0
  {
    assert cmp(y, v) >= 0 ==> cmp(v, y) <= 0;
  }

  /** After pass: what remains to be sorted is lo'..hi'-1; placing its elements places all. */
  ghost predicate Reduces<T(!new)>(s: seq<T>, lo: nat, hi: nat, lo': nat, hi': nat, lrange: nat, rrange: nat, cmp: (T, T) -> int) {
    && lo <= lo' <= hi' <= hi <= |s|
    && forall t :: PermRange(s, t, lo', hi') && PlacedIn(t, lo', hi', lrange, rrange, cmp)
         ==> PlacedIn(t, lo, hi, lrange, rrange, cmp)
  }

  /** The recursive call for the smaller elements, unless their positions are skipped. */
  method SortLeft<T(!new)>(a: array<T>, lo: nat, l: nat, r: nat, hi: nat, ghost v: T, cmp: (T, T) -> int, lrange: nat, rrange: nat)
    requires hi <= a.Length && TotalPreorder(cmp) && Three(a[..], lo, l, r, hi, v, cmp)
    modifies a
    ensures PermRange(old(a[..]), a[..], lo, hi) && Three(a[..], lo, l, r, hi, v, cmp)
    ensures PlacedIn(a[..], lo, l, lrange, rrange, cmp)
    decreases l - lo, 3
  {
    ghost var s := a[..];
    assert PermRange(s, s, lo, l);
    assert l - lo <= 1 || Skipped(lo, l, lrange, rrange) ==> PlacedIn(s, lo, l, lrange, rrange, cmp);
    if l - lo > 1 && !Skipped(lo, l, lrange, rrange) {
      Sort(a, lo, l - lo, cmp, lrange, rrange);
    }
    PermWiden(s, a[..], lo, l, lo, hi);
    PlacedLeft(s, a[..], lo, l, r, hi, v, cmp);
  }

  /** One pass of _pqsort's body from `loop` on; the range left is the one it jumps back for. */
  method Pass<T(!new)>(a: array<T>, lo: nat, n: nat, cmp: (T, T) -> int, lrange: nat, rrange: nat) returns (lo': nat, n': nat)
    requires 7 <= n && lo + n <= a.Length && TotalPreorder(cmp)
    modifies a
    ensures PermRange(old(a[..]), a[..], lo, lo + n) && n' < n && lo + n == lo' + n'
    ensures Reduces(a[..], lo, lo + n, lo', lo' + n', lrange, rrange, cmp)
    decreases n, 0
  {
    hide PermRange, Three, TotalPreorder, PlacedIn, Reduces;
    var l, r;
    ghost var v;
    l, r, v := Split(a, lo, n, cmp);
    ghost var s := a[..];
    ThreeBounds(s, lo, l, r, lo + n, v, cmp);
    SortLeft(a, lo, l, r, lo + n, v, cmp, lrange, rrange);
    PermTrans(old(a[..]), s, a[..], lo, lo + n);
    lo', n' := r, lo + n - r;
    if n' <= 1 || Skipped(lo', lo' + n', lrange, rrange) {
      lo', n' := lo + n, 0;
    }
    LeftDone(a[..], lo, l, r, lo + n, v, lo', lrange, rrange, cmp);
  }

  lemma LeftDone<T(!new)>(s: seq<T>, lo: nat, l: nat, r: nat, hi: nat, v: T, lo': nat, lrange: nat, rrange: nat, cmp: (T, T) -> int)
    requires TotalPreorder(cmp) && Three(s, lo, l, r, hi, v, cmp) && PlacedIn(s, lo, l, lrange, rrange, cmp)
    requires lo' == r || (lo' == hi && (hi - r <= 1 || Skipped(r, hi, lrange, rrange)))
    ensures Reduces(s, lo, hi, lo', hi, lrange, rrange, cmp)
  {
    forall t | PermRange(s, t, lo', hi) && PlacedIn(t, lo', hi, lrange, rrange, cmp)
      ensures PlacedIn(t, lo, hi, lrange, rrange, cmp)
    {
      PermWiden(s, t, lo', hi, r, hi);
      PlacedRight(s, t, lo, l, r, hi, v, cmp);
      forall i | lo <= i < l && lrange <= i <= rrange
        ensures Placed(t, lo, l, i, cmp)
      {
        assert Placed(s, lo, l, i, cmp);
      }
      PlacedWhole(t, lo, l, r, hi, v, lrange, rrange, cmp);
    }
  }

  /** A pass on the range that is left of a larger one; s0 is the order at the start. */
  method NextPass<T(!new)>(a: array<T>, ghost s0: seq<T>, ghost lo0: nat, lo: nat, n: nat, cmp: (T, T) -> int, lrange: nat, rrange: nat)
    returns (lo': nat, n': nat)
    requires 7 <= n && lo0 <= lo && lo + n <= a.Length && TotalPreorder(cmp)
    requires PermRange(s0, a[..], lo0, lo + n) && Reduces(a[..], lo0, lo + n, lo, lo + n, lrange, rrange, cmp)
    modifies a
    ensures n' < n && lo + n == lo' + n' && lo0 <= lo' && PermRange(s0, a[..], lo0, lo + n)
    ensures Reduces(a[..], lo0, lo + n, lo', lo + n, lrange, rrange, cmp)
    decreases n, 1
  {
    hide PermRange, TotalPreorder, Reduces;
    ghost var s := a[..];
    lo', n' := Pass(a, lo, n, cmp, lrange, rrange);
    ReducesTrans(s, a[..], lo0, lo, lo', lo + n, lrange, rrange, cmp);
    PermWiden(s, a[..], lo, lo + n, lo0, lo + n);
    PermTrans(s0, s, a[..], lo0, lo + n);
  }

  /** _pqsort. */
  method Sort<T(!new)>(a: array<T>, lo0: nat, n0: nat, cmp: (T, T) -> int, lrange: nat, rrange: nat)
    requires lo0 + n0 <= a.Length && TotalPreorder(cmp)
    modifies a
    ensures PermRange(old(a[..]), a[..], lo0, lo0 + n0)
    ensures PlacedIn(a[..], lo0, lo0 + n0, lrange, rrange, cmp)
    decreases n0, 2
  {
    var lo, n := lo0, n0;
    ghost var s0, hi := a[..], lo0 + n0;
    assert PermRange(s0, a[..], lo0, hi);
    assert Reduces(a[..], lo0, hi, lo, hi, lrange, rrange, cmp);
    hide PermRange, TotalPreorder, PlacedIn, Reduces, Sorted;
    while n >= 7
      invariant n <= n0 && lo0 <= lo && lo + n == hi && PermRange(s0, a[..], lo0, hi)
      invariant Reduces(a[..], lo0, hi, lo, hi, lrange, rrange, cmp)
      decreases n
    {
      lo, n := NextPass(a, s0, lo0, lo, n, cmp, lrange, rrange);
    }
    ghost var s := a[..];
    InsertionSort(a, lo, n, cmp);
    PermWiden(s, a[..], lo, hi, lo0, hi);
    PermTrans(s0, s, a[..], lo0, hi);
    ReducesDone(s, a[..], lo0, lo, hi, lrange, rrange, cmp);
  }

  lemma ReducesDone<T(!new)>(s: seq<T>, t: seq<T>, lo0: nat, lo: nat, hi: nat, lrange: nat, rrange: nat, cmp: (T, T) -> int)
    requires Reduces(s, lo0, hi, lo, hi, lrange, rrange, cmp) && PermRange(s, t, lo, hi) && Sorted(t, lo, hi, cmp)
    ensures PlacedIn(t, lo0, hi, lrange, rrange, cmp)
  {
    assert PlacedIn(t, lo, hi, lrange, rrange, cmp);
  }

  lemma ReducesTrans<T(!new)>(s: seq<T>, s': seq<T>, lo0: nat, lo1: nat, lo2: nat, hi: nat, lrange: nat, rrange: nat, cmp: (T, T) -> int)
    requires Reduces(s, lo0, hi, lo1, hi, lrange, rrange, cmp) && PermRange(s, s', lo1, hi)
    requires Reduces(s', lo1, hi, lo2, hi, lrange, rrange, cmp)
    ensures Reduces(s', lo0, hi, lo2, hi, lrange, rrange, cmp) && lo0 <= lo2
  {
    forall t | PermRange(s', t, lo2, hi) && PlacedIn(t, lo2, hi, lrange, rrange, cmp)
      ensures PlacedIn(t, lo0, hi, lrange, rrange, cmp)
    {
      PermWiden(s', t, lo2, hi, lo1, hi);
      PermTrans(s, s', t, lo1, hi);
    }
  }

  /** pqsort: a rearrangement in which every position of the range holds, up to equivalence, what any
      full sort puts there; smaller elements are to its left and greater ones to its right. */
  method Pqsort<T(!new)>(a: array<T>, cmp: (T, T) -> int, lrange: nat, rrange: nat)
    requires TotalPreorder(cmp)
    modifies a
    ensures multiset(a[..]) == multiset(old(a[..]))
    ensures PlacedIn(a[..], 0, a.Length, lrange, rrange, cmp)
    ensures forall t, i | |t| == a.Length && multiset(t) == multiset(a[..]) && Sorted(t, 0, |t|, cmp)
        && 0 <= i < |t| && lrange <= i <= rrange
      :: cmp(a[i], t[i]) == 0
  {
    Sort(a, 0, a.Length, cmp, lrange, rrange);
    assert a[..] == a[0..a.Length] && old(a[..]) == old(a[0..a.Length]);
    forall t, i | |t| == a.Length && multiset(t) == multiset(a[..]) && Sorted(t, 0, |t|, cmp)
      && 0 <= i < |t| && lrange <= i <= rrange
      ensures cmp(a[i], t[i]) == 0
    {
      PlacedAgrees(a[..], t, i, cmp);
    }
  }
}
