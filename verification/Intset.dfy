/** The intset: a sorted set of integers in a byte buffer, all of one width, widened in place. */
module Intset {
  import opened Sequences
  import opened IntsetBytes

  ghost predicate Increasing(s: seq<int>) {
    forall i, j :: 0 <= i < j < |s| ==> s[i] < s[j]
  }

  function Elements(s: seq<int>): set<int> {
    set x | x in s
  }

  /** Where a value stands among increasing values, or would stand. */
  ghost predicate Splits(s: seq<int>, p: nat, v: int) {
    p <= |s| && (forall i :: 0 <= i < p ==> s[i] < v) && (forall i :: p <= i < |s| ==> v < s[i])
  }

  lemma InsertSorted(s: seq<int>, p: nat, v: int)
    requires Increasing(s) && Splits(s, p, v)
    ensures v !in s && Increasing(InsertAt(s, p, v)) && Elements(InsertAt(s, p, v)) == Elements(s) + {v}
  {
    var t := InsertAt(s, p, v);
    forall x
      ensures x in t <==> x in s || x == v
    {
      assert s == s[..p] + s[p..];
    }
  }

  lemma RemoveSorted(s: seq<int>, p: nat)
    requires Increasing(s) && p < |s|
    ensures Increasing(RemoveAt(s, p)) && Elements(RemoveAt(s, p)) == Elements(s) - {s[p]}
  {
    var t := RemoveAt(s, p);
    forall x
      ensures x in t <==> x in s && x != s[p]
    {
      assert s == s[..p] + [s[p]] + s[p + 1..];
      if x in s[..p] {
        var i :| 0 <= i < p && s[i] == x;
      }
      if x in s[p + 1..] {
        var i :| p + 1 <= i < |s| && s[i] == x;
      }
    }
  }

  /** Increasing values are as many as their set. */
  lemma {:induction false} CountIncreasing(s: seq<int>)
    requires Increasing(s)
    ensures |Elements(s)| == |s|
    decreases |s|
  {
    if s != [] {
      var n := |s| - 1;
      CountIncreasing(s[..n]);
      assert Elements(s) == Elements(s[..n]) + {s[n]};
      assert s[n] !in s[..n];
    }
  }

  class Intset {
    var encoding: nat
    var length: nat
    var contents: array<byte>

    predicate Shape()
      reads this
    {
      IsEncoding(encoding) && contents.Length == length * encoding
    }

    ghost function List(): (s: seq<int>)
      requires Shape()
      reads this, contents
    {
      Values(contents[..], encoding, length)
    }

    /** The set the buffer stands for. */
    ghost function Set(): set<int>
      requires Shape()
      reads this, contents
    {
      Elements(List())
    }

    ghost predicate Valid()
      reads this, contents
    {
      Shape() && Increasing(List())
    }

    constructor ()
      ensures Valid() && fresh(contents) && Set() == {} && length == 0 && encoding == INT16
    {
      encoding, length := INT16, 0;
      contents := new byte[0];
    }

    /** _intsetGetEncoded. */
    method GetEncoded(pos: nat, e: nat) returns (v: int)
      requires e > 0 && pos * e + e <= contents.Length
      ensures v == Elem(contents[..], e, pos)
    {
      assert contents[..][pos * e..pos * e + e] == contents[pos * e..pos * e + e];
      v := Decode(contents[pos * e..pos * e + e]);
    }

    /** _intsetSet: an integer is stored. */
    method Store(pos: nat, v: int)
      requires encoding > 0 && pos * encoding + encoding <= contents.Length
      modifies contents
      ensures contents[..] == Write(old(contents[..]), pos * encoding, Encode(v, encoding))
    {
      var b, off := Encode(v, encoding), pos * encoding;
      forall i | 0 <= i < |b| {
        contents[off + i] := b[i];
      }
    }

    /** intsetResize: the bytes that fit are kept, new ones are arbitrary. */
    method Resize(len: nat)
      requires encoding > 0
      modifies this`contents
      ensures fresh(contents) && contents.Length == len * encoding
      ensures forall i :: 0 <= i < contents.Length && i < old(contents.Length) ==> contents[i] == old(contents[i])
    {
      var size := len * encoding;
      var bytes := new byte[size];
      var was := contents;
      forall i | 0 <= i < size && i < was.Length {
        bytes[i] := was[i];
      }
      contents := bytes;
    }

    /** intsetMoveTail: memmove from one position up to the end to another. */
    method MoveTail(from: nat, to: nat)
      requires encoding > 0 && from <= length
      requires (from + (length - from)) * encoding <= contents.Length
      requires (to + (length - from)) * encoding <= contents.Length
      modifies contents
      ensures contents[..] == Moved(old(contents[..]), encoding, from, to, length - from)
    {
      var k := length - from;
      Spread(from, k, encoding);
      Spread(to, k, encoding);
      var src, dst, bytes := from * encoding, to * encoding, k * encoding;
      assert (from + k) * encoding == src + bytes && (to + k) * encoding == dst + bytes;
      ghost var c := contents[..];
      assert Moved(c, encoding, from, to, k) == Write(c, dst, c[src..src + bytes]);
      hide Write, Moved;
      assert c[src..src + bytes] == contents[src..src + bytes];
      MoveBytes(src, dst, bytes);
    }

    /** memmove within the buffer. */
    method MoveBytes(src: nat, dst: nat, bytes: nat)
      requires src + bytes <= contents.Length && dst + bytes <= contents.Length
      modifies contents
      ensures contents[..] == Write(old(contents[..]), dst, old(contents[src..src + bytes]))
    {
      forall i | 0 <= i < bytes {
        contents[dst + i] := contents[src + i];
      }
    }

    /** intsetSearch. */
    method Search(value: int) returns (found: bool, pos: nat)
      requires Valid()
      ensures found <==> value in Set()
      ensures found ==> pos < length && List()[pos] == value
      ensures !found ==> Splits(List(), pos, value)
    {
      hide Values, Elem;
      if length == 0 {
        return false, 0;
      }
      var last := At(length - 1);
      var first := At(0);
      if value > last {
        return false, length;
      } else if value < first {
        return false, 0;
      }
      found, pos := BinarySearch(value);
    }

    method BinarySearch(value: int) returns (found: bool, pos: nat)
      requires Valid() && length > 0
      ensures found <==> value in Set()
      ensures found ==> pos < length && List()[pos] == value
      ensures !found ==> Splits(List(), pos, value)
    {
      ghost var s := List();
      hide Values, Elem, List;
      var min: int, max: int, mid: int, cur: int := 0, length - 1, -1, -1;
      while max >= min
        invariant 0 <= min <= length && -1 <= max < length && min <= max + 1
        invariant forall i :: 0 <= i < min ==> s[i] < value
        invariant forall i :: max < i < length ==> value < s[i]
        invariant mid == -1 ==> min == 0 && max == length - 1
        invariant mid != -1 ==> cur != value
        decreases max - min
      {
        mid := (min + max) / 2;
        cur := At(mid);
        if value > cur {
          min := mid + 1;
        } else if value < cur {
          max := mid - 1;
        } else {
          break;
        }
      }
      if value == cur {
        return true, mid;
      }
      return false, min;
    }

    /** _intsetGet. */
    method At(pos: nat) returns (v: int)
      requires Shape() && pos < length
      ensures v == List()[pos]
    {
      Within(pos, length, encoding);
      v := GetEncoded(pos, encoding);
    }

    /** intsetFind. */
    method Find(value: int) returns (found: bool)
      requires Valid() && Int64(value)
      ensures found <==> value in Set()
    {
      var valenc := ValueEncoding(value);
      if valenc <= encoding {
        var pos;
        found, pos := Search(value);
      } else {
        found := false;
        TooWide(value);
      }
    }

    /** A value that needs more bytes is not in the set. */
    lemma TooWide(value: int)
      requires Shape() && Int64(value) && ValueEncoding(value) > encoding
      ensures forall i :: 0 <= i < length ==> Fits(List()[i], encoding) && List()[i] != value
    {
      ValueEncodingLeast(value, encoding);
      var c := contents[..];
      forall i | 0 <= i < length
        ensures Fits(List()[i], encoding)
      {
        Within(i, length, encoding);
        DecodeFits(c[i * encoding..i * encoding + encoding]);
      }
    }

    /** intsetUpgradeAndAdd: widened from the back in place, with room left at the end the value belongs to. */
    method UpgradeAndAdd(value: int)
      requires Valid() && Int64(value) && ValueEncoding(value) > encoding
      modifies this, contents
      ensures Valid() && fresh(contents) && encoding == ValueEncoding(value) && length == old(length) + 1
      ensures List() == if value < 0 then [value] + old(List()) else old(List()) + [value]
      ensures Set() == old(Set()) + {value}
    {
      hide Values, Write, Encode, Elem, Elements, Half;
      ghost var s := List();
      UpgradeEnd(value);
      UpgradeSorted(s, value);
      hide Increasing;
      ghost var before := contents[..];
      var curenc, newenc := encoding, ValueEncoding(value);
      var prepend: nat := if value < 0 then 1 else 0;
      encoding := newenc;
      Resize(length + 1);
      Spread(length, 1, newenc);
      WidenStart(before, contents[..], s, curenc, newenc, prepend);
      Widen(s, curenc, prepend);
      ValueEncodingLeast(value, newenc);
      Within(length, length + 1, newenc);
      Widened(contents[..], s, newenc, prepend, value);
      if prepend == 1 {
        Store(0, value);
      } else {
        Store(length, value);
      }
      length := length + 1;
    }

    /** The loop that widens. */
    method Widen(ghost s: seq<int>, curenc: nat, prepend: nat)
      requires IsEncoding(encoding) && 0 < curenc <= encoding && |s| == length
      requires (length + prepend) * encoding <= contents.Length
      requires forall i :: 0 <= i < |s| ==> Fits(s[i], encoding)
      requires Widening(contents[..], s, curenc, encoding, prepend, length)
      modifies contents
      ensures Widening(contents[..], s, curenc, encoding, prepend, 0)
    {
      var left: nat := length;
      while left != 0
        invariant left <= |s|
        invariant Widening(contents[..], s, curenc, encoding, prepend, left)
      {
        left := left - 1;
        hide Widening, Write, Elem, Encode;
        WidenOne(s, curenc, prepend, left);
      }
    }

    method WidenOne(ghost s: seq<int>, curenc: nat, prepend: nat, left: nat)
      requires IsEncoding(encoding) && 0 < curenc <= encoding && left < |s|
      requires (|s| + prepend) * encoding <= contents.Length && Fits(s[left], encoding)
      requires Widening(contents[..], s, curenc, encoding, prepend, left + 1)
      modifies contents
      ensures Widening(contents[..], s, curenc, encoding, prepend, left)
    {
      assert NarrowAt(contents[..], curenc, left, s[left]);
      WidenStep(contents[..], s, curenc, encoding, prepend, left);
      hide Widening, Write, Elem, Encode;
      var v := GetEncoded(left, curenc);
      Store(left + prepend, v);
    }

    /** A value that does not fit is beyond one end of the set. */
    lemma UpgradeEnd(value: int)
      requires Valid() && Int64(value) && ValueEncoding(value) > encoding
      ensures forall i :: 0 <= i < length ==> if value < 0 then value < List()[i] else List()[i] < value
      ensures forall i :: 0 <= i < length ==> Fits(List()[i], encoding) && Fits(List()[i], ValueEncoding(value))
      ensures length * encoding <= contents.Length
    {
      TooWide(value);
      Halves();
    }

    /** intsetAdd. */
    method Add(value: int) returns (success: bool)
      requires Valid() && Int64(value)
      modifies this, contents
      ensures Valid() && Set() == old(Set()) + {value} && success == (value !in old(Set()))
      ensures length == old(length) + (if success then 1 else 0)
      ensures encoding == if ValueEncoding(value) > old(encoding) then ValueEncoding(value) else old(encoding)
      ensures contents == old(contents) || fresh(contents)
    {
      var valenc := ValueEncoding(value);
      if valenc > encoding {
        TooWide(value);
        UpgradeAndAdd(value);
        return true;
      }
      var found, pos := Search(value);
      if found {
        return false;
      }
      ValueEncodingLeast(value, encoding);
      Insert(pos, value);
      return true;
    }

    method Insert(pos: nat, value: int)
      requires Valid() && Fits(value, encoding) && Splits(List(), pos, value)
      modifies this, contents
      ensures Valid() && fresh(contents) && encoding == old(encoding) && length == old(length) + 1
      ensures List() == InsertAt(old(List()), pos, value) && Set() == old(Set()) + {value}
    {
      assert pos <= length;
      hide Values, Inserted, Increasing, Splits, Elements, Fits, InsertAt;
      ghost var s := List();
      InsertSorted(s, pos, value);
      InsertValue(pos, value);
      length := length + 1;
      assert List() == InsertAt(s, pos, value);
    }

    method InsertValue(pos: nat, value: int)
      requires Shape() && pos <= length && Fits(value, encoding)
      modifies this`contents
      ensures fresh(contents) && contents.Length == (length + 1) * encoding
      ensures Values(contents[..], encoding, length + 1) == InsertAt(old(List()), pos, value)
    {
      hide Values, Inserted, InsertAt, Fits;
      ghost var grown := InsertBytes(pos, value);
      ValuesInserted(grown, encoding, length, pos, value);
    }

    method InsertBytes(pos: nat, value: int) returns (ghost grown: seq<byte>)
      requires Shape() && pos <= length
      modifies this`contents
      ensures fresh(contents) && contents.Length == |grown| == (length + 1) * encoding
      ensures length * encoding <= |grown| && Values(grown, encoding, length) == old(List())
      ensures contents[..] == Inserted(grown, encoding, length, pos, value)
    {
      hide Values, Moved, Write, Encode;
      grown := OpenGap(pos);
      InsertRoom(encoding, length, pos, contents.Length);
      Store(pos, value);
    }

    /** Room for one more, and the tail moved up. */
    method OpenGap(pos: nat) returns (ghost grown: seq<byte>)
      requires Shape() && pos <= length
      modifies this`contents
      ensures fresh(contents) && contents.Length == |grown| == (length + 1) * encoding
      ensures length * encoding <= |grown| && Values(grown, encoding, length) == old(List())
      ensures (pos + 1 + (length - pos)) * encoding <= |grown| && (pos + (length - pos)) * encoding <= |grown|
      ensures contents[..] == Moved(grown, encoding, pos, pos + 1, length - pos)
    {
      hide Values, Moved;
      ghost var before := contents[..];
      Resize(length + 1);
      grown := contents[..];
      InsertRoom(encoding, length, pos, contents.Length);
      SamePrefix(before, grown, encoding, length);
      if pos < length {
        MoveTail(pos, pos + 1);
      } else {
        MovedNone(grown, encoding, pos, pos + 1);
      }
    }

    /** intsetRemove. */
    method Remove(value: int) returns (success: bool)
      requires Valid() && Int64(value)
      modifies this, contents
      ensures Valid() && Set() == old(Set()) - {value} && success == (value in old(Set()))
      ensures length == old(length) - (if success then 1 else 0) && encoding == old(encoding)
      ensures contents == old(contents) || fresh(contents)
    {
      success := false;
      var valenc := ValueEncoding(value);
      if valenc > encoding {
        TooWide(value);
        return;
      }
      var found, pos := Search(value);
      if found {
        success := true;
        RemovePosition(pos);
      }
    }

    method RemovePosition(pos: nat)
      requires Valid() && pos < length
      modifies this, contents
      ensures Valid() && fresh(contents) && encoding == old(encoding) && length == old(length) - 1
      ensures List() == RemoveAt(old(List()), pos) && Set() == old(Set()) - {old(List()[pos])}
    {
      hide Values, Increasing, Elements, Moved, RemoveAt;
      ghost var s := List();
      RemoveSorted(s, pos);
      var len := length;
      ValuesRemove(contents[..], encoding, len, pos);
      if pos < len - 1 {
        MoveTail(pos + 1, pos);
      } else {
        MovedNone(contents[..], encoding, pos + 1, pos);
      }
      ghost var moved := contents[..];
      Resize(len - 1);
      SamePrefix(contents[..], moved, encoding, len - 1);
      length := len - 1;
    }
  }

  lemma MovedNone(c: seq<byte>, e: nat, from: nat, to: nat)
    requires from * e <= |c| && to * e <= |c|
    ensures Moved(c, e, from, to, 0) == c
  {
  }

  /** Values depend only on the bytes they take. */
  lemma SamePrefix(a: seq<byte>, b: seq<byte>, e: nat, n: nat)
    requires e > 0 && n * e <= |a| && n * e <= |b|
    requires forall i :: 0 <= i < n * e ==> a[i] == b[i]
    ensures Values(a, e, n) == Values(b, e, n)
  {
    forall i | 0 <= i < n
      ensures Values(a, e, n)[i] == Values(b, e, n)[i]
    {
      Within(i, n, e);
      assert a[i * e..i * e + e] == b[i * e..i * e + e];
    }
  }

  /** Before the loop every value is narrow. */
  lemma WidenStart(before: seq<byte>, c: seq<byte>, s: seq<int>, e: nat, w: nat, p: nat)
    requires 0 < e <= w && |s| * e <= |before| && s == Values(before, e, |s|)
    requires (|s| + p) * w <= |c| && forall i :: 0 <= i < |before| && i < |c| ==> c[i] == before[i]
    ensures Widening(c, s, e, w, p, |s|)
  {
    assert |s| * e <= |s| * w;
    Spread(|s|, p, w);
    SamePrefix(before, c, e, |s|);
    forall i | 0 <= i < |s|
      ensures NarrowAt(c, e, i, s[i])
    {
      Within(i, |s|, e);
      assert Values(c, e, |s|)[i] == Elem(c, e, i);
    }
  }

  /** After it every value is wide, and the free place takes the new one. */
  lemma Widened(c: seq<byte>, s: seq<int>, w: nat, p: nat, v: int)
    requires w > 0 && p <= 1 && (|s| + 1) * w <= |c| && Fits(v, w) && (|s| + p) * w <= |c|
    requires forall i :: 0 <= i < |s| ==> NarrowAt(c, w, i + p, s[i])
    ensures var q := if p == 1 then 0 else |s|;
      && q * w + w <= |c|
      && Values(Write(c, q * w, Encode(v, w)), w, |s| + 1) == if p == 1 then [v] + s else s + [v]
  {
    var n := |s| + 1;
    var q := if p == 1 then 0 else |s|;
    Within(q, n, w);
    ValuesStore(c, w, n, q, v);
    hide Write, Encode, Fits;
    var a, b := Values(c, w, n)[q := v], if p == 1 then [v] + s else s + [v];
    forall i | 0 <= i < n
      ensures a[i] == b[i]
    {
      if i != q {
        assert NarrowAt(c, w, (i - p) + p, s[i - p]);
      }
    }
  }

  lemma UpgradeSorted(s: seq<int>, v: int)
    requires Increasing(s) && forall i :: 0 <= i < |s| ==> if v < 0 then v < s[i] else s[i] < v
    ensures var t := if v < 0 then [v] + s else s + [v]; Increasing(t) && Elements(t) == Elements(s) + {v}
  {
  }
}
