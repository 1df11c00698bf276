/** What WATCH promises, said over the history of a server: which keys a client watches, and which of them were
    touched since it began to. */
module WatchHistory {
  /** A key in a database. */
  datatype WKey = WKey(db: nat, name: string)

  /** A client begins to watch a key; it forgets all it watches; keys are modified, or flushed while they exist. */
  datatype Step = Watches(client: nat, key: WKey) | Forgets(client: nat) | Touches(keys: set<WKey>)

  type History = seq<Step>

  /** No step from i on makes c forget. */
  ghost predicate Remembers(h: History, i: nat, c: nat) {
    forall m :: i <= m < |h| ==> h[m] != Forgets(c)
  }

  ghost predicate WatchedFrom(h: History, c: nat, k: WKey, i: int) {
    0 <= i < |h| && h[i] == Watches(c, k) && Remembers(h, i, c)
  }

  /** c asked to watch k, and has not forgotten since. */
  ghost predicate Watching(h: History, c: nat, k: WKey) {
    exists i :: WatchedFrom(h, c, k, i)
  }

  ghost predicate TouchedAt(h: History, c: nat, k: WKey, i: int, j: int) {
    WatchedFrom(h, c, k, i) && i < j < |h| && h[j].Touches? && k in h[j].keys
  }

  /** k was touched after c asked to watch it, and c has not forgotten since. */
  ghost predicate Touched(h: History, c: nat, k: WKey) {
    exists i, j :: TouchedAt(h, c, k, i, j)
  }

  ghost predicate AnyTouched(h: History, c: nat) {
    exists k :: Touched(h, c, k)
  }

  lemma StepRemembers(h: History, s: Step, c: nat, i: nat)
    requires i <= |h|
    ensures Remembers(h + [s], i, c) <==> Remembers(h, i, c) && s != Forgets(c)
  {
    var h1 := h + [s];
    assert h1[|h|] == s;
    assert forall m :: 0 <= m < |h| ==> h1[m] == h[m];
  }

  lemma StepWatchedFrom(h: History, s: Step, c: nat, k: WKey, i: int)
    ensures WatchedFrom(h + [s], c, k, i) <==>
      (WatchedFrom(h, c, k, i) && s != Forgets(c)) || (i == |h| && s == Watches(c, k))
  {
    if 0 <= i <= |h| {
      StepRemembers(h, s, c, i);
    }
  }

  /** How one more step changes what a client watches. */
  lemma StepWatching(h: History, s: Step, c: nat, k: WKey)
    ensures Watching(h + [s], c, k) <==> (Watching(h, c, k) && s != Forgets(c)) || s == Watches(c, k)
  {
    hide WatchedFrom;
    forall i
      ensures WatchedFrom(h + [s], c, k, i) <==>
        (WatchedFrom(h, c, k, i) && s != Forgets(c)) || (i == |h| && s == Watches(c, k))
    {
      StepWatchedFrom(h, s, c, k, i);
    }
    if Watching(h, c, k) && s != Forgets(c) {
      var i :| WatchedFrom(h, c, k, i);
      assert WatchedFrom(h + [s], c, k, i);
    }
    if s == Watches(c, k) {
      assert WatchedFrom(h + [s], c, k, |h|);
    }
  }

  /** How one more step changes what was touched under a client's watch. */
  lemma StepTouched(h: History, s: Step, c: nat, k: WKey)
    ensures Touched(h + [s], c, k) <==>
      (Touched(h, c, k) && s != Forgets(c)) || (s.Touches? && k in s.keys && Watching(h, c, k))
  {
    forall i, j
      ensures TouchedAt(h + [s], c, k, i, j) <==>
        (TouchedAt(h, c, k, i, j) && s != Forgets(c)) ||
        (WatchedFrom(h, c, k, i) && j == |h| && s.Touches? && k in s.keys)
    {
      StepWatchedFrom(h, s, c, k, i);
      TouchedAtStep(h, s, c, k, i, j);
    }
    if s.Touches? && k in s.keys && Watching(h, c, k) {
      var i :| WatchedFrom(h, c, k, i);
      assert TouchedAt(h + [s], c, k, i, |h|);
    }
    if Touched(h, c, k) && s != Forgets(c) {
      var i, j :| TouchedAt(h, c, k, i, j);
      assert TouchedAt(h + [s], c, k, i, j);
    }
  }

  lemma TouchedAtStep(h: History, s: Step, c: nat, k: WKey, i: int, j: int)
    ensures TouchedAt(h + [s], c, k, i, j) <==>
      (TouchedAt(h, c, k, i, j) && s != Forgets(c)) ||
      (WatchedFrom(h, c, k, i) && j == |h| && s.Touches? && k in s.keys)
  {
    StepWatchedFrom(h, s, c, k, i);
    if 0 <= j < |h| {
      assert (h + [s])[j] == h[j];
    }
  }

  /** A touched key is a watched one. */
  lemma TouchedIsWatching(h: History, c: nat, k: WKey)
    ensures Touched(h, c, k) ==> Watching(h, c, k)
  {
  }
}
