/**
 * The pass of `compact(NameMap&)` over one group of siblings, as a function
 * of what it reads about each entry: the entry of the name index, whether
 * `compact()` holds for the entry's node, the text `print()` gives it, and
 * which later entries `compact(one, two)` accepts it with.  `Run` is the
 * state of the pass (the locals `compact` and `previous`, and `duplicate_`
 * of every entry) after its first entries; the lemmas state what a finished
 * pass leaves.
 */
module Groups {
  import opened Wrappers
  import opened Multimap
  import opened Text

  /**
   * A group as the pass sees it: the name index in order, and per entry
   * `compact()`, `print()` and, against every entry, `compact(one, two)`.
   */
  datatype Group = Group(entries: seq<(string, int)>, compacts: seq<bool>, texts: seq<string>,
                         same: seq<seq<bool>>)

  /** One flag, one text and one row of `same` per entry, and the entries in name order. */
  ghost predicate WellFormed(g: Group)
  {
    && |g.compacts| == |g.entries| && |g.texts| == |g.entries| && |g.same| == |g.entries|
    && (forall i | 0 <= i < |g.same| :: |g.same[i]| == |g.entries|)
    && (forall k, l | 0 <= k < l < |g.entries| :: NotAfter(g.entries, k, l))
  }

  /** Entry `k` does not sort after entry `l` by name. */
  predicate NotAfter(entries: seq<(string, int)>, k: nat, l: nat)
    requires k < |entries| && l < |entries|
  {
    !StrLess(entries[l].0, entries[k].0)
  }

  /** Two entries accepted with a third are accepted with each other, as `compact(one, two)` is an equivalence. */
  ghost predicate Joined(g: Group)
    requires WellFormed(g)
  {
    forall r, i, k | 0 <= r < |g.entries| && 0 <= i < |g.entries| && 0 <= k < |g.entries| ::
      g.same[r][k] && g.same[i][k] ==> g.same[r][i]
  }

  /** `names.upper_bound(name->first)` for the entry at `i`. */
  function Upper(g: Group, i: nat): (u: nat)
    requires i < |g.entries|
    ensures u <= |g.entries|
  {
    UpperBound(g.entries, g.entries[i].0, StrLess)
  }

  /** The entries after `i` with the name of entry `i` are exactly those before its upper bound. */
  lemma {:induction false} SameName(g: Group, i: nat)
    requires WellFormed(g) && i < |g.entries|
    ensures i < Upper(g, i)
    ensures forall k | i < k < |g.entries| && g.entries[k].0 == g.entries[i].0 :: k < Upper(g, i)
    ensures forall k | i < k < Upper(g, i) :: g.entries[k].0 == g.entries[i].0
  {
    var u := Upper(g, i);
    StrLessIrreflexive(g.entries[i].0);
    forall k | i < k < u
      ensures g.entries[k].0 == g.entries[i].0
    {
      assert NotAfter(g.entries, i, k);
      StrLessTotal(g.entries[k].0, g.entries[i].0);
    }
    forall k | u <= k < |g.entries|
      ensures g.entries[k].0 != g.entries[i].0
    {
      if u < k {
        assert NotAfter(g.entries, u, k);
      }
      StrLessIrreflexive(g.entries[k].0);
    }
  }

  // ---------------------------------------------------------------------
  // The pass as a function
  // ---------------------------------------------------------------------

  /** The outer loop's `compact`, the text of `previous`, and `duplicate_` of each entry. */
  datatype Pass = Pass(ok: bool, shown: Option<string>, dups: seq<nat>)

  /** The inner loop's `duplicate`, and `duplicate_` of each entry. */
  datatype Tally = Tally(dups: seq<nat>, total: nat)

  /** For every entry, whether the inner loop of the turn at `i` takes it when it reaches it. */
  function Picks(g: Group, i: nat): (s: seq<bool>)
    requires WellFormed(g) && i < |g.entries|
    ensures |s| == |g.entries|
  {
    seq(|g.entries|, k requires 0 <= k < |g.entries| => g.compacts[k] && g.same[i][k])
  }

  /**
   * The inner loop from entry `j` up to `u`: a taken entry's count grows by
   * one and `duplicate` grows by the new count.
   */
  function Sweep(takes: seq<bool>, u: nat, j: nat, dups: seq<nat>, total: nat): (t: Tally)
    requires u <= |takes| && |takes| == |dups|
    ensures |t.dups| == |dups|
    decreases u - j
  {
    if j >= u then Tally(dups, total)
    else if takes[j] then Sweep(takes, u, j + 1, dups[j := dups[j] + 1], total + dups[j] + 1)
    else Sweep(takes, u, j + 1, dups, total)
  }

  /** One turn of the inner loop, taken or not, leaves the rest of the loop to finish the same sweep. */
  lemma SweepTurn(takes: seq<bool>, u: nat, j: nat, dups: seq<nat>, total: nat, dups': seq<nat>, total': nat)
    requires u <= |takes| && |takes| == |dups| && j < u
    requires dups' == (if takes[j] then dups[j := dups[j] + 1] else dups)
    requires total' == (if takes[j] then total + dups[j] + 1 else total)
    ensures Sweep(takes, u, j + 1, dups', total') == Sweep(takes, u, j, dups, total)
  {
  }

  /** The number of taken entries from `j` up to `u`. */
  function Taken(takes: seq<bool>, j: nat, u: nat): nat
    requires u <= |takes|
    decreases u - j
  {
    if j >= u then 0 else (if takes[j] then 1 else 0) + Taken(takes, j + 1, u)
  }

  /**
   * One turn of the outer loop at entry `i`: skipped when already marked;
   * otherwise `compact` and `previous` are updated from the entry and, when
   * it compacts and shares its name, the later entries with that name are
   * scanned and its count is written when it is not 1.
   */
  function Visit(g: Group, i: nat, p: Pass): (q: Pass)
    requires WellFormed(g) && i < |g.entries| && |p.dups| == |g.entries|
    ensures |q.dups| == |g.entries|
  {
    if p.dups[i] != 0 then p
    else
      var c := g.compacts[i];
      var ok := p.ok && c && (p.shown.None? || g.texts[i] == p.shown.value);
      var shown := if ok then Some(g.texts[i]) else p.shown;
      if !c || Count(g.entries, g.entries[i].0) == 1 then Pass(ok, shown, p.dups)
      else
        SameName(g, i);
        var t := Sweep(Picks(g, i), Upper(g, i), i + 1, p.dups, 1);
        Pass(ok, shown, if t.total != 1 then t.dups[i := t.total] else t.dups)
  }

  /** The pass after its first `i` entries; every `duplicate_` starts at 0. */
  function Run(g: Group, i: nat): (p: Pass)
    requires WellFormed(g) && i <= |g.entries|
    ensures |p.dups| == |g.entries|
  {
    if i == 0 then Pass(true, None, seq(|g.entries|, k => 0))
    else Visit(g, i - 1, Run(g, i - 1))
  }

  // ---------------------------------------------------------------------
  // What a pass promises
  // ---------------------------------------------------------------------

  /** Entries `r` and `k` share a name, both compact, and are accepted with each other. */
  ghost predicate Matching(g: Group, r: nat, k: nat)
    requires WellFormed(g) && r < |g.entries| && k < |g.entries|
  {
    g.entries[r].0 == g.entries[k].0 && g.compacts[r] && g.compacts[k] && g.same[r][k]
  }

  /** The number of entries after `i` that match it. */
  ghost function Matches(g: Group, i: nat): nat
    requires WellFormed(g) && i < |g.entries|
  {
    if g.compacts[i] then Taken(Picks(g, i), i + 1, Upper(g, i)) else 0
  }

  /** The count a surviving entry ends with: 1 + the entries after it that match it, or 0 when none does. */
  ghost function Tallied(g: Group, r: nat): nat
    requires WellFormed(g) && r < |g.entries|
  {
    var n := Matches(g, r);
    if n == 0 then 0 else n + 1
  }

  /** Entry `k` was absorbed by the earlier surviving entry `r`. */
  ghost predicate Absorbs(g: Group, dups: seq<nat>, r: nat, k: nat)
    requires WellFormed(g) && |dups| == |g.entries| && k < |g.entries|
  {
    r < k && dups[r] != 1 && Matching(g, r, k)
  }

  /** Among the first `i` entries, every survivor compacts and all survivors show the same text. */
  ghost predicate Uniform(g: Group, dups: seq<nat>, i: nat)
    requires WellFormed(g) && |dups| == |g.entries| && i <= |g.entries|
  {
    && (forall k | 0 <= k < i && dups[k] != 1 :: g.compacts[k])
    && (forall k, l | 0 <= k < i && 0 <= l < i && dups[k] != 1 && dups[l] != 1 :: g.texts[k] == g.texts[l])
  }

  /** The weight an entry adds to the node count of its group: absorbed 0, alone 1, a count n itself. */
  function Weight(v: nat): nat
  {
    if v == 1 then 0 else if v == 0 then 1 else v
  }

  /** The weights of the first `i` entries. */
  function WeightTo(dups: seq<nat>, i: nat): nat
    requires i <= |dups|
  {
    if i == 0 then 0 else WeightTo(dups, i - 1) + Weight(dups[i - 1])
  }

  /** The number of absorbed entries from `i` on. */
  function OnesFrom(dups: seq<nat>, i: nat): nat
    decreases |dups| - i
  {
    if i >= |dups| then 0 else (if dups[i] == 1 then 1 else 0) + OnesFrom(dups, i + 1)
  }

  // ---------------------------------------------------------------------
  // The invariant of the outer loop after `i` entries
  // ---------------------------------------------------------------------

  /** No entry from `i` on carries a count yet. */
  ghost predicate Unvisited(dups: seq<nat>, i: nat)
  {
    forall k | i <= k < |dups| :: dups[k] <= 1
  }

  /** Every absorbed entry was absorbed by a survivor before `i`. */
  ghost predicate Owned(g: Group, dups: seq<nat>, i: nat)
    requires WellFormed(g) && |dups| == |g.entries|
  {
    forall k | 0 <= k < |g.entries| && dups[k] == 1 :: exists r | 0 <= r < i :: Absorbs(g, dups, r, k)
  }

  /** Every entry that matches a survivor before `i` is absorbed. */
  ghost predicate Scanned(g: Group, dups: seq<nat>, i: nat)
    requires WellFormed(g) && |dups| == |g.entries|
  {
    forall r, k {:trigger Matching(g, r, k)} | 0 <= r < i && r < k < |g.entries| && dups[r] != 1 && Matching(g, r, k) ::
      dups[k] == 1
  }

  /** Every survivor before `i` holds its count. */
  ghost predicate Counted(g: Group, dups: seq<nat>, i: nat)
    requires WellFormed(g) && |dups| == |g.entries| && i <= |g.entries|
  {
    forall r | 0 <= r < i && dups[r] != 1 :: dups[r] == Tallied(g, r)
  }

  /** `compact` says whether the first `i` entries are uniform, and `previous` shows their text. */
  ghost predicate Shown(g: Group, p: Pass, i: nat)
    requires WellFormed(g) && |p.dups| == |g.entries| && i <= |g.entries|
  {
    && (p.ok <==> Uniform(g, p.dups, i))
    && (p.ok && p.shown.None? ==> forall k | 0 <= k < i :: p.dups[k] == 1)
    && (p.ok && p.shown.Some? ==> exists k | 0 <= k < i && p.dups[k] != 1 :: g.texts[k] == p.shown.value)
  }

  /** The weights of the first `i` entries add up to `i` plus the absorbed entries after them. */
  ghost predicate Weighed(dups: seq<nat>, i: nat)
    requires i <= |dups|
  {
    WeightTo(dups, i) == i + OnesFrom(dups, i)
  }

  ghost predicate Inv(g: Group, p: Pass, i: nat)
    requires WellFormed(g) && |p.dups| == |g.entries| && i <= |g.entries|
  {
    && Unvisited(p.dups, i)
    && Owned(g, p.dups, i)
    && Scanned(g, p.dups, i)
    && Counted(g, p.dups, i)
    && Shown(g, p, i)
    && Weighed(p.dups, i)
  }

  // ---------------------------------------------------------------------
  // Counting
  // ---------------------------------------------------------------------

  lemma {:induction false} WeightToFrame(d0: seq<nat>, d1: seq<nat>, i: nat)
    requires i <= |d0| && i <= |d1|
    requires forall k | 0 <= k < i :: d0[k] == d1[k]
    ensures WeightTo(d0, i) == WeightTo(d1, i)
  {
    if i > 0 {
      WeightToFrame(d0, d1, i - 1);
    }
  }

  lemma {:induction false} OnesFromFrame(d0: seq<nat>, d1: seq<nat>, i: nat)
    requires |d0| == |d1|
    requires forall k | i <= k < |d0| :: d0[k] == d1[k]
    ensures OnesFrom(d0, i) == OnesFrom(d1, i)
    decreases |d0| - i
  {
    if i < |d0| {
      OnesFromFrame(d0, d1, i + 1);
    }
  }

  lemma {:induction false} OnesFromZero(dups: seq<nat>, i: nat)
    requires forall k | 0 <= k < |dups| :: dups[k] == 0
    ensures OnesFrom(dups, i) == 0
    decreases |dups| - i
  {
    if i < |dups| {
      OnesFromZero(dups, i + 1);
    }
  }

  /**
   * The inner loop, when the entries it takes are unmarked: each of them
   * goes from 0 to 1, nothing else changes, and `duplicate` grows by the
   * number taken.
   */
  lemma {:induction false} SweepEffect(takes: seq<bool>, u: nat, j: nat, dups: seq<nat>, total: nat)
    requires u <= |takes| && |takes| == |dups| && j <= u
    requires forall k | j <= k < u && takes[k] :: dups[k] == 0
    ensures var t := Sweep(takes, u, j, dups, total);
      && (forall k | 0 <= k < |dups| :: t.dups[k] == if j <= k < u && takes[k] then 1 else dups[k])
      && t.total == total + Taken(takes, j, u)
      && OnesFrom(t.dups, j) == OnesFrom(dups, j) + Taken(takes, j, u)
    decreases u - j
  {
    if j < u {
      var d' := if takes[j] then dups[j := dups[j] + 1] else dups;
      SweepEffect(takes, u, j + 1, d', if takes[j] then total + dups[j] + 1 else total);
      OnesFromFrame(d', dups, j + 1);
    }
  }

  // ---------------------------------------------------------------------
  // One turn of the outer loop
  // ---------------------------------------------------------------------

  /** Whether the first `i + 1` entries are uniform, from whether the first `i` are. */
  lemma {:induction false} UniformStep(g: Group, dups: seq<nat>, i: nat)
    requires WellFormed(g) && |dups| == |g.entries| && i < |g.entries|
    ensures Uniform(g, dups, i + 1) <==>
      && Uniform(g, dups, i)
      && (dups[i] != 1 ==>
            && g.compacts[i]
            && forall k | 0 <= k < i && dups[k] != 1 :: g.texts[k] == g.texts[i])
  {
  }

  /** Uniformity of the first `i` entries depends on which of them survive only. */
  lemma {:induction false} UniformFrame(g: Group, d0: seq<nat>, d1: seq<nat>, i: nat)
    requires WellFormed(g) && |d0| == |g.entries| && |d1| == |g.entries| && i <= |g.entries|
    requires forall k | 0 <= k < i :: d0[k] == d1[k]
    ensures Uniform(g, d0, i) == Uniform(g, d1, i)
  {
  }

  /**
   * The `duplicate_` values after the turn at an unmarked entry `i`: `i`
   * holds its count, the entries matching it are absorbed, nothing else changes.
   */
  ghost predicate Turned(g: Group, d0: seq<nat>, d1: seq<nat>, i: nat)
    requires WellFormed(g) && |d0| == |g.entries| && |d1| == |g.entries| && i < |g.entries|
  {
    && d1[i] == Tallied(g, i)
    && (forall k | 0 <= k < |g.entries| && k != i :: d1[k] == if i < k && Matching(g, i, k) then 1 else d0[k])
  }

  /** Before its turn, the entries matching an unmarked entry are unmarked. */
  lemma {:induction false} Untaken(g: Group, dups: seq<nat>, i: nat)
    requires WellFormed(g) && Joined(g) && |dups| == |g.entries| && i < |g.entries|
    requires Unvisited(dups, i) && Owned(g, dups, i) && Scanned(g, dups, i)
    requires dups[i] == 0
    ensures forall k | i < k < |g.entries| && Matching(g, i, k) :: dups[k] == 0
  {
    forall k | i < k < |g.entries| && Matching(g, i, k)
      ensures dups[k] == 0
    {
      forall r | 0 <= r < i
        ensures !Absorbs(g, dups, r, k)
      {
        assert Absorbs(g, dups, r, k) ==> Matching(g, r, i);
      }
    }
  }

  lemma {:induction false} OwnedNext(g: Group, d0: seq<nat>, d1: seq<nat>, i: nat)
    requires WellFormed(g) && |d0| == |g.entries| && |d1| == |g.entries| && i < |g.entries|
    requires Owned(g, d0, i) && Turned(g, d0, d1, i)
    ensures Owned(g, d1, i + 1)
  {
    forall k | 0 <= k < |g.entries| && d1[k] == 1
      ensures exists r | 0 <= r < i + 1 :: Absorbs(g, d1, r, k)
    {
      if i < k && Matching(g, i, k) {
        assert Absorbs(g, d1, i, k);
      } else {
        var r :| 0 <= r < i && Absorbs(g, d0, r, k);
        assert Absorbs(g, d1, r, k);
      }
    }
  }

  lemma {:induction false} ScannedNext(g: Group, d0: seq<nat>, d1: seq<nat>, i: nat)
    requires WellFormed(g) && |d0| == |g.entries| && |d1| == |g.entries| && i < |g.entries|
    requires Scanned(g, d0, i) && Turned(g, d0, d1, i) && d0[i] == 0
    ensures Scanned(g, d1, i + 1)
  {
  }

  lemma {:induction false} CountedNext(g: Group, d0: seq<nat>, d1: seq<nat>, i: nat)
    requires WellFormed(g) && |d0| == |g.entries| && |d1| == |g.entries| && i < |g.entries|
    requires Counted(g, d0, i) && Turned(g, d0, d1, i)
    ensures Counted(g, d1, i + 1)
  {
  }

  lemma {:induction false} ShownNext(g: Group, p: Pass, q: Pass, i: nat)
    requires WellFormed(g) && |p.dups| == |g.entries| && |q.dups| == |g.entries| && i < |g.entries|
    requires Shown(g, p, i) && p.dups[i] == 0 && q.dups[i] != 1
    requires forall k | 0 <= k < i :: q.dups[k] == p.dups[k]
    requires q.ok == (p.ok && g.compacts[i] && (p.shown.None? || g.texts[i] == p.shown.value))
    requires q.shown == if q.ok then Some(g.texts[i]) else p.shown
    ensures Shown(g, q, i + 1)
  {
    UniformFrame(g, p.dups, q.dups, i);
    UniformStep(g, q.dups, i);
    if p.ok && p.shown.Some? {
      var k :| 0 <= k < i && p.dups[k] != 1 && g.texts[k] == p.shown.value;
      assert q.dups[k] != 1;
    }
  }

  lemma {:induction false} WeighedNext(g: Group, d0: seq<nat>, d1: seq<nat>, i: nat)
    requires WellFormed(g) && |d0| == |g.entries| && |d1| == |g.entries| && i < |g.entries|
    requires Weighed(d0, i) && d0[i] == 0
    requires d1[i] == Tallied(g, i) && forall k | 0 <= k < i :: d1[k] == d0[k]
    requires OnesFrom(d1, i + 1) == OnesFrom(d0, i + 1) + Matches(g, i)
    ensures Weighed(d1, i + 1)
  {
    WeightToFrame(d0, d1, i);
  }

  /** The turn at an entry that is already marked skips it. */
  lemma {:induction false} SkipStep(g: Group, p: Pass, i: nat)
    requires WellFormed(g) && |p.dups| == |g.entries| && i < |g.entries|
    requires Inv(g, p, i) && p.dups[i] != 0
    ensures Inv(g, Visit(g, i, p), i + 1)
  {
    assert Visit(g, i, p) == p;
    UniformStep(g, p.dups, i);
    if p.ok && p.shown.Some? {
      var k :| 0 <= k < i && p.dups[k] != 1 && g.texts[k] == p.shown.value;
    }
  }

  /** The turn at an unmarked entry that does not scan: nothing matches it and only `previous` changes. */
  lemma {:induction false} TurnAlone(g: Group, p: Pass, i: nat)
    requires WellFormed(g) && |p.dups| == |g.entries| && i < |g.entries|
    requires p.dups[i] == 0
    requires !g.compacts[i] || Count(g.entries, g.entries[i].0) == 1
    ensures var q := Visit(g, i, p);
      && Turned(g, p.dups, q.dups, i)
      && OnesFrom(q.dups, i + 1) == OnesFrom(p.dups, i + 1) + Matches(g, i)
  {
    SameName(g, i);
    if g.compacts[i] {
      CountOne(g.entries, i);
      if i + 1 < |g.entries| {
        assert g.entries[i + 1].0 != g.entries[i].0;
      }
    }
  }

  /** The turn at an unmarked entry that scans: the entries matching it are absorbed and it holds its count. */
  lemma {:induction false} TurnScan(g: Group, p: Pass, i: nat)
    requires WellFormed(g) && Joined(g) && |p.dups| == |g.entries| && i < |g.entries|
    requires Unvisited(p.dups, i) && Owned(g, p.dups, i) && Scanned(g, p.dups, i)
    requires p.dups[i] == 0
    requires g.compacts[i] && Count(g.entries, g.entries[i].0) != 1
    ensures var q := Visit(g, i, p);
      && Turned(g, p.dups, q.dups, i)
      && OnesFrom(q.dups, i + 1) == OnesFrom(p.dups, i + 1) + Matches(g, i)
  {
    SameName(g, i);
    Untaken(g, p.dups, i);
    var takes := Picks(g, i);
    forall k | i + 1 <= k < Upper(g, i) && takes[k]
      ensures p.dups[k] == 0
    {
      assert Matching(g, i, k);
    }
    SweepEffect(takes, Upper(g, i), i + 1, p.dups, 1);
    var t := Sweep(takes, Upper(g, i), i + 1, p.dups, 1);
    OnesFromFrame(t.dups, Visit(g, i, p).dups, i + 1);
  }

  lemma {:induction false} VisitInv(g: Group, p: Pass, i: nat)
    requires WellFormed(g) && Joined(g) && |p.dups| == |g.entries| && i < |g.entries|
    requires Inv(g, p, i)
    ensures Inv(g, Visit(g, i, p), i + 1)
  {
    if p.dups[i] != 0 {
      SkipStep(g, p, i);
    } else {
      var q := Visit(g, i, p);
      if !g.compacts[i] || Count(g.entries, g.entries[i].0) == 1 {
        TurnAlone(g, p, i);
      } else {
        TurnScan(g, p, i);
      }
      OwnedNext(g, p.dups, q.dups, i);
      ScannedNext(g, p.dups, q.dups, i);
      CountedNext(g, p.dups, q.dups, i);
      ShownNext(g, p, q, i);
      WeighedNext(g, p.dups, q.dups, i);
    }
  }

  lemma {:induction false} RunInv(g: Group, i: nat)
    requires WellFormed(g) && Joined(g) && i <= |g.entries|
    ensures Inv(g, Run(g, i), i)
  {
    if i == 0 {
      OnesFromZero(Run(g, 0).dups, 0);
    } else {
      var p := Run(g, i - 1);
      RunInv(g, i - 1);
      VisitInv(g, p, i - 1);
    }
  }

  /** The turn at `r` scanned: `r` was unmarked when it was reached, compacts, and shares its name. */
  ghost predicate Scans(g: Group, r: nat)
    requires WellFormed(g) && r < |g.entries|
  {
    Run(g, r).dups[r] == 0 && g.compacts[r] && Count(g.entries, g.entries[r].0) != 1
  }

  /** The inner loop from `j` on leaves the counts before `j` alone. */
  lemma {:induction false} SweepKeeps(takes: seq<bool>, u: nat, j: nat, dups: seq<nat>, total: nat, r: nat)
    requires u <= |takes| && |takes| == |dups| && r < j && r < |dups|
    ensures Sweep(takes, u, j, dups, total).dups[r] == dups[r]
    decreases u - j
  {
    if j < u {
      SweepKeeps(takes, u, j + 1, if takes[j] then dups[j := dups[j] + 1] else dups,
                 if takes[j] then total + dups[j] + 1 else total, r);
    }
  }

  /** The turns after entry `r` leave its count as its own turn left it. */
  lemma {:induction false} RunKeeps(g: Group, r: nat, i: nat)
    requires WellFormed(g) && r < i <= |g.entries|
    ensures Run(g, i).dups[r] == Run(g, r + 1).dups[r]
  {
    if i > r + 1 {
      RunKeeps(g, r, i - 1);
      var p := Run(g, i - 1);
      if p.dups[i - 1] == 0 && g.compacts[i - 1] && Count(g.entries, g.entries[i - 1].0) != 1 {
        SameName(g, i - 1);
        SweepKeeps(Picks(g, i - 1), Upper(g, i - 1), i, p.dups, 1, r);
      }
    }
  }

  /**
   * An entry absorbed by `r` at the end of the pass was reached by the
   * inner loop of the turn at `r`, and taken there.
   */
  lemma AbsorbedInTurn(g: Group, r: nat, k: nat)
    requires WellFormed(g) && Joined(g) && k < |g.entries|
    requires Absorbs(g, Run(g, |g.entries|).dups, r, k)
    ensures Scans(g, r) && k < Upper(g, r) && Picks(g, r)[k]
  {
    RunInv(g, r);
    RunKeeps(g, r, |g.entries|);
    CountOne(g.entries, r);
    SameName(g, r);
  }

  /**
   * What a finished pass leaves: it answers whether the survivors are
   * uniform; an entry is absorbed exactly when an earlier survivor matches
   * it; each survivor holds 1 + the entries it absorbed, or 0 when it
   * absorbed none; the first entry survives; and the weights add up to the
   * size of the group, so the counts account for every entry once.
   */
  lemma {:induction false} PassOutcome(g: Group)
    requires WellFormed(g) && Joined(g)
    ensures var n := |g.entries|; var p := Run(g, n);
      && (p.ok <==> Uniform(g, p.dups, n))
      && (forall k | 0 <= k < n :: p.dups[k] == 1 <==> exists r | 0 <= r < n :: Absorbs(g, p.dups, r, k))
      && (forall r | 0 <= r < n && p.dups[r] != 1 :: p.dups[r] == Tallied(g, r))
      && (n > 0 ==> p.dups[0] != 1)
      && WeightTo(p.dups, n) == n
  {
    var n := |g.entries|;
    var p := Run(g, n);
    RunInv(g, n);
    forall k | 0 <= k < n && exists r | 0 <= r < n :: Absorbs(g, p.dups, r, k)
      ensures p.dups[k] == 1
    {
      var r :| 0 <= r < n && Absorbs(g, p.dups, r, k);
      assert Matching(g, r, k);
    }
  }
}
