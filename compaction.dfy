/**
 * Subtree compaction as `tree()` runs it: the memoised `compact()` of a
 * node and the pass `compact(NameMap&)` over a group of siblings (or of
 * roots), which write `compact_` and `duplicate_` of the nodes below and
 * call `compact(one, two)`.  Each method is proved against the functions
 * of `Grouping`: the memo of every node it reaches ends up holding
 * `CompactOf`, and `duplicate_` of every entry of a group what `PassOver`
 * leaves for it.
 */
module Compaction {
  import opened Wrappers
  import opened Multimap
  import opened Text
  import opened Forest
  import opened Equivalence
  import opened Groups
  import opened Grouping

  // ---------------------------------------------------------------------
  // Subtrees
  // ---------------------------------------------------------------------

  /** `z` lies in the subtree of `x`. */
  ghost predicate Below(f: Forest, z: int, x: int)
    requires f.Wf() && z in f.nodes
  {
    x in f.Ancestors(z)
  }

  /** Two nodes above a third lie on one chain. */
  lemma {:induction false} AncestorsLinear(f: Forest, z: int, x: int, y: int)
    requires f.Wf() && z in f.nodes && x in f.Ancestors(z) && y in f.Ancestors(z)
    ensures x in f.nodes && y in f.nodes
    ensures x in f.Ancestors(y) || y in f.Ancestors(x)
    decreases f.height - f.rank[z]
  {
    f.AncestorsClosed(z);
    if x != z && y != z {
      var p := f.nodes[z].parent.value;
      AncestorsLinear(f, p, x, y);
    } else if x == z {
      f.AncestorsClosed(y);
    } else {
      f.AncestorsClosed(x);
    }
  }

  /** Being above is transitive. */
  lemma {:induction false} AncestorsTransitive(f: Forest, z: int, y: int, x: int)
    requires f.Wf() && z in f.nodes && y in f.Ancestors(z)
    requires y in f.nodes && x in f.Ancestors(y)
    ensures x in f.Ancestors(z)
    decreases f.height - f.rank[z]
  {
    if y != z {
      AncestorsTransitive(f, f.nodes[z].parent.value, y, x);
    }
  }

  /** A child's subtree lies inside its parent's, without the parent. */
  lemma ChildSubtree(f: Forest, x: int, c: int, z: int)
    requires f.Wf() && x in f.nodes && c in f.nodes && z in f.nodes
    requires f.nodes[c].parent == Some(x) && Below(f, z, c)
    ensures Below(f, z, x) && z != x
  {
    f.AncestorsClosed(c);
    AncestorsTransitive(f, z, c, x);
    f.AncestorsClosed(z);
  }

  /** Of two nodes above a third, one is above the other. */
  lemma LinearAbove(f: Forest, z: int, x: int, w: int)
    requires f.Wf() && z in f.nodes && Below(f, z, x) && Below(f, z, w)
    ensures x in f.nodes && w in f.nodes && (Below(f, x, w) || Below(f, w, x))
  {
    f.AncestorsClosed(z);
    AncestorsLinear(f, z, x, w);
  }

  /** The first-child chain of `a` lies in the subtree of `a`. */
  lemma {:induction false} ChainBelow(f: Forest, a: int)
    requires f.Wf() && a in f.nodes
    ensures forall z | z in Chain(f, a) :: z in f.nodes && Below(f, z, a)
    decreases f.rank[a]
  {
    f.AncestorsClosed(a);
    if HasChildren(f, a) {
      var c := First(f, a);
      ChainBelow(f, c);
      forall z | z in Chain(f, c)
        ensures Below(f, z, a)
      {
        ChildSubtree(f, a, c, z);
      }
    }
  }

  // ---------------------------------------------------------------------
  // Groups of nodes whose subtrees do not meet
  // ---------------------------------------------------------------------

  /** No entry of `names` lies in the subtree of another. */
  ghost predicate Apart(f: Forest, names: seq<(string, int)>)
    requires f.Wf()
  {
    && (forall k | 0 <= k < |names| :: names[k].1 in f.nodes)
    && (forall k, l {:trigger Below(f, names[k].1, names[l].1)} | 0 <= k < |names| && 0 <= l < |names| && k != l ::
          !Below(f, names[k].1, names[l].1))
  }

  /** Two different children of one node have apart subtrees. */
  lemma SiblingsApart(f: Forest, x: int)
    requires f.Wf() && x in f.nodes
    ensures Apart(f, Children(f, x))
  {
    var cs := Children(f, x);
    forall k, l | 0 <= k < |cs| && 0 <= l < |cs| && k != l
      ensures !Below(f, cs[k].1, cs[l].1)
    {
      assert Indexes(f.nodes, x, f.visual);
      assert cs[k] in f.nodes[x].byName && cs[l] in f.nodes[x].byName;
      StrLessIrreflexive(cs[k].0);
      if k < l {
        assert NameBefore(cs[k], cs[l]);
      } else {
        assert NameBefore(cs[l], cs[k]);
      }
      f.AncestorsClosed(x);
      assert f.Ancestors(cs[k].1) == {cs[k].1} + f.Ancestors(x);
    }
  }

  /** `z` lies in the subtree of one of the entries `lo` to `hi` of `names`. */
  ghost predicate InRange(f: Forest, names: seq<(string, int)>, lo: nat, hi: nat, z: int)
    requires f.Wf() && z in f.nodes && hi <= |names| && forall k | 0 <= k < |names| :: names[k].1 in f.nodes
  {
    exists k | lo <= k < hi :: Below(f, z, names[k].1)
  }

  /** `duplicate_` of the entries of `names`. */
  ghost function Dups(f: Forest, d: map<int, nat>, names: seq<(string, int)>): (s: seq<nat>)
    requires d.Keys == f.nodes.Keys && forall k | 0 <= k < |names| :: names[k].1 in f.nodes
    ensures |s| == |names|
  {
    seq(|names|, k requires 0 <= k < |names| => d[names[k].1])
  }

  // ---------------------------------------------------------------------
  // The state compaction leaves
  // ---------------------------------------------------------------------

  /**
   * The subtree of `x` is compacted: `compact_` of every node in it holds
   * `CompactOf`, and `duplicate_` of every child of every node in it what
   * the pass over its name index leaves.
   */
  ghost predicate Settled(f: Forest, t: map<int, string>, m: map<int, bool>, d: map<int, nat>, x: int)
    requires f.Wf() && Labels(f, t) && x in f.nodes && d.Keys == f.nodes.Keys
    decreases f.rank[x]
  {
    var cs := Children(f, x);
    && x in m && m[x] == CompactOf(f, t, x)
    && Dups(f, d, cs) == PassOver(f, t, cs, f.rank[x]).dups
    && (forall k | 0 <= k < |cs| :: Settled(f, t, m, d, cs[k].1))
  }

  /** No node of the subtree of `x` is memoised and none below `x` is marked. */
  ghost predicate Fresh(f: Forest, m: map<int, bool>, d: map<int, nat>, x: int)
    requires f.Wf() && x in f.nodes && d.Keys == f.nodes.Keys
  {
    forall z {:trigger Below(f, z, x)} | z in f.nodes && Below(f, z, x) :: z !in m && (z != x ==> d[z] == 0)
  }

  /** A fresh node whose own count is still 0: an entry `compact(NameMap&)` has not reached. */
  ghost predicate Pending(f: Forest, m: map<int, bool>, d: map<int, nat>, x: int)
    requires f.Wf() && x in f.nodes && d.Keys == f.nodes.Keys
  {
    Fresh(f, m, d, x) && d[x] == 0
  }

  /** `compact_` and `duplicate_` of `z` are the same in both states. */
  ghost predicate Kept(m0: map<int, bool>, d0: map<int, nat>, m1: map<int, bool>, d1: map<int, nat>, z: int)
    requires z in d0 && z in d1
  {
    (z in m0 <==> z in m1) && (z in m0 ==> m0[z] == m1[z]) && d0[z] == d1[z]
  }

  /** The two states agree on the subtree of `x`, except possibly on `duplicate_` of `x` itself. */
  ghost predicate SameBelow(f: Forest, m0: map<int, bool>, d0: map<int, nat>, m1: map<int, bool>, d1: map<int, nat>, x: int)
    requires f.Wf() && d0.Keys == f.nodes.Keys && d1.Keys == f.nodes.Keys
  {
    forall z {:trigger Below(f, z, x)} | z in f.nodes && Below(f, z, x) ::
      (z in m0 <==> z in m1) && (z in m0 ==> m0[z] == m1[z]) && (z != x ==> d0[z] == d1[z])
  }

  /** The second state differs from the first only in the subtree of `x`. */
  ghost predicate ChangedBelow(f: Forest, m0: map<int, bool>, d0: map<int, nat>, m1: map<int, bool>, d1: map<int, nat>, x: int)
    requires f.Wf() && x in f.nodes && d0.Keys == f.nodes.Keys && d1.Keys == f.nodes.Keys
  {
    forall z {:trigger Kept(m0, d0, m1, d1, z)} | z in f.nodes && !Kept(m0, d0, m1, d1, z) :: Below(f, z, x)
  }

  /** The second state differs from the first only in the subtrees of the entries `lo` to `hi`. */
  ghost predicate Changed(f: Forest, m0: map<int, bool>, d0: map<int, nat>, m1: map<int, bool>, d1: map<int, nat>,
                          names: seq<(string, int)>, lo: nat, hi: nat)
    requires f.Wf() && d0.Keys == f.nodes.Keys && d1.Keys == f.nodes.Keys && Apart(f, names) && hi <= |names|
  {
    forall z {:trigger Kept(m0, d0, m1, d1, z)} | z in f.nodes && !Kept(m0, d0, m1, d1, z) :: InRange(f, names, lo, hi, z)
  }

  /** Highlighting only grows, and only in the subtrees of the entries `lo` to `hi`. */
  ghost predicate HighlightsWithin(f: Forest, h0: set<int>, h1: set<int>, names: seq<(string, int)>, lo: nat, hi: nat)
    requires f.Wf() && Apart(f, names) && hi <= |names|
  {
    h0 <= h1 && forall z | z in h1 && z !in h0 :: z in f.nodes && InRange(f, names, lo, hi, z)
  }

  // ---------------------------------------------------------------------
  // Frames
  // ---------------------------------------------------------------------

  /** Whether a subtree is compacted depends on that subtree's state only. */
  lemma {:induction false} SettledFrame(f: Forest, t: map<int, string>, m0: map<int, bool>, d0: map<int, nat>,
                                       m1: map<int, bool>, d1: map<int, nat>, x: int)
    requires f.Wf() && Labels(f, t) && x in f.nodes && d0.Keys == f.nodes.Keys && d1.Keys == f.nodes.Keys
    requires SameBelow(f, m0, d0, m1, d1, x)
    requires Settled(f, t, m0, d0, x)
    ensures Settled(f, t, m1, d1, x)
    decreases f.rank[x]
  {
    f.AncestorsClosed(x);
    assert Below(f, x, x);
    var cs := Children(f, x);
    forall k | 0 <= k < |cs|
      ensures Settled(f, t, m1, d1, cs[k].1)
      ensures d1[cs[k].1] == d0[cs[k].1]
    {
      var c := cs[k].1;
      forall z | z in f.nodes && Below(f, z, c)
        ensures Below(f, z, x) && z != x
      {
        ChildSubtree(f, x, c, z);
      }
      f.AncestorsClosed(c);
      SettledFrame(f, t, m0, d0, m1, d1, c);
    }
    assert Dups(f, d1, cs) == Dups(f, d0, cs);
  }

  /** A state differing only outside the subtree of `x` agrees with it there. */
  lemma DisjointSame(f: Forest, m0: map<int, bool>, d0: map<int, nat>, m1: map<int, bool>, d1: map<int, nat>,
                     names: seq<(string, int)>, lo: nat, hi: nat, k: nat)
    requires f.Wf() && d0.Keys == f.nodes.Keys && d1.Keys == f.nodes.Keys && Apart(f, names) && hi <= |names|
    requires Changed(f, m0, d0, m1, d1, names, lo, hi)
    requires k < |names| && !(lo <= k < hi)
    ensures SameBelow(f, m0, d0, m1, d1, names[k].1)
    ensures Kept(m0, d0, m1, d1, names[k].1)
  {
    var x := names[k].1;
    forall z | z in f.nodes && Below(f, z, x)
      ensures Kept(m0, d0, m1, d1, z)
    {
      if !Kept(m0, d0, m1, d1, z) {
        var l :| lo <= l < hi && Below(f, z, names[l].1);
        LinearAbove(f, z, x, names[l].1);
        assert false;
      }
    }
    f.AncestorsClosed(x);
  }

  /**
   * A change confined to the entries `lo` to `hi` of a group keeps every
   * other entry, its memo, its count, and whether it is compacted or fresh.
   */
  lemma OutsideFrame(f: Forest, t: map<int, string>, m0: map<int, bool>, d0: map<int, nat>, m1: map<int, bool>, d1: map<int, nat>,
                     names: seq<(string, int)>, lo: nat, hi: nat)
    requires f.Wf() && Labels(f, t) && d0.Keys == f.nodes.Keys && d1.Keys == f.nodes.Keys && Apart(f, names) && hi <= |names|
    requires Changed(f, m0, d0, m1, d1, names, lo, hi)
    ensures forall k | 0 <= k < |names| && !(lo <= k < hi) ::
      && Kept(m0, d0, m1, d1, names[k].1)
      && (Settled(f, t, m0, d0, names[k].1) ==> Settled(f, t, m1, d1, names[k].1))
      && (Pending(f, m0, d0, names[k].1) ==> Pending(f, m1, d1, names[k].1))
  {
    forall k | 0 <= k < |names| && !(lo <= k < hi)
      ensures Kept(m0, d0, m1, d1, names[k].1)
      ensures Settled(f, t, m0, d0, names[k].1) ==> Settled(f, t, m1, d1, names[k].1)
      ensures Pending(f, m0, d0, names[k].1) ==> Pending(f, m1, d1, names[k].1)
    {
      DisjointSame(f, m0, d0, m1, d1, names, lo, hi, k);
      if Settled(f, t, m0, d0, names[k].1) {
        SettledFrame(f, t, m0, d0, m1, d1, names[k].1);
      }
    }
  }

  /** A change within the subtree of entry `j` is a change confined to entry `j`. */
  lemma WithinEntry(f: Forest, m0: map<int, bool>, d0: map<int, nat>, m1: map<int, bool>, d1: map<int, nat>,
                    names: seq<(string, int)>, j: nat)
    requires f.Wf() && d0.Keys == f.nodes.Keys && d1.Keys == f.nodes.Keys && Apart(f, names) && j < |names|
    requires ChangedBelow(f, m0, d0, m1, d1, names[j].1)
    ensures Changed(f, m0, d0, m1, d1, names, j, j + 1)
  {
    forall z | z in f.nodes && !Kept(m0, d0, m1, d1, z)
      ensures InRange(f, names, j, j + 1, z)
    {
      assert Below(f, z, names[j].1);
    }
  }

  /** Two confined changes in a row are confined to the union of their ranges. */
  lemma ChangedTrans(f: Forest, m0: map<int, bool>, d0: map<int, nat>, m1: map<int, bool>, d1: map<int, nat>,
                     m2: map<int, bool>, d2: map<int, nat>, names: seq<(string, int)>,
                     lo: nat, hi: nat, lo1: nat, hi1: nat)
    requires f.Wf() && d0.Keys == f.nodes.Keys && d1.Keys == f.nodes.Keys && d2.Keys == f.nodes.Keys
    requires Apart(f, names) && hi <= |names| && lo <= lo1 && hi1 <= hi
    requires Changed(f, m0, d0, m1, d1, names, lo, hi) && Changed(f, m1, d1, m2, d2, names, lo1, hi1)
    ensures Changed(f, m0, d0, m2, d2, names, lo, hi)
  {
    forall z | z in f.nodes && !Kept(m0, d0, m2, d2, z)
      ensures InRange(f, names, lo, hi, z)
    {
      if Kept(m0, d0, m1, d1, z) {
        assert !Kept(m1, d1, m2, d2, z);
        var l :| lo1 <= l < hi1 && Below(f, z, names[l].1);
        assert lo <= l < hi;
      }
    }
  }

  /** Two confined markings in a row are confined to the union of their ranges. */
  lemma MarkedTrans(f: Forest, h0: set<int>, h1: set<int>, h2: set<int>, names: seq<(string, int)>,
                    lo: nat, hi: nat, lo1: nat, hi1: nat)
    requires f.Wf() && Apart(f, names) && hi <= |names| && lo <= lo1 && hi1 <= hi
    requires HighlightsWithin(f, h0, h1, names, lo, hi) && HighlightsWithin(f, h1, h2, names, lo1, hi1)
    ensures HighlightsWithin(f, h0, h2, names, lo, hi)
  {
    forall z | z in h2 && z !in h0
      ensures z in f.nodes && InRange(f, names, lo, hi, z)
    {
      if z !in h1 {
        var l :| lo1 <= l < hi1 && Below(f, z, names[l].1);
      }
    }
  }

  /** `compact(one, two)` with `one` an entry marks only in the subtree of that entry. */
  lemma PairMarked(f: Forest, t: map<int, string>, names: seq<(string, int)>, i: nat, two: int, h: set<int>)
    requires f.Wf() && Labels(f, t) && Apart(f, names) && i < |names| && two in f.nodes
    ensures HighlightsWithin(f, h, PairMarks(f, t, names[i].1, two, h), names, i, i + 1)
  {
    PairMarksChain(f, t, names[i].1, two, h);
    ChainBelow(f, names[i].1);
    forall z | z in PairMarks(f, t, names[i].1, two, h) && z !in h
      ensures z in f.nodes && InRange(f, names, i, i + 1, z)
    {
      assert Below(f, z, names[i].1);
    }
  }

  // ---------------------------------------------------------------------
  // Highlighting carried up to the entries that absorb
  // ---------------------------------------------------------------------

  /**
   * Every entry from `lo` up to `hi` that the turn at `i` takes, and that was
   * highlighted in `h0`, has entry `i` highlighted in `h`.
   */
  ghost predicate Lifted(g: Group, i: nat, lo: nat, hi: nat, h0: set<int>, h: set<int>)
    requires WellFormed(g) && i < |g.entries| && hi <= |g.entries|
  {
    forall k | lo <= k < hi && Picks(g, i)[k] && g.entries[k].1 in h0 :: g.entries[i].1 in h
  }

  /** The same, for every turn before `i` that scanned. */
  ghost predicate LiftedAll(g: Group, i: nat, h0: set<int>, h: set<int>)
    requires WellFormed(g) && i <= |g.entries|
  {
    forall r | 0 <= r < i && Scans(g, r) :: Lifted(g, r, r + 1, Upper(g, r), h0, h)
  }

  lemma LiftedStep(g: Group, i: nat, lo: nat, j: nat, h0: set<int>, h1: set<int>, h2: set<int>)
    requires WellFormed(g) && i < |g.entries| && j < |g.entries|
    requires Lifted(g, i, lo, j, h0, h1) && h1 <= h2
    requires Picks(g, i)[j] && g.entries[j].1 in h0 ==> g.entries[i].1 in h2
    ensures Lifted(g, i, lo, j + 1, h0, h2)
  {
  }

  lemma LiftedAllStep(g: Group, i: nat, h0: set<int>, h1: set<int>, h2: set<int>)
    requires WellFormed(g) && i < |g.entries|
    requires LiftedAll(g, i, h0, h1) && h0 <= h1 <= h2
    requires Scans(g, i) ==> Lifted(g, i, i + 1, Upper(g, i), h1, h2)
    ensures LiftedAll(g, i + 1, h0, h2)
  {
  }

  /** At the end of a pass, an entry absorbed by `r` and highlighted before it has `r` highlighted. */
  lemma LiftedAbsorbers(f: Forest, t: map<int, string>, names: seq<(string, int)>, level: nat, h0: set<int>, h: set<int>)
    requires f.Wf() && Labels(f, t) && Grouping.RankedBelow(f, names, level) && NameSorted(names)
    requires LiftedAll(GroupOf(f, t, names, level), |names|, h0, h)
    ensures forall r, k | 0 <= r < k < |names| && Absorber(f, t, names, level, r, k) && names[k].1 in h0 ::
      names[r].1 in h
  {
    var g := GroupOf(f, t, names, level);
    GroupFacts(f, t, names, level);
    forall r, k | 0 <= r < k < |names| && Absorber(f, t, names, level, r, k) && names[k].1 in h0
      ensures names[r].1 in h
    {
      AbsorberMeaning(f, t, names, level, r, k);
      AbsorbedInTurn(g, r, k);
      assert Lifted(g, r, r + 1, Upper(g, r), h0, h);
    }
  }

  // ---------------------------------------------------------------------
  // compact() and compact(NameMap&)
  // ---------------------------------------------------------------------

  /** A memoised node is compacted; an unmemoised one has pending children whose subtrees are apart. */
  lemma Entry(f: Forest, t: map<int, string>, m: map<int, bool>, d: map<int, nat>, x: int)
    requires f.Wf() && Labels(f, t) && x in f.nodes && d.Keys == f.nodes.Keys
    requires Settled(f, t, m, d, x) || Fresh(f, m, d, x)
    ensures x in m ==> Settled(f, t, m, d, x)
    ensures x !in m ==> Apart(f, Children(f, x)) && forall k | 0 <= k < |Children(f, x)| ::
      Pending(f, m, d, Children(f, x)[k].1)
  {
    f.AncestorsClosed(x);
    assert Below(f, x, x);
    if x !in m {
      var cs := Children(f, x);
      SiblingsApart(f, x);
      forall k | 0 <= k < |cs|
        ensures Pending(f, m, d, cs[k].1)
      {
        ChildSubtree(f, x, cs[k].1, cs[k].1);
        forall z | z in f.nodes && Below(f, z, cs[k].1)
          ensures Below(f, z, x) && z != x
        {
          ChildSubtree(f, x, cs[k].1, z);
        }
      }
    }
  }

  /**
   * Memoising the answer of the pass over the children of `x` compacts the
   * subtree of `x`, and `x` itself keeps its count.
   */
  lemma Close(f: Forest, t: map<int, string>, m0: map<int, bool>, d0: map<int, nat>, m1: map<int, bool>, d1: map<int, nat>,
              x: int, r: bool)
    requires f.Wf() && Labels(f, t) && x in f.nodes && d0.Keys == f.nodes.Keys && d1.Keys == f.nodes.Keys
    requires Apart(f, Children(f, x))
    requires Changed(f, m0, d0, m1, d1, Children(f, x), 0, |Children(f, x)|)
    requires Dups(f, d1, Children(f, x)) == PassOver(f, t, Children(f, x), f.rank[x]).dups
    requires forall k | 0 <= k < |Children(f, x)| :: Settled(f, t, m1, d1, Children(f, x)[k].1)
    requires r == CompactOf(f, t, x)
    ensures Settled(f, t, m1[x := r], d1, x)
    ensures ChangedBelow(f, m0, d0, m1[x := r], d1, x) && d1[x] == d0[x]
  {
    var cs := Children(f, x);
    f.AncestorsClosed(x);
    assert Below(f, x, x);
    forall z | z in f.nodes && InRange(f, cs, 0, |cs|, z)
      ensures Below(f, z, x) && z != x
    {
      var k :| 0 <= k < |cs| && Below(f, z, cs[k].1);
      ChildSubtree(f, x, cs[k].1, z);
    }
    assert Kept(m0, d0, m1, d1, x);
    forall k | 0 <= k < |cs|
      ensures Settled(f, t, m1[x := r], d1, cs[k].1)
    {
      forall z | z in f.nodes && Below(f, z, cs[k].1)
        ensures z != x
      {
        ChildSubtree(f, x, cs[k].1, z);
      }
      SettledFrame(f, t, m1, d1, m1[x := r], d1, cs[k].1);
    }
    forall z | z in f.nodes && !Kept(m0, d0, m1[x := r], d1, z)
      ensures Below(f, z, x)
    {
      if z != x {
        assert !Kept(m0, d0, m1, d1, z);
      }
    }
  }

  /** The marks of the pass over the children of `x` lie strictly below `x`. */
  lemma MarksBelow(f: Forest, h0: set<int>, h1: set<int>, x: int)
    requires f.Wf() && x in f.nodes && Apart(f, Children(f, x))
    requires HighlightsWithin(f, h0, h1, Children(f, x), 0, |Children(f, x)|)
    ensures forall z | z in h1 && z !in h0 :: z in f.nodes && Below(f, z, x) && z != x
  {
    var cs := Children(f, x);
    forall z | z in h1 && z !in h0
      ensures z in f.nodes && Below(f, z, x) && z != x
    {
      var k :| 0 <= k < |cs| && Below(f, z, cs[k].1);
      ChildSubtree(f, x, cs[k].1, z);
    }
  }

  /**
   * `Proc::compact()`: the memo of `x` when set, otherwise the pass over
   * its name index, memoised.  Afterwards the subtree of `x` is compacted;
   * nothing outside it changes, nor `duplicate_` of `x`.
   */
  method Compact(f: Forest, ghost t: map<int, string>, x: int) returns (r: bool)
    requires f.Valid() && Shows(f, f.roots, t) && x in f.nodes
    requires Settled(f, t, f.memo, f.dup, x) || Fresh(f, f.memo, f.dup, x)
    modifies f`memo, f`dup, f`highlighted
    ensures f.Valid()
    ensures r == CompactOf(f, t, x)
    ensures Settled(f, t, f.memo, f.dup, x)
    ensures ChangedBelow(f, old(f.memo), old(f.dup), f.memo, f.dup, x) && f.dup[x] == old(f.dup[x])
    ensures old(f.highlighted) <= f.highlighted
    ensures forall z | z in f.highlighted && z !in old(f.highlighted) :: z in f.nodes && Below(f, z, x) && z != x
    ensures var cs := Children(f, x);
      x !in old(f.memo) ==>
        forall r, k | 0 <= r < k < |cs| && Absorber(f, t, cs, f.rank[x], r, k) && cs[k].1 in old(f.highlighted) ::
          cs[r].1 in f.highlighted
    decreases f.rank[x] + 1, 0
  {
    Entry(f, t, f.memo, f.dup, x);
    if x in f.memo {
      return f.memo[x];
    }
    var cs := Children(f, x);
    r := CompactGroup(f, t, cs, f.rank[x]);
    Close(f, t, old(f.memo), old(f.dup), f.memo, f.dup, x, r);
    MarksBelow(f, old(f.highlighted), f.highlighted, x);
    f.memo := f.memo[x := r];
  }

  /**
   * `compact(NameMap&)` over an apart group whose entries are each
   * compacted or fresh, with every count 0: it answers what `PassOver`
   * answers, leaves every entry compacted with the count `PassOver` gives
   * it, and changes nothing outside the subtrees of the entries.
   */
  method CompactGroup(f: Forest, ghost t: map<int, string>, names: seq<(string, int)>, ghost level: nat) returns (r: bool)
    requires f.Valid() && Shows(f, f.roots, t) && Grouping.RankedBelow(f, names, level) && NameSorted(names) && Apart(f, names)
    requires Ready(f, t, f.memo, f.dup, names, 0) && forall k | 0 <= k < |names| :: f.dup[names[k].1] == 0
    modifies f`memo, f`dup, f`highlighted
    ensures f.Valid()
    ensures r == PassOver(f, t, names, level).ok
    ensures Dups(f, f.dup, names) == PassOver(f, t, names, level).dups
    ensures Compacted(f, t, f.memo, f.dup, names, 0, |names|)
    ensures Changed(f, old(f.memo), old(f.dup), f.memo, f.dup, names, 0, |names|)
    ensures HighlightsWithin(f, old(f.highlighted), f.highlighted, names, 0, |names|)
    ensures forall r, k | 0 <= r < k < |names| && Absorber(f, t, names, level, r, k) && names[k].1 in old(f.highlighted) ::
      names[r].1 in f.highlighted
    decreases level, 6
  {
    ghost var g := GroupOf(f, t, names, level);
    ghost var p := Run(g, 0);
    assert Dups(f, f.dup, names) == p.dups;
    ghost var m0, d0, h0 := f.memo, f.dup, f.highlighted;
    r := true;
    var previous: Option<int> := None;
    var i := 0;
    while i < |names|
      invariant 0 <= i <= |names|
      invariant f.Valid()
      invariant p == Run(g, i) && r == p.ok
      invariant Dups(f, f.dup, names) == p.dups
      invariant previous.Some? ==> previous.value in f.nodes
      invariant p.shown == if previous.None? then None else Some(t[previous.value])
      invariant Ready(f, t, f.memo, f.dup, names, 0) && Compacted(f, t, f.memo, f.dup, names, 0, i)
      invariant Changed(f, m0, d0, f.memo, f.dup, names, 0, |names|)
      invariant HighlightsWithin(f, h0, f.highlighted, names, 0, |names|)
      invariant LiftedAll(g, i, h0, f.highlighted)
    {
      ghost var h1 := f.highlighted;
      r, previous := VisitEntry(f, t, names, level, i, r, previous, p, m0, d0, h0);
      LiftedAllStep(g, i, h0, h1, f.highlighted);
      p := Groups.Visit(g, i, p);
      i := i + 1;
    }
    LiftedAbsorbers(f, t, names, level, h0, f.highlighted);
  }

  /**
   * One turn of `compact(NameMap&)`, at entry `i`: an entry with a count
   * is skipped; otherwise it is compacted, weighed against the entry kept
   * so far, and, when compact and not alone with its name, joined by the
   * later entries of that name.  The turn does what `Visit` does.
   */
  method VisitEntry(f: Forest, ghost t: map<int, string>, names: seq<(string, int)>, ghost level: nat, i: nat,
                    r: bool, previous: Option<int>, ghost p: Pass, ghost m0: map<int, bool>, ghost d0: map<int, nat>, ghost h0: set<int>)
    returns (r': bool, previous': Option<int>)
    requires f.Valid() && Shows(f, f.roots, t) && Grouping.RankedBelow(f, names, level) && NameSorted(names) && Apart(f, names)
    requires i < |names| && d0.Keys == f.nodes.Keys
    requires |p.dups| == |names| && Dups(f, f.dup, names) == p.dups && r == p.ok
    requires previous.Some? ==> previous.value in f.nodes
    requires p.shown == if previous.None? then None else Some(t[previous.value])
    requires Ready(f, t, f.memo, f.dup, names, 0) && Compacted(f, t, f.memo, f.dup, names, 0, i)
    requires Changed(f, m0, d0, f.memo, f.dup, names, 0, |names|)
    requires HighlightsWithin(f, h0, f.highlighted, names, 0, |names|)
    modifies f`memo, f`dup, f`highlighted
    ensures f.Valid()
    ensures var q := Groups.Visit(GroupOf(f, t, names, level), i, p);
      && r' == q.ok && Dups(f, f.dup, names) == q.dups
      && (previous'.Some? ==> previous'.value in f.nodes)
      && q.shown == if previous'.None? then None else Some(t[previous'.value])
    ensures Ready(f, t, f.memo, f.dup, names, 0) && Compacted(f, t, f.memo, f.dup, names, 0, i + 1)
    ensures Changed(f, m0, d0, f.memo, f.dup, names, 0, |names|)
    ensures HighlightsWithin(f, h0, f.highlighted, names, 0, |names|)
    ensures old(f.highlighted) <= f.highlighted
    ensures var g := GroupOf(f, t, names, level);
      p.dups[i] == 0 && g.compacts[i] && Count(names, names[i].0) != 1 ==>
        Lifted(g, i, i + 1, Upper(g, i), old(f.highlighted), f.highlighted)
    decreases level, 5
  {
    ghost var g := GroupOf(f, t, names, level);
    var proc := names[i].1;
    assert p.dups[i] == f.dup[proc];
    r', previous' := r, previous;
    if f.dup[proc] == 0 {
      var compact := CompactEntry(f, t, names, level, i, 0, 0, m0, d0, h0);
      assert g.compacts[i] == compact && g.texts[i] == t[proc] == f.Display(f.roots, proc);
      assert previous.Some? ==> t[previous.value] == f.Display(f.roots, previous.value);
      if r && compact && (previous.None? || f.Display(f.roots, proc) == f.Display(f.roots, previous.value)) {
        previous' := Some(proc);
      } else {
        r' := false;
      }
      if compact && Count(names, names[i].0) != 1 {
        Gather(f, t, names, level, i, m0, d0, h0);
      }
    }
  }

  /**
   * The end of a turn of `compact(NameMap&)` at a compact entry `i` that
   * shares its name: the inner loop, then `duplicate_` of the entry set to
   * the total when that is not 1.
   */
  method Gather(f: Forest, ghost t: map<int, string>, names: seq<(string, int)>, ghost level: nat, i: nat,
                ghost m0: map<int, bool>, ghost d0: map<int, nat>, ghost h0: set<int>)
    requires f.Valid() && Shows(f, f.roots, t) && Grouping.RankedBelow(f, names, level) && NameSorted(names) && Apart(f, names)
    requires i < |names| && d0.Keys == f.nodes.Keys
    requires Ready(f, t, f.memo, f.dup, names, 0) && Compacted(f, t, f.memo, f.dup, names, 0, i + 1)
    requires Changed(f, m0, d0, f.memo, f.dup, names, 0, |names|)
    requires HighlightsWithin(f, h0, f.highlighted, names, 0, |names|)
    modifies f`memo, f`dup, f`highlighted
    ensures f.Valid()
    ensures var g := GroupOf(f, t, names, level);
      var sw := Sweep(Picks(g, i), Upper(g, i), i + 1, old(Dups(f, f.dup, names)), 1);
      Dups(f, f.dup, names) == if sw.total != 1 then sw.dups[i := sw.total] else sw.dups
    ensures Ready(f, t, f.memo, f.dup, names, 0) && Compacted(f, t, f.memo, f.dup, names, 0, i + 1)
    ensures Changed(f, m0, d0, f.memo, f.dup, names, 0, |names|)
    ensures HighlightsWithin(f, h0, f.highlighted, names, 0, |names|)
    ensures old(f.highlighted) <= f.highlighted
    ensures var g := GroupOf(f, t, names, level); Lifted(g, i, i + 1, Upper(g, i), old(f.highlighted), f.highlighted)
    decreases level, 4
  {
    ghost var m1, d1, h1 := f.memo, f.dup, f.highlighted;
    var duplicate := Absorb(f, t, names, level, i);
    OutsideFrame(f, t, m1, d1, f.memo, f.dup, names, i + 1, |names|);
    ChangedTrans(f, m0, d0, m1, d1, f.memo, f.dup, names, 0, |names|, i + 1, |names|);
    MarkedTrans(f, h0, h1, f.highlighted, names, 0, |names|, i, |names|);
    if duplicate != 1 {
      SetDup(f, t, names, i, duplicate, 0, i + 1, m0, d0);
    }
  }

  /**
   * After `compact()` of entry `j` of an apart group, the change is
   * confined to that entry, the counts of the entries stand, and every
   * other entry stays compacted or fresh.
   */
  lemma AfterCompact(f: Forest, t: map<int, string>, m0: map<int, bool>, d0: map<int, nat>, h0: set<int>,
                     m1: map<int, bool>, d1: map<int, nat>, h1: set<int>, names: seq<(string, int)>, j: nat)
    requires f.Wf() && Labels(f, t) && d0.Keys == f.nodes.Keys && d1.Keys == f.nodes.Keys && Apart(f, names) && j < |names|
    requires ChangedBelow(f, m0, d0, m1, d1, names[j].1) && d1[names[j].1] == d0[names[j].1]
    requires h0 <= h1 && forall z | z in h1 && z !in h0 :: z in f.nodes && Below(f, z, names[j].1)
    ensures Changed(f, m0, d0, m1, d1, names, j, j + 1)
    ensures HighlightsWithin(f, h0, h1, names, j, j + 1)
    ensures Dups(f, d1, names) == Dups(f, d0, names)
    ensures forall k | 0 <= k < |names| && k != j ::
      && (Settled(f, t, m0, d0, names[k].1) ==> Settled(f, t, m1, d1, names[k].1))
      && (Pending(f, m0, d0, names[k].1) ==> Pending(f, m1, d1, names[k].1))
  {
    WithinEntry(f, m0, d0, m1, d1, names, j);
    OutsideFrame(f, t, m0, d0, m1, d1, names, j, j + 1);
    forall z | z in h1 && z !in h0
      ensures InRange(f, names, j, j + 1, z)
    {
      assert Below(f, z, names[j].1);
    }
    assert forall k | 0 <= k < |names| :: Dups(f, d1, names)[k] == Dups(f, d0, names)[k];
  }

  /**
   * Writing `duplicate_` of entry `j` of an apart group changes that entry's
   * count only, and keeps every entry compacted or fresh as it was.
   */
  lemma BumpFrame(f: Forest, t: map<int, string>, m0: map<int, bool>, d0: map<int, nat>, m: map<int, bool>, d: map<int, nat>,
                  names: seq<(string, int)>, j: nat, v: nat, lo: nat, hi: nat)
    requires f.Wf() && Labels(f, t) && d0.Keys == f.nodes.Keys && d.Keys == f.nodes.Keys && Apart(f, names) && j < |names|
    ensures Dups(f, d[names[j].1 := v], names) == Dups(f, d, names)[j := v]
    ensures forall k | 0 <= k < |names| ::
      && (Settled(f, t, m, d, names[k].1) ==> Settled(f, t, m, d[names[j].1 := v], names[k].1))
      && (k != j && Pending(f, m, d, names[k].1) ==> Pending(f, m, d[names[j].1 := v], names[k].1))
    ensures lo <= j < hi <= |names| && Changed(f, m0, d0, m, d, names, lo, hi) ==>
      Changed(f, m0, d0, m, d[names[j].1 := v], names, lo, hi)
  {
    var x := names[j].1;
    var d' := d[x := v];
    f.AncestorsClosed(x);
    assert Below(f, x, x);
    forall k | 0 <= k < |names|
      ensures Settled(f, t, m, d, names[k].1) ==> Settled(f, t, m, d', names[k].1)
      ensures k != j ==> names[k].1 != x
      ensures k != j && Pending(f, m, d, names[k].1) ==> Pending(f, m, d', names[k].1)
    {
      f.AncestorsClosed(names[k].1);
      assert Below(f, names[k].1, names[k].1);
      assert SameBelow(f, m, d, m, d', names[k].1);
      if Settled(f, t, m, d, names[k].1) {
        SettledFrame(f, t, m, d, m, d', names[k].1);
      }
    }
    assert forall k | 0 <= k < |names| :: Dups(f, d', names)[k] == Dups(f, d, names)[j := v][k];
    if lo <= j < hi <= |names| && Changed(f, m0, d0, m, d, names, lo, hi) {
      forall z | z in f.nodes && !Kept(m0, d0, m, d', z)
        ensures InRange(f, names, lo, hi, z)
      {
        if z != x {
          assert !Kept(m0, d0, m, d, z);
        }
      }
    }
  }

  /** Whether the inner loop at entry `i` takes entry `j`, read from the forest. */
  lemma TakesAt(f: Forest, t: map<int, string>, names: seq<(string, int)>, level: nat, i: nat, j: nat)
    requires f.Wf() && Labels(f, t) && Grouping.RankedBelow(f, names, level) && NameSorted(names) && i < |names| && j < |names|
    ensures Picks(GroupOf(f, t, names, level), i)[j] == (CompactOf(f, t, names[j].1) && Equivalent(f, t, names[i].1, names[j].1))
  {
  }

  /** Every entry from `lo` on is compacted or fresh. */
  ghost predicate Ready(f: Forest, t: map<int, string>, m: map<int, bool>, d: map<int, nat>,
                        names: seq<(string, int)>, lo: nat)
    requires f.Wf() && Labels(f, t) && d.Keys == f.nodes.Keys && Apart(f, names)
  {
    forall k {:trigger Settled(f, t, m, d, names[k].1)} {:trigger Pending(f, m, d, names[k].1)} | lo <= k < |names| ::
      Settled(f, t, m, d, names[k].1) || Pending(f, m, d, names[k].1)
  }

  /** Every entry from `lo` up to `hi` is compacted. */
  ghost predicate Compacted(f: Forest, t: map<int, string>, m: map<int, bool>, d: map<int, nat>,
                            names: seq<(string, int)>, lo: nat, hi: nat)
    requires f.Wf() && Labels(f, t) && d.Keys == f.nodes.Keys && Apart(f, names) && hi <= |names|
  {
    forall k {:trigger Settled(f, t, m, d, names[k].1)} | lo <= k < hi :: Settled(f, t, m, d, names[k].1)
  }

  /** A step that keeps every entry compacted or fresh as it was keeps both predicates. */
  lemma ReadyFrame(f: Forest, t: map<int, string>, m0: map<int, bool>, d0: map<int, nat>, m1: map<int, bool>, d1: map<int, nat>,
                   names: seq<(string, int)>, lo: nat, hi: nat)
    requires f.Wf() && Labels(f, t) && d0.Keys == f.nodes.Keys && d1.Keys == f.nodes.Keys && Apart(f, names) && hi <= |names|
    requires forall k | 0 <= k < |names| ::
      && (Settled(f, t, m0, d0, names[k].1) ==> Settled(f, t, m1, d1, names[k].1))
      && (Pending(f, m0, d0, names[k].1) ==> Settled(f, t, m1, d1, names[k].1) || Pending(f, m1, d1, names[k].1))
    requires Ready(f, t, m0, d0, names, lo) && Compacted(f, t, m0, d0, names, lo, hi)
    ensures Ready(f, t, m1, d1, names, lo) && Compacted(f, t, m1, d1, names, lo, hi)
  {
    forall k | lo <= k < |names|
      ensures Settled(f, t, m1, d1, names[k].1) || Pending(f, m1, d1, names[k].1)
    {
      assert Settled(f, t, m0, d0, names[k].1) || Pending(f, m0, d0, names[k].1);
    }
    forall k | lo <= k < hi
      ensures Settled(f, t, m1, d1, names[k].1)
    {
      assert Settled(f, t, m0, d0, names[k].1);
    }
  }

  /**
   * `compact()` of entry `j` of an apart group, inside a pass that may
   * change the entries from `lo` on and mark from `mlo` on: the entry ends
   * up compacted, the counts stand, and every other entry stays compacted
   * or fresh.
   */
  method CompactEntry(f: Forest, ghost t: map<int, string>, names: seq<(string, int)>, ghost level: nat, j: nat,
                      ghost lo: nat, ghost mlo: nat, ghost m0: map<int, bool>, ghost d0: map<int, nat>, ghost h0: set<int>)
    returns (compact: bool)
    requires f.Valid() && Shows(f, f.roots, t) && Grouping.RankedBelow(f, names, level) && Apart(f, names)
    requires lo <= j < |names| && mlo <= j
    requires d0.Keys == f.nodes.Keys
    requires Ready(f, t, f.memo, f.dup, names, lo) && Compacted(f, t, f.memo, f.dup, names, lo, j)
    requires Changed(f, m0, d0, f.memo, f.dup, names, lo, |names|)
    requires HighlightsWithin(f, h0, f.highlighted, names, mlo, |names|)
    modifies f`memo, f`dup, f`highlighted
    ensures f.Valid()
    ensures compact == CompactOf(f, t, names[j].1)
    ensures Dups(f, f.dup, names) == old(Dups(f, f.dup, names))
    ensures Ready(f, t, f.memo, f.dup, names, lo) && Compacted(f, t, f.memo, f.dup, names, lo, j + 1)
    ensures Changed(f, m0, d0, f.memo, f.dup, names, lo, |names|)
    ensures HighlightsWithin(f, h0, f.highlighted, names, mlo, |names|)
    ensures old(f.highlighted) <= f.highlighted
    decreases level, 1
  {
    ghost var m1, d1, h1 := f.memo, f.dup, f.highlighted;
    assert Settled(f, t, m1, d1, names[j].1) || Fresh(f, m1, d1, names[j].1);
    compact := Compact(f, t, names[j].1);
    AfterCompact(f, t, m1, d1, h1, f.memo, f.dup, f.highlighted, names, j);
    ChangedTrans(f, m0, d0, m1, d1, f.memo, f.dup, names, lo, |names|, j, j + 1);
    MarkedTrans(f, h0, h1, f.highlighted, names, mlo, |names|, j, j + 1);
    forall k | lo <= k < |names|
      ensures Settled(f, t, f.memo, f.dup, names[k].1) || Pending(f, f.memo, f.dup, names[k].1)
    {
      if k != j {
        assert Settled(f, t, m1, d1, names[k].1) || Pending(f, m1, d1, names[k].1);
      }
    }
    forall k | lo <= k < j + 1
      ensures Settled(f, t, f.memo, f.dup, names[k].1)
    {
      if k != j {
        assert Settled(f, t, m1, d1, names[k].1);
      }
    }
  }

  /** `compact(one, two)` of entries `i` and `j`, marking only in the subtree of entry `i`. */
  method Pair(f: Forest, ghost t: map<int, string>, names: seq<(string, int)>, i: nat, j: nat, ghost h0: set<int>)
    returns (same: bool)
    requires f.Valid() && Shows(f, f.roots, t) && Apart(f, names) && i < j < |names|
    requires HighlightsWithin(f, h0, f.highlighted, names, i, |names|)
    modifies f`highlighted
    ensures f.Valid()
    ensures same == Equivalent(f, t, names[i].1, names[j].1)
    ensures HighlightsWithin(f, h0, f.highlighted, names, i, |names|)
    ensures old(f.highlighted) <= f.highlighted
    ensures same && names[j].1 in old(f.highlighted) ==> names[i].1 in f.highlighted
  {
    ghost var h1 := f.highlighted;
    same := CompactPair(f, t, names[i].1, names[j].1);
    PairMarked(f, t, names, i, names[j].1, h1);
    if same && names[j].1 in h1 {
      PairMarksLifts(f, t, names[i].1, names[j].1, h1);
    }
    MarkedTrans(f, h0, h1, f.highlighted, names, i, |names|, i, i + 1);
  }

  /**
   * Writing `v` to `duplicate_` of entry `j` of a pass that may change the
   * entries from `lo` on, entry `j` being compacted: entry `j`'s count
   * becomes `v` and the rest of the state stands.
   */
  method SetDup(f: Forest, ghost t: map<int, string>, names: seq<(string, int)>, j: nat, v: nat, ghost lo: nat, ghost hi: nat,
                ghost m0: map<int, bool>, ghost d0: map<int, nat>)
    requires f.Valid() && Labels(f, t) && Apart(f, names) && lo <= j < hi <= |names| && d0.Keys == f.nodes.Keys
    requires Ready(f, t, f.memo, f.dup, names, lo) && Compacted(f, t, f.memo, f.dup, names, lo, hi)
    requires Changed(f, m0, d0, f.memo, f.dup, names, lo, |names|)
    modifies f`dup
    ensures f.Valid()
    ensures Dups(f, f.dup, names) == old(Dups(f, f.dup, names))[j := v]
    ensures f.dup[names[j].1] == v
    ensures Ready(f, t, f.memo, f.dup, names, lo) && Compacted(f, t, f.memo, f.dup, names, lo, hi)
    ensures Changed(f, m0, d0, f.memo, f.dup, names, lo, |names|)
  {
    var entry := names[j].1;
    BumpFrame(f, t, m0, d0, f.memo, f.dup, names, j, v, lo, |names|);
    assert Settled(f, t, f.memo, f.dup, entry);
    ReadyFrame(f, t, f.memo, f.dup, f.memo, f.dup[entry := v], names, lo, hi);
    f.dup := f.dup[entry := v];
  }

  /**
   * The rest of one turn of the inner loop, once entry `j` is compacted:
   * when `compact(one, two)` accepts it with entry `i`, its count grows by
   * one; the result is what the turn adds to `duplicate`.
   */
  method Accept(f: Forest, ghost t: map<int, string>, names: seq<(string, int)>, ghost level: nat, i: nat, j: nat,
                compact: bool, ghost m0: map<int, bool>, ghost d0: map<int, nat>, ghost h0: set<int>) returns (add: nat)
    requires f.Valid() && Shows(f, f.roots, t) && Grouping.RankedBelow(f, names, level) && NameSorted(names) && Apart(f, names)
    requires i < j < |names| && compact == CompactOf(f, t, names[j].1)
    requires d0.Keys == f.nodes.Keys
    requires Ready(f, t, f.memo, f.dup, names, i + 1) && Compacted(f, t, f.memo, f.dup, names, i + 1, j + 1)
    requires Changed(f, m0, d0, f.memo, f.dup, names, i + 1, |names|)
    requires HighlightsWithin(f, h0, f.highlighted, names, i, |names|)
    modifies f`dup, f`highlighted
    ensures f.Valid() && f.memo == old(f.memo)
    ensures var takes := Picks(GroupOf(f, t, names, level), i);
      var ds := old(Dups(f, f.dup, names));
      && Dups(f, f.dup, names) == (if takes[j] then ds[j := ds[j] + 1] else ds)
      && add == (if takes[j] then ds[j] + 1 else 0)
    ensures Ready(f, t, f.memo, f.dup, names, i + 1) && Compacted(f, t, f.memo, f.dup, names, i + 1, j + 1)
    ensures Changed(f, m0, d0, f.memo, f.dup, names, i + 1, |names|)
    ensures HighlightsWithin(f, h0, f.highlighted, names, i, |names|)
    ensures old(f.highlighted) <= f.highlighted
    ensures Picks(GroupOf(f, t, names, level), i)[j] && names[j].1 in old(f.highlighted) ==> names[i].1 in f.highlighted
  {
    TakesAt(f, t, names, level, i, j);
    add := 0;
    if compact {
      var same := Pair(f, t, names, i, j, h0);
      if same {
        SetDup(f, t, names, j, f.dup[names[j].1] + 1, i + 1, j + 1, m0, d0);
        add := f.dup[names[j].1];
      }
    }
  }

  /**
   * The inner loop of `compact(NameMap&)` at entry `i`: every later entry
   * with the same name is compacted, and each one `compact(one, two)`
   * accepts is marked once more and adds its new count to `duplicate`.
   */
  method Absorb(f: Forest, ghost t: map<int, string>, names: seq<(string, int)>, ghost level: nat, i: nat) returns (total: nat)
    requires f.Valid() && Shows(f, f.roots, t) && Grouping.RankedBelow(f, names, level) && NameSorted(names) && Apart(f, names) && i < |names|
    requires Ready(f, t, f.memo, f.dup, names, i + 1)
    modifies f`memo, f`dup, f`highlighted
    ensures f.Valid()
    ensures var g := GroupOf(f, t, names, level);
      var sw := Sweep(Picks(g, i), Upper(g, i), i + 1, old(Dups(f, f.dup, names)), 1);
      total == sw.total && Dups(f, f.dup, names) == sw.dups
    ensures Compacted(f, t, f.memo, f.dup, names, i + 1, Upper(GroupOf(f, t, names, level), i))
    ensures Ready(f, t, f.memo, f.dup, names, i + 1)
    ensures Changed(f, old(f.memo), old(f.dup), f.memo, f.dup, names, i + 1, |names|)
    ensures HighlightsWithin(f, old(f.highlighted), f.highlighted, names, i, |names|)
    ensures var g := GroupOf(f, t, names, level); Lifted(g, i, i + 1, Upper(g, i), old(f.highlighted), f.highlighted)
    decreases level, 3
  {
    ghost var g := GroupOf(f, t, names, level);
    SameName(g, i);
    ghost var ds0 := Dups(f, f.dup, names);
    ghost var m0, d0, h0 := f.memo, f.dup, f.highlighted;
    var u := UpperBound(names, names[i].0, StrLess);
    total := 1;
    var j := i + 1;
    while j < u
      invariant i + 1 <= j <= u
      invariant f.Valid()
      invariant Sweep(Picks(g, i), Upper(g, i), j, Dups(f, f.dup, names), total) == Sweep(Picks(g, i), Upper(g, i), i + 1, ds0, 1)
      invariant Ready(f, t, f.memo, f.dup, names, i + 1)
      invariant Compacted(f, t, f.memo, f.dup, names, i + 1, j)
      invariant Changed(f, m0, d0, f.memo, f.dup, names, i + 1, |names|)
      invariant HighlightsWithin(f, h0, f.highlighted, names, i, |names|)
      invariant Lifted(g, i, i + 1, j, h0, f.highlighted)
    {
      var add := AbsorbOne(f, t, names, level, i, j, total, m0, d0, h0);
      total := total + add;
      j := j + 1;
    }
  }

  /**
   * One turn of the inner loop of `compact(NameMap&)`: entry `j` is
   * compacted and, when `compact(one, two)` accepts it with entry `i`,
   * marked once more; the result is what the turn adds to `duplicate`.
   */
  method AbsorbOne(f: Forest, ghost t: map<int, string>, names: seq<(string, int)>, ghost level: nat, i: nat, j: nat,
                   ghost total0: nat, ghost m0: map<int, bool>, ghost d0: map<int, nat>, ghost h0: set<int>) returns (add: nat)
    requires f.Valid() && Shows(f, f.roots, t) && Grouping.RankedBelow(f, names, level) && NameSorted(names) && Apart(f, names)
    requires i < j < |names| && j < Upper(GroupOf(f, t, names, level), i) && d0.Keys == f.nodes.Keys
    requires Ready(f, t, f.memo, f.dup, names, i + 1)
    requires Compacted(f, t, f.memo, f.dup, names, i + 1, j)
    requires Changed(f, m0, d0, f.memo, f.dup, names, i + 1, |names|)
    requires HighlightsWithin(f, h0, f.highlighted, names, i, |names|)
    requires Lifted(GroupOf(f, t, names, level), i, i + 1, j, h0, f.highlighted)
    modifies f`memo, f`dup, f`highlighted
    ensures f.Valid()
    ensures var g := GroupOf(f, t, names, level);
      Sweep(Picks(g, i), Upper(g, i), j + 1, Dups(f, f.dup, names), total0 + add) == Sweep(Picks(g, i), Upper(g, i), j, old(Dups(f, f.dup, names)), total0)
    ensures Ready(f, t, f.memo, f.dup, names, i + 1)
    ensures Compacted(f, t, f.memo, f.dup, names, i + 1, j + 1)
    ensures Changed(f, m0, d0, f.memo, f.dup, names, i + 1, |names|)
    ensures HighlightsWithin(f, h0, f.highlighted, names, i, |names|)
    ensures Lifted(GroupOf(f, t, names, level), i, i + 1, j + 1, h0, f.highlighted)
    decreases level, 2
  {
    ghost var ds := Dups(f, f.dup, names);
    ghost var g := GroupOf(f, t, names, level);
    ghost var h1 := f.highlighted;
    var compact := CompactEntry(f, t, names, level, j, i + 1, i, m0, d0, h0);
    add := Accept(f, t, names, level, i, j, compact, m0, d0, h0);
    LiftedStep(g, i, i + 1, j, h0, h1, f.highlighted);
    SweepTurn(Picks(g, i), Upper(g, i), j, ds, total0, Dups(f, f.dup, names), total0 + add);
  }
}
