/**
 * What `compact()` computes for the nodes of a forest.  `PassOver` is the
 * state the pass of `compact(NameMap&)` leaves over a group of nodes in
 * name order, read as a `Group`; `CompactOf` is the value `compact()`
 * memoises for a node, the answer of the pass over its name index.  The
 * lemmas are the guarantees that `compact()` gives the pairwise test
 * `compact(one, two)` and the renderer.
 */
module Grouping {
  import opened Wrappers
  import opened Text
  import opened Forest
  import opened Equivalence
  import opened Groups

  /** Every entry of `names` is a node of the forest ranked below `level`. */
  ghost predicate RankedBelow(f: Forest, names: seq<(string, int)>, level: nat)
    requires f.Wf()
  {
    forall k | 0 <= k < |names| :: names[k].1 in f.nodes && names[k].1 in f.rank && f.rank[names[k].1] < level
  }

  /** Entries sorted by name and pid are sorted by name. */
  lemma {:induction false} SortedByName(names: seq<(string, int)>)
    requires NameSorted(names)
    ensures forall k, l | 0 <= k < l < |names| :: NotAfter(names, k, l)
  {
    forall k, l | 0 <= k < l < |names|
      ensures NotAfter(names, k, l)
    {
      assert NameBefore(names[k], names[l]);
      StrLessAsymmetric(names[k].0, names[l].0);
      StrLessIrreflexive(names[k].0);
    }
  }

  /**
   * What `compact()` of `x` evaluates to, `t` being the roots of the
   * forest: the answer of the pass over the name index of `x`.
   */
  ghost function CompactOf(f: Forest, t: map<int, string>, x: int): bool
    requires f.Wf() && Labels(f, t) && x in f.nodes
    decreases f.rank[x] + 1, 0
  {
    PassOver(f, t, Children(f, x), f.rank[x]).ok
  }

  /** The state `compact(NameMap&)` leaves after its pass over `names`. */
  ghost function PassOver(f: Forest, t: map<int, string>, names: seq<(string, int)>, level: nat): (p: Pass)
    requires f.Wf() && Labels(f, t) && RankedBelow(f, names, level) && NameSorted(names)
    ensures |p.dups| == |names|
    decreases level, 3
  {
    Run(GroupOf(f, t, names, level), |names|)
  }

  /**
   * The group `names` as the pass reads it: each entry with `compact()`,
   * `print()` and `compact(one, two)` of its node.
   */
  ghost function GroupOf(f: Forest, t: map<int, string>, names: seq<(string, int)>, level: nat): (g: Group)
    requires f.Wf() && Labels(f, t) && RankedBelow(f, names, level) && NameSorted(names)
    ensures g.entries == names && WellFormed(g)
    decreases level, 2
  {
    SortedByName(names);
    var n := |names|;
    Group(names,
          seq(n, k requires 0 <= k < n => CompactOf(f, t, names[k].1)),
          seq(n, k requires 0 <= k < n => t[names[k].1]),
          seq(n, i requires 0 <= i < n =>
            seq(n, k requires 0 <= k < n => Equivalent(f, t, names[i].1, names[k].1))))
  }

  /**
   * The group read from the forest: `compact(one, two)` is an equivalence
   * on it, and each entry carries `compact()`, `print()` and
   * `compact(one, two)` of its node.
   */
  lemma {:induction false} GroupFacts(f: Forest, t: map<int, string>, names: seq<(string, int)>, level: nat)
    requires f.Wf() && Labels(f, t) && RankedBelow(f, names, level) && NameSorted(names)
    ensures var g := GroupOf(f, t, names, level);
      && Joined(g)
      && (forall k | 0 <= k < |names| :: g.compacts[k] == CompactOf(f, t, names[k].1))
      && (forall k | 0 <= k < |names| :: g.texts[k] == t[names[k].1])
      && (forall i, k | 0 <= i < |names| && 0 <= k < |names| ::
            g.same[i][k] == Equivalent(f, t, names[i].1, names[k].1))
  {
    var g := GroupOf(f, t, names, level);
    forall r, i, k | 0 <= r < |names| && 0 <= i < |names| && 0 <= k < |names|
      ensures g.same[r][k] && g.same[i][k] ==> g.same[r][i]
    {
      EquivalentJoin(f, t, names[r].1, names[k].1, names[i].1);
    }
  }

  /** Entry `k` of `names` is not absorbed by the pass: it is printed, with its count. */
  ghost predicate Survives(f: Forest, t: map<int, string>, names: seq<(string, int)>, level: nat, k: nat)
    requires f.Wf() && Labels(f, t) && RankedBelow(f, names, level) && NameSorted(names) && k < |names|
  {
    PassOver(f, t, names, level).dups[k] != 1
  }

  /** The answer of the pass is the uniformity of its survivors. */
  lemma {:induction false} PassAnswer(f: Forest, t: map<int, string>, names: seq<(string, int)>, level: nat)
    requires f.Wf() && Labels(f, t) && RankedBelow(f, names, level) && NameSorted(names)
    ensures PassOver(f, t, names, level).ok ==
      Uniform(GroupOf(f, t, names, level), PassOver(f, t, names, level).dups, |names|)
  {
    GroupFacts(f, t, names, level);
    PassOutcome(GroupOf(f, t, names, level));
  }

  /** Uniformity of the survivors read back on the forest. */
  lemma {:induction false} UniformMeaning(f: Forest, t: map<int, string>, names: seq<(string, int)>, level: nat)
    requires f.Wf() && Labels(f, t) && RankedBelow(f, names, level) && NameSorted(names)
    ensures Uniform(GroupOf(f, t, names, level), PassOver(f, t, names, level).dups, |names|) <==>
      && (forall k | 0 <= k < |names| && Survives(f, t, names, level, k) :: CompactOf(f, t, names[k].1))
      && (forall k, l | 0 <= k < |names| && 0 <= l < |names|
                        && Survives(f, t, names, level, k) && Survives(f, t, names, level, l) ::
            t[names[k].1] == t[names[l].1])
  {
    var g := GroupOf(f, t, names, level);
    var p := PassOver(f, t, names, level);
    forall k | 0 <= k < |names|
      ensures Survives(f, t, names, level, k) == (p.dups[k] != 1)
      ensures g.compacts[k] == CompactOf(f, t, names[k].1) && g.texts[k] == t[names[k].1]
    {
    }
  }

  /**
   * `compact(NameMap&)` answers true exactly when every surviving entry is
   * itself compactable and all surviving entries show the same text.
   */
  lemma {:induction false} GroupUniform(f: Forest, t: map<int, string>, names: seq<(string, int)>, level: nat)
    requires f.Wf() && Labels(f, t) && RankedBelow(f, names, level) && NameSorted(names)
    ensures PassOver(f, t, names, level).ok <==>
      && (forall k | 0 <= k < |names| && Survives(f, t, names, level, k) :: CompactOf(f, t, names[k].1))
      && (forall k, l | 0 <= k < |names| && 0 <= l < |names|
                        && Survives(f, t, names, level, k) && Survives(f, t, names, level, l) ::
            t[names[k].1] == t[names[l].1])
  {
    PassAnswer(f, t, names, level);
    UniformMeaning(f, t, names, level);
  }

  /** Entry `r` absorbs entry `k` in the pass, read back on the forest. */
  ghost predicate Absorber(f: Forest, t: map<int, string>, names: seq<(string, int)>, level: nat, r: nat, k: nat)
    requires f.Wf() && Labels(f, t) && RankedBelow(f, names, level) && NameSorted(names) && k < |names|
  {
    && r < k && Survives(f, t, names, level, r) && names[r].0 == names[k].0
    && CompactOf(f, t, names[r].1) && CompactOf(f, t, names[k].1)
    && Equivalent(f, t, names[r].1, names[k].1)
  }

  lemma AbsorberMeaning(f: Forest, t: map<int, string>, names: seq<(string, int)>, level: nat, r: nat, k: nat)
    requires f.Wf() && Labels(f, t) && RankedBelow(f, names, level) && NameSorted(names) && k < |names|
    ensures Absorber(f, t, names, level, r, k) ==
      Absorbs(GroupOf(f, t, names, level), PassOver(f, t, names, level).dups, r, k)
  {
  }

  /**
   * An entry is absorbed exactly when an earlier survivor with the same
   * name is compactable, and so is the entry, and `compact(one, two)`
   * accepts the two; the first entry survives.
   */
  lemma {:induction false} Absorbed(f: Forest, t: map<int, string>, names: seq<(string, int)>, level: nat)
    requires f.Wf() && Labels(f, t) && RankedBelow(f, names, level) && NameSorted(names)
    ensures |names| > 0 ==> Survives(f, t, names, level, 0)
    ensures forall k | 0 <= k < |names| ::
      !Survives(f, t, names, level, k) <==> exists r :: Absorber(f, t, names, level, r, k)
  {
    var g := GroupOf(f, t, names, level);
    var p := PassOver(f, t, names, level);
    GroupFacts(f, t, names, level);
    PassOutcome(g);
    forall k | 0 <= k < |names|
      ensures !Survives(f, t, names, level, k) <==> exists r :: Absorber(f, t, names, level, r, k)
    {
      if p.dups[k] == 1 {
        var r :| 0 <= r < |names| && Absorbs(g, p.dups, r, k);
        AbsorberMeaning(f, t, names, level, r, k);
      } else {
        forall r
          ensures !Absorber(f, t, names, level, r, k)
        {
          AbsorberMeaning(f, t, names, level, r, k);
        }
      }
    }
  }

  /** `compact()` of `x` holds exactly when its surviving children are compactable and show one text. */
  lemma CompactOfUniform(f: Forest, t: map<int, string>, x: int)
    requires f.Wf() && Labels(f, t) && x in f.nodes
    ensures var cs, h := Children(f, x), f.rank[x];
      CompactOf(f, t, x) <==>
        && (forall k | 0 <= k < |cs| && Survives(f, t, cs, h, k) :: CompactOf(f, t, cs[k].1))
        && (forall k, l | 0 <= k < |cs| && 0 <= l < |cs| && Survives(f, t, cs, h, k) && Survives(f, t, cs, h, l) ::
              t[cs[k].1] == t[cs[l].1])
  {
    GroupUniform(f, t, Children(f, x), f.rank[x]);
  }

  /** A node without children is compactable: the pass over an empty group answers true. */
  lemma CompactLeaf(f: Forest, t: map<int, string>, x: int)
    requires f.Wf() && Labels(f, t) && x in f.nodes && !HasChildren(f, x)
    ensures CompactOf(f, t, x)
  {
  }

  /**
   * When `x` is compactable, its first child in name order survives, and
   * every surviving child is compactable and shows the text of the first.
   */
  lemma {:induction false} FirstRepresents(f: Forest, t: map<int, string>, x: int)
    requires f.Wf() && Labels(f, t) && x in f.nodes && HasChildren(f, x) && CompactOf(f, t, x)
    ensures Survives(f, t, Children(f, x), f.rank[x], 0)
    ensures var cs := Children(f, x);
      forall k | 0 <= k < |cs| && Survives(f, t, cs, f.rank[x], k) ::
        CompactOf(f, t, cs[k].1) && t[cs[k].1] == t[First(f, x)]
  {
    Absorbed(f, t, Children(f, x), f.rank[x]);
    GroupUniform(f, t, Children(f, x), f.rank[x]);
  }

  /**
   * Why `compact(one, two)` need only compare first children: when two
   * equivalent nodes are both compactable, either neither has children, or
   * every surviving child of either is compactable and all of them, on
   * both sides, show one text.
   */
  lemma {:induction false} EquivalentUniform(f: Forest, t: map<int, string>, a: int, b: int)
    requires f.Wf() && Labels(f, t) && a in f.nodes && b in f.nodes
    requires Equivalent(f, t, a, b) && CompactOf(f, t, a) && CompactOf(f, t, b)
    ensures t[a] == t[b]
    ensures HasChildren(f, a) == HasChildren(f, b)
    ensures var ca, cb := Children(f, a), Children(f, b);
      forall k, l | 0 <= k < |ca| && 0 <= l < |cb| && Survives(f, t, ca, f.rank[a], k) && Survives(f, t, cb, f.rank[b], l) ::
        && CompactOf(f, t, ca[k].1) && CompactOf(f, t, cb[l].1)
        && t[ca[k].1] == t[cb[l].1]
  {
    if HasChildren(f, a) {
      FirstRepresents(f, t, a);
      FirstRepresents(f, t, b);
      assert Equivalent(f, t, First(f, a), First(f, b));
    }
  }
}
