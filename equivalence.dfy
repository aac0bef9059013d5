/**
 * The pairwise test `compact(one, two)` of two nodes: equal display texts,
 * children on both sides or on neither, and recursively equivalent first
 * children in name order; on success it marks `one` when `two` is marked.
 */
module Equivalence {
  import opened Wrappers
  import opened Forest

  /** `childrenByName_` of `x`: in a well-formed forest, children of `x` ranked below it. */
  function Children(f: Forest, x: int): (cs: seq<(string, int)>)
    requires f.Wf() && x in f.nodes
    ensures NameSorted(cs)
    ensures forall i | 0 <= i < |cs| ::
      cs[i].1 in f.nodes && f.nodes[cs[i].1].parent == Some(x) && cs[i].1 in f.rank && f.rank[cs[i].1] < f.rank[x]
  {
    ChildrenRanked(f, x);
    f.nodes[x].byName
  }

  lemma ChildrenRanked(f: Forest, x: int)
    requires f.Wf() && x in f.nodes
    ensures NameSorted(f.nodes[x].byName)
    ensures forall i | 0 <= i < |f.nodes[x].byName| :: var c := f.nodes[x].byName[i].1;
      c in f.nodes && f.nodes[c].parent == Some(x) && c in f.rank && f.rank[c] < f.rank[x]
  {
    var cs := f.nodes[x].byName;
    assert Indexes(f.nodes, x, f.visual);
    forall i | 0 <= i < |cs|
      ensures cs[i].1 in f.nodes && f.nodes[cs[i].1].parent == Some(x)
      ensures cs[i].1 in f.rank && f.rank[cs[i].1] < f.rank[x]
    {
      assert cs[i] in cs;
      var c := cs[i].1;
      assert c in f.nodes && f.nodes[c].parent == Some(x);
      assert f.nodes[c].parent.value == x;
    }
  }

  /** `hasChildren()`. */
  predicate HasChildren(f: Forest, x: int)
    requires f.Wf() && x in f.nodes
  {
    |Children(f, x)| > 0
  }

  /** `child()`: the first child in name order. */
  function First(f: Forest, x: int): int
    requires f.Wf() && x in f.nodes && HasChildren(f, x)
  {
    Children(f, x)[0].1
  }

  /** `t` gives every node a text. */
  predicate Labels(f: Forest, t: map<int, string>)
  {
    f.nodes.Keys <= t.Keys
  }

  /**
   * `t` holds the text `print()` shows for each node, the roots being `rs`:
   * the text `compact(one, two)` compares.
   */
  ghost predicate Shows(f: Forest, rs: set<int>, t: map<int, string>)
    requires f.Wf()
  {
    Labels(f, t) && forall x {:trigger f.Display(rs, x)} | x in f.nodes :: t[x] == f.Display(rs, x)
  }

  // ---------------------------------------------------------------------
  // compact(one, two)
  // ---------------------------------------------------------------------

  /**
   * What `compact(one, two)` answers: equal display texts, children on both
   * sides or on neither, and equivalent first children in name order.
   */
  predicate Equivalent(f: Forest, t: map<int, string>, a: int, b: int)
    requires f.Wf() && Labels(f, t) && a in f.nodes && b in f.nodes
    decreases f.rank[a]
  {
    && t[a] == t[b]
    && HasChildren(f, a) == HasChildren(f, b)
    && (HasChildren(f, a) ==> Equivalent(f, t, First(f, a), First(f, b)))
  }

  lemma {:induction false} EquivalentReflexive(f: Forest, t: map<int, string>, a: int)
    requires f.Wf() && Labels(f, t) && a in f.nodes
    ensures Equivalent(f, t, a, a)
    decreases f.rank[a]
  {
    if HasChildren(f, a) {
      EquivalentReflexive(f, t, First(f, a));
    }
  }

  lemma {:induction false} EquivalentSymmetric(f: Forest, t: map<int, string>, a: int, b: int)
    requires f.Wf() && Labels(f, t) && a in f.nodes && b in f.nodes
    requires Equivalent(f, t, a, b)
    ensures Equivalent(f, t, b, a)
    decreases f.rank[a]
  {
    if HasChildren(f, a) {
      EquivalentSymmetric(f, t, First(f, a), First(f, b));
    }
  }

  lemma {:induction false} EquivalentTransitive(f: Forest, t: map<int, string>, a: int, b: int, c: int)
    requires f.Wf() && Labels(f, t) && a in f.nodes && b in f.nodes && c in f.nodes
    requires Equivalent(f, t, a, b) && Equivalent(f, t, b, c)
    ensures Equivalent(f, t, a, c)
    decreases f.rank[a]
  {
    if HasChildren(f, a) {
      EquivalentTransitive(f, t, First(f, a), First(f, b), First(f, c));
    }
  }

  /** Two nodes equivalent to a third are equivalent to each other. */
  lemma EquivalentJoin(f: Forest, t: map<int, string>, a: int, b: int, c: int)
    requires f.Wf() && Labels(f, t) && a in f.nodes && b in f.nodes && c in f.nodes
    ensures Equivalent(f, t, a, b) && Equivalent(f, t, c, b) ==> Equivalent(f, t, a, c)
  {
    if Equivalent(f, t, a, b) && Equivalent(f, t, c, b) {
      EquivalentSymmetric(f, t, c, b);
      EquivalentTransitive(f, t, a, b, c);
    }
  }

  /** The first-child chain from `a`: the nodes `compact(a, _)` can mark. */
  ghost function Chain(f: Forest, a: int): set<int>
    requires f.Wf() && a in f.nodes
    decreases f.rank[a]
  {
    {a} + (if HasChildren(f, a) then Chain(f, First(f, a)) else {})
  }

  /**
   * The highlighted set after `compact(a, b)` starting from `h`: when the
   * test succeeds, each node of the chain of `a`, from the bottom up, is
   * marked if its partner on the chain of `b` is marked by then.
   */
  ghost function PairMarks(f: Forest, t: map<int, string>, a: int, b: int, h: set<int>): set<int>
    requires f.Wf() && Labels(f, t) && a in f.nodes && b in f.nodes
    decreases f.rank[a]
  {
    if !Equivalent(f, t, a, b) then h
    else
      var below := if HasChildren(f, a) then PairMarks(f, t, First(f, a), First(f, b), h) else h;
      if b in below then below + {a} else below
  }

  /** `compact(one, two)`. */
  method CompactPair(f: Forest, ghost t: map<int, string>, one: int, two: int) returns (r: bool)
    requires f.Wf() && Shows(f, f.roots, t) && one in f.nodes && two in f.nodes
    modifies f`highlighted
    ensures r == Equivalent(f, t, one, two)
    ensures f.highlighted == PairMarks(f, t, one, two, old(f.highlighted))
    decreases f.rank[one]
  {
    if f.Display(f.roots, one) != f.Display(f.roots, two) {
      return false;
    }
    if HasChildren(f, one) != HasChildren(f, two) {
      return false;
    }
    if HasChildren(f, one) {
      var below := CompactPair(f, t, First(f, one), First(f, two));
      if !below {
        return false;
      }
    }
    if two in f.highlighted {
      f.highlighted := f.highlighted + {one};
    }
    return true;
  }

  /** The marks of `compact(a, b)`: nothing is unmarked, and only the chain of `a` is marked. */
  lemma {:induction false} PairMarksChain(f: Forest, t: map<int, string>, a: int, b: int, h: set<int>)
    requires f.Wf() && Labels(f, t) && a in f.nodes && b in f.nodes
    ensures h <= PairMarks(f, t, a, b, h)
    ensures PairMarks(f, t, a, b, h) - h <= Chain(f, a)
    ensures !Equivalent(f, t, a, b) ==> PairMarks(f, t, a, b, h) == h
    decreases f.rank[a]
  {
    if Equivalent(f, t, a, b) && HasChildren(f, a) {
      PairMarksChain(f, t, First(f, a), First(f, b), h);
    }
  }

  /** When `compact(a, b)` accepts the pair and `b` is highlighted, `a` comes out highlighted. */
  lemma PairMarksLifts(f: Forest, t: map<int, string>, a: int, b: int, h: set<int>)
    requires f.Wf() && Labels(f, t) && a in f.nodes && b in f.nodes
    requires Equivalent(f, t, a, b) && b in h
    ensures a in PairMarks(f, t, a, b, h)
  {
    if HasChildren(f, a) {
      PairMarksChain(f, t, First(f, a), First(f, b), h);
    }
  }

  /** The nodes of the chain of `a` whose partners on the chain of `b` are in `h`. */
  ghost function Partnered(f: Forest, t: map<int, string>, a: int, b: int, h: set<int>): set<int>
    requires f.Wf() && Labels(f, t) && a in f.nodes && b in f.nodes && Equivalent(f, t, a, b)
    decreases f.rank[a]
  {
    (if b in h then {a} else {})
    + (if HasChildren(f, a) then Partnered(f, t, First(f, a), First(f, b), h) else {})
  }

  /**
   * When the two chains share no node, a successful `compact(a, b)` marks
   * exactly the nodes whose partners were marked before.
   */
  lemma {:induction false} PairMarksDisjoint(f: Forest, t: map<int, string>, a: int, b: int, h: set<int>)
    requires f.Wf() && Labels(f, t) && a in f.nodes && b in f.nodes && Equivalent(f, t, a, b)
    requires Chain(f, a) !! Chain(f, b)
    ensures PairMarks(f, t, a, b, h) == h + Partnered(f, t, a, b, h)
    decreases f.rank[a]
  {
    if HasChildren(f, a) {
      var a', b' := First(f, a), First(f, b);
      PairMarksDisjoint(f, t, a', b', h);
      PairMarksChain(f, t, a', b', h);
      assert b !in Chain(f, a');
    }
  }
}
