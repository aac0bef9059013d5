/**
 * The printing walk of `Proc`.  `print(tree, children)` prints a node that
 * was not absorbed into an equal sibling, then its children in the order
 * of one of its two indexes, each told whether it is the first and whether
 * it is the last one shown, stopping after that last one, and closes the
 * node's level; `print(tree)` prints the node's own text and, with
 * Arguments, its arguments and the end of its line.
 *
 * What the walk reads of the forest is a `View`: one `Card` per node.  The
 * walk is specified by the functions `Shown` and `Siblings` on the view of
 * the forest, and the methods are proved against them.
 */
module Render {
  import opened Wrappers
  import opened Multimap
  import opened Options
  import opened Forest
  import opened Output

  /**
   * What the walk reads of one node: its `print()` text, `highlight_`,
   * `duplicate_`, with Arguments the arguments after the first, and the
   * children in the order of the index walked.
   */
  datatype Card = Card(text: string, bright: bool, dup: nat, args: Option<seq<string>>, kids: seq<int>)

  /** The cards of the nodes, and the ranks of the forest. */
  datatype View = View(cards: map<int, Card>, rank: map<int, nat>)

  function Rank(v: View, x: int): nat
  {
    if x in v.rank then v.rank[x] else 0
  }

  /** `children<Map>()`: the children in the order of the pid index, or of the name index. */
  function Kids(f: Forest, x: int, byPid: bool): (ks: seq<int>)
    requires f.Wf() && x in f.nodes
    ensures forall k | 0 <= k < |ks| ::
      ks[k] in f.nodes && f.nodes[ks[k]].parent == Some(x) && ks[k] in f.rank && f.rank[ks[k]] < f.rank[x]
  {
    var ks := if byPid then Values(f.nodes[x].byPid) else Values(f.nodes[x].byName);
    KidsRanked(f, x, byPid, ks);
    ks
  }

  lemma KidsRanked(f: Forest, x: int, byPid: bool, ks: seq<int>)
    requires f.Wf() && x in f.nodes
    requires ks == if byPid then Values(f.nodes[x].byPid) else Values(f.nodes[x].byName)
    ensures forall k | 0 <= k < |ks| ::
      ks[k] in f.nodes && f.nodes[ks[k]].parent == Some(x) && ks[k] in f.rank && f.rank[ks[k]] < f.rank[x]
  {
    assert Indexes(f.nodes, x, f.visual);
    forall k | 0 <= k < |ks|
      ensures ks[k] in f.nodes && f.nodes[ks[k]].parent == Some(x) && ks[k] in f.rank && f.rank[ks[k]] < f.rank[x]
    {
      var c := ks[k];
      if byPid {
        assert f.nodes[x].byPid[k] in f.nodes[x].byPid && c == f.nodes[x].byPid[k].1;
      } else {
        assert f.nodes[x].byName[k] in f.nodes[x].byName && c == f.nodes[x].byName[k].1;
      }
      assert c in f.nodes && f.nodes[c].parent == Some(x);
      assert f.nodes[c].parent.Some? && f.nodes[c].parent.value == x;
      assert c in f.rank;
    }
  }

  /** The arguments after the first, through `strvis`; none when `getargv` gives no vector or an empty one. */
  function Args(f: Forest, x: int): seq<string>
    requires x in f.nodes
  {
    var argv := f.nodes[x].rec.argv;
    var visual := f.visual;
    if argv.Some? && |argv.value| > 0 then
      seq(|argv.value| - 1, k requires 0 <= k < |argv.value| - 1 => visual(argv.value[k + 1]))
    else []
  }

  /** What the walk over one of the two indexes reads of node `x`. */
  ghost function CardOf(f: Forest, x: int, byPid: bool): Card
    requires f.Valid() && x in f.nodes
    reads f
  {
    Card(f.Display(f.roots, x), x in f.highlighted, f.dup[x],
         if Arguments in f.flags then Some(Args(f, x)) else None, Kids(f, x, byPid))
  }

  /** The view of the forest by the pid index or by the name index. */
  ghost function ViewOf(f: Forest, byPid: bool): View
    requires f.Valid()
    reads f
  {
    View(map x | x in f.nodes :: CardOf(f, x, byPid), f.rank)
  }

  /** In the view of a forest every child has a card, and a rank below its parent's. */
  lemma ViewRanked(f: Forest, byPid: bool, x: int)
    requires f.Valid() && x in f.nodes
    ensures var v := ViewOf(f, byPid);
      x in v.cards && forall k | 0 <= k < |v.cards[x].kids| ::
        v.cards[x].kids[k] in v.cards && Rank(v, v.cards[x].kids[k]) < Rank(v, x)
  {
  }

  // ---------------------------------------------------------------------
  // The walk on the renderer's state
  // ---------------------------------------------------------------------

  /** `print(tree)`: the node's text, then with Arguments its arguments and the end of the line. */
  function Self(u: Setup, c: Card, p: Pen): Pen
  {
    var q := PrintPen(u, p, c.text, c.bright, c.dup);
    match c.args
    case None => q
    case Some(args) => DonePen(u, ArgsPen(u, q, args))
  }

  /** No child after position `i` is shown: each carries the count 1 of an absorbed node. */
  predicate LaterAbsorbed(v: View, ks: seq<int>, i: nat)
  {
    forall j | i < j < |ks| :: ks[j] in v.cards && v.cards[ks[j]].dup == 1
  }

  /**
   * Where the scan of `l4st` leaves the iterator, plus one: the first
   * position from `j` on whose child does not carry the count 1, or the end.
   */
  function NextShown(v: View, ks: seq<int>, j: nat): (k: nat)
    requires j <= |ks|
    ensures j <= k <= |ks|
    decreases |ks| - j
  {
    if j == |ks| || !(ks[j] in v.cards && v.cards[ks[j]].dup == 1) then j else NextShown(v, ks, j + 1)
  }

  /** The scan passes over children of count 1 only, and stops at the first other one. */
  lemma {:induction false} NextShownSkips(v: View, ks: seq<int>, j: nat)
    requires j <= |ks|
    ensures var k := NextShown(v, ks, j);
      && (forall m | j <= m < k :: ks[m] in v.cards && v.cards[ks[m]].dup == 1)
      && (k < |ks| ==> !(ks[k] in v.cards && v.cards[ks[k]].dup == 1))
    decreases |ks| - j
  {
    if j < |ks| && ks[j] in v.cards && v.cards[ks[j]].dup == 1 {
      NextShownSkips(v, ks, j + 1);
    }
  }

  /**
   * The shortcut of `l4st` for the child at `i` on the `n`-th turn: the
   * turn count `_index` plus the siblings the child stands for reaches the
   * last position.
   */
  predicate Shortcut(v: View, ks: seq<int>, i: nat, n: nat)
  {
    var d := if i < |ks| && ks[i] in v.cards then v.cards[ks[i]].dup else 0;
    n + (if d > 0 then d - 1 else 0) == |ks| - 1
  }

  /**
   * Where the iterator stands for the turn after the child at `i`, visited
   * on turn `n`: the end when `l4st` holds, by the shortcut or because the
   * scan found no later child without the count 1; otherwise the child the
   * scan stopped at.
   */
  function Next(v: View, ks: seq<int>, i: nat, n: nat): (j: nat)
    requires i < |ks|
    ensures i < j <= |ks|
  {
    if Shortcut(v, ks, i, n) then |ks| else NextShown(v, ks, i + 1)
  }

  /** The loop stops after the child at `i` exactly when the shortcut fires or no later child is shown. */
  lemma NextEnd(v: View, ks: seq<int>, i: nat, n: nat)
    requires i < |ks|
    ensures Next(v, ks, i, n) == |ks| <==> Shortcut(v, ks, i, n) || LaterAbsorbed(v, ks, i)
  {
    NextShownSkips(v, ks, i + 1);
  }

  /**
   * `print(tree, children)` of `x` on the renderer's state: nothing for an
   * absorbed node; otherwise the node, its children from the first, and
   * `pop` of its level.
   */
  ghost function Shown(u: Setup, v: View, x: int, p: Pen): Pen
    decreases Rank(v, x), 1
  {
    if x !in v.cards || v.cards[x].dup == 1 then p
    else
      var c := v.cards[x];
      PopPen(u, Siblings(u, v, x, 0, 0, Self(u, c, p)), |c.kids| > 0)
  }

  /**
   * The child loop of `x` with its iterator at position `i` and its turn
   * count `_index` at `n`: the child at `i`, told it is first when it is
   * the first turn and whether `l4st` holds; then, unless it does, the loop
   * again with one more turn from where the scan left the iterator.  In
   * the view of a forest every child ranks below its parent
   * (`ViewRanked`); a child that did not would be passed over.
   */
  ghost function Siblings(u: Setup, v: View, x: int, i: nat, n: nat, p: Pen): Pen
    decreases Rank(v, x), 0, if x in v.cards then |v.cards[x].kids| - i else 0
  {
    if x !in v.cards || i >= |v.cards[x].kids| then p
    else
      var ks := v.cards[x].kids;
      var j := Next(v, ks, i, n);
      var q := if Rank(v, ks[i]) < Rank(v, x) then Shown(u, v, ks[i], p.(first := n == 0, last := j == |ks|)) else p;
      if j == |ks| then q else Siblings(u, v, x, j, n + 1, q)
  }

  // ---------------------------------------------------------------------
  // What the walk leaves
  // ---------------------------------------------------------------------

  /** The second state has the lines of the first, and maybe more. */
  ghost predicate Grows(p: Pen, r: Pen)
  {
    |p.lines| <= |r.lines| && r.lines[..|p.lines|] == p.lines
  }

  lemma GrowsTrans(p: Pen, q: Pen, r: Pen)
    requires Grows(p, q) && Grows(q, r)
    ensures Grows(p, r)
  {
    assert r.lines[..|p.lines|] == r.lines[..|q.lines|][..|p.lines|];
  }

  /** The second state has the open levels of the first, the innermost one perhaps marked. */
  ghost predicate LevelsKept(p: Pen, r: Pen)
  {
    |r.branches| == |p.branches| && (|p.branches| > 0 ==> r.branches[..|p.branches| - 1] == p.branches[..|p.branches| - 1])
  }

  lemma KeptTrans(p: Pen, q: Pen, r: Pen)
    requires LevelsKept(p, q) && LevelsKept(q, r)
    ensures LevelsKept(p, r)
  {
  }

  /** Marking the innermost level keeps the others. */
  lemma MarkedKept(p: Pen, q: Pen, last: bool)
    requires q.branches == p.branches || q.branches == Marked(p.branches, last)
    ensures LevelsKept(p, q)
  {
    if |p.branches| > 0 {
      assert Marked(p.branches, last)[..|p.branches| - 1] == p.branches[..|p.branches| - 1];
    }
  }

  /**
   * Printing a subtree only adds lines, and gives back the stack of open
   * levels as it was, the innermost one marked drawn when the node was
   * shown as a last child; an absorbed node leaves the state as it is.
   */
  lemma {:induction false} ShownFrame(u: Setup, v: View, x: int, p: Pen)
    ensures var r := Shown(u, v, x, p);
      && Grows(p, r)
      && (x in v.cards && v.cards[x].dup != 1 ==> r.branches == Marked(p.branches, p.last))
      && (x !in v.cards || v.cards[x].dup == 1 ==> r == p)
    decreases Rank(v, x), 1
  {
    if x in v.cards && v.cards[x].dup != 1 {
      var c := v.cards[x];
      var q := Self(u, c, p);
      SelfFrame(u, c, p);
      SiblingsFrame(u, v, x, 0, 0, q);
      var s := Siblings(u, v, x, 0, 0, q);
      var s' := PopPen(u, s, true);
      DoneFrame(u, s');
      GrowsTrans(p, q, s);
      GrowsTrans(p, s, s');
      GrowsTrans(p, s', DonePen(u, s'));
    }
  }

  /** The child loop from position `i` only adds lines, and leaves every open level but the innermost as it was. */
  lemma {:induction false} SiblingsFrame(u: Setup, v: View, x: int, i: nat, n: nat, p: Pen)
    ensures var r := Siblings(u, v, x, i, n, p); Grows(p, r) && LevelsKept(p, r)
    decreases Rank(v, x), 0, if x in v.cards then |v.cards[x].kids| - i else 0
  {
    if x in v.cards && i < |v.cards[x].kids| {
      var ks := v.cards[x].kids;
      var j := Next(v, ks, i, n);
      var p' := p.(first := n == 0, last := j == |ks|);
      var q := if Rank(v, ks[i]) < Rank(v, x) then Shown(u, v, ks[i], p') else p;
      if Rank(v, ks[i]) < Rank(v, x) {
        ShownFrame(u, v, ks[i], p');
      }
      MarkedKept(p, q, j == |ks|);
      if j < |ks| {
        SiblingsFrame(u, v, x, j, n + 1, q);
        GrowsTrans(p, q, Siblings(u, v, x, j, n + 1, q));
        KeptTrans(p, q, Siblings(u, v, x, j, n + 1, q));
      }
    }
  }

  /** The node's own line only adds lines, and opens one level above the marked stack. */
  lemma SelfFrame(u: Setup, c: Card, p: Pen)
    ensures var r := Self(u, c, p);
      && Grows(p, r)
      && |r.branches| == |p.branches| + 1
      && r.branches[..|p.branches|] == Marked(p.branches, p.last)
  {
    var q := PrintPen(u, p, c.text, c.bright, c.dup);
    assert q.branches[..|p.branches|] == Marked(p.branches, p.last);
    if c.args.Some? {
      DoneFrame(u, ArgsPen(u, q, c.args.value));
    }
  }

  /** `done()` only adds lines. */
  lemma DoneFrame(u: Setup, p: Pen)
    ensures var r := DonePen(u, p); Grows(p, r) && r.branches == p.branches
  {
    var r := DonePen(u, p);
    assert r.lines[..|p.lines|] == p.lines;
  }

  /** Printing a subtree keeps the buffer invariant, and every line it finishes fits within the limit. */
  lemma {:induction false} ShownWithin(u: Setup, v: View, x: int, p: Pen)
    requires Sound(u, p) && Within(u, p.lines)
    ensures var r := Shown(u, v, x, p); Sound(u, r) && Within(u, r.lines)
    decreases Rank(v, x), 1
  {
    if x in v.cards && v.cards[x].dup != 1 {
      var c := v.cards[x];
      SelfWithin(u, c, p);
      var q := Self(u, c, p);
      SiblingsWithin(u, v, x, 0, 0, q);
      var s' := PopPen(u, Siblings(u, v, x, 0, 0, q), true);
      DoneEnds(u, s');
      DoneWithin(u, s');
    }
  }

  /** The child loop from position `i` keeps the buffer invariant, and every line it finishes fits. */
  lemma {:induction false} SiblingsWithin(u: Setup, v: View, x: int, i: nat, n: nat, p: Pen)
    requires Sound(u, p) && Within(u, p.lines)
    ensures var r := Siblings(u, v, x, i, n, p); Sound(u, r) && Within(u, r.lines)
    decreases Rank(v, x), 0, if x in v.cards then |v.cards[x].kids| - i else 0
  {
    if x in v.cards && i < |v.cards[x].kids| {
      var ks := v.cards[x].kids;
      var j := Next(v, ks, i, n);
      var p' := p.(first := n == 0, last := j == |ks|);
      var q := if Rank(v, ks[i]) < Rank(v, x) then Shown(u, v, ks[i], p') else p;
      if Rank(v, ks[i]) < Rank(v, x) {
        ShownWithin(u, v, ks[i], p');
      }
      if j < |ks| {
        SiblingsWithin(u, v, x, j, n + 1, q);
      }
    }
  }

  /** The node's own line keeps the buffer invariant, and the line it may finish fits. */
  lemma SelfWithin(u: Setup, c: Card, p: Pen)
    requires Sound(u, p) && Within(u, p.lines)
    ensures var r := Self(u, c, p); Sound(u, r) && Within(u, r.lines)
  {
    var q := PrintPen(u, p, c.text, c.bright, c.dup);
    PrintSound(u, p, c.text, c.bright, c.dup);
    if c.args.Some? {
      var a := ArgsPen(u, q, c.args.value);
      AddArgsFits(q.cursor, Bound(u), c.args.value);
      DoneWithin(u, a);
    }
  }

  // ---------------------------------------------------------------------
  // Where the child loop stops
  // ---------------------------------------------------------------------

  /** The number of children from `j` on that carry the count 1. */
  function OnesAfter(v: View, ks: seq<int>, j: nat): nat
    decreases |ks| - j
  {
    if j >= |ks| then 0
    else (if ks[j] in v.cards && v.cards[ks[j]].dup == 1 then 1 else 0) + OnesAfter(v, ks, j + 1)
  }

  /**
   * The shape of the counts the shortcut of `l4st` relies on: a child with
   * a count `n` above 1 has at least `n - 1` absorbed siblings after it.
   * With compaction off every count is 0 and the shape holds trivially.
   */
  predicate Grouped(v: View, ks: seq<int>)
  {
    forall i | 0 <= i < |ks| && ks[i] in v.cards && v.cards[ks[i]].dup > 1 ::
      OnesAfter(v, ks, i + 1) >= v.cards[ks[i]].dup - 1
  }

  /** At most one absorbed child per position; that many exactly when every child from `j` on is absorbed. */
  lemma {:induction false} OnesAfterAll(v: View, ks: seq<int>, j: nat)
    requires j <= |ks|
    ensures OnesAfter(v, ks, j) <= |ks| - j
    ensures OnesAfter(v, ks, j) == |ks| - j <==> forall k | j <= k < |ks| :: ks[k] in v.cards && v.cards[ks[k]].dup == 1
    decreases |ks| - j
  {
    if j < |ks| {
      OnesAfterAll(v, ks, j + 1);
    }
  }

  /**
   * With the counts of a compacted group, and a turn count that never runs
   * ahead of the iterator, the shortcut of `l4st` never errs: the loop
   * stops after a child exactly when no later child is shown.
   */
  lemma LastMeans(v: View, ks: seq<int>, i: nat, n: nat)
    requires i < |ks| && n <= i && Grouped(v, ks)
    ensures Next(v, ks, i, n) == |ks| <==> LaterAbsorbed(v, ks, i)
  {
    NextEnd(v, ks, i, n);
    if Shortcut(v, ks, i, n) {
      OnesAfterAll(v, ks, i + 1);
    }
  }

  /**
   * The reference walk: every child from `i` on is selected and printed,
   * each told whether a later child is shown, and none is skipped.
   */
  ghost function Walk(u: Setup, v: View, x: int, i: nat, p: Pen): Pen
    decreases Rank(v, x), if x in v.cards then |v.cards[x].kids| - i else 0
  {
    if x !in v.cards || i >= |v.cards[x].kids| then p
    else
      var ks := v.cards[x].kids;
      var q := if Rank(v, ks[i]) < Rank(v, x)
               then Shown(u, v, ks[i], p.(first := i == 0, last := LaterAbsorbed(v, ks, i))) else p;
      Walk(u, v, x, i + 1, q)
  }

  /** Two states that differ at most in where the next node stands among its siblings. */
  ghost predicate Alike(p: Pen, q: Pen)
  {
    p.(first := false, last := false) == q.(first := false, last := false)
  }

  /** The reference walk does not depend on where the node before it was said to stand. */
  lemma {:induction false} WalkAlike(u: Setup, v: View, x: int, i: nat, p: Pen, p': Pen)
    requires Alike(p, p')
    ensures Alike(Walk(u, v, x, i, p), Walk(u, v, x, i, p'))
    decreases if x in v.cards then |v.cards[x].kids| - i else 0
  {
    if x in v.cards && i < |v.cards[x].kids| {
      var ks := v.cards[x].kids;
      var a := p.(first := i == 0, last := LaterAbsorbed(v, ks, i));
      assert a == p'.(first := i == 0, last := LaterAbsorbed(v, ks, i));
      var q := if Rank(v, ks[i]) < Rank(v, x) then Shown(u, v, ks[i], a) else p;
      var q' := if Rank(v, ks[i]) < Rank(v, x) then Shown(u, v, ks[i], a) else p';
      WalkAlike(u, v, x, i + 1, q, q');
    }
  }

  /** Absorbed children print nothing: walking over those from `i` to `j` only moves the selection. */
  lemma {:induction false} WalkSkip(u: Setup, v: View, x: int, i: nat, j: nat, p: Pen)
    requires x in v.cards && i <= j <= |v.cards[x].kids|
    requires forall m | i <= m < j :: v.cards[x].kids[m] in v.cards && v.cards[v.cards[x].kids[m]].dup == 1
    ensures Alike(Walk(u, v, x, i, p), Walk(u, v, x, j, p))
    decreases j - i
  {
    var ks := v.cards[x].kids;
    if i < j {
      var p' := p.(first := i == 0, last := LaterAbsorbed(v, ks, i));
      ShownFrame(u, v, ks[i], p');
      var q := if Rank(v, ks[i]) < Rank(v, x) then Shown(u, v, ks[i], p') else p;
      WalkSkip(u, v, x, i + 1, j, q);
      WalkAlike(u, v, x, j, q, p);
    }
  }

  /**
   * The child loop of `print(tree, children)`, with its shortcut, its scan
   * that moves the iterator past absorbed children, its turn count and its
   * break, prints what the reference walk over every remaining child
   * prints: only where the next node would stand can differ.
   */
  lemma {:induction false} SiblingsWalk(u: Setup, v: View, x: int, i: nat, n: nat, p: Pen)
    requires x in v.cards && Grouped(v, v.cards[x].kids)
    requires n <= i && (n == 0 <==> i == 0)
    ensures Alike(Siblings(u, v, x, i, n, p), Walk(u, v, x, i, p))
    decreases |v.cards[x].kids| - i
  {
    var ks := v.cards[x].kids;
    if i < |ks| {
      LastMeans(v, ks, i, n);
      var j := Next(v, ks, i, n);
      var q := if Rank(v, ks[i]) < Rank(v, x)
               then Shown(u, v, ks[i], p.(first := i == 0, last := LaterAbsorbed(v, ks, i))) else p;
      if j == |ks| {
        WalkSkip(u, v, x, i + 1, |ks|, q);
      } else {
        NextShownSkips(v, ks, i + 1);
        WalkSkip(u, v, x, i + 1, j, q);
        SiblingsWalk(u, v, x, j, n + 1, q);
      }
    }
  }

  /**
   * One turn of the child loop, on the state: the child's subtree, told
   * `l4st`; then the rest of the loop from one past where the iterator was
   * left, unless `l4st` held.
   */
  lemma SiblingsStep(u: Setup, v: View, x: int, ks: seq<int>, i: nat, n: nat, p: Pen, l: bool, at: nat, r: Pen)
    requires x in v.cards && ks == v.cards[x].kids && i < |ks| && Rank(v, ks[i]) < Rank(v, x)
    requires (l <==> Next(v, ks, i, n) == |ks|) && (!l ==> at + 1 == Next(v, ks, i, n))
    requires r == Shown(u, v, ks[i], p.(first := n == 0, last := l))
    ensures l ==> r == Siblings(u, v, x, i, n, p)
    ensures !l ==> Siblings(u, v, x, at + 1, n + 1, r) == Siblings(u, v, x, i, n, p)
  {
  }

  /** The first child from `j` on without the count 1 is the one a scan found. */
  lemma NextShownIs(v: View, ks: seq<int>, j: nat, k: nat)
    requires j <= k <= |ks|
    requires forall m | j <= m < k :: ks[m] in v.cards && v.cards[ks[m]].dup == 1
    requires k < |ks| ==> !(ks[k] in v.cards && v.cards[ks[k]].dup == 1)
    ensures NextShown(v, ks, j) == k
  {
    NextShownSkips(v, ks, j);
  }

  /** The counts of the view are those of the forest. */
  lemma DupsOf(f: Forest, byPid: bool, v: View, ks: seq<int>)
    requires f.Valid() && v == ViewOf(f, byPid) && forall k | 0 <= k < |ks| :: ks[k] in f.nodes
    ensures forall k | 0 <= k < |ks| :: ks[k] in v.cards && v.cards[ks[k]].dup == f.dup[ks[k]]
  {
  }

  // ---------------------------------------------------------------------
  // The methods
  // ---------------------------------------------------------------------

  /**
   * The scan of `l4st`, on the iterator: from the child after `i` it moves
   * on while the children carry the count 1, then steps back one; `l` when
   * it ran off the end.
   */
  method ScanLater(f: Forest, ks: seq<int>, i: nat) returns (l: bool, at: nat)
    requires i < |ks| && forall k | 0 <= k < |ks| :: ks[k] in f.dup
    ensures i <= at < |ks|
    ensures forall m | i < m <= at :: f.dup[ks[m]] == 1
    ensures l <==> at + 1 == |ks|
    ensures !l ==> f.dup[ks[at + 1]] != 1
  {
    l := true;
    var k := i + 1;
    while k < |ks|
      invariant i < k <= |ks|
      invariant l
      invariant forall m | i < m < k :: f.dup[ks[m]] == 1
    {
      if f.dup[ks[k]] != 1 {
        l := false;
        break;
      }
      k := k + 1;
    }
    at := k - 1;
  }

  /** `print(tree)`. */
  method PrintSelf(t: Tree, f: Forest, x: int, byPid: bool)
    requires f.Valid() && x in f.nodes && t.Valid() && t.setup.flags == f.flags
    modifies t
    ensures t.Snapshot() == Self(t.setup, CardOf(f, x, byPid), old(t.Snapshot())) && t.Valid()
  {
    ghost var c := CardOf(f, x, byPid);
    ghost var q := PrintPen(t.setup, t.Snapshot(), c.text, c.bright, c.dup);
    t.Print(f.Display(f.roots, x), x in f.highlighted, f.dup[x]);
    assert t.Snapshot() == q;
    if Arguments in f.flags {
      var argv := f.nodes[x].rec.argv;
      if argv.Some? && |argv.value| > 0 {
        PrintArgs(t, f.visual, argv.value);
      }
      assert t.Snapshot() == ArgsPen(t.setup, q, Args(f, x));
      t.Done();
    }
  }

  /** The argument loop of `print(tree)`: every argument after the first, the last one marked. */
  method PrintArgs(t: Tree, visual: string -> string, argv: seq<string>)
    requires t.Valid() && |argv| > 0
    modifies t
    ensures t.Snapshot() == ArgsPen(t.setup, old(t.Snapshot()),
                                    seq(|argv| - 1, k requires 0 <= k < |argv| - 1 => visual(argv[k + 1])))
    ensures t.Valid()
  {
    ghost var all := seq(|argv| - 1, k requires 0 <= k < |argv| - 1 => visual(argv[k + 1]));
    ghost var p0 := t.Snapshot();
    var k := 1;
    while k < |argv|
      invariant 1 <= k <= |argv|
      invariant t.Valid()
      invariant ArgsPen(t.setup, p0, all) == ArgsPen(t.setup, t.Snapshot(), all[k - 1..])
    {
      assert all[k - 1..][1..] == all[k..];
      t.PrintArg(visual(argv[k]), k + 1 == |argv|);
      k := k + 1;
    }
  }

  /** `print(tree, children)` of `x`, over the pid index or the name index. */
  method PrintNode(t: Tree, f: Forest, x: int, byPid: bool)
    requires f.Valid() && x in f.nodes && t.Valid() && t.setup.flags == f.flags
    modifies t
    ensures t.Snapshot() == Shown(t.setup, ViewOf(f, byPid), x, old(t.Snapshot())) && t.Valid()
    decreases f.rank[x], 2
  {
    if f.dup[x] == 1 {
      return;
    }
    ghost var v := ViewOf(f, byPid);
    ghost var c := CardOf(f, x, byPid);
    assert v.cards[x] == c;
    ghost var p := t.Snapshot();
    PrintSelf(t, f, x, byPid);
    SelfFrame(t.setup, c, p);
    ghost var q := t.Snapshot();
    PrintChildren(t, f, x, byPid, v);
    SiblingsFrame(t.setup, v, x, 0, 0, q);
    t.Pop(|Kids(f, x, byPid)| > 0);
  }

  /**
   * The child loop of `print(tree, children)`: the iterator `i` and the
   * turn count `n` of `_forall`, each turn leaving the iterator where the
   * scan of `l4st` put it, up to and including the turn at which `l4st` holds.
   */
  method PrintChildren(t: Tree, f: Forest, x: int, byPid: bool, ghost v: View)
    requires f.Valid() && x in f.nodes && t.Valid() && t.setup.flags == f.flags
    requires v == ViewOf(f, byPid)
    modifies t
    ensures t.Snapshot() == Siblings(t.setup, v, x, 0, 0, old(t.Snapshot())) && t.Valid()
    decreases f.rank[x], 1
  {
    ghost var q := t.Snapshot();
    var ks := Kids(f, x, byPid);
    var i: nat, n: nat := 0, 0;
    while i < |ks|
      invariant 0 <= i <= |ks|
      invariant t.Valid()
      invariant Siblings(t.setup, v, x, 0, 0, q) == Siblings(t.setup, v, x, i, n, t.Snapshot())
      decreases |ks| - i
    {
      var l;
      l, i := PrintChild(t, f, x, byPid, i, n, v);
      if l {
        break;
      }
      i, n := i + 1, n + 1;
    }
  }

  /**
   * `l4st` of the child at `i` on turn `n`, and where the iterator stands
   * after it: the shortcut, else the scan; the loop goes on from `at + 1`.
   */
  method LastChild(f: Forest, ks: seq<int>, i: nat, n: nat, ghost v: View) returns (l: bool, at: nat)
    requires i < |ks|
    requires forall k | 0 <= k < |ks| :: ks[k] in f.dup && ks[k] in v.cards && v.cards[ks[k]].dup == f.dup[ks[k]]
    ensures i <= at < |ks| && (l <==> Next(v, ks, i, n) == |ks|)
    ensures !l ==> at + 1 == Next(v, ks, i, n)
  {
    var c := ks[i];
    l := n + (if f.dup[c] > 0 then f.dup[c] - 1 else 0) == |ks| - 1;
    at := i;
    if !l {
      l, at := ScanLater(f, ks, i);
      NextShownIs(v, ks, i + 1, at + 1);
    }
  }

  /**
   * One turn of the child loop: `l4st` of the child at `i`, the selection,
   * and the child's subtree; the loop stops when `l`, and otherwise goes on
   * from `at + 1`.
   */
  method PrintChild(t: Tree, f: Forest, x: int, byPid: bool, i: nat, n: nat, ghost v: View) returns (l: bool, at: nat)
    requires f.Valid() && x in f.nodes && i < |Kids(f, x, byPid)| && t.Valid() && t.setup.flags == f.flags
    requires v == ViewOf(f, byPid)
    modifies t
    ensures i <= at < |Kids(f, x, byPid)|
    ensures l ==> t.Snapshot() == Siblings(t.setup, v, x, i, n, old(t.Snapshot()))
    ensures !l ==> Siblings(t.setup, v, x, at + 1, n + 1, t.Snapshot()) == Siblings(t.setup, v, x, i, n, old(t.Snapshot()))
    ensures t.Valid()
    decreases f.rank[x], 0
  {
    ghost var p := t.Snapshot();
    var ks := Kids(f, x, byPid);
    var c := ks[i];
    DupsOf(f, byPid, v, ks);
    l, at := LastChild(f, ks, i, n, v);
    t.Select(n == 0, l);
    PrintNode(t, f, c, byPid);
    ViewRanked(f, byPid, x);
    SiblingsStep(t.setup, v, x, ks, i, n, p, l, at, t.Snapshot());
  }
}
