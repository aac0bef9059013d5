/**
 * `tree()` once the forest is built and linked: the node of `-H` is
 * highlighted; with `--pid` the one chosen node is compacted and printed;
 * otherwise the roots are gathered into a name index, compacted as one
 * group and printed in pid order or in name order.  The output is stated
 * through `Shown` of `Render` on the view of the forest as it stands at the
 * end, and the compaction through the functions of `Grouping`.
 */
module Driver {
  import opened Wrappers
  import opened Multimap
  import opened Text
  import opened Options
  import opened Forest
  import opened Equivalence
  import Grouping
  import opened Compaction
  import opened Output
  import opened Render

  // ---------------------------------------------------------------------
  // Specification functions
  // ---------------------------------------------------------------------

  /** The text `print()` gives each node, the roots being what they are now. */
  ghost function ShownTexts(f: Forest): map<int, string>
    requires f.Wf()
    reads f`roots
  {
    map x | x in f.nodes :: f.Display(f.roots, x)
  }

  /** `ShownTexts` holds, for every node, what `print()` shows for it. */
  lemma TextsShow(f: Forest)
    requires f.Wf()
    ensures Shows(f, f.roots, ShownTexts(f))
  {
  }

  /** The nodes `root(uid)` holds for. */
  ghost function RootSet(f: Forest, uid: int): set<int>
    requires f.Wf()
  {
    set x | x in f.nodes && f.IsRoot(x, uid)
  }

  /** The roots among `xs`, in the order of `xs`. */
  ghost function RootsIn(f: Forest, xs: seq<int>, uid: int): seq<int>
    requires f.Wf() && forall x | x in xs :: x in f.nodes
  {
    if xs == [] then []
    else
      var x := xs[|xs| - 1];
      RootsIn(f, xs[..|xs| - 1], uid) + (if f.IsRoot(x, uid) then [x] else [])
  }

  /** The name index the roots loop of `tree()` builds from the pids `xs`, taken in order. */
  ghost function NamesOf(f: Forest, xs: seq<int>, uid: int): (m: seq<(string, int)>)
    requires f.Wf() && forall x | x in xs :: x in f.nodes
    ensures forall k | 0 <= k < |m| :: m[k].1 in xs
  {
    if xs == [] then []
    else
      var x := xs[|xs| - 1];
      var m := NamesOf(f, xs[..|xs| - 1], uid);
      if f.IsRoot(x, uid) then
        InsertHas(m, Name(f.nodes[x], f.visual), x, StrLess);
        var r := Insert(m, Name(f.nodes[x], f.visual), x, StrLess);
        assert forall k | 0 <= k < |r| :: r[k] in r;
        r
      else m
  }

  /** The pen after printing the trees of `xs` one after the other. */
  ghost function ShownAll(u: Setup, v: View, xs: seq<int>, p: Pen): Pen
  {
    if xs == [] then p else Shown(u, v, xs[|xs| - 1], ShownAll(u, v, xs[..|xs| - 1], p))
  }

  /** The nodes `-H` highlights: the chosen node and those above it, when it exists. */
  ghost function Lit(f: Forest, hpid: int): set<int>
    requires f.Wf()
  {
    if Highlight in f.flags && hpid in f.nodes then f.Ancestors(hpid) else {}
  }

  /** The pen `tree()` leaves: the chosen pid's tree, or the trees of the roots in pid or in name order. */
  ghost function Printed(u: Setup, f: Forest, pid: int, uid: int, p: Pen): Pen
    requires f.Valid()
    reads f
  {
    var byPid := NumericSort in f.flags;
    var v := ViewOf(f, byPid);
    if Pid in f.flags then Shown(u, v, pid, p)
    else ShownAll(u, v, if byPid then RootsIn(f, f.order, uid) else Values(NamesOf(f, f.order, uid)), p)
  }

  /** `duplicate_` of each entry of the roots' name index, as the pass of `compact(names)` leaves it. */
  ghost function RootDups(f: Forest, uid: int): (s: seq<nat>)
    requires f.Wf()
    reads f`roots
    ensures |s| == |NamesOf(f, f.order, uid)|
  {
    RootIndex(f, uid);
    Grouping.PassOver(f, ShownTexts(f), NamesOf(f, f.order, uid), f.height).dups
  }

  /** Every entry of the roots' name index has `compact_` settled, its subtree included. */
  ghost predicate RootsSettled(f: Forest, m: map<int, bool>, d: map<int, nat>, uid: int)
    requires f.Wf() && d.Keys == f.nodes.Keys
    reads f`roots
  {
    RootIndex(f, uid);
    var names := NamesOf(f, f.order, uid);
    Compacted(f, ShownTexts(f), m, d, names, 0, |names|)
  }

  /** Entry `r` of the roots' name index absorbs entry `k` in that pass. */
  ghost predicate RootAbsorbs(f: Forest, uid: int, r: nat, k: nat)
    requires f.Wf() && k < |NamesOf(f, f.order, uid)|
    reads f`roots
  {
    RootIndex(f, uid);
    Grouping.Absorber(f, ShownTexts(f), NamesOf(f, f.order, uid), f.height, r, k)
  }

  // ---------------------------------------------------------------------
  // What the roots and their name index are
  // ---------------------------------------------------------------------

  /** The roots in pid order are exactly the nodes `root(uid)` holds for, each once. */
  lemma {:induction false} RootsInHas(f: Forest, xs: seq<int>, uid: int)
    requires f.Wf() && forall x | x in xs :: x in f.nodes
    ensures forall x :: x in RootsIn(f, xs, uid) <==> x in xs && f.IsRoot(x, uid)
  {
    if xs != [] {
      var front, x := xs[..|xs| - 1], xs[|xs| - 1];
      assert xs == front + [x];
      RootsInHas(f, front, uid);
    }
  }

  /**
   * The name index of the roots holds each root once, under its name, is in
   * name order, and has apart subtrees: no entry lies below another.
   */
  lemma {:induction false} NamesOfHas(f: Forest, xs: seq<int>, uid: int)
    requires f.Wf() && forall x | x in xs :: x in f.nodes
    requires StrictlyIncreasing(xs)
    ensures forall e :: e in NamesOf(f, xs, uid) <==> e.1 in xs && f.IsRoot(e.1, uid) && e.0 == Name(f.nodes[e.1], f.visual)
    ensures NameSorted(NamesOf(f, xs, uid))
  {
    if xs != [] {
      var front, x := xs[..|xs| - 1], xs[|xs| - 1];
      assert xs == front + [x];
      NamesOfHas(f, front, uid);
      var m := NamesOf(f, front, uid);
      if f.IsRoot(x, uid) {
        InsertHas(m, Name(f.nodes[x], f.visual), x, StrLess);
        forall e | e in m
          ensures e.1 < x
        {
          var k :| 0 <= k < |front| && front[k] == e.1;
        }
        NameInsertSorted(m, Name(f.nodes[x], f.visual), x);
      }
    }
  }

  /** The roots' name index is a group `compact(NameMap&)` takes: in name order, apart, ranked below the height. */
  lemma RootIndex(f: Forest, uid: int)
    requires f.Wf()
    ensures var names := NamesOf(f, f.order, uid);
      NameSorted(names) && Apart(f, names) && Grouping.RankedBelow(f, names, f.height)
  {
    var names := NamesOf(f, f.order, uid);
    NamesOfHas(f, f.order, uid);
    RootsApart(f, uid);
    forall k | 0 <= k < |names|
      ensures names[k].1 in f.nodes && f.rank[names[k].1] < f.height
    {
      assert names[k] in names;
    }
  }

  /** Entries of a name-sorted index that name the same node are the same entry. */
  lemma DistinctEntries(f: Forest, m: seq<(string, int)>, k: nat, l: nat)
    requires NameSorted(m) && k < l < |m|
    ensures m[k] != m[l]
  {
    assert NameBefore(m[k], m[l]);
    StrLessIrreflexive(m[k].0);
  }

  /** No root lies below another root, so the name index of the roots is apart. */
  lemma RootsApart(f: Forest, uid: int)
    requires f.Wf()
    ensures Apart(f, NamesOf(f, f.order, uid))
  {
    var names := NamesOf(f, f.order, uid);
    NamesOfHas(f, f.order, uid);
    forall k | 0 <= k < |names|
      ensures names[k].1 in f.nodes && f.IsRoot(names[k].1, uid)
    {
      assert names[k] in names;
    }
    forall k, l | 0 <= k < |names| && 0 <= l < |names| && k != l
      ensures !Below(f, names[k].1, names[l].1)
    {
      var a, b := names[k], names[l];
      assert a in names && b in names;
      if k < l {
        DistinctEntries(f, names, k, l);
      } else {
        DistinctEntries(f, names, l, k);
      }
      assert a.1 != b.1;
      if User in f.flags {
        f.RootsOffChain(b.1, a.1, uid);
      } else {
        assert f.Ancestors(a.1) == {a.1};
      }
    }
  }

  /** Both print orders show the same roots. */
  lemma SameRoots(f: Forest, uid: int)
    requires f.Wf()
    ensures forall x :: x in Values(NamesOf(f, f.order, uid)) <==> x in RootsIn(f, f.order, uid)
    ensures forall x :: x in RootsIn(f, f.order, uid) <==> x in RootSet(f, uid)
  {
    var names := NamesOf(f, f.order, uid);
    NamesOfHas(f, f.order, uid);
    RootsInHas(f, f.order, uid);
    forall x
      ensures x in Values(names) <==> x in RootsIn(f, f.order, uid)
    {
      if x in Values(names) {
        var k :| 0 <= k < |names| && Values(names)[k] == x;
        assert names[k] in names;
      }
      if x in RootsIn(f, f.order, uid) {
        var e := (Name(f.nodes[x], f.visual), x);
        assert e in names;
        var k :| 0 <= k < |names| && names[k] == e;
        assert Values(names)[k] == x;
      }
    }
  }

  /** Printing one more tree after the trees of `xs`. */
  lemma ShownAllSnoc(u: Setup, v: View, xs: seq<int>, x: int, p: Pen)
    ensures ShownAll(u, v, xs + [x], p) == Shown(u, v, x, ShownAll(u, v, xs, p))
  {
    assert (xs + [x])[..|xs|] == xs;
  }

  /** Printing the trees of one more element of `xs`. */
  lemma ShownAllPrefix(u: Setup, v: View, xs: seq<int>, i: nat, p: Pen)
    requires i < |xs|
    ensures ShownAll(u, v, xs[..i + 1], p) == Shown(u, v, xs[i], ShownAll(u, v, xs[..i], p))
  {
    assert xs[..i + 1] == xs[..i] + [xs[i]];
    ShownAllSnoc(u, v, xs[..i], xs[i], p);
  }

  /** The roots loop of `tree()` taking one more pid of `xs`: the name index and the root set it leaves. */
  lemma NamesOfPrefix(f: Forest, xs: seq<int>, i: nat, uid: int)
    requires f.Wf() && i < |xs| && forall y | y in xs :: y in f.nodes
    ensures forall y | y in xs[..i + 1] :: y in f.nodes
    ensures NamesOf(f, xs[..i + 1], uid) ==
      if f.IsRoot(xs[i], uid) then Insert(NamesOf(f, xs[..i], uid), Name(f.nodes[xs[i]], f.visual), xs[i], StrLess)
      else NamesOf(f, xs[..i], uid)
    ensures (set y | y in xs[..i + 1] && f.IsRoot(y, uid)) ==
      (set y | y in xs[..i] && f.IsRoot(y, uid)) + (if f.IsRoot(xs[i], uid) then {xs[i]} else {})
  {
    assert xs[..i + 1][..i] == xs[..i];
    assert xs[..i + 1] == xs[..i] + [xs[i]];
  }

  /** The roots loop taking one more pid of `xs`. */
  lemma RootsInPrefix(f: Forest, xs: seq<int>, i: nat, uid: int)
    requires f.Wf() && i < |xs| && forall y | y in xs :: y in f.nodes
    ensures forall y | y in xs[..i + 1] :: y in f.nodes
    ensures RootsIn(f, xs[..i + 1], uid) ==
      if f.IsRoot(xs[i], uid) then RootsIn(f, xs[..i], uid) + [xs[i]] else RootsIn(f, xs[..i], uid)
  {
    assert xs[..i + 1][..i] == xs[..i];
  }

  // ---------------------------------------------------------------------
  // tree()
  // ---------------------------------------------------------------------

  /** The `-H` step of `tree()`: an absent pid highlights nothing. */
  method HighlightTarget(f: Forest, hpid: int)
    requires f.Wf()
    modifies f`highlighted
    ensures f.highlighted == old(f.highlighted) + Lit(f, hpid)
  {
    if Highlight in f.flags && hpid in f.nodes {
      f.Highlight(hpid);
    }
  }

  /** The roots loop of `tree()`: `root(uid)` of every pid in order, the roots going into the name index. */
  method CollectRoots(f: Forest, uid: int) returns (names: seq<(string, int)>)
    requires f.Valid() && f.roots == {}
    modifies f`roots
    ensures f.Valid()
    ensures f.roots == RootSet(f, uid)
    ensures names == NamesOf(f, f.order, uid)
  {
    names := [];
    var i := 0;
    while i < |f.order|
      invariant 0 <= i <= |f.order|
      invariant f.Valid()
      invariant forall x | x in f.order[..i] :: x in f.nodes
      invariant names == NamesOf(f, f.order[..i], uid)
      invariant f.roots == set x | x in f.order[..i] && f.IsRoot(x, uid)
    {
      var x := f.order[i];
      assert x in f.order;
      assert x !in f.order[..i] by {
        forall k | 0 <= k < i
          ensures f.order[..i][k] != x
        {
          assert f.order[k] < f.order[i];
        }
      }
      var r := f.Root(x, uid);
      if r {
        names := Insert(names, Name(f.nodes[x], f.visual), x, StrLess);
      }
      NamesOfPrefix(f, f.order, i, uid);
      i := i + 1;
    }
    assert f.order[..i] == f.order;
  }

  /** `compact(names)` over the roots, as one group ranked below the height of the forest. */
  method CompactRoots(f: Forest, names: seq<(string, int)>, ghost uid: int)
    requires f.Valid() && names == NamesOf(f, f.order, uid)
    requires f.memo == map[] && forall x | x in f.nodes :: f.dup[x] == 0
    modifies f`memo, f`dup, f`highlighted
    ensures f.Valid() && old(f.highlighted) <= f.highlighted
    ensures Dups(f, f.dup, names) == RootDups(f, uid)
    ensures RootsSettled(f, f.memo, f.dup, uid)
    ensures forall r, k | 0 <= r < k < |names| && RootAbsorbs(f, uid, r, k) && names[k].1 in old(f.highlighted) ::
      names[r].1 in f.highlighted
  {
    ghost var t := ShownTexts(f);
    TextsShow(f);
    RootIndex(f, uid);
    forall k | 0 <= k < |names|
      ensures Pending(f, f.memo, f.dup, names[k].1)
    {
    }
    var _ := CompactGroup(f, t, names, f.height);
    assert f.roots == old(f.roots);
  }

  /** The name-order print of `tree()`: the tree of every entry of the name index. */
  method PrintByName(t: Tree, f: Forest, names: seq<(string, int)>)
    requires f.Valid() && t.Valid() && t.setup.flags == f.flags
    requires forall k | 0 <= k < |names| :: names[k].1 in f.nodes
    modifies t
    ensures t.Valid()
    ensures t.Snapshot() == ShownAll(t.setup, ViewOf(f, false), Values(names), old(t.Snapshot()))
  {
    ghost var v := ViewOf(f, false);
    ghost var p0 := t.Snapshot();
    ghost var xs := Values(names);
    var i := 0;
    while i < |names|
      invariant 0 <= i <= |names|
      invariant t.Valid()
      invariant t.Snapshot() == ShownAll(t.setup, v, xs[..i], p0)
    {
      PrintNode(t, f, names[i].1, false);
      ShownAllPrefix(t.setup, v, xs, i, p0);
      i := i + 1;
    }
    assert xs[..i] == xs;
  }

  /** The pid-order print of `tree()`: `root(uid)` of every pid again, and the tree of each root. */
  method PrintByPid(t: Tree, f: Forest, uid: int)
    requires f.Valid() && t.Valid() && t.setup.flags == f.flags && f.roots == RootSet(f, uid)
    modifies t, f`roots
    ensures f.roots == old(f.roots) && t.Valid()
    ensures t.Snapshot() == ShownAll(t.setup, ViewOf(f, true), RootsIn(f, f.order, uid), old(t.Snapshot()))
  {
    ghost var v := ViewOf(f, true);
    ghost var p0 := t.Snapshot();
    ghost var rs := f.roots;
    var i := 0;
    while i < |f.order|
      invariant 0 <= i <= |f.order|
      invariant f.roots == rs && t.Valid()
      invariant forall x | x in f.order[..i] :: x in f.nodes
      invariant t.Snapshot() == ShownAll(t.setup, v, RootsIn(f, f.order[..i], uid), p0)
    {
      var x := f.order[i];
      assert x in f.order;
      ghost var before := RootsIn(f, f.order[..i], uid);
      PrintIfRoot(t, f, x, uid);
      assert ViewOf(f, true) == v;
      if f.IsRoot(x, uid) {
        ShownAllSnoc(t.setup, v, before, x, p0);
      }
      RootsInPrefix(f, f.order, i, uid);
      i := i + 1;
    }
    assert f.order[..i] == f.order;
  }

  /** One pid of the pid-order print: `root(uid)` again, and the tree of the pid when it is a root. */
  method PrintIfRoot(t: Tree, f: Forest, x: int, uid: int)
    requires f.Valid() && x in f.nodes && t.Valid() && t.setup.flags == f.flags && f.roots == RootSet(f, uid)
    modifies t, f`roots
    ensures f.roots == old(f.roots) && t.Valid()
    ensures t.Snapshot() == if f.IsRoot(x, uid) then Shown(t.setup, ViewOf(f, true), x, old(t.Snapshot())) else old(t.Snapshot())
  {
    var r := f.Root(x, uid);
    assert f.roots == old(f.roots);
    if r {
      PrintNode(t, f, x, true);
    }
  }

  /** The `--pid` branch of `tree()`: the chosen node, when it exists, compacted unless NoCompact, and printed. */
  method ShowPid(f: Forest, t: Tree, pid: int)
    requires f.Valid() && f.memo == map[] && forall x | x in f.nodes :: f.dup[x] == 0
    requires t.Valid() && t.setup.flags == f.flags
    modifies f`memo, f`dup, f`highlighted, t
    ensures f.Valid() && t.Valid()
    ensures t.Snapshot() == Shown(t.setup, ViewOf(f, NumericSort in f.flags), pid, old(t.Snapshot()))
    ensures pid in f.nodes && NoCompact !in f.flags ==> Settled(f, ShownTexts(f), f.memo, f.dup, pid)
    ensures pid !in f.nodes || NoCompact in f.flags ==>
      f.memo == old(f.memo) && f.dup == old(f.dup) && f.highlighted == old(f.highlighted)
    ensures old(f.highlighted) <= f.highlighted
  {
    if pid !in f.nodes {
      return;
    }
    var byPid := NumericSort in f.flags;
    if NoCompact !in f.flags {
      CompactPid(f, pid);
    }
    PrintNode(t, f, pid, byPid);
  }

  /** `compact()` of the chosen node, on a forest nothing has been compacted in yet. */
  method CompactPid(f: Forest, pid: int)
    requires f.Valid() && pid in f.nodes && f.memo == map[] && forall x | x in f.nodes :: f.dup[x] == 0
    modifies f`memo, f`dup, f`highlighted
    ensures f.Valid() && old(f.highlighted) <= f.highlighted
    ensures Settled(f, ShownTexts(f), f.memo, f.dup, pid)
  {
    ghost var t := ShownTexts(f);
    TextsShow(f);
    var _ := Compact(f, t, pid);
    assert f.roots == old(f.roots);
  }

  /** The branch of `tree()` without `--pid`: gather the roots, compact them unless NoCompact, print them. */
  method ShowRoots(f: Forest, t: Tree, uid: int)
    requires f.Valid() && f.roots == {} && f.memo == map[] && forall x | x in f.nodes :: f.dup[x] == 0
    requires t.Valid() && t.setup.flags == f.flags
    modifies f`roots, f`memo, f`dup, f`highlighted, t
    ensures f.Valid() && t.Valid()
    ensures f.roots == RootSet(f, uid)
    ensures var names := NamesOf(f, f.order, uid);
      NoCompact !in f.flags ==>
        Dups(f, f.dup, names) == RootDups(f, uid) && RootsSettled(f, f.memo, f.dup, uid)
    ensures NoCompact in f.flags ==> f.memo == old(f.memo) && f.dup == old(f.dup) && f.highlighted == old(f.highlighted)
    ensures old(f.highlighted) <= f.highlighted
    ensures t.Snapshot() == ShownAll(t.setup, ViewOf(f, NumericSort in f.flags),
      if NumericSort in f.flags then RootsIn(f, f.order, uid) else Values(NamesOf(f, f.order, uid)), old(t.Snapshot()))
  {
    var names := CollectRoots(f, uid);
    if NoCompact !in f.flags {
      CompactRoots(f, names, uid);
    }
    if NumericSort in f.flags {
      PrintByPid(t, f, uid);
    } else {
      NamesOfHas(f, f.order, uid);
      forall k | 0 <= k < |names|
        ensures names[k].1 in f.nodes
      {
        assert names[k] in names;
      }
      PrintByName(t, f, names);
    }
  }

  /**
   * `tree()` from the highlight on, over a forest fresh from its
   * constructor: `-H` highlights its node, then the pid branch or the roots
   * branch prints.  Without compaction the highlighting is exactly that of
   * `-H`; compaction only adds to it.
   */
  method PrintForest(f: Forest, t: Tree, hpid: int, pid: int, uid: int)
    requires f.Valid() && f.highlighted == {} && f.roots == {} && f.memo == map[]
    requires forall x | x in f.nodes :: f.dup[x] == 0
    requires t.Valid() && t.setup.flags == f.flags
    modifies f`highlighted, f`roots, f`memo, f`dup, t
    ensures f.Valid() && t.Valid()
    ensures t.Snapshot() == Printed(t.setup, f, pid, uid, old(t.Snapshot()))
    ensures f.roots == if Pid in f.flags then {} else RootSet(f, uid)
    ensures Lit(f, hpid) <= f.highlighted
    ensures NoCompact in f.flags ==> f.highlighted == Lit(f, hpid) && f.memo == map[] && f.dup == old(f.dup)
    ensures NoCompact !in f.flags && Pid in f.flags && pid in f.nodes ==> Settled(f, ShownTexts(f), f.memo, f.dup, pid)
    ensures var names := NamesOf(f, f.order, uid);
      NoCompact !in f.flags && Pid !in f.flags ==>
        Dups(f, f.dup, names) == RootDups(f, uid) && RootsSettled(f, f.memo, f.dup, uid)
  {
    HighlightTarget(f, hpid);
    if Pid in f.flags {
      ShowPid(f, t, pid);
    } else {
      ShowRoots(f, t, uid);
    }
  }

  /**
   * `tree()` over a snapshot: the forest is built from the records, the
   * renderer starts with nothing on its line, and the forest is printed.
   */
  method TreeOf(records: seq<Record>, flags: Flags, visual: string -> string, userName: int -> string,
                ghost rank: map<int, nat>, setup: Setup, hpid: int, pid: int, uid: int)
    returns (f: Forest, t: Tree)
    requires DistinctPids(records) && Ranked(records, rank) && setup.flags == flags
    ensures fresh(f) && fresh(t) && f.Valid() && t.Valid()
    ensures f.flags == flags && f.visual == visual && f.userName == userName && t.setup == setup
    ensures Snapshot(records, flags, visual, f.nodes, f.order)
    ensures t.Snapshot() == Printed(setup, f, pid, uid, Pen([], Cursor(0, false, [], false), false, false, 0, []))
  {
    f := new Forest(records, flags, visual, userName, rank);
    t := new Tree(setup);
    PrintForest(f, t, hpid, pid, uid);
  }
}
