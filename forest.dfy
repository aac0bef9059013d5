/**
 * The process forest: the snapshot records that pass the filter, each linked
 * under the node its parent pid names, with the two child indexes
 * `childrenByPid_` and `childrenByName_` of `Proc`.  The nodes live in one
 * store indexed by pid; parent links and index entries hold pids.
 */
module Forest {
  import opened Wrappers
  import opened Text
  import opened Multimap
  import opened Options

  /** What the kvm accessors give for one process. */
  datatype Record = Record(pid: int, ppid: int, uid: int, comm: string, argv: Option<seq<string>>)

  /**
   * A `Proc`: its record, `parent_`, and the two child multimaps as entry
   * sequences in iteration order (key, child pid).
   */
  datatype Node = Node(rec: Record, parent: Option<int>, byPid: seq<(int, int)>, byName: seq<(string, int)>)

  type Store = map<int, Node>

  /** The filter of the snapshot loop in `tree()`. */
  predicate Admitted(flags: Flags, r: Record)
  {
    ShowKernel in flags || r.ppid > 0 || r.pid == 1
  }

  /** Each pid occurs once in the snapshot. */
  predicate DistinctPids(records: seq<Record>)
  {
    forall i, j | 0 <= i < j < |records| :: records[i].pid != records[j].pid
  }

  /**
   * `rank` grows from every record to the record its parent pid names,
   * unless the record names itself: the parent relation has no cycle
   * other than self-parenting.
   */
  ghost predicate Ranked(records: seq<Record>, rank: map<int, nat>)
  {
    && (forall i | 0 <= i < |records| :: records[i].pid in rank)
    && (forall i, j | 0 <= i < |records| && 0 <= j < |records|
          && records[j].pid == records[i].ppid && records[i].ppid != records[i].pid ::
          rank[records[i].pid] < rank[records[j].pid])
  }

  /** The key order of the pid multimaps. */
  predicate PidLess(a: int, b: int)
  {
    a < b
  }

  /** `Proc::name()`: the `strvis` rendering of the command name. */
  function Name(n: Node, visual: string -> string): string
  {
    visual(n.rec.comm)
  }

  predicate PidSorted(m: seq<(int, int)>)
  {
    forall i, j | 0 <= i < j < |m| :: m[i].0 < m[j].0
  }

  predicate StrictlyIncreasing(s: seq<int>)
  {
    forall i, j | 0 <= i < j < |s| :: s[i] < s[j]
  }

  /** Order of the name index: by name, and by pid among equal names. */
  predicate NameBefore(a: (string, int), b: (string, int))
  {
    StrLess(a.0, b.0) || (a.0 == b.0 && a.1 < b.1)
  }

  predicate NameSorted(m: seq<(string, int)>)
  {
    forall i, j {:trigger NameBefore(m[i], m[j])} | 0 <= i < j < |m| :: NameBefore(m[i], m[j])
  }

  /** Whether the link loop puts `c` under another node. */
  predicate Links(s: Store, c: int)
    requires c in s
  {
    s[c].rec.ppid != -1 && s[c].rec.ppid in s && s[c].rec.ppid != c
  }

  /**
   * `Proc::child`: `p` adopts `c` unless they are the same node; `c` goes
   * into both indexes of `p`.
   */
  function Child(s: Store, p: int, c: int, visual: string -> string): (t: Store)
    requires p in s && c in s
    ensures t.Keys == s.Keys
    ensures forall x | x in s :: t[x].rec == s[x].rec
    ensures p == c ==> t == s
    ensures p != c ==> t[c].parent == Some(p)
    ensures forall x | x in s && (p == c || x != c) :: t[x].parent == s[x].parent
    ensures forall x | x in s && (p == c || x != p) :: t[x].byPid == s[x].byPid && t[x].byName == s[x].byName
    ensures p != c ==> multiset(t[p].byPid) == multiset(s[p].byPid) + multiset{(c, c)}
    ensures p != c ==> multiset(t[p].byName) == multiset(s[p].byName) + multiset{(Name(s[c], visual), c)}
  {
    if p == c then s
    else
      var n := s[p];
      s[c := s[c].(parent := Some(p))]
       [p := n.(byPid := Insert(n.byPid, c, c, PidLess),
                byName := Insert(n.byName, Name(s[c], visual), c, StrLess))]
  }

  // ---------------------------------------------------------------------
  // What the build loops establish
  // ---------------------------------------------------------------------

  /** The nodes are the admitted records, each under its own pid. */
  predicate Admits(records: seq<Record>, flags: Flags, s: Store)
  {
    && (forall i | 0 <= i < |records| :: records[i].pid in s <==> Admitted(flags, records[i]))
    && (forall p | p in s :: s[p].rec.pid == p && s[p].rec in records)
  }

  /** The two indexes of `p` hold exactly its children, keyed and ordered as the multimaps are. */
  predicate Indexes(s: Store, p: int, visual: string -> string)
    requires p in s
  {
    PidIndex(s, p) && NameIndex(s, p, visual)
  }

  predicate PidIndex(s: Store, p: int)
    requires p in s
  {
    && PidSorted(s[p].byPid)
    && (forall e {:trigger e in s[p].byPid} | e in s[p].byPid :: e.0 == e.1 && e.1 in s && s[e.1].parent == Some(p))
    && (forall c {:trigger s[c].parent} | c in s && s[c].parent == Some(p) :: (c, c) in s[p].byPid)
  }

  predicate NameIndex(s: Store, p: int, visual: string -> string)
    requires p in s
  {
    && NameSorted(s[p].byName)
    && (forall e {:trigger e in s[p].byName} | e in s[p].byName ::
          e.1 in s && s[e.1].parent == Some(p) && e.0 == Name(s[e.1], visual))
    && (forall c {:trigger s[c].parent} | c in s && s[c].parent == Some(p) :: (Name(s[c], visual), c) in s[p].byName)
  }

  /** The state of the link loop after the first `k` pids in ascending order. */
  predicate LinkedUpTo(s: Store, order: seq<int>, k: nat, visual: string -> string)
    requires k <= |order|
  {
    && (forall c | c in s :: s[c].parent == (if c in order[..k] && Links(s, c) then Some(s[c].rec.ppid) else None))
    && (forall p | p in s :: Indexes(s, p, visual))
  }

  /**
   * The forest `tree()` builds from a snapshot: the admitted records, the
   * pids in ascending order (the `pids` multimap), every node linked under
   * its parent when the link loop links it, and the child indexes complete.
   */
  ghost predicate Snapshot(records: seq<Record>, flags: Flags, visual: string -> string, s: Store, order: seq<int>)
  {
    && Admits(records, flags, s)
    && StrictlyIncreasing(order)
    && (forall p {:trigger p in order} :: p in order <==> p in s)
    && (forall c | c in s :: s[c].parent == (if Links(s, c) then Some(s[c].rec.ppid) else None))
    && (forall p | p in s :: Indexes(s, p, visual))
  }

  /** Inserting a new pid keeps the pid multimap strictly ordered. */
  lemma PidInsertSorted(m: seq<(int, int)>, k: int)
    requires PidSorted(m)
    requires forall e | e in m :: e.0 != k
    ensures PidSorted(Insert(m, k, k, PidLess))
  {
    InsertIndex(m, k, k, PidLess);
    var u := UpperBound(m, k, PidLess);
    var r := Insert(m, k, k, PidLess);
    forall i, j | 0 <= i < j < |r|
      ensures r[i].0 < r[j].0
    {
      if j < u {
        assert r[i] == m[i] && r[j] == m[j];
      } else if j == u {
        assert r[i] == m[i] && m[i] in m;
      } else if i < u {
        assert r[i] == m[i] && r[j] == m[j - 1] && m[i] in m;
      } else if i == u {
        assert r[j] == m[j - 1];
        assert u < |m| && PidLess(k, m[u].0);
        assert u == j - 1 || m[u].0 < m[j - 1].0;
      } else {
        assert r[i] == m[i - 1] && r[j] == m[j - 1];
      }
    }
  }

  /** Inserting a pid larger than every pid present keeps the name index ordered. */
  lemma NameInsertSorted(m: seq<(string, int)>, k: string, v: int)
    requires NameSorted(m)
    requires forall e | e in m :: e.1 < v
    ensures NameSorted(Insert(m, k, v, StrLess))
  {
    InsertIndex(m, k, v, StrLess);
    var u := UpperBound(m, k, StrLess);
    var r := Insert(m, k, v, StrLess);
    forall i, j | 0 <= i < j < |r|
      ensures NameBefore(r[i], r[j])
    {
      if j < u {
        assert r[i] == m[i] && r[j] == m[j];
      } else if j == u {
        assert r[i] == m[i] && m[i] in m && r[j] == (k, v);
        StrLessTotal(m[i].0, k);
      } else if i < u {
        assert r[i] == m[i] && r[j] == m[j - 1];
      } else if i == u {
        assert r[i] == (k, v) && r[j] == m[j - 1];
        assert u < |m| && StrLess(k, m[u].0);
        if u < j - 1 {
          assert NameBefore(m[u], m[j - 1]);
          if StrLess(m[u].0, m[j - 1].0) {
            StrLessTransitive(k, m[u].0, m[j - 1].0);
          }
        }
      } else {
        assert r[i] == m[i - 1] && r[j] == m[j - 1];
      }
    }
  }

  /** The first `i` records are filtered into `s` as unlinked nodes, with their pids in order in `pids`. */
  ghost predicate Filtered(records: seq<Record>, i: nat, flags: Flags, s: Store, pids: seq<(int, int)>)
    requires i <= |records|
  {
    FilteredNodes(records, i, flags, s) && PidsOf(s, pids)
  }

  /** The nodes are the admitted ones among the first `i` records, unlinked. */
  ghost predicate FilteredNodes(records: seq<Record>, i: nat, flags: Flags, s: Store)
    requires i <= |records|
  {
    && (forall k | 0 <= k < i :: records[k].pid in s <==> Admitted(flags, records[k]))
    && (forall p | p in s :: s[p].rec.pid == p && exists k | 0 <= k < i :: records[k] == s[p].rec)
    && (forall p | p in s :: s[p].parent == None && s[p].byPid == [] && s[p].byName == [])
  }

  /** `pids` holds each pid of `s` once, in ascending order. */
  ghost predicate PidsOf(s: Store, pids: seq<(int, int)>)
  {
    && PidSorted(pids)
    && (forall e | e in pids :: e.0 == e.1 && e.0 in s)
    && (forall p | p in s :: (p, p) in pids)
  }

  lemma FilterFresh(records: seq<Record>, i: nat, flags: Flags, s: Store, pids: seq<(int, int)>)
    requires DistinctPids(records) && i < |records|
    requires Filtered(records, i, flags, s, pids)
    ensures records[i].pid !in s
  {
    forall p | p in s
      ensures p != records[i].pid
    {
      var k :| 0 <= k < i && records[k] == s[p].rec;
      assert records[k].pid == p;
    }
  }

  lemma FilterSkip(records: seq<Record>, i: nat, flags: Flags, s: Store, pids: seq<(int, int)>)
    requires DistinctPids(records) && i < |records| && !Admitted(flags, records[i])
    requires Filtered(records, i, flags, s, pids)
    ensures Filtered(records, i + 1, flags, s, pids)
  {
    FilterFresh(records, i, flags, s, pids);
  }

  lemma FilterAdd(records: seq<Record>, i: nat, flags: Flags, s: Store, pids: seq<(int, int)>)
    requires DistinctPids(records) && i < |records| && Admitted(flags, records[i])
    requires Filtered(records, i, flags, s, pids)
    ensures var r := records[i];
      Filtered(records, i + 1, flags, s[r.pid := Node(r, None, [], [])], Insert(pids, r.pid, r.pid, PidLess))
  {
    FilterFresh(records, i, flags, s, pids);
    FilterAddNodes(records, i, flags, s);
    FilterAddPids(s, pids, records[i]);
  }

  lemma FilterAddNodes(records: seq<Record>, i: nat, flags: Flags, s: Store)
    requires DistinctPids(records) && i < |records| && Admitted(flags, records[i]) && records[i].pid !in s
    requires FilteredNodes(records, i, flags, s)
    ensures var r := records[i]; FilteredNodes(records, i + 1, flags, s[r.pid := Node(r, None, [], [])])
  {
    var r := records[i];
    var s' := s[r.pid := Node(r, None, [], [])];
    forall k | 0 <= k < i + 1
      ensures records[k].pid in s' <==> Admitted(flags, records[k])
    {
      if k < i {
        assert records[k].pid != r.pid;
      }
    }
    forall p | p in s'
      ensures s'[p].rec.pid == p && exists k | 0 <= k < i + 1 :: records[k] == s'[p].rec
    {
      if p == r.pid {
        assert records[i] == s'[p].rec;
      } else {
        var k :| 0 <= k < i && records[k] == s[p].rec;
        assert records[k] == s'[p].rec;
      }
    }
  }

  lemma FilterAddPids(s: Store, pids: seq<(int, int)>, r: Record)
    requires PidsOf(s, pids) && r.pid !in s
    ensures PidsOf(s[r.pid := Node(r, None, [], [])], Insert(pids, r.pid, r.pid, PidLess))
  {
    PidInsertSorted(pids, r.pid);
    PidsMembers(s, pids, r);
  }

  lemma PidsMembers(s: Store, pids: seq<(int, int)>, r: Record)
    requires forall e | e in pids :: e.0 == e.1 && e.0 in s
    requires forall p | p in s :: (p, p) in pids
    ensures var s', pids' := s[r.pid := Node(r, None, [], [])], Insert(pids, r.pid, r.pid, PidLess);
      && (forall e | e in pids' :: e.0 == e.1 && e.0 in s')
      && (forall p | p in s' :: (p, p) in pids')
  {
    InsertHas(pids, r.pid, r.pid, PidLess);
  }

  /** The pid the link loop is at is neither linked nor indexed yet, and exceeds every indexed pid. */
  lemma LinkFresh(s: Store, order: seq<int>, k: nat, visual: string -> string)
    requires k < |order| && StrictlyIncreasing(order) && order[k] in s
    requires LinkedUpTo(s, order, k, visual)
    ensures order[k] !in order[..k]
    ensures s[order[k]].parent == None
    ensures forall q, e | q in s && e in s[q].byPid :: e.1 < order[k]
    ensures forall q, e | q in s && e in s[q].byName :: e.1 < order[k]
  {
    var c := order[k];
    assert forall j | 0 <= j < k :: order[..k][j] != c;
    forall x | x in s && s[x].parent.Some?
      ensures x < c
    {
      assert x in order[..k];
      var j :| 0 <= j < k && order[..k][j] == x;
      assert order[j] == x;
    }
    forall q, e | q in s && e in s[q].byPid
      ensures e.1 < c
    {
      assert Indexes(s, q, visual);
    }
    forall q, e | q in s && e in s[q].byName
      ensures e.1 < c
    {
      assert Indexes(s, q, visual);
    }
  }

  /** The link loop passes a pid it does not link. */
  lemma LinkSkip(s: Store, order: seq<int>, k: nat, visual: string -> string)
    requires k < |order| && StrictlyIncreasing(order) && order[k] in s
    requires LinkedUpTo(s, order, k, visual) && !Links(s, order[k])
    ensures LinkedUpTo(s, order, k + 1, visual)
  {
    LinkFresh(s, order, k, visual);
    assert order[..k + 1] == order[..k] + [order[k]];
  }

  lemma LinkParents(s: Store, order: seq<int>, k: nat, visual: string -> string)
    requires k < |order| && StrictlyIncreasing(order) && order[k] in s
    requires LinkedUpTo(s, order, k, visual) && Links(s, order[k])
    ensures var c := order[k]; var t := Child(s, s[c].rec.ppid, c, visual);
      forall x | x in t :: t[x].parent == (if x in order[..k + 1] && Links(t, x) then Some(t[x].rec.ppid) else None)
  {
    var c := order[k];
    var t := Child(s, s[c].rec.ppid, c, visual);
    assert order[..k + 1] == order[..k] + [c];
    forall x | x in t
      ensures t[x].parent == (if x in order[..k + 1] && Links(t, x) then Some(t[x].rec.ppid) else None)
    {
      assert Links(t, x) == Links(s, x);
      if x != c {
        assert t[x].parent == s[x].parent;
        assert x in order[..k + 1] <==> x in order[..k];
      }
    }
  }

  lemma LinkOtherIndexes(s: Store, order: seq<int>, k: nat, visual: string -> string, q: int)
    requires k < |order| && StrictlyIncreasing(order) && order[k] in s
    requires LinkedUpTo(s, order, k, visual) && Links(s, order[k])
    requires q in s && q != s[order[k]].rec.ppid
    ensures var c := order[k]; Indexes(Child(s, s[c].rec.ppid, c, visual), q, visual)
  {
    LinkFresh(s, order, k, visual);
    assert Indexes(s, q, visual);
  }

  /** Appending a pid larger than every pid present keeps the pid index ordered. */
  lemma PidAppendSorted(m: seq<(int, int)>, c: int)
    requires PidSorted(m)
    requires forall e | e in m :: e.1 < c && e.0 == e.1
    ensures PidSorted(m + [(c, c)])
  {
    var r := m + [(c, c)];
    forall i, j | 0 <= i < j < |r|
      ensures r[i].0 < r[j].0
    {
      assert r[i] == m[i] && m[i] in m;
      if j < |m| {
        assert r[j] == m[j];
      }
    }
  }

  lemma LinkParentPidIndex(s: Store, order: seq<int>, k: nat, visual: string -> string)
    requires k < |order| && StrictlyIncreasing(order) && order[k] in s
    requires LinkedUpTo(s, order, k, visual) && Links(s, order[k])
    ensures var c := order[k]; var p := s[c].rec.ppid; PidIndex(Child(s, p, c, visual), p)
  {
    LinkFresh(s, order, k, visual);
    var c := order[k];
    var p := s[c].rec.ppid;
    var t := Child(s, p, c, visual);
    var m := s[p].byPid;
    assert PidIndex(s, p);
    assert forall i | 0 <= i < |m| :: m[i] in m;
    InsertLast(m, c, c, PidLess);
    assert t[p].byPid == m + [(c, c)];
    PidAppendSorted(m, c);
    forall e | e in t[p].byPid
      ensures e.0 == e.1 && e.1 in t && t[e.1].parent == Some(p)
    {
      if e != (c, c) {
        assert e in m;
      }
    }
    forall x | x in t && t[x].parent == Some(p)
      ensures (x, x) in t[p].byPid
    {
      if x != c {
        assert s[x].parent == Some(p);
        assert (x, x) in m;
      }
    }
  }

  lemma LinkParentNameIndex(s: Store, order: seq<int>, k: nat, visual: string -> string)
    requires k < |order| && StrictlyIncreasing(order) && order[k] in s
    requires LinkedUpTo(s, order, k, visual) && Links(s, order[k])
    ensures var c := order[k]; var p := s[c].rec.ppid; NameIndex(Child(s, p, c, visual), p, visual)
  {
    LinkFresh(s, order, k, visual);
    var c := order[k];
    var p := s[c].rec.ppid;
    var t := Child(s, p, c, visual);
    var m := s[p].byName;
    var n := (Name(s[c], visual), c);
    assert NameIndex(s, p, visual);
    NameInsertSorted(m, n.0, c);
    MultisetAddMembers(t[p].byName, m, n);
    forall e | e in t[p].byName
      ensures e.1 in t && t[e.1].parent == Some(p) && e.0 == Name(t[e.1], visual)
    {
      if e != n {
        assert e in m;
      }
    }
    forall x | x in t && t[x].parent == Some(p)
      ensures (Name(t[x], visual), x) in t[p].byName
    {
      if x != c {
        assert s[x].parent == Some(p);
        assert (Name(s[x], visual), x) in m;
      }
    }
  }

  /** The elements of a sequence whose multiset gained one element `x`. */
  lemma MultisetAddMembers<T>(a: seq<T>, b: seq<T>, x: T)
    requires multiset(a) == multiset(b) + multiset{x}
    ensures forall e :: e in a <==> e in b || e == x
  {
    assert forall e :: e in a <==> e in multiset(a);
    assert forall e :: e in b <==> e in multiset(b);
  }

  lemma LinkAdd(s: Store, order: seq<int>, k: nat, visual: string -> string)
    requires k < |order| && StrictlyIncreasing(order) && order[k] in s
    requires LinkedUpTo(s, order, k, visual) && Links(s, order[k])
    ensures var c := order[k]; LinkedUpTo(Child(s, s[c].rec.ppid, c, visual), order, k + 1, visual)
  {
    var c := order[k];
    var p := s[c].rec.ppid;
    var t := Child(s, p, c, visual);
    LinkParents(s, order, k, visual);
    LinkParentPidIndex(s, order, k, visual);
    LinkParentNameIndex(s, order, k, visual);
    forall q | q in t
      ensures Indexes(t, q, visual)
    {
      if q != p {
        LinkOtherIndexes(s, order, k, visual, q);
      }
    }
  }

  /** One pass of the link loop: `c` is handed to its parent's `child` when its parent pid names a node. */
  function LinkOne(s: Store, c: int, visual: string -> string): Store
    requires c in s
  {
    var parent := s[c].rec.ppid;
    if parent != -1 && parent in s then Child(s, parent, c, visual) else s
  }

  lemma LinkStep(records: seq<Record>, flags: Flags, s: Store, order: seq<int>, k: nat, visual: string -> string)
    requires k < |order| && StrictlyIncreasing(order)
    requires forall p :: p in order <==> p in s
    requires Admits(records, flags, s)
    requires LinkedUpTo(s, order, k, visual)
    ensures var t := LinkOne(s, order[k], visual);
      && (forall p :: p in order <==> p in t)
      && Admits(records, flags, t)
      && LinkedUpTo(t, order, k + 1, visual)
  {
    var c := order[k];
    if Links(s, c) {
      LinkAdd(s, order, k, visual);
    } else {
      LinkSkip(s, order, k, visual);
    }
  }

  /**
   * The two loops of `tree()` that build the forest: the filtered records go
   * into the pid multimap, and then, in ascending pid order, each node whose
   * parent pid is not -1 and names a node is handed to that node's `child`.
   */
  method Build(records: seq<Record>, flags: Flags, visual: string -> string) returns (s: Store, order: seq<int>)
    requires DistinctPids(records)
    ensures Snapshot(records, flags, visual, s, order)
  {
    s := map[];
    var pids: seq<(int, int)> := [];
    var i := 0;
    while i < |records|
      invariant 0 <= i <= |records|
      invariant Filtered(records, i, flags, s, pids)
    {
      var r := records[i];
      if Admitted(flags, r) {
        FilterAdd(records, i, flags, s, pids);
        pids := Insert(pids, r.pid, r.pid, PidLess);
        s := s[r.pid := Node(r, None, [], [])];
      } else {
        FilterSkip(records, i, flags, s, pids);
      }
      i := i + 1;
    }
    order := Keys(pids);
    FilteredOrder(records, flags, s, pids);
    FilteredUnlinked(s, order, visual);
    var k := 0;
    while k < |order|
      invariant 0 <= k <= |order|
      invariant forall p :: p in order <==> p in s
      invariant Admits(records, flags, s)
      invariant LinkedUpTo(s, order, k, visual)
    {
      var c := order[k];
      var parent := s[c].rec.ppid;
      LinkStep(records, flags, s, order, k, visual);
      if parent != -1 && parent in s {
        s := Child(s, parent, c, visual);
      }
      k := k + 1;
    }
    LinkedAll(records, flags, s, order, visual);
  }

  lemma LinkedAll(records: seq<Record>, flags: Flags, s: Store, order: seq<int>, visual: string -> string)
    requires StrictlyIncreasing(order)
    requires forall p :: p in order <==> p in s
    requires Admits(records, flags, s)
    requires LinkedUpTo(s, order, |order|, visual)
    ensures Snapshot(records, flags, visual, s, order)
  {
    assert order[..|order|] == order;
  }

  /** After the filter loop, the keys of the pid multimap are the pids of the nodes, ascending. */
  lemma FilteredOrder(records: seq<Record>, flags: Flags, s: Store, pids: seq<(int, int)>)
    requires Filtered(records, |records|, flags, s, pids)
    ensures Admits(records, flags, s)
    ensures StrictlyIncreasing(Keys(pids))
    ensures forall p :: p in Keys(pids) <==> p in s
  {
    var order := Keys(pids);
    forall p
      ensures p in order <==> p in s
    {
      if p in order {
        var j :| 0 <= j < |order| && order[j] == p;
        assert pids[j] in pids;
      }
      if p in s {
        var j :| 0 <= j < |pids| && pids[j] == (p, p);
        assert order[j] == p;
      }
    }
  }

  /** Before the link loop every node is unlinked and has empty indexes. */
  lemma FilteredUnlinked(s: Store, order: seq<int>, visual: string -> string)
    requires forall p | p in s :: s[p].parent == None && s[p].byPid == [] && s[p].byName == []
    ensures LinkedUpTo(s, order, 0, visual)
  {
    assert order[..0] == [];
  }

  /** Snapshot and ranking together put every node below its parent. */
  lemma SnapshotRanked(records: seq<Record>, flags: Flags, visual: string -> string, s: Store, order: seq<int>,
                       rank: map<int, nat>)
    requires Snapshot(records, flags, visual, s, order) && Ranked(records, rank)
    ensures forall x | x in s :: x in rank && rank[x] < RankBound(records, rank)
    ensures forall x | x in s && s[x].parent.Some? :: s[x].parent.value in s && rank[x] < rank[s[x].parent.value]
  {
    forall x | x in s
      ensures x in rank && rank[x] < RankBound(records, rank)
      ensures s[x].parent.Some? ==> s[x].parent.value in s && rank[x] < rank[s[x].parent.value]
    {
      var i :| 0 <= i < |records| && records[i] == s[x].rec;
      if s[x].parent.Some? {
        var p := s[x].parent.value;
        var j :| 0 <= j < |records| && records[j] == s[p].rec;
        assert records[j].pid == records[i].ppid;
      }
    }
  }

  /** A bound above the rank of every record. */
  ghost function RankBound(records: seq<Record>, rank: map<int, nat>): (b: nat)
    requires forall i | 0 <= i < |records| :: records[i].pid in rank
    ensures forall i | 0 <= i < |records| :: rank[records[i].pid] < b
  {
    if records == [] then 0
    else
      var b := RankBound(records[1..], rank);
      assert forall i | 1 <= i < |records| :: records[1..][i - 1] == records[i];
      if rank[records[0].pid] < b then b else rank[records[0].pid] + 1
  }

  /**
   * The decorations `print()` appends to the name: the pid and the user
   * name, in parentheses, or each after a comma when arguments are shown.
   */
  function Decoration(pids: bool, change: bool, args: bool, pid: string, user: string): string
  {
    var parens := (pids || change) && !args;
    (if parens then "(" else "")
    + (if pids then (if parens then "" else ",") + pid else "")
    + (if change then (if !parens || pids then "," else "") + user else "")
    + (if parens then ")" else "")
  }

  /** The five shapes of the decorations. */
  lemma DecorationForms(pids: bool, change: bool, args: bool, pid: string, user: string)
    ensures !pids && !change ==> Decoration(pids, change, args, pid, user) == ""
    ensures !args && pids && !change ==> Decoration(pids, change, args, pid, user) == "(" + pid + ")"
    ensures !args && !pids && change ==> Decoration(pids, change, args, pid, user) == "(" + user + ")"
    ensures !args && pids && change ==> Decoration(pids, change, args, pid, user) == "(" + pid + "," + user + ")"
    ensures args ==> Decoration(pids, change, args, pid, user)
                     == (if pids then "," + pid else "") + (if change then "," + user else "")
  {
  }

  /**
   * The node store behind `tree()`: every `Proc`, indexed by pid.  The
   * structure is fixed once built; what the later passes change is the
   * `highlight_`, `root_`, `compact_` and `duplicate_` of the nodes, held
   * here as one set or map each.
   */
  class Forest {
    const flags: Flags
    const visual: string -> string
    const userName: int -> string
    const nodes: Store
    /** The pids in the iteration order of the `pids` multimap. */
    const order: seq<int>
    ghost const rank: map<int, nat>
    ghost const height: nat
    /** The nodes whose `highlight_` is set. */
    var highlighted: set<int>
    /** The nodes whose `root_` is set. */
    var roots: set<int>
    /** `compact_` of the nodes where it is no longer -1. */
    var memo: map<int, bool>
    /** `duplicate_` of every node. */
    var dup: map<int, nat>

    /** The structure: ranks fall from parent to child, and the indexes hold the children. */
    ghost predicate Wf()
    {
      && (forall x | x in nodes :: x in rank && rank[x] < height && nodes[x].rec.pid == x)
      && (forall x {:trigger nodes[x].parent} | x in nodes && nodes[x].parent.Some? ::
            nodes[x].parent.value in nodes && rank[x] < rank[nodes[x].parent.value])
      && (forall x {:trigger Indexes(nodes, x, visual)} | x in nodes :: Indexes(nodes, x, visual))
      && StrictlyIncreasing(order)
      && (forall p {:trigger p in order} :: p in order <==> p in nodes)
    }

    ghost predicate Valid()
      reads this
    {
      Wf() && dup.Keys == nodes.Keys && memo.Keys <= nodes.Keys
    }

    /**
     * The forest of a snapshot, as `tree()` builds it; `rank` witnesses
     * that the parent relation has no cycle.
     */
    constructor (records: seq<Record>, flags: Flags, visual: string -> string, userName: int -> string,
                 ghost rank: map<int, nat>)
      requires DistinctPids(records) && Ranked(records, rank)
      ensures this.flags == flags && this.visual == visual && this.userName == userName
      ensures Snapshot(records, flags, visual, nodes, order)
      ensures Valid()
      ensures highlighted == {} && roots == {} && memo == map[]
      ensures forall x | x in nodes :: dup[x] == 0
    {
      var s, o := Build(records, flags, visual);
      this.flags := flags;
      this.visual := visual;
      this.userName := userName;
      nodes := s;
      order := o;
      this.rank := rank;
      height := RankBound(records, rank);
      highlighted := {};
      roots := {};
      memo := map[];
      dup := map x | x in s :: 0;
      new;
      SnapshotRanked(records, flags, visual, s, o, rank);
    }

    // -------------------------------------------------------------------
    // highlight()
    // -------------------------------------------------------------------

    /** The node and every node above it. */
    ghost function Ancestors(x: int): set<int>
      requires Wf() && x in nodes
      decreases height - rank[x]
    {
      {x} + (match nodes[x].parent case None => {} case Some(p) => Ancestors(p))
    }

    /** `Ancestors(x)` holds `x`, lies above it and is closed under the parent link. */
    lemma {:induction false} AncestorsClosed(x: int)
      requires Wf() && x in nodes
      ensures x in Ancestors(x)
      ensures forall y | y in Ancestors(x) :: y in nodes && rank[x] <= rank[y]
      ensures forall y | y in Ancestors(x) && nodes[y].parent.Some? :: nodes[y].parent.value in Ancestors(x)
      decreases height - rank[x]
    {
      if nodes[x].parent.Some? {
        AncestorsClosed(nodes[x].parent.value);
      }
    }

    /** Every set that holds `x` and is closed under the parent link holds `Ancestors(x)`. */
    lemma {:induction false} AncestorsLeast(x: int, s: set<int>)
      requires Wf() && x in nodes && x in s
      requires forall y | y in s && y in nodes && nodes[y].parent.Some? :: nodes[y].parent.value in s
      ensures Ancestors(x) <= s
      decreases height - rank[x]
    {
      if nodes[x].parent.Some? {
        AncestorsLeast(nodes[x].parent.value, s);
      }
    }

    /** `Proc::highlight`: the node and all its ancestors become highlighted. */
    method Highlight(x: int)
      requires Wf() && x in nodes
      modifies this`highlighted
      ensures highlighted == old(highlighted) + Ancestors(x)
      decreases height - rank[x]
    {
      highlighted := highlighted + {x};
      if nodes[x].parent.Some? {
        Highlight(nodes[x].parent.value);
      }
    }

    // -------------------------------------------------------------------
    // root(uid)
    // -------------------------------------------------------------------

    /** Some node on the chain that starts at `p` runs as `uid`. */
    ghost predicate UidOnChain(p: Option<int>, uid: int)
      requires Wf() && (p.Some? ==> p.value in nodes)
      decreases if p.Some? && p.value in rank then height - rank[p.value] else 0
    {
      match p
      case None => false
      case Some(q) => nodes[q].rec.uid == uid || UidOnChain(nodes[q].parent, uid)
    }

    /**
     * What `root(uid)` answers: in user mode, the node runs as `uid` and no
     * node above it does; otherwise, the node has no parent.
     */
    ghost predicate IsRoot(x: int, uid: int)
      requires Wf() && x in nodes
    {
      if User in flags then nodes[x].rec.uid == uid && !UidOnChain(nodes[x].parent, uid)
      else nodes[x].parent.None?
    }

    /** `Proc::root`: in user mode `root_` is only ever set; otherwise it is assigned. */
    method Root(x: int, uid: int) returns (r: bool)
      requires Wf() && x in nodes
      modifies this`roots
      ensures r == IsRoot(x, uid)
      ensures roots == if r then old(roots) + {x} else if User in flags then old(roots) else old(roots) - {x}
    {
      if User in flags {
        if uid == nodes[x].rec.uid {
          var parent := nodes[x].parent;
          while parent.Some?
            invariant parent.Some? ==> parent.value in nodes
            invariant UidOnChain(nodes[x].parent, uid) == UidOnChain(parent, uid)
            decreases if parent.Some? then height - rank[parent.value] else 0
          {
            if nodes[parent.value].rec.uid == uid {
              return false;
            }
            parent := nodes[parent.value].parent;
          }
          roots := roots + {x};
          return true;
        }
        return false;
      }
      r := nodes[x].parent.None?;
      roots := if r then roots + {x} else roots - {x};
    }

    /** The chain from `p` has a node with `uid` iff some ancestor of `p` has it. */
    lemma {:induction false} UidOnChainAncestors(p: int, uid: int)
      requires Wf() && p in nodes
      ensures UidOnChain(Some(p), uid) <==> exists y | y in Ancestors(p) && y in nodes :: nodes[y].rec.uid == uid
      decreases height - rank[p]
    {
      AncestorsClosed(p);
      if nodes[p].parent.Some? {
        var q := nodes[p].parent.value;
        UidOnChainAncestors(q, uid);
        AncestorsClosed(q);
      }
    }

    /** In user mode no root lies above another root. */
    lemma RootsOffChain(x: int, y: int, uid: int)
      requires Wf() && x in nodes && y in nodes && User in flags
      requires IsRoot(x, uid) && IsRoot(y, uid) && x != y
      ensures x !in Ancestors(y)
    {
      if nodes[y].parent.Some? {
        var q := nodes[y].parent.value;
        UidOnChainAncestors(q, uid);
        assert Ancestors(y) == {y} + Ancestors(q);
      }
    }

    // -------------------------------------------------------------------
    // print(): the display text
    // -------------------------------------------------------------------

    /** The name, or with ShowTitles the first argument when there is one. */
    function Title(x: int): (t: string)
      requires x in nodes
      ensures ShowTitles !in flags ==> t == Name(nodes[x], visual)
      ensures nodes[x].rec.argv.None? ==> t == Name(nodes[x], visual)
      ensures ShowTitles in flags && nodes[x].rec.argv.Some? && |nodes[x].rec.argv.value| > 0
              ==> t == visual(nodes[x].rec.argv.value[0])
    {
      var r := nodes[x].rec;
      if ShowTitles in flags && r.argv.Some? && |r.argv.value| > 0 then visual(r.argv.value[0])
      else Name(nodes[x], visual)
    }

    /** `change` of `print()`: whether the user name is shown. */
    predicate UidChange(roots: set<int>, x: int)
      requires Wf() && x in nodes
      ensures UidChanges !in flags ==> !UidChange(roots, x)
      ensures x in roots ==> (UidChange(roots, x) <==> UidChanges in flags && User !in flags && nodes[x].rec.uid != 0)
      ensures x !in roots && nodes[x].parent.None? ==> !UidChange(roots, x)
      ensures x !in roots && nodes[x].parent.Some?
              ==> (UidChange(roots, x)
                   <==> UidChanges in flags && nodes[x].rec.uid != nodes[nodes[x].parent.value].rec.uid)
    {
      var r := nodes[x].rec;
      UidChanges in flags
      && (if x in roots then User !in flags && r.uid != 0
          else nodes[x].parent.Some? && r.uid != nodes[nodes[x].parent.value].rec.uid)
    }

    /** `Proc::print()`: the text one node is shown as. */
    function Display(roots: set<int>, x: int): (d: string)
      requires Wf() && x in nodes
      ensures Title(x) <= d
      ensures ShowPids !in flags && !UidChange(roots, x) ==> d == Title(x)
      ensures Arguments !in flags && ShowPids in flags && !UidChange(roots, x)
              ==> d == Title(x) + "(" + IntToString(x) + ")"
      ensures Arguments !in flags && ShowPids !in flags && UidChange(roots, x)
              ==> d == Title(x) + "(" + userName(nodes[x].rec.uid) + ")"
      ensures Arguments !in flags && ShowPids in flags && UidChange(roots, x)
              ==> d == Title(x) + "(" + IntToString(x) + "," + userName(nodes[x].rec.uid) + ")"
      ensures Arguments in flags
              ==> d == Title(x) + (if ShowPids in flags then "," + IntToString(x) else "")
                       + (if UidChange(roots, x) then "," + userName(nodes[x].rec.uid) else "")
    {
      DecorationForms(ShowPids in flags, UidChange(roots, x), Arguments in flags,
                      IntToString(x), userName(nodes[x].rec.uid));
      Title(x) + Decoration(ShowPids in flags, UidChange(roots, x), Arguments in flags,
                            IntToString(x), userName(nodes[x].rec.uid))
    }
  }
}
