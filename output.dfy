/**
 * The line renderer, class `Tree`: a stack of open branches, a buffer of
 * segments for the line being built, a column counter `width_` with the
 * latch `max_` that is set once the line is full, and the count
 * `duplicate_` of `n*[` groups still to be closed with `]`.
 *
 * Every character takes one column.  The glyph set, the VT100 choice, the
 * column limit and the flush-instead-of-newline choice are inputs of the
 * constructor.  Each method is proved against a function on `Pen`, the
 * value of the renderer's changing state, and the properties of the
 * renderer are lemmas about those functions.
 */
module Output {
  import opened Options
  import opened Text

  datatype Escape = Plain | BoxDrawing | Bright

  /** A piece of the current line: its columns, its escape and its text. */
  datatype Segment = Segment(width: nat, escape: Escape, text: string)

  /** An open level: the spaces before its connector, and whether its last child is drawn. */
  datatype Branch = Branch(indentation: nat, done: bool)

  datatype Glyphs = Glyphs(horizontal: char, vertical: char, upAndRight: char,
                           verticalAndRight: char, downAndHorizontal: char)

  /** A finished line: its segments, and whether a newline ended it (otherwise a flush). */
  datatype Line = Line(segments: seq<Segment>, newline: bool)

  /**
   * The line being built: `width_`, `max_` and the segment buffer.
   * `aborted` records that the process has died of an exception; from then
   * on nothing more is written.
   */
  datatype Cursor = Cursor(width: nat, max: bool, segments: seq<Segment>, aborted: bool)

  /** Everything of a `Tree` that its methods change. */
  datatype Pen = Pen(branches: seq<Branch>, cursor: Cursor, first: bool, last: bool,
                     open: nat, lines: seq<Line>)

  /** What the constructor settles: the flag word, glyphs, VT100, `maxWidth_`, `suppress_`. */
  datatype Setup = Setup(flags: Flags, glyphs: Glyphs, vt100: bool, maxWidth: nat, suppress: bool)

  /** The column limit in force: none (0) without `maxWidth_` or with Long. */
  function Bound(u: Setup): (b: nat)
    ensures b > 0 <==> u.maxWidth > 0 && Long !in u.flags
    ensures b > 0 ==> b == u.maxWidth
  {
    if Long in u.flags then 0 else u.maxWidth
  }

  // ---------------------------------------------------------------------
  // Segments
  // ---------------------------------------------------------------------

  /** The columns the segments take. */
  function Widths(segs: seq<Segment>): nat
  {
    if segs == [] then 0 else Widths(segs[..|segs| - 1]) + segs[|segs| - 1].width
  }

  /** The characters the segments show, without escapes. */
  function Texts(segs: seq<Segment>): string
  {
    if segs == [] then "" else Texts(segs[..|segs| - 1]) + segs[|segs| - 1].text
  }

  /** Every segment's text is as long as its width. */
  predicate Measured(segs: seq<Segment>)
  {
    forall k :: 0 <= k < |segs| ==> |segs[k].text| == segs[k].width
  }

  lemma {:induction false} TextsWidth(segs: seq<Segment>)
    requires Measured(segs)
    ensures |Texts(segs)| == Widths(segs)
  {
    if segs != [] {
      TextsWidth(segs[..|segs| - 1]);
    }
  }

  /** Replacing a segment by one of the same width keeps the columns. */
  lemma {:induction false} WidthsUpdate(segs: seq<Segment>, k: nat, s: Segment)
    requires k < |segs| && s.width == segs[k].width
    ensures Widths(segs[k := s]) == Widths(segs)
  {
    var t := segs[k := s];
    if k < |segs| - 1 {
      assert t[..|t| - 1] == segs[..|segs| - 1][k := s];
      WidthsUpdate(segs[..|segs| - 1], k, s);
    } else {
      assert t[..|t| - 1] == segs[..|segs| - 1];
    }
  }

  /**
   * The invariant of the line buffer under column limit `bound`: the
   * counter is the columns of the buffer, every text is as long as its
   * width, the counter never passes the limit, and the latch is set only
   * when the counter is at the limit.
   */
  predicate Fits(c: Cursor, bound: nat)
  {
    && c.width == Widths(c.segments)
    && Measured(c.segments)
    && (bound > 0 ==> c.width <= bound)
    && (c.max ==> bound > 0 && c.width == bound)
  }

  // ---------------------------------------------------------------------
  // The private print(width, escape, format, ...)
  // ---------------------------------------------------------------------

  /** One more segment adds its columns. */
  lemma WidthsSnoc(segs: seq<Segment>, q: Segment)
    ensures Widths(segs + [q]) == Widths(segs) + q.width
  {
    assert (segs + [q])[..|segs|] == segs;
  }

  /**
   * The cut of the private `print`: the first `w - 1` characters and a
   * `+`.  The wide buffer is padded with NULs, so a shorter text comes
   * back whole and without the `+`.
   */
  function Clip(s: string, w: nat): (r: string)
    requires w >= 1
    ensures |s| >= w ==> |r| == w && r[w - 1] == '+' && r[..w - 1] == s[..w - 1]
  {
    if |s| >= w - 1 then s[..w - 1] + "+" else s
  }

  /**
   * One piece of `w` columns through the private `print`: nothing happens
   * once the line is full; a piece that passes the limit is cut.
   */
  function Add(c: Cursor, bound: nat, w: nat, e: Escape, s: string): Cursor
  {
    if c.aborted || c.max then c
    else if bound > 0 && c.width + w > bound then Overflow(c, bound, w, e, s)
    else Cursor(c.width + w, false, c.segments + [Segment(w, e, s)], false)
  }

  /**
   * A piece that passes the limit, cut to the columns left.  When none are
   * left, the last segment is cut instead; when that one has no columns
   * either, `std::wstring(width - 1)` throws and the process dies.
   */
  function Overflow(c: Cursor, bound: nat, w: nat, e: Escape, s: string): Cursor
  {
    if c.width < bound then
      var rest := bound - c.width;
      Cursor(bound, true, c.segments + [Segment(rest, e, Clip(s, rest))], false)
    else if c.segments == [] || c.segments[|c.segments| - 1].width == 0 then
      c.(width := bound, max := true, aborted := true)
    else
      var k := |c.segments| - 1;
      var back := c.segments[k];
      Cursor(bound, true, c.segments[k := back.(text := Clip(back.text, back.width))], false)
  }

  /** The private `print` keeps the buffer invariant. */
  lemma AddFits(c: Cursor, bound: nat, w: nat, e: Escape, s: string)
    requires Fits(c, bound) && |s| == w
    ensures Fits(Add(c, bound, w, e, s), bound)
  {
    if !c.aborted && !c.max {
      if bound > 0 && c.width + w > bound {
        if c.width < bound {
          var rest := bound - c.width;
          WidthsSnoc(c.segments, Segment(rest, e, Clip(s, rest)));
        } else {
          assert c.segments != [] by {
            assert Widths([]) == 0;
          }
          var k := |c.segments| - 1;
          var back := c.segments[k];
          if back.width != 0 {
            WidthsUpdate(c.segments, k, back.(text := Clip(back.text, back.width)));
          }
        }
      } else {
        WidthsSnoc(c.segments, Segment(w, e, s));
      }
    }
  }

  /** The pieces one after another. */
  function AddAll(c: Cursor, bound: nat, ps: seq<Segment>): Cursor
    decreases |ps|
  {
    if ps == [] then c
    else
      var q := ps[|ps| - 1];
      Add(AddAll(c, bound, ps[..|ps| - 1]), bound, q.width, q.escape, q.text)
  }

  lemma MeasuredPrefix(ps: seq<Segment>, n: nat)
    requires Measured(ps) && n <= |ps|
    ensures Measured(ps[..n])
  {
    forall k | 0 <= k < n
      ensures |ps[..n][k].text| == ps[..n][k].width
    {
      assert ps[..n][k] == ps[k];
    }
  }

  lemma AppendMeasured(ps: seq<Segment>, qs: seq<Segment>)
    requires Measured(ps) && Measured(qs)
    ensures Measured(ps + qs)
  {
    forall k | 0 <= k < |ps + qs|
      ensures |(ps + qs)[k].text| == (ps + qs)[k].width
    {
      if k >= |ps| {
        assert (ps + qs)[k] == qs[k - |ps|];
      }
    }
  }

  /** Measured pieces keep the buffer invariant. */
  lemma {:induction false} AddAllFits(c: Cursor, bound: nat, ps: seq<Segment>)
    requires Fits(c, bound) && Measured(ps)
    ensures Fits(AddAll(c, bound, ps), bound)
    decreases |ps|
  {
    if ps != [] {
      var n := |ps| - 1;
      MeasuredPrefix(ps, n);
      AddAllFits(c, bound, ps[..n]);
      AddFits(AddAll(c, bound, ps[..n]), bound, ps[n].width, ps[n].escape, ps[n].text);
    }
  }

  /** A piece that fits is appended whole. */
  lemma AddRoom(c: Cursor, bound: nat, w: nat, e: Escape, s: string)
    requires !c.max && !c.aborted
    requires bound == 0 || c.width + w <= bound
    ensures Add(c, bound, w, e, s) == Cursor(c.width + w, false, c.segments + [Segment(w, e, s)], false)
  {
  }

  /**
   * A piece that passes the limit fills exactly the columns left, its last
   * one a `+`, and the line is full.
   */
  lemma AddTruncates(c: Cursor, bound: nat, w: nat, e: Escape, s: string)
    requires Fits(c, bound) && |s| == w && !c.max && !c.aborted
    requires bound > 0 && c.width < bound < c.width + w
    ensures var r := Add(c, bound, w, e, s);
      && r.max && r.width == bound && !r.aborted
      && |r.segments| == |c.segments| + 1 && r.segments[..|c.segments|] == c.segments
      && var t := r.segments[|c.segments|];
         t.width == bound - c.width == |t.text| && t.escape == e
         && t.text == s[..bound - c.width - 1] + "+"
  {
    var r := Add(c, bound, w, e, s);
    assert r.segments[..|c.segments|] == c.segments;
  }

  /**
   * A piece that arrives when the line is exactly at the limit cuts the
   * last segment instead: same columns, its last character a `+`; a last
   * segment of no columns aborts.
   */
  lemma AddCutsPrevious(c: Cursor, bound: nat, w: nat, e: Escape, s: string)
    requires Fits(c, bound) && |s| == w && !c.max && !c.aborted
    requires bound > 0 && c.width == bound && w > 0
    ensures |c.segments| > 0
    ensures var k := |c.segments| - 1;
      var r := Add(c, bound, w, e, s);
      && r.max && r.width == bound
      && (r.aborted <==> c.segments[k].width == 0)
      && (!r.aborted ==> |r.segments| == |c.segments| && r.segments[..k] == c.segments[..k]
                         && r.segments[k].width == c.segments[k].width
                         && r.segments[k].text == c.segments[k].text[..c.segments[k].width - 1] + "+")
  {
    assert c.segments != [] by {
      assert Widths([]) == 0;
    }
  }

  /** One more piece. */
  lemma AddAllSnoc(c: Cursor, bound: nat, ps: seq<Segment>, q: Segment)
    ensures AddAll(c, bound, ps + [q]) == Add(AddAll(c, bound, ps), bound, q.width, q.escape, q.text)
  {
    assert (ps + [q])[..|ps|] == ps;
  }

  /** Splitting a run of pieces. */
  lemma {:induction false} AddAllAppend(c: Cursor, bound: nat, ps: seq<Segment>, qs: seq<Segment>)
    ensures AddAll(c, bound, ps + qs) == AddAll(AddAll(c, bound, ps), bound, qs)
    decreases |qs|
  {
    if qs != [] {
      var n := |qs| - 1;
      assert (ps + qs)[..|ps + qs| - 1] == ps + qs[..n];
      assert (ps + qs)[|ps + qs| - 1] == qs[n];
      AddAllAppend(c, bound, ps, qs[..n]);
    } else {
      assert ps + qs == ps;
    }
  }

  /** Once the line is full, or the process has died, every later piece is ignored. */
  lemma {:induction false} AddAllWhenFull(c: Cursor, bound: nat, ps: seq<Segment>)
    requires c.max || c.aborted
    ensures AddAll(c, bound, ps) == c
    decreases |ps|
  {
    if ps != [] {
      AddAllWhenFull(c, bound, ps[..|ps| - 1]);
    }
  }

  /** Pieces that fit together are appended whole. */
  lemma {:induction false} AddAllRoom(c: Cursor, bound: nat, ps: seq<Segment>)
    requires !c.max && !c.aborted
    requires bound == 0 || c.width + Widths(ps) <= bound
    ensures AddAll(c, bound, ps) == Cursor(c.width + Widths(ps), false, c.segments + ps, false)
    decreases |ps|
  {
    if ps != [] {
      var n := |ps| - 1;
      AddAllRoom(c, bound, ps[..n]);
      assert c.segments + ps[..n] + [ps[n]] == c.segments + ps;
    }
  }

  // ---------------------------------------------------------------------
  // printArg(arg, last)
  // ---------------------------------------------------------------------

  /**
   * One argument through `printArg`: a space and the argument.  An
   * argument that passes the limit, or one that is not the last and
   * leaves fewer than four columns, is cut to the columns left: a space,
   * as much of the argument as fits and `...`, or the first columns of
   * ` ...` when at most four are left, or nothing when no column is left.
   */
  function AddArg(c: Cursor, bound: nat, arg: string, last: bool): Cursor
  {
    if c.aborted || c.max then c
    else
      var w := |arg| + 1;
      if bound > 0 && (c.width + w > bound || (!last && c.width + w + 3 >= bound)) then
        var full := c.(width := bound, max := true);
        if c.width >= bound then full
        else
          var rest := bound - c.width;
          if rest <= 4 then full.(segments := c.segments + [Segment(rest, Plain, " ..."[..rest])])
          else full.(segments := c.segments + [Segment(rest, Plain, " " + arg[..rest - 4] + "...")])
      else
        c.(width := c.width + w, segments := c.segments + [Segment(w, Plain, " " + arg)])
  }

  /** The arguments after the first, each marked last when it is. */
  function AddArgs(c: Cursor, bound: nat, args: seq<string>): Cursor
    decreases |args|
  {
    if args == [] then c else AddArgs(AddArg(c, bound, args[0], |args| == 1), bound, args[1..])
  }

  /** `printArg` keeps the buffer invariant. */
  lemma AddArgFits(c: Cursor, bound: nat, arg: string, last: bool)
    requires Fits(c, bound)
    ensures Fits(AddArg(c, bound, arg, last), bound)
  {
    var r := AddArg(c, bound, arg, last);
    if r.segments != c.segments {
      WidthsSnoc(c.segments, r.segments[|r.segments| - 1]);
      assert r.segments == c.segments + [r.segments[|r.segments| - 1]];
    }
  }

  lemma {:induction false} AddArgsFits(c: Cursor, bound: nat, args: seq<string>)
    requires Fits(c, bound)
    ensures Fits(AddArgs(c, bound, args), bound)
    decreases |args|
  {
    if args != [] {
      AddArgFits(c, bound, args[0], |args| == 1);
      AddArgsFits(AddArg(c, bound, args[0], |args| == 1), bound, args[1..]);
    }
  }

  /** An argument with room is appended after a space. */
  lemma ArgRoom(c: Cursor, bound: nat, arg: string, last: bool)
    requires !c.max && !c.aborted
    requires bound == 0 || c.width + |arg| + 4 < bound || (last && c.width + |arg| + 1 <= bound)
    ensures AddArg(c, bound, arg, last)
         == c.(width := c.width + |arg| + 1, segments := c.segments + [Segment(|arg| + 1, Plain, " " + arg)])
  {
  }

  /**
   * An argument that passes the limit, or that is not the last and leaves
   * fewer than four columns, fills exactly the columns left and ends in
   * `...` when at least four are left; the line is then full.
   */
  lemma ArgTruncates(c: Cursor, bound: nat, arg: string, last: bool)
    requires Fits(c, bound) && !c.max && !c.aborted && bound > 0
    requires c.width + |arg| + 1 > bound || (!last && c.width + |arg| + 4 >= bound)
    ensures var r := AddArg(c, bound, arg, last);
      var rest := bound - c.width;
      && r.max && r.width == bound
      && (rest == 0 ==> r.segments == c.segments)
      && (rest > 0 ==>
            |r.segments| == |c.segments| + 1 && r.segments[..|c.segments|] == c.segments
            && r.segments[|c.segments|].width == rest == |r.segments[|c.segments|].text|)
      && (rest >= 4 ==> var t := r.segments[|c.segments|].text;
                        t[rest - 3..] == "..." && t[..rest - 3] == (" " + arg)[..rest - 3])
  {
    var r := AddArg(c, bound, arg, last);
    var rest := bound - c.width;
    if rest > 0 {
      assert r.segments[..|c.segments|] == c.segments;
    }
    if rest > 4 {
      var t := r.segments[|c.segments|].text;
      assert t == " " + arg[..rest - 4] + "...";
      assert t[..rest - 3] == " " + arg[..rest - 4];
    }
  }

  /** Once the line is full, or the process has died, every later argument is ignored. */
  lemma {:induction false} ArgsWhenFull(c: Cursor, bound: nat, args: seq<string>)
    requires c.max || c.aborted
    ensures AddArgs(c, bound, args) == c
    decreases |args|
  {
    if args != [] {
      ArgsWhenFull(c, bound, args[1..]);
    }
  }

  // ---------------------------------------------------------------------
  // print(string, highlight, duplicate)
  // ---------------------------------------------------------------------

  /** The connector of open level `k` on a line that starts below its parent. */
  function Rail(bs: seq<Branch>, k: nat, last: bool, g: Glyphs, e: Escape): (r: Segment)
    requires k < |bs|
    ensures |r.text| == r.width == bs[k].indentation + 2
  {
    var b := bs[k];
    var tail := if k == |bs| - 1 then [if last then g.upAndRight else g.verticalAndRight, g.horizontal]
                else [if b.done then ' ' else g.vertical, ' '];
    Segment(b.indentation + 2, e, Repeat(' ', b.indentation) + tail)
  }

  /** The connectors of the first `n` open levels. */
  function Rails(bs: seq<Branch>, n: nat, last: bool, g: Glyphs, e: Escape): (rs: seq<Segment>)
    requires n <= |bs|
    ensures |rs| == n
  {
    if n == 0 then [] else Rails(bs, n - 1, last, g, e) + [Rail(bs, n - 1, last, g, e)]
  }

  /** Connector `k` stands at index `k`: one per open level, in order. */
  lemma {:induction false} RailsAt(bs: seq<Branch>, n: nat, last: bool, g: Glyphs, e: Escape, k: nat)
    requires k < n <= |bs|
    ensures Rails(bs, n, last, g, e)[k] == Rail(bs, k, last, g, e)
    decreases n
  {
    if k < n - 1 {
      RailsAt(bs, n - 1, last, g, e, k);
    }
  }

  /**
   * What `print` draws before the text: a connector per open level, or,
   * for a first child drawn on its parent's line, one three-column joint.
   */
  function Connectors(u: Setup, p: Pen): seq<Segment>
  {
    var e := if u.vt100 then BoxDrawing else Plain;
    var g := u.glyphs;
    if !p.first || Arguments in u.flags then Rails(p.branches, |p.branches|, p.last, g, e)
    else if |p.branches| > 0 then
      [Segment(3, e, [g.horizontal, if p.last then g.horizontal else g.downAndHorizontal, g.horizontal])]
    else []
  }

  /** Every connector is as wide as its text. */
  lemma ConnectorsMeasured(u: Setup, p: Pen)
    ensures Measured(Connectors(u, p))
  {
    var e := if u.vt100 then BoxDrawing else Plain;
    if !p.first || Arguments in u.flags {
      forall k | 0 <= k < |p.branches|
        ensures |Connectors(u, p)[k].text| == Connectors(u, p)[k].width
      {
        RailsAt(p.branches, |p.branches|, p.last, u.glyphs, e, k);
      }
    }
  }

  /** The prefix `n*[` of a representative of `n` equal subtrees. */
  function Counter(n: nat): string
  {
    NatToString(n) + "*["
  }

  /** The pieces after the connectors: the `n*[` prefix of a representative, then the text. */
  function Label(s: string, highlight: bool, dup: nat): seq<Segment>
  {
    (if dup > 0 then [Segment(|Counter(dup)|, Plain, Counter(dup))] else [])
    + [Segment(|s|, if highlight then Bright else Plain, s)]
  }

  /** The buffer once the `n*[` prefix of a representative is added. */
  function Prefixed(c: Cursor, bound: nat, dup: nat): Cursor
  {
    if dup > 0 then Add(c, bound, |Counter(dup)|, Plain, Counter(dup)) else c
  }

  /** Adding the pieces of the label is adding the prefix, then the text. */
  lemma LabelAdds(c: Cursor, bound: nat, s: string, highlight: bool, dup: nat)
    ensures AddAll(c, bound, Label(s, highlight, dup))
         == Add(Prefixed(c, bound, dup), bound, |s|, if highlight then Bright else Plain, s)
  {
    var front := if dup > 0 then [Segment(|Counter(dup)|, Plain, Counter(dup))] else [];
    assert Label(s, highlight, dup) == front + [Segment(|s|, if highlight then Bright else Plain, s)];
    AddAllSnoc(c, bound, front, Segment(|s|, if highlight then Bright else Plain, s));
    if dup > 0 {
      assert front[..0] == [];
    }
  }

  /** The pieces `print` hands to the private `print`, in order. */
  function Pieces(u: Setup, p: Pen, s: string, highlight: bool, dup: nat): seq<Segment>
  {
    Connectors(u, p) + Label(s, highlight, dup)
  }

  /** The last open level is marked drawn when a last child is printed. */
  function Marked(bs: seq<Branch>, last: bool): (r: seq<Branch>)
    ensures |r| == |bs|
  {
    if last && |bs| > 0 then bs[|bs| - 1 := bs[|bs| - 1].(done := true)] else bs
  }

  /** The indentation of the level a node opens for its children. */
  function Indentation(flags: Flags, s: string, dup: nat): nat
  {
    if Arguments in flags then 2
    else (if dup > 0 then |Counter(dup)| else 0) + |s| + 1
  }

  /** The buffer of the state keeps `Fits`. */
  predicate Sound(u: Setup, p: Pen)
  {
    Fits(p.cursor, Bound(u))
  }

  /** Every line is measured and takes at most the limit. */
  predicate Within(u: Setup, lines: seq<Line>)
  {
    forall k :: 0 <= k < |lines| ==>
      Measured(lines[k].segments) && (Bound(u) > 0 ==> Widths(lines[k].segments) <= Bound(u))
  }

  /** `print(string, highlight, duplicate)` on the state. */
  function PrintPen(u: Setup, p: Pen, s: string, highlight: bool, dup: nat): Pen
  {
    p.(branches := Marked(p.branches, p.last) + [Branch(Indentation(u.flags, s, dup), false)],
       cursor := AddAll(p.cursor, Bound(u), Pieces(u, p, s, highlight, dup)),
       open := p.open + (if dup > 0 then 1 else 0))
  }

  /** `print` keeps the buffer invariant. */
  lemma PrintSound(u: Setup, p: Pen, s: string, highlight: bool, dup: nat)
    requires Sound(u, p)
    ensures Sound(u, PrintPen(u, p, s, highlight, dup))
  {
    ConnectorsMeasured(u, p);
    AppendMeasured(Connectors(u, p), Label(s, highlight, dup));
    AddAllFits(p.cursor, Bound(u), Pieces(u, p, s, highlight, dup));
  }

  /**
   * On a line with room, `print` appends its connectors, then for a
   * representative of `dup > 0` subtrees the prefix `dup*[`, then the
   * text, highlighted when asked; it opens one more group and one more
   * level, whose indentation is the columns of prefix and text plus one.
   */
  lemma PrintRoom(u: Setup, p: Pen, s: string, highlight: bool, dup: nat)
    requires !p.cursor.max && !p.cursor.aborted
    requires Bound(u) == 0 || p.cursor.width + Widths(Pieces(u, p, s, highlight, dup)) <= Bound(u)
    ensures var r := PrintPen(u, p, s, highlight, dup);
      var n := |p.cursor.segments| + |Connectors(u, p)|;
      && r.cursor.segments == p.cursor.segments + Connectors(u, p) + Label(s, highlight, dup)
      && |r.cursor.segments| == n + (if dup > 0 then 2 else 1)
      && (dup > 0 ==> r.cursor.segments[n] == Segment(|Counter(dup)|, Plain, NatToString(dup) + "*["))
      && r.cursor.segments[|r.cursor.segments| - 1] == Segment(|s|, if highlight then Bright else Plain, s)
      && r.open == p.open + (if dup > 0 then 1 else 0)
      && |r.branches| == |p.branches| + 1
      && r.branches[|p.branches|] == Branch(Indentation(u.flags, s, dup), false)
  {
    AddAllRoom(p.cursor, Bound(u), Pieces(u, p, s, highlight, dup));
    assert p.cursor.segments + Pieces(u, p, s, highlight, dup)
        == p.cursor.segments + Connectors(u, p) + Label(s, highlight, dup);
  }

  /** `printArg(arg, last)` on the state. */
  function ArgPen(u: Setup, p: Pen, arg: string, last: bool): Pen
  {
    p.(cursor := AddArg(p.cursor, Bound(u), arg, last))
  }

  /** The arguments after the first, on the state. */
  function ArgsPen(u: Setup, p: Pen, args: seq<string>): Pen
  {
    p.(cursor := AddArgs(p.cursor, Bound(u), args))
  }

  // ---------------------------------------------------------------------
  // done()
  // ---------------------------------------------------------------------

  /** The buffer once the open groups are closed with `]`. */
  function Close(c: Cursor, bound: nat, open: nat): Cursor
  {
    if open > 0 then Add(c, bound, open, Plain, Repeat(']', open)) else c
  }

  /** `done()` on the state: close the groups, end the line, start an empty one. */
  function DonePen(u: Setup, p: Pen): Pen
  {
    EndLine(u, p, Close(p.cursor, Bound(u), p.open))
  }

  /** The rest of `done()` once the groups are closed in `c`: the line is written and the buffer emptied. */
  function EndLine(u: Setup, p: Pen, c: Cursor): Pen
  {
    p.(cursor := Cursor(0, false, [], c.aborted), open := 0,
       lines := p.lines + if c.aborted then [] else [Line(c.segments, !(u.suppress && c.width == u.maxWidth))])
  }

  /**
   * `pop(children)` on the state.  `Tree.Pop` needs an open level; on an
   * empty stack, which it never meets, the function leaves the stack as is.
   */
  function PopPen(u: Setup, p: Pen, children: bool): Pen
  {
    var q := p.(branches := if p.branches == [] then [] else p.branches[..|p.branches| - 1]);
    if Arguments !in u.flags && !children then DonePen(u, q) else q
  }

  /** `done()` writes exactly `duplicate_` copies of `]` when they fit. */
  lemma CloseBrackets(c: Cursor, bound: nat, open: nat)
    requires !c.max && !c.aborted && open > 0
    requires bound == 0 || c.width + open <= bound
    ensures var r := Close(c, bound, open);
      && r.segments == c.segments + [Segment(open, Plain, Repeat(']', open))]
      && r.width == c.width + open
  {
  }

  /**
   * `done()` empties the buffer and the group count, and either finishes
   * a line or (once the process has died) writes nothing; the open levels
   * stay.  With `suppress_` and a column limit, the line ends without a
   * newline exactly when it takes all `maxWidth_` columns.
   */
  lemma DoneEnds(u: Setup, p: Pen)
    requires Sound(u, p)
    ensures var c := Close(p.cursor, Bound(u), p.open);
      var r := DonePen(u, p);
      && r.cursor.segments == [] && r.cursor.width == 0 && !r.cursor.max && r.open == 0
      && r.branches == p.branches
      && Sound(u, r)
      && (c.aborted ==> r.lines == p.lines)
      && (!c.aborted ==> |r.lines| == |p.lines| + 1 && r.lines[..|p.lines|] == p.lines
                         && r.lines[|p.lines|].segments == c.segments
                         && (u.suppress && Bound(u) > 0 ==>
                               (r.lines[|p.lines|].newline <==> |Texts(c.segments)| < u.maxWidth)))
  {
    var c := Close(p.cursor, Bound(u), p.open);
    var r := DonePen(u, p);
    if p.open > 0 {
      AddFits(p.cursor, Bound(u), p.open, Plain, Repeat(']', p.open));
    }
    TextsWidth(c.segments);
    if !c.aborted {
      assert r.lines[..|p.lines|] == p.lines;
    }
  }

  /** Every line `done()` finishes is measured and takes at most the limit. */
  lemma DoneWithin(u: Setup, p: Pen)
    requires Sound(u, p) && Within(u, p.lines)
    ensures Within(u, DonePen(u, p).lines)
  {
    var r := DonePen(u, p);
    var c := Close(p.cursor, Bound(u), p.open);
    if p.open > 0 {
      AddFits(p.cursor, Bound(u), p.open, Plain, Repeat(']', p.open));
    }
    forall k | 0 <= k < |r.lines|
      ensures Measured(r.lines[k].segments) && (Bound(u) > 0 ==> Widths(r.lines[k].segments) <= Bound(u))
    {
      if k < |p.lines| {
        assert r.lines[k] == p.lines[k];
      }
    }
  }

  // ---------------------------------------------------------------------
  // The bytes a line is written as
  // ---------------------------------------------------------------------

  /** "\033(0\017": to the line-drawing set. */
  const Enter: string := "\U{1B}(0\U{0F}"
  /** "\033(B\017": back to the ASCII set. */
  const Leave: string := "\U{1B}(B\U{0F}"
  const Bold: string := "\U{1B}[1m"
  const Normal: string := "\U{1B}[22m"

  /** A box-drawing segment that starts a run of them. */
  predicate Enters(segs: seq<Segment>, k: nat)
    requires k < |segs|
  {
    segs[k].escape == BoxDrawing && (k == 0 || segs[k - 1].escape != BoxDrawing)
  }

  /** A box-drawing segment that ends a run of them. */
  predicate Leaves(segs: seq<Segment>, k: nat)
    requires k < |segs|
  {
    segs[k].escape == BoxDrawing && (k == |segs| - 1 || segs[k + 1].escape != BoxDrawing)
  }

  function Begin(segs: seq<Segment>, k: nat): string
    requires k < |segs|
  {
    match segs[k].escape
    case BoxDrawing => if Enters(segs, k) then Enter else ""
    case Bright => Bold
    case Plain => ""
  }

  function End(segs: seq<Segment>, k: nat): string
    requires k < |segs|
  {
    match segs[k].escape
    case BoxDrawing => if Leaves(segs, k) then Leave else ""
    case Bright => Normal
    case Plain => ""
  }

  /** The bytes of the first `n` segments. */
  function EmitTo(segs: seq<Segment>, n: nat): string
    requires n <= |segs|
  {
    if n == 0 then "" else EmitTo(segs, n - 1) + Begin(segs, n - 1) + segs[n - 1].text + End(segs, n - 1)
  }

  function Bytes(l: Line): string
  {
    EmitTo(l.segments, |l.segments|) + if l.newline then "\n" else ""
  }

  /** The bytes of the finished lines, in order. */
  function Stream(lines: seq<Line>): string
  {
    if lines == [] then "" else Stream(lines[..|lines| - 1]) + Bytes(lines[|lines| - 1])
  }

  /** Whether the line-drawing set is selected after the first `n` segments are written. */
  function Drawing(segs: seq<Segment>, n: nat): bool
    requires n <= |segs|
  {
    if n == 0 then false
    else if Leaves(segs, n - 1) then false
    else if Enters(segs, n - 1) then true
    else Drawing(segs, n - 1)
  }

  /** Whether the line-drawing set is selected while segment `k`'s text is written. */
  predicate DrawnIn(segs: seq<Segment>, k: nat)
    requires k < |segs|
  {
    Enters(segs, k) || Drawing(segs, k)
  }

  /** After `n` segments the line-drawing set is on exactly inside a run that goes on. */
  lemma {:induction false} DrawingBetween(segs: seq<Segment>, n: nat)
    requires n <= |segs|
    ensures Drawing(segs, n) <==>
      0 < n < |segs| && segs[n - 1].escape == BoxDrawing && segs[n].escape == BoxDrawing
  {
    if n > 0 {
      DrawingBetween(segs, n - 1);
    }
  }

  /**
   * One enter and one exit per run of box-drawing segments: every
   * box-drawing segment, and no other, is written in the line-drawing set,
   * and the line ends in the ASCII set.
   */
  lemma EscapesBalanced(segs: seq<Segment>)
    ensures forall k :: 0 <= k < |segs| ==> (DrawnIn(segs, k) <==> segs[k].escape == BoxDrawing)
    ensures !Drawing(segs, |segs|)
  {
    forall k | 0 <= k < |segs|
      ensures DrawnIn(segs, k) <==> segs[k].escape == BoxDrawing
    {
      DrawingBetween(segs, k);
    }
    DrawingBetween(segs, |segs|);
  }

  // ---------------------------------------------------------------------
  // class Tree
  // ---------------------------------------------------------------------

  class Tree {
    const setup: Setup
    var branches: seq<Branch>
    var width: nat
    var max: bool
    var segments: seq<Segment>
    var aborted: bool
    var first: bool
    var last: bool
    var duplicate: nat
    /** What has been written to standard output. */
    var stdout: string
    /** The lines written so far. */
    ghost var lines: seq<Line>

    /** The line buffer: `width_`, `max_`, the segments, and whether the process has died. */
    function State(): Cursor
      reads this
    {
      Cursor(width, max, segments, aborted)
    }

    ghost function Snapshot(): Pen
      reads this
    {
      Pen(branches, State(), first, last, duplicate, lines)
    }

    /** The buffer invariant. */
    predicate Ready()
      reads this
    {
      Fits(State(), Bound(setup))
    }

    /** The buffer invariant, and standard output holds the bytes of the finished lines. */
    ghost predicate Valid()
      reads this
    {
      Ready() && stdout == Stream(lines)
    }

    /**
     * A renderer with the probed settings.  The source leaves `first_` and
     * `last_` uninitialised.  A print with `branches_` empty draws no
     * connector whatever they hold, and `Select` sets both before every
     * print with `branches_` non-empty, so the values given here are never
     * observed.
     */
    constructor (setup: Setup)
      ensures this.setup == setup && Valid() && stdout == ""
      ensures Snapshot() == Pen([], Cursor(0, false, [], false), false, false, 0, [])
    {
      this.setup := setup;
      branches := [];
      width := 0;
      max := false;
      segments := [];
      aborted := false;
      first := false;
      last := false;
      duplicate := 0;
      stdout := "";
      lines := [];
    }

    /** The private `print(width, escape, format, ...)`, with the text already formatted. */
    method Put(w: nat, e: Escape, s: string)
      requires Ready() && |s| == w
      modifies this`width, this`max, this`segments, this`aborted
      ensures State() == Add(old(State()), Bound(setup), w, e, s)
      ensures Ready()
    {
      ghost var c0 := State();
      AddFits(c0, Bound(setup), w, e, s);
      if max || aborted {
        return;
      }
      width := width + w;
      if setup.maxWidth > 0 && Long !in setup.flags && width > setup.maxWidth {
        Cut(w, e, s, c0);
      } else {
        segments := segments + [Segment(w, e, s)];
      }
    }

    /** The private `print` once the piece has taken the counter past `maxWidth_`. */
    method Cut(w: nat, e: Escape, s: string, ghost c0: Cursor)
      requires Fits(c0, Bound(setup)) && |s| == w
      requires !c0.max && !c0.aborted && Bound(setup) > 0
      requires State() == c0.(width := c0.width + w) && width > setup.maxWidth
      modifies this`width, this`max, this`segments, this`aborted
      ensures State() == Overflow(c0, Bound(setup), w, e, s)
    {
      var cols := w - (width - setup.maxWidth);
      width := setup.maxWidth;
      max := true;
      var previous := cols == 0;
      var piece := s;
      if previous {
        assert segments != [] by {
          assert Widths([]) == 0;
        }
        var back := segments[|segments| - 1];
        cols := back.width;
        piece := back.text;
      }
      if cols == 0 {
        aborted := true;
        return;
      }
      piece := Clip(piece, cols);
      if previous {
        segments := segments[|segments| - 1 := segments[|segments| - 1].(text := piece)];
        return;
      }
      segments := segments + [Segment(cols, e, piece)];
    }

    /** The connectors of `print` for a line that starts below the parent: one per open level. */
    method DrawRails(escape: Escape)
      requires Ready()
      modifies this`branches, this`width, this`max, this`segments, this`aborted
      ensures branches == Marked(old(branches), last)
      ensures State() == AddAll(old(State()), Bound(setup), Rails(old(branches), |old(branches)|, last, setup.glyphs, escape))
      ensures Ready()
    {
      ghost var bs := branches;
      ghost var c0 := State();
      var g := setup.glyphs;
      var i := 0;
      while i < |branches|
        invariant 0 <= i <= |branches| == |bs|
        invariant branches == Marked(bs, last && i == |bs|)
        invariant State() == AddAll(c0, Bound(setup), Rails(bs, i, last, g, escape))
        invariant Ready()
      {
        DrawRail(i, escape);
        AddAllSnoc(c0, Bound(setup), Rails(bs, i, last, g, escape), Rail(bs, i, last, g, escape));
        i := i + 1;
      }
    }

    /** The connector of open level `i`; the last level is marked drawn for a last child. */
    method DrawRail(i: nat, escape: Escape)
      requires Ready() && i < |branches|
      modifies this`branches, this`width, this`max, this`segments, this`aborted
      ensures branches == Marked(old(branches), last && i == |old(branches)| - 1)
      ensures var r := Rail(old(branches), i, last, setup.glyphs, escape);
        State() == Add(old(State()), Bound(setup), r.width, r.escape, r.text)
      ensures Ready()
    {
      ghost var r := Rail(branches, i, last, setup.glyphs, escape);
      var g := setup.glyphs;
      var b := branches[i];
      var piece;
      if i == |branches| - 1 {
        var line;
        if last {
          branches := branches[i := b.(done := true)];
          line := g.upAndRight;
        } else {
          line := g.verticalAndRight;
        }
        piece := Repeat(' ', b.indentation) + [line, g.horizontal];
      } else {
        piece := Repeat(' ', b.indentation) + [if b.done then ' ' else g.vertical, ' '];
      }
      assert piece == r.text;
      Put(b.indentation + 2, escape, piece);
    }

    /** The joint of `print` for a first child drawn on its parent's line. */
    method DrawJoint(escape: Escape)
      requires Ready() && |branches| > 0
      modifies this`branches, this`width, this`max, this`segments, this`aborted
      ensures branches == Marked(old(branches), last)
      ensures var g := setup.glyphs;
        State() == Add(old(State()), Bound(setup), 3, escape,
                       [g.horizontal, if last then g.horizontal else g.downAndHorizontal, g.horizontal])
      ensures Ready()
    {
      var g := setup.glyphs;
      var line;
      if last {
        branches := branches[|branches| - 1 := branches[|branches| - 1].(done := true)];
        line := g.horizontal;
      } else {
        line := g.downAndHorizontal;
      }
      Put(3, escape, [g.horizontal, line, g.horizontal]);
    }

    /** `print(string, highlight, duplicate)`: connectors, the `n*[` prefix, the text. */
    method Print(s: string, highlight: bool, dup: nat)
      requires Valid()
      modifies this`branches, this`width, this`max, this`segments, this`aborted, this`duplicate
      ensures Snapshot() == PrintPen(setup, old(Snapshot()), s, highlight, dup)
      ensures stdout == old(stdout) && Valid()
    {
      ghost var p0 := Snapshot();
      DrawConnectors();
      PrintLabel(s, highlight, dup);
      AddAllAppend(p0.cursor, Bound(setup), Connectors(setup, p0), Label(s, highlight, dup));
    }

    /** The first part of `print`: the connectors before the text. */
    method DrawConnectors()
      requires Ready()
      modifies this`branches, this`width, this`max, this`segments, this`aborted
      ensures branches == Marked(old(branches), last)
      ensures State() == AddAll(old(State()), Bound(setup), Connectors(setup, old(Snapshot())))
      ensures Ready()
    {
      ghost var cs := Connectors(setup, Snapshot());
      var escape := if setup.vt100 then BoxDrawing else Plain;
      if !first || Arguments in setup.flags {
        DrawRails(escape);
      } else if |branches| > 0 {
        DrawJoint(escape);
        assert cs == [cs[0]] && cs[..0] == [];
      }
    }

    /** The rest of `print`: the `n*[` prefix, the text, and the level the node opens. */
    method PrintLabel(s: string, highlight: bool, dup: nat)
      requires Ready()
      modifies this`branches, this`width, this`max, this`segments, this`aborted, this`duplicate
      ensures State() == AddAll(old(State()), Bound(setup), Label(s, highlight, dup))
      ensures branches == old(branches) + [Branch(Indentation(setup.flags, s, dup), false)]
      ensures duplicate == old(duplicate) + (if dup > 0 then 1 else 0)
      ensures Ready()
    {
      LabelAdds(State(), Bound(setup), s, highlight, dup);
      var size := PrintCounter(dup);
      PrintName(s, highlight, size);
    }

    /** The end of `print`: the text, and the level the node opens after the `size` columns of the prefix. */
    method PrintName(s: string, highlight: bool, size: nat)
      requires Ready()
      modifies this`branches, this`width, this`max, this`segments, this`aborted
      ensures State() == Add(old(State()), Bound(setup), |s|, if highlight then Bright else Plain, s)
      ensures branches == old(branches) + [Branch(if Arguments !in setup.flags then size + |s| + 1 else 2, false)]
      ensures Ready()
    {
      Put(|s|, if highlight then Bright else Plain, s);
      branches := branches + [Branch(if Arguments !in setup.flags then size + |s| + 1 else 2, false)];
    }

    /** The `n*[` prefix of a representative, which opens one more group. */
    method PrintCounter(dup: nat) returns (size: nat)
      requires Ready()
      modifies this`width, this`max, this`segments, this`aborted, this`duplicate
      ensures size == if dup > 0 then |Counter(dup)| else 0
      ensures State() == Prefixed(old(State()), Bound(setup), dup)
      ensures duplicate == old(duplicate) + (if dup > 0 then 1 else 0)
      ensures Ready()
    {
      size := 0;
      if dup > 0 {
        var text := NatToString(dup) + "*[";
        size := |text|;
        Put(size, Plain, text);
        duplicate := duplicate + 1;
      }
    }

    /** `printArg(arg, last)`. */
    method PrintArg(arg: string, isLast: bool)
      requires Valid()
      modifies this`width, this`max, this`segments
      ensures Snapshot() == ArgPen(setup, old(Snapshot()), arg, isLast)
      ensures stdout == old(stdout) && Valid()
    {
      AddArgFits(State(), Bound(setup), arg, isLast);
      if max || aborted {
        return;
      }
      var w: int := |arg| + 1;
      width := width + w;
      var piece;
      if setup.maxWidth > 0 && Long !in setup.flags
         && (width > setup.maxWidth || (!isLast && width + 3 >= setup.maxWidth)) {
        w := w - (width - setup.maxWidth);
        width := setup.maxWidth;
        max := true;
        var size := w - 4;
        if size < -3 {
          return;
        } else if size < 1 {
          piece := " ..."[..size + 4];
        } else {
          piece := " " + arg[..size] + "...";
        }
      } else {
        piece := " " + arg;
      }
      segments := segments + [Segment(w, Plain, piece)];
    }

    /** `pop(children)`: close the last level, and the line when nothing follows on it. */
    method Pop(children: bool)
      requires Valid() && |branches| > 0
      modifies this`branches, this`width, this`max, this`segments, this`aborted, this`duplicate, this`stdout, this`lines
      ensures Snapshot() == PopPen(setup, old(Snapshot()), children)
      ensures Valid()
    {
      branches := branches[..|branches| - 1];
      if Arguments !in setup.flags && !children {
        Done();
      }
    }

    /** `done()`: close the open groups, write the line, start an empty one. */
    method Done()
      requires Valid()
      modifies this`width, this`max, this`segments, this`aborted, this`duplicate, this`stdout, this`lines
      ensures Snapshot() == DonePen(setup, old(Snapshot()))
      ensures Valid()
    {
      CloseGroups();
      Flush();
    }

    /** The rest of `done()`: write the line unless the process has died, and empty the buffer. */
    method Flush()
      requires Valid() && duplicate == 0
      modifies this`width, this`max, this`segments, this`stdout, this`lines
      ensures Snapshot() == EndLine(setup, old(Snapshot()), old(State()))
      ensures Valid()
    {
      ghost var c0 := State();
      if !aborted {
        WriteLine();
      }
      assert lines == old(lines) + if c0.aborted then [] else [Line(c0.segments, !(setup.suppress && c0.width == setup.maxWidth))];
      segments := [];
      width := 0;
      max := false;
      assert Fits(State(), Bound(setup)) by {
        assert Widths([]) == 0 && Measured([]);
      }
    }

    /** The first step of `done()`: one `]` per open group. */
    method CloseGroups()
      requires Ready()
      modifies this`width, this`max, this`segments, this`aborted, this`duplicate
      ensures State() == Close(old(State()), Bound(setup), old(duplicate)) && duplicate == 0
      ensures Ready()
    {
      if duplicate > 0 {
        Put(duplicate, Plain, Repeat(']', duplicate));
        duplicate := 0;
      }
    }

    /** The printing loop of `done()`: each segment in its escapes, then a newline or a flush. */
    method WriteLine()
      requires Valid() && !aborted
      modifies this`stdout, this`lines
      ensures lines == old(lines) + [Line(segments, !(setup.suppress && width == setup.maxWidth))]
      ensures Valid()
    {
      var bytes := "";
      var i := 0;
      while i < |segments|
        invariant 0 <= i <= |segments|
        invariant bytes == EmitTo(segments, i)
      {
        bytes := bytes + Begin(segments, i) + segments[i].text + End(segments, i);
        i := i + 1;
      }
      var newline := !(setup.suppress && width == setup.maxWidth);
      if newline {
        bytes := bytes + "\n";
      }
      ghost var line := Line(segments, newline);
      assert bytes == Bytes(line);
      stdout := stdout + bytes;
      assert (lines + [line])[..|lines|] == lines;
      lines := lines + [line];
    }

    /** `operator()(first, last)`: where the next node stands among its siblings. */
    method Select(first: bool, last: bool)
      requires Valid()
      modifies this`first, this`last
      ensures Snapshot() == old(Snapshot()).(first := first, last := last)
      ensures stdout == old(stdout) && Valid()
    {
      this.first := first;
      this.last := last;
    }
  }
}
