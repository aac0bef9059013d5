/**
 * The command line: the sixteen option flags, the number check of `value<>`
 * and the fold of `options()` over the events `getopt_long` delivers.
 * Tokenising the command line, the help and version texts and the process
 * exit they end in are outside the model: an event that ends the program
 * yields `Exit` with its status.
 */
module Options {
  import opened Wrappers
  import Text

  /**
   * The sixteen bits of the `flags` word. A word is modelled by the set of
   * flags whose bits are set, so `|=` is union, `&= ~` is difference and
   * `&` a membership test.
   */
  datatype Flag =
    | Arguments | Ascii | NoCompact | Glob | Vt100 | Highlight | ShowKernel | Long
    | NumericSort | ShowPids | Regex | ShowTitles | UidChanges | Unicode | Pid | User

  type Flags = set<Flag>

  /** `INT_MAX`, the largest value a `pid_t` option accepts. */
  const IntMax: int := 0x7fff_ffff

  // ---------------------------------------------------------------------
  // strtol(s, &end, 0) and value<>
  // ---------------------------------------------------------------------

  predicate IsSpace(c: char)
  {
    c == ' ' || c == '\t' || c == '\n' || c == '\U{000B}' || c == '\U{000C}' || c == '\r'
  }

  /** The value of `c` as a digit in `base` (8, 10 or 16), if it is one. */
  function DigitIn(c: char, base: nat): Option<nat>
  {
    if '0' <= c <= '9' && (c as int - '0' as int) < base then Some(c as int - '0' as int)
    else if base == 16 && 'a' <= c <= 'f' then Some(c as int - 'a' as int + 10)
    else if base == 16 && 'A' <= c <= 'F' then Some(c as int - 'A' as int + 10)
    else None
  }

  /** The number of leading characters of `t` that are digits in `base`. */
  function RunLength(t: string, base: nat): (n: nat)
    ensures n <= |t|
    ensures forall i :: 0 <= i < n ==> DigitIn(t[i], base).Some?
    ensures n < |t| ==> DigitIn(t[n], base).None?
  {
    if t == [] || DigitIn(t[0], base).None? then 0 else 1 + RunLength(t[1..], base)
  }

  /** The leading digits of `t` in `base`. */
  function DigitRun(t: string, base: nat): (d: string)
    ensures |d| == RunLength(t, base) && d <= t
    ensures forall i :: 0 <= i < |d| ==> DigitIn(d[i], base).Some?
  {
    t[..RunLength(t, base)]
  }

  /** The value of a run of digits in `base`, most significant first. */
  function RunValue(t: string, base: nat): nat
    requires forall i :: 0 <= i < |t| ==> DigitIn(t[i], base).Some?
  {
    if t == [] then 0 else RunValue(t[..|t| - 1], base) * base + DigitIn(t[|t| - 1], base).value
  }

  function SkipSpaces(s: string, i: nat): (j: nat)
    requires i <= |s|
    ensures i <= j <= |s|
    ensures forall k :: i <= k < j ==> IsSpace(s[k])
    ensures j < |s| ==> !IsSpace(s[j])
    decreases |s| - i
  {
    if i < |s| && IsSpace(s[i]) then SkipSpaces(s, i + 1) else i
  }

  /**
   * The base `strtol` with base 0 reads the number after the sign at `j`
   * in, and where its digits start: 16 past a `0x`/`0X` that a hex digit
   * follows, 8 at a leading `0`, 10 otherwise.
   */
  function Radix(s: string, j: nat): (r: (nat, nat))
    requires j <= |s|
    ensures r.0 in {8, 10, 16} && j <= r.1 <= |s|
  {
    if j + 2 < |s| && s[j] == '0' && (s[j + 1] == 'x' || s[j + 1] == 'X') && DigitIn(s[j + 2], 16).Some? then (16, j + 2)
    else if j < |s| && s[j] == '0' then (8, j)
    else (10, j)
  }

  /** What `strtol` with base 0 reports: the value and how many characters it used. */
  datatype Conversion = Conversion(value: int, consumed: nat)

  /**
   * `strtol(s, &end, 0)`: spaces, an optional sign, then a hexadecimal number
   * after `0x`/`0X` followed by a hex digit, an octal number after a leading
   * `0`, or a decimal number. No digit at all means nothing is consumed.
   * The clamping to `LONG_MIN`/`LONG_MAX` is not modelled: every clamped
   * value lies outside the range any caller accepts, so `Value` classifies
   * it the same either way.
   */
  function StrToL(s: string): (c: Conversion)
    ensures c.consumed <= |s|
  {
    var i := SkipSpaces(s, 0);
    var negative := i < |s| && s[i] == '-';
    var j := if i < |s| && (s[i] == '+' || s[i] == '-') then i + 1 else i;
    var (base, start) := Radix(s, j);
    var digits := DigitRun(s[start..], base);
    if digits == [] then Conversion(0, 0)
    else
      var v: int := RunValue(digits, base);
      Conversion(if negative then -v else v, start + |digits|)
  }

  /** The four outcomes of `value<Type, minimum, maximum>`. */
  datatype Number = Invalid | TooSmall | TooLarge | InRange(value: int)

  /**
   * `value<>`: no digits or trailing characters make the number invalid;
   * otherwise it is compared with the bounds. (The `ERANGE` tests of the
   * source read an `errno` cleared just before, so they never fire.)
   */
  function Value(s: string, minimum: int, maximum: int): (r: Number)
    ensures r.InRange? ==> minimum <= r.value <= maximum && r.value == StrToL(s).value
    ensures r == Invalid <==> StrToL(s).consumed == 0 || StrToL(s).consumed < |s|
  {
    var c := StrToL(s);
    if c.consumed == 0 || c.consumed != |s| then Invalid
    else if c.value < minimum then TooSmall
    else if c.value > maximum then TooLarge
    else InRange(c.value)
  }

  lemma {:induction false} RunValueDecimal(t: string)
    requires forall i :: 0 <= i < |t| ==> Text.IsDigit(t[i])
    ensures forall i :: 0 <= i < |t| ==> DigitIn(t[i], 10).Some?
    ensures RunValue(t, 10) == Text.DecimalValue(t)
  {
    if t != [] {
      RunValueDecimal(t[..|t| - 1]);
    }
  }

  lemma {:induction false} RunLengthAll(t: string, base: nat)
    requires forall i :: 0 <= i < |t| ==> DigitIn(t[i], base).Some?
    ensures RunLength(t, base) == |t|
  {
    if t != [] {
      RunLengthAll(t[1..], base);
    }
  }

  /** A string of decimal digits is its own run of digits, worth its decimal value. */
  lemma DecimalRun(d: string)
    requires forall i :: 0 <= i < |d| ==> Text.IsDigit(d[i])
    ensures DigitRun(d, 10) == d && RunValue(d, 10) == Text.DecimalValue(d)
  {
    RunValueDecimal(d);
    RunLengthAll(d, 10);
  }

  /** A run of decimal digits that does not start with `0` is read whole, in base 10. */
  lemma StrToLDecimal(d: string)
    requires |d| > 0 && d[0] != '0' && forall i :: 0 <= i < |d| ==> Text.IsDigit(d[i])
    ensures StrToL(d) == Conversion(Text.DecimalValue(d), |d|)
  {
    DecimalRun(d);
    assert SkipSpaces(d, 0) == 0;
    assert Radix(d, 0) == (10, 0);
    assert d[0..] == d;
  }

  /** A minus sign before such a run negates it. */
  lemma StrToLNegative(d: string)
    requires |d| > 0 && d[0] != '0' && forall i :: 0 <= i < |d| ==> Text.IsDigit(d[i])
    ensures StrToL("-" + d) == Conversion(-(Text.DecimalValue(d) as int), |d| + 1)
  {
    var s := "-" + d;
    DecimalRun(d);
    assert SkipSpaces(s, 0) == 0;
    assert Radix(s, 1) == (10, 1);
    assert s[1..] == d;
  }

  /** `"0"` is read as an octal zero. */
  lemma StrToLZero()
    ensures StrToL("0") == Conversion(0, 1)
  {
    var s := "0";
    assert SkipSpaces(s, 0) == 0;
    assert Radix(s, 0) == (8, 0);
    assert s[0..] == s && s[1..] == [] && s[0..1] == s;
    assert RunLength(s[1..], 8) == 0;
    assert RunLength(s, 8) == 1;
    assert DigitRun(s, 8) == s;
    assert RunValue(s[..0], 8) == 0;
  }

  /** A count written in decimal reads back as itself and is classified by the bounds. */
  lemma DecimalValueReadsBack(n: nat)
    ensures Value(Text.NatToString(n), 0, IntMax) == if n <= IntMax then InRange(n) else TooLarge
  {
    if n == 0 {
      StrToLZero();
    } else {
      StrToLDecimal(Text.NatToString(n));
      Text.NatToStringValue(n);
    }
  }

  /** A negative decimal number is too small for a process id. */
  lemma NegativeIsTooSmall(n: nat)
    requires n > 0
    ensures Value("-" + Text.NatToString(n), 0, IntMax) == TooSmall
  {
    StrToLNegative(Text.NatToString(n));
    Text.NatToStringValue(n);
  }

  /** A word that starts with anything but a space, a sign or a digit is not a number. */
  lemma WordIsInvalid(s: string)
    requires |s| > 0 && !IsSpace(s[0]) && s[0] != '+' && s[0] != '-' && !Text.IsDigit(s[0])
    ensures Value(s, 0, IntMax) == Invalid
  {
    assert DigitIn(s[0], 10).None?;
  }

  // ---------------------------------------------------------------------
  // options()
  // ---------------------------------------------------------------------

  /**
   * One result of `getopt_long`: the option character with its `optarg`,
   * or, for the two long options whose value is 0, the option's name.
   */
  datatype Event = Opt(val: char, optarg: Option<string>) | Named(name: string, arg: string)

  /** What `options()` hands back to `main`, besides writing `glob`, `regex` and `user`. */
  datatype Settings = Settings(flags: Flags, hpid: int, pid: int,
                               glob: Option<string>, regex: Option<string>, user: Option<string>)

  /** Either the settings to run with, or the exit status of a program that stopped. */
  datatype Outcome = Run(settings: Settings) | Exit(code: int)

  /** `hpid` and `pid` start at 0 in `main`, the three strings at NULL. */
  const Initial := Settings({}, 0, 0, None, None, None)

  /**
   * The `flags |= on; flags &= ~clear` lines of each case of the `switch`
   * in the `getopt_long` loop, as the pair (on, clear).
   */
  function Switches(e: Event): (Flags, Flags)
  {
    match e
    case Opt(c, _) =>
      if c == 'a' then ({Arguments, NoCompact}, {})
      else if c == 'A' then ({Ascii}, {Vt100, Unicode})
      else if c == 'c' then ({NoCompact}, {})
      else if c == 'g' then ({Glob}, {Pid, Regex, User})
      else if c == 'G' then ({Vt100}, {Ascii, Unicode})
      else if c == 'H' then ({Highlight}, {})
      else if c == 'k' then ({ShowKernel}, {})
      else if c == 'l' then ({Long}, {})
      else if c == 'n' then ({NumericSort}, {})
      else if c == 'p' then ({NoCompact, ShowPids}, {})
      else if c == 'r' then ({Regex}, {Glob, Pid, User})
      else if c == 't' then ({ShowTitles}, {})
      else if c == 'u' then ({UidChanges}, {})
      else if c == 'U' then ({Unicode}, {Ascii, Vt100})
      else ({}, {})
    case Named(name, _) =>
      if name == "pid" then ({Pid}, {Glob, Regex, User})
      else if name == "user" then ({User}, {Glob, Pid, Regex})
      else ({}, {})
  }

  /**
   * One pass of the `switch`: its flag update and what it stores in the
   * other settings, or the exit status of `help` and the version text.
   * `self` is `getpid()`.
   */
  function Step(st: Settings, e: Event, self: int): Outcome
  {
    var next := st.(flags := Update(st.flags, Switches(e).0, Switches(e).1));
    match e
    case Opt(c, optarg) =>
      if c == 'g' then Run(next.(glob := Some(optarg.GetOr(""))))
      else if c == 'h' || c == 'V' then Exit(0)
      else if c == 'H' then
        (match optarg
         case None => Run(next.(hpid := self))
         case Some(a) =>
           match Value(a, 0, IntMax)
           case InRange(v) => Run(next.(hpid := v))
           case _ => Exit(1))
      else if c == 'r' then Run(next.(regex := Some(optarg.GetOr(""))))
      else if c == '?' then Exit(1)
      else Run(next)
    case Named(name, a) =>
      if name == "pid" then
        match Value(a, 0, IntMax)
        case InRange(v) => Run(next.(pid := v))
        case _ => Exit(1)
      else if name == "user" then Run(next.(user := Some(a)))
      else Run(next)
  }

  /**
   * One pass of the loop over the remaining arguments: a number selects a
   * pid, anything that is not a number selects a user, and a number out of
   * range ends the program. `pid` receives what `strtol` read in every case.
   */
  function Positional(st: Settings, arg: string): Outcome
  {
    match Value(arg, 0, IntMax)
    case InRange(v) => Run(st.(pid := v, flags := Update(st.flags, {Pid}, {User})))
    case Invalid => Run(st.(pid := StrToL(arg).value, user := Some(arg), flags := Update(st.flags, {User}, {Pid})))
    case _ => Exit(1)
  }

  function ParseEvents(st: Settings, events: seq<Event>, self: int): Outcome
    decreases |events|
  {
    if events == [] then Run(st)
    else
      match Step(st, events[0], self)
      case Exit(c) => Exit(c)
      case Run(next) => ParseEvents(next, events[1..], self)
  }

  function ParsePositional(st: Settings, args: seq<string>): Outcome
    decreases |args|
  {
    if args == [] then Run(st)
    else
      match Positional(st, args[0])
      case Exit(c) => Exit(c)
      case Run(next) => ParsePositional(next, args[1..])
  }

  /** The whole of `options()`, as a function of its events and arguments. */
  function Parse(events: seq<Event>, args: seq<string>, self: int): Outcome
  {
    match ParseEvents(Initial, events, self)
    case Exit(c) => Exit(c)
    case Run(st) => ParsePositional(st, args)
  }

  /** `options()`: the `getopt_long` loop, then the loop over the remaining arguments. */
  method ParseOptions(events: seq<Event>, args: seq<string>, self: int) returns (o: Outcome)
    ensures o == Parse(events, args, self)
    ensures o.Run? ==> Consistent(o.settings.flags)
  {
    o := ParseSwitches(events, self);
    if o.Run? {
      o := ParseArguments(o.settings, args);
    }
  }

  /** The `getopt_long` loop of `options()`. */
  method ParseSwitches(events: seq<Event>, self: int) returns (o: Outcome)
    ensures o == ParseEvents(Initial, events, self)
    ensures o.Run? ==> Consistent(o.settings.flags) && OneSelection(o.settings.flags)
  {
    var st := Initial;
    var i := 0;
    while i < |events|
      invariant 0 <= i <= |events|
      invariant ParseEvents(Initial, events, self) == ParseEvents(st, events[i..], self)
      invariant Consistent(st.flags) && OneSelection(st.flags)
    {
      assert events[i..] == [events[i]] + events[i + 1..];
      var next := Step(st, events[i], self);
      StepKeepsConsistent(st, events[i], self);
      if next.Exit? {
        return next;
      }
      st := next.settings;
      i := i + 1;
    }
    o := Run(st);
  }

  /** The loop of `options()` over the arguments left after the switches. */
  method ParseArguments(st0: Settings, args: seq<string>) returns (o: Outcome)
    requires Consistent(st0.flags)
    ensures o == ParsePositional(st0, args)
    ensures o.Run? ==> Consistent(o.settings.flags)
  {
    var st := st0;
    var j := 0;
    while j < |args|
      invariant 0 <= j <= |args|
      invariant ParsePositional(st0, args) == ParsePositional(st, args[j..])
      invariant Consistent(st.flags)
    {
      assert args[j..] == [args[j]] + args[j + 1..];
      var next := Positional(st, args[j]);
      PositionalKeepsConsistent(st, args[j]);
      if next.Exit? {
        return next;
      }
      st := next.settings;
      j := j + 1;
    }
    o := Run(st);
  }

  // ---------------------------------------------------------------------
  // Which option wins
  // ---------------------------------------------------------------------

  /** The three line-drawing sets. */
  const LineSets: Flags := {Ascii, Vt100, Unicode}

  /** The four ways of selecting what to show. */
  const Selections: Flags := {Glob, Pid, Regex, User}

  /** The update of `e` reads or writes a flag of `s`. */
  predicate Touches(e: Event, s: Flags)
  {
    (Switches(e).0 + Switches(e).1) * s != {}
  }

  /** `-A`, `-G` or `-U`. */
  predicate IsGlyphOption(e: Event)
  {
    e.Opt? && (e.val == 'A' || e.val == 'G' || e.val == 'U')
  }

  /** `-g`, `-r`, `--pid` or `--user`. */
  predicate IsSelectionOption(e: Event)
  {
    (e.Opt? && (e.val == 'g' || e.val == 'r')) || (e.Named? && (e.name == "pid" || e.name == "user"))
  }

  /** The line-drawing set a line-drawing option chooses. */
  function GlyphOf(e: Event): Flag
    requires IsGlyphOption(e)
  {
    if e.val == 'A' then Ascii else if e.val == 'G' then Vt100 else Unicode
  }

  /** The selection a selecting option chooses. */
  function SelectionOf(e: Event): Flag
    requires IsSelectionOption(e)
  {
    if e.Opt? then (if e.val == 'g' then Glob else Regex) else if e.name == "pid" then Pid else User
  }

  /** Only the line-drawing options touch the line-drawing flags, and each chooses its own set. */
  lemma GlyphSwitches(e: Event)
    ensures Touches(e, LineSets) <==> IsGlyphOption(e)
    ensures IsGlyphOption(e) ==>
      GlyphOf(e) in Switches(e).0 && GlyphOf(e) !in Switches(e).1 && LineSets - {GlyphOf(e)} <= Switches(e).1
  {
  }

  /** Only the selecting options touch the selection flags, and each chooses its own selection. */
  lemma SelectionSwitches(e: Event)
    ensures Touches(e, Selections) <==> IsSelectionOption(e)
    ensures IsSelectionOption(e) ==>
      SelectionOf(e) in Switches(e).0 && SelectionOf(e) !in Switches(e).1 && Selections - {SelectionOf(e)} <= Switches(e).1
  {
  }

  /** The loop over `events` is the loop over its first `k` events, then over the rest. */
  lemma {:induction false} ParseEventsSplit(st: Settings, events: seq<Event>, k: nat, self: int)
    requires k <= |events|
    ensures ParseEvents(st, events, self) ==
      match ParseEvents(st, events[..k], self)
      case Exit(c) => Exit(c)
      case Run(next) => ParseEvents(next, events[k..], self)
    decreases k
  {
    if k > 0 {
      assert events[..k][0] == events[0] && events[..k][1..] == events[1..][..k - 1];
      match Step(st, events[0], self)
      case Exit(c) =>
      case Run(next) =>
        ParseEventsSplit(next, events[1..], k - 1, self);
        assert events[1..][k - 1..] == events[k..];
    } else {
      assert events[..0] == [] && events[0..] == events;
    }
  }

  /** Events that do not touch the flags of `s` leave those flags as they were. */
  lemma {:induction false} UntouchedKept(st: Settings, events: seq<Event>, self: int, s: Flags)
    requires forall j | 0 <= j < |events| :: !Touches(events[j], s)
    ensures ParseEvents(st, events, self).Run? ==> ParseEvents(st, events, self).settings.flags * s == st.flags * s
    decreases |events|
  {
    if events != [] {
      StepUpdates(st, events[0], self);
      match Step(st, events[0], self)
      case Exit(c) =>
      case Run(next) =>
        assert !Touches(events[0], s);
        UntouchedKept(next, events[1..], self, s);
    }
  }

  /**
   * Of a family `s` of flags, the event at `k` sets `x` and clears the rest,
   * and no later event touches the family: `x` is all that is left of it.
   */
  lemma LastWins(events: seq<Event>, self: int, k: nat, s: Flags, x: Flag)
    requires k < |events| && x in s
    requires x in Switches(events[k]).0 && x !in Switches(events[k]).1 && s - {x} <= Switches(events[k]).1
    requires forall j | k < j < |events| :: !Touches(events[j], s)
    ensures ParseEvents(Initial, events, self).Run? ==> ParseEvents(Initial, events, self).settings.flags * s == {x}
  {
    ParseEventsSplit(Initial, events, k, self);
    match ParseEvents(Initial, events[..k], self)
    case Exit(c) =>
    case Run(st) =>
      assert events[k..][0] == events[k] && events[k..][1..] == events[k + 1..];
      StepUpdates(st, events[k], self);
      match Step(st, events[k], self)
      case Exit(c) =>
      case Run(next) =>
        UntouchedKept(next, events[k + 1..], self, s);
  }

  /** The last of `-A`, `-G` and `-U` chooses the line-drawing set; the earlier ones are undone. */
  lemma LastGlyphWins(events: seq<Event>, self: int, k: nat)
    requires k < |events| && IsGlyphOption(events[k])
    requires forall j | k < j < |events| :: !IsGlyphOption(events[j])
    ensures var o := ParseEvents(Initial, events, self);
      o.Run? ==> o.settings.flags * LineSets == {GlyphOf(events[k])}
  {
    GlyphSwitches(events[k]);
    forall j | k < j < |events|
      ensures !Touches(events[j], LineSets)
    {
      GlyphSwitches(events[j]);
    }
    LastWins(events, self, k, LineSets, GlyphOf(events[k]));
  }

  /** The last of `-g`, `-r`, `--pid` and `--user` chooses what is selected; the earlier ones are undone. */
  lemma LastSelectionWins(events: seq<Event>, self: int, k: nat)
    requires k < |events| && IsSelectionOption(events[k])
    requires forall j | k < j < |events| :: !IsSelectionOption(events[j])
    ensures var o := ParseEvents(Initial, events, self);
      o.Run? ==> o.settings.flags * Selections == {SelectionOf(events[k])}
  {
    SelectionSwitches(events[k]);
    forall j | k < j < |events|
      ensures !Touches(events[j], Selections)
    {
      SelectionSwitches(events[j]);
    }
    LastWins(events, self, k, Selections, SelectionOf(events[k]));
  }

  /** Without a line-drawing option no line-drawing set is chosen, and without a selecting option nothing is selected. */
  lemma NoneChosen(events: seq<Event>, self: int)
    ensures var o := ParseEvents(Initial, events, self);
      && ((forall j | 0 <= j < |events| :: !IsGlyphOption(events[j])) ==> o.Run? ==> o.settings.flags * LineSets == {})
      && ((forall j | 0 <= j < |events| :: !IsSelectionOption(events[j])) ==> o.Run? ==> o.settings.flags * Selections == {})
  {
    forall j | 0 <= j < |events|
      ensures Touches(events[j], LineSets) ==> IsGlyphOption(events[j])
      ensures Touches(events[j], Selections) ==> IsSelectionOption(events[j])
    {
      GlyphSwitches(events[j]);
      SelectionSwitches(events[j]);
    }
    if forall j | 0 <= j < |events| :: !IsGlyphOption(events[j]) {
      UntouchedKept(Initial, events, self, LineSets);
    }
    if forall j | 0 <= j < |events| :: !IsSelectionOption(events[j]) {
      UntouchedKept(Initial, events, self, Selections);
    }
  }

  /** The loop over the arguments, one more argument at the end. */
  lemma {:induction false} ParsePositionalSnoc(st: Settings, args: seq<string>, a: string)
    ensures ParsePositional(st, args + [a]) ==
      match ParsePositional(st, args)
      case Exit(c) => Exit(c)
      case Run(next) => Positional(next, a)
    decreases |args|
  {
    if args == [] {
      assert [a][1..] == [];
      match Positional(st, a)
      case Exit(c) =>
      case Run(next) =>
    } else {
      assert (args + [a])[0] == args[0] && (args + [a])[1..] == args[1..] + [a];
      match Positional(st, args[0])
      case Exit(c) =>
      case Run(next) =>
        ParsePositionalSnoc(next, args[1..], a);
    }
  }

  /** An argument that is a number, or that is not one, rather than one out of range. */
  predicate Accepted(arg: string)
  {
    Value(arg, 0, IntMax).InRange? || Value(arg, 0, IntMax) == Invalid
  }

  /**
   * The arguments after the options: the program ends exactly when one of
   * them is a number out of range; otherwise the last one decides, a number
   * selecting that pid and anything else that user.
   */
  lemma {:induction false} LastPositionalWins(st: Settings, args: seq<string>)
    ensures ParsePositional(st, args).Run? <==> forall j | 0 <= j < |args| :: Accepted(args[j])
    ensures var o := ParsePositional(st, args);
      o.Run? && args != [] ==>
        var a := args[|args| - 1];
        match Value(a, 0, IntMax)
        case InRange(v) => o.settings.pid == v && Pid in o.settings.flags && User !in o.settings.flags
        case _ => o.settings.user == Some(a) && o.settings.pid == StrToL(a).value
                  && User in o.settings.flags && Pid !in o.settings.flags
    decreases |args|
  {
    if args != [] {
      var front, a := args[..|args| - 1], args[|args| - 1];
      assert args == front + [a];
      LastPositionalWins(st, front);
      ParsePositionalSnoc(st, front, a);
      assert forall j | 0 <= j < |front| :: front[j] == args[j];
    }
  }

  // ---------------------------------------------------------------------
  // The flag algebra
  // ---------------------------------------------------------------------

  /** At most one line-drawing set is chosen. */
  predicate OneGlyph(f: Flags)
  {
    && !(Ascii in f && Vt100 in f)
    && !(Ascii in f && Unicode in f)
    && !(Vt100 in f && Unicode in f)
  }

  /**
   * What every run of `options()` leaves: at most one line-drawing set, a
   * pid and a user never selected together, a glob and a regex never
   * together, and showing arguments or pids always switches compaction off.
   */
  predicate Consistent(f: Flags)
  {
    && OneGlyph(f)
    && !(Pid in f && User in f)
    && !(Glob in f && Regex in f)
    && (Arguments in f ==> NoCompact in f)
    && (ShowPids in f ==> NoCompact in f)
  }

  /** Before the positional arguments at most one selection is active. */
  predicate OneSelection(f: Flags)
  {
    && !(Glob in f && Regex in f)
    && !(Glob in f && Pid in f)
    && !(Glob in f && User in f)
    && !(Regex in f && Pid in f)
    && !(Regex in f && User in f)
    && !(Pid in f && User in f)
  }

  /** `flags |= on; flags &= ~clear`. */
  function Update(f: Flags, on: Flags, clear: Flags): (g: Flags)
    ensures forall x :: x in g <==> (x in f || x in on) && x !in clear
  {
    (f + on) - clear
  }

  /**
   * The shape of every update the `switch` makes: a line-drawing set or a
   * selection turned on clears the others of its kind, showing arguments or
   * pids comes with compaction off, and compaction is never switched back on.
   */
  predicate Safe(on: Flags, clear: Flags)
  {
    && OneGlyph(on)
    && (Ascii in on ==> Vt100 in clear && Unicode in clear)
    && (Vt100 in on ==> Ascii in clear && Unicode in clear)
    && (Unicode in on ==> Ascii in clear && Vt100 in clear)
    && OneSelection(on)
    && (Glob in on ==> Regex in clear && Pid in clear && User in clear)
    && (Regex in on ==> Glob in clear && Pid in clear && User in clear)
    && (Pid in on ==> Glob in clear && Regex in clear && User in clear)
    && (User in on ==> Glob in clear && Regex in clear && Pid in clear)
    && (Arguments in on || ShowPids in on ==> NoCompact in on)
    && NoCompact !in clear
  }

  /** An update of that shape keeps the flags consistent and the selection single. */
  lemma Keeps(f: Flags, on: Flags, clear: Flags)
    requires Consistent(f) && OneSelection(f) && Safe(on, clear)
    ensures Consistent(Update(f, on, clear)) && OneSelection(Update(f, on, clear))
  {
  }

  /** Every update of the `switch` has the safe shape. */
  lemma SwitchesSafe(e: Event)
    ensures Safe(Switches(e).0, Switches(e).1)
  {
  }

  /** A pass that does not end the program changes the flags by its update and no more. */
  lemma StepUpdates(st: Settings, e: Event, self: int)
    ensures Step(st, e, self).Run? ==>
      Step(st, e, self).settings.flags == Update(st.flags, Switches(e).0, Switches(e).1)
  {
  }

  /** The update of every pass keeps the flags consistent and the selection single. */
  lemma SwitchKeeps(f: Flags, e: Event)
    requires Consistent(f) && OneSelection(f)
    ensures Consistent(Update(f, Switches(e).0, Switches(e).1))
    ensures OneSelection(Update(f, Switches(e).0, Switches(e).1))
  {
    SwitchesSafe(e);
    Keeps(f, Switches(e).0, Switches(e).1);
  }

  /** Each pass of the `switch` keeps the flags consistent and the selection single. */
  lemma StepKeepsConsistent(st: Settings, e: Event, self: int)
    requires Consistent(st.flags) && OneSelection(st.flags)
    ensures Step(st, e, self).Run? ==>
      Consistent(Step(st, e, self).settings.flags) && OneSelection(Step(st, e, self).settings.flags)
  {
    StepUpdates(st, e, self);
    SwitchKeeps(st.flags, e);
  }

  lemma PositionalKeepsConsistent(st: Settings, arg: string)
    requires Consistent(st.flags)
    ensures Positional(st, arg).Run? ==> Consistent(Positional(st, arg).settings.flags)
  {

  }
}
