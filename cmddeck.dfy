/**
 * The `deck` command line: the set-once cell that rejects a second action option, the
 * option scan of `main`, the `--get-level` index (a word or a Python `int()` literal, used
 * as a Python list index), and the choice of what to run from the action and the number
 * of positional arguments.
 *
 * Option parsing itself (getopt) is an input here: the scan starts from the (name, value)
 * pairs getopt returns. What the command then does to a deck is a `Command` value; the
 * deck operations are modelled in module Decks.
 */
module CmdDeck {
  import opened Wrappers
  import opened Text

  // ---------------------------------------------------------------- the set-once cell

  /** `RigidVal`: a cell that may be set once; a second `set` raises and keeps the value. */
  class RigidVal<T> {
    var val: Option<T>

    constructor ()
      ensures Get() == None
    {
      val := None;
    }

    /** `get()`: the value held, `None` until a `set` of a value. */
    function Get(): (r: Option<T>)
      reads this
      ensures r == val
    {
      val
    }

    /** `set(v)`: raises `AlreadySetError` (`raised`) when a value is held, otherwise stores `v`
        (Python's `None` is `v == None`, which leaves the cell settable). */
    method Set(v: Option<T>) returns (raised: bool)
      modifies this
      ensures raised <==> old(Get()).Some?
      ensures Get() == if raised then old(Get()) else v
    {
      if val.Some? {
        return true;
      }
      val := v;
      return false;
    }
  }

  // ---------------------------------------------------------------- actions and commands

  /** The deck functions an option (or the argument count) selects. */
  datatype Action =
    | Mount | Umount | Delete | RefreshFstab
    | IsDeck | IsDirty | IsMounted | GetFstab
    | Create

  /** The options that name an action; every other option leaves the cell alone. */
  function ActionOf(option: string): (r: Option<Action>)
    ensures r.Some? ==> r.value != Create
  {
    match option
    case "-m" => Some(Mount)
    case "-u" => Some(Umount)
    case "-D" => Some(Delete)
    case "-r" => Some(RefreshFstab)
    case "--isdeck" => Some(IsDeck)
    case "--isdirty" => Some(IsDirty)
    case "--ismounted" => Some(IsMounted)
    case "--get-fstab" => Some(GetFstab)
    case _ => None
  }

  predicate IsQuery(a: Action) {
    a == IsDeck || a == IsDirty || a == IsMounted
  }

  /** What one run of `main` ends in. `Usage` and `Fatal` print and exit; `ValueError` is
      the traceback of an `int()` the scan does not catch; the rest call into the deck. */
  datatype Command =
    | Usage(reason: string)
    | Fatal(msg: string)
    | ValueError(literal: string)
    | MissingFunction(missing: Action)
    | PrintLevel(path: string, index: int)
    | Query(query: Action, path: string)
    | PrintFstab(path: string)
    | CreateDeck(source: string, newDeck: string)
    | Run(action: Action, path: string)

  /** The functions module `deck` defines among those an option names. */
  const DeckFunctions: set<Action> := {Mount, Umount, Delete, RefreshFstab, Create}

  /** Every function the options name, as their option names promise them. */
  const AllFunctions: set<Action> :=
    {Mount, Umount, Delete, RefreshFstab, IsDeck, IsDirty, IsMounted, GetFstab, Create}

  const Conflict := "conflicting deck options"
  const BadArgCount := "bad number of arguments"

  // ---------------------------------------------------------------- int() and the level index

  predicate IsDigit(c: char) {
    '0' <= c <= '9'
  }

  predicate AllDigits(s: string) {
    forall i | 0 <= i < |s| :: IsDigit(s[i])
  }

  /** The value of a run of decimal digits, leading zeros allowed. */
  function DigitsValue(s: string): nat
    requires AllDigits(s)
  {
    if s == [] then 0 else DigitsValue(s[..|s| - 1]) * 10 + (s[|s| - 1] as int - '0' as int)
  }

  /** What Python 2's `int(s)` accepts once the surrounding whitespace is stripped:
      an optional sign, then (after a sign) any whitespace, which C's `strtoul` skips once
      more, then at least one decimal digit. */
  predicate IntLiteral(t: string) {
    if t != [] && (t[0] == '+' || t[0] == '-') then TrimLeft(t[1..]) != [] && AllDigits(TrimLeft(t[1..]))
    else t != [] && AllDigits(t)
  }

  /** Python 2's `int(s)` on a string; a rejected literal raises `ValueError`. */
  function ParseInt(s: string): (r: Result<int, string>)
    ensures r.Ok? <==> IntLiteral(Strip(s))
    ensures r.Err? ==> r.error == s
  {
    var t := Strip(s);
    if !IntLiteral(t) then Err(s)
    else if t[0] == '-' then Ok(-(DigitsValue(TrimLeft(t[1..])) as int))
    else if t[0] == '+' then Ok(DigitsValue(TrimLeft(t[1..])))
    else Ok(DigitsValue(t))
  }

  /** The `--get-level` value: `first` is 0, `last` is -1, anything else goes through `int()`. */
  function LevelIndex(val: string): Result<int, string> {
    if val == "first" then Ok(0)
    else if val == "last" then Ok(-1)
    else ParseInt(val)
  }

  /** `levels[i]` with Python's negative indexing; `None` is the `IndexError`. */
  function LevelAt(levels: seq<string>, i: int): (r: Option<string>)
    ensures r.Some? <==> -|levels| <= i < |levels|
    ensures r.Some? && i >= 0 ==> r.value == levels[i]
    ensures r.Some? && i < 0 ==> r.value == levels[|levels| + i]
  {
    if 0 <= i < |levels| then Some(levels[i])
    else if -|levels| <= i < 0 then Some(levels[|levels| + i])
    else None
  }

  /** `"%d" % n`. */
  function IntStr(n: int): string {
    if n < 0 then "-" + Decimal(-n) else Decimal(n)
  }

  /** What `print_level` ends in: the level's path on stdout, or a fatal error. */
  datatype Printed = Line(text: string) | Failed(msg: string)

  /** `print_level(path, level)`: `levels` is what `get_levels()` of the deck at `path` gave
      (an `Err` is the deck error `main` turns into `fatal`). */
  function PrintLevelOf(levels: Result<seq<string>, string>, level: int): (r: Printed)
    ensures levels.Err? ==> r == Failed(levels.error)
    ensures levels.Ok? ==> (r.Line? <==> -|levels.value| <= level < |levels.value|)
    ensures levels.Ok? && r.Failed? ==> r.msg == "illegal deck level (" + IntStr(level) + ")"
    ensures r.Line? ==> r.text in levels.value
  {
    if levels.Err? then Failed(levels.error)
    else match LevelAt(levels.value, level)
      case Some(p) => Line(p)
      case None => Failed("illegal deck level (" + IntStr(level) + ")")
  }

  /** A query's exit status, `sys.exit(func(path) != True)`: 0 exactly when the answer is true. */
  function QueryStatus(answer: bool): (code: int)
    ensures code == 0 || code == 1
    ensures code == 0 <==> answer
  {
    if answer then 0 else 1
  }

  // ---------------------------------------------------------------- the option scan

  /** An option as getopt hands it over: its name and its value (`""` when it takes none). */
  datatype Opt = Opt(name: string, val: string)

  /** Where the scan stops: either it ends with the chosen action and level, or it exits. */
  datatype Scan = Scanned(action: Option<Action>, level: Option<int>) | Stopped(exit: Command)

  /** The loop over `opts` from the state (`action` in the cell, `level`), where `defined`
      are the functions module `deck` has: `-h` exits with usage, an action option whose
      function is missing raises `AttributeError` before the cell is touched, a second
      action option is fatal, a bad `--get-level` value raises. */
  function ScanFrom(defined: set<Action>, opts: seq<Opt>, action: Option<Action>, level: Option<int>): (r: Scan)
    ensures r.Scanned? && r.action.Some? && r.action.value == Create ==> action == Some(Create)
    decreases |opts|
  {
    if opts == [] then Scanned(action, level)
    else
      var o := opts[0];
      if o.name == "-h" then Stopped(Usage(""))
      else if ActionOf(o.name).Some? then
        if ActionOf(o.name).value !in defined then Stopped(MissingFunction(ActionOf(o.name).value))
        else if action.Some? then Stopped(Fatal(Conflict))
        else ScanFrom(defined, opts[1..], ActionOf(o.name), level)
      else if o.name == "--get-level" then
        match LevelIndex(o.val)
        case Ok(n) => ScanFrom(defined, opts[1..], action, Some(n))
        case Err(lit) => Stopped(ValueError(lit))
      else ScanFrom(defined, opts[1..], action, level)
  }

  function ScanOf(defined: set<Action>, opts: seq<Opt>): Scan {
    ScanFrom(defined, opts, None, None)
  }

  /** The option loop of `main`, with a fresh `RigidVal` holding the action. */
  method ScanOptions(defined: set<Action>, opts: seq<Opt>) returns (r: Scan)
    ensures r == ScanOf(defined, opts)
  {
    var rigid := new RigidVal<Action>();
    var level: Option<int> := None;
    var i := 0;
    while i < |opts|
      invariant 0 <= i <= |opts|
      invariant ScanFrom(defined, opts[i..], rigid.Get(), level) == ScanOf(defined, opts)
    {
      var o := opts[i];
      assert opts[i..][0] == o && opts[i..][1..] == opts[i + 1..];
      if o.name == "-h" {
        return Stopped(Usage(""));
      }
      var a := ActionOf(o.name);
      if a.Some? {
        if a.value !in defined {
          return Stopped(MissingFunction(a.value));
        }
        var raised := rigid.Set(a);
        if raised {
          return Stopped(Fatal(Conflict));
        }
      } else if o.name == "--get-level" {
        if o.val == "first" {
          level := Some(0);
        } else if o.val == "last" {
          level := Some(-1);
        } else {
          var n := ParseInt(o.val);
          if n.Err? {
            return Stopped(ValueError(n.error));
          }
          level := Some(n.value);
        }
      }
      i := i + 1;
    }
    assert opts[i..] == [];
    return Scanned(rigid.Get(), level);
  }

  // ---------------------------------------------------------------- what gets run

  /** After the scan, with `defined` the functions module `deck` has: no arguments is
      usage; with no action option two arguments mean create and one means mount; anything
      but create needs exactly one argument; then `--get-level` wins over the action. Every
      other dispatch first looks up `deck.isdeck`, `deck.isdirty` and `deck.ismounted` to
      test for a query, then `deck.get_fstab`; a lookup of a missing function raises
      `AttributeError`, as do `deck.mount` and `deck.create` before it. */
  function Select(defined: set<Action>, args: seq<string>, action: Option<Action>, level: Option<int>): (r: Command)
    requires action.Some? ==> action.value != Create
    ensures args == [] ==> r == Usage("")
    ensures !r.Fatal? && !r.ValueError?
    ensures r.MissingFunction? ==> r.missing !in defined
    ensures r.MissingFunction? && r.missing != Mount && r.missing != Create ==> level.None?
    ensures r.PrintLevel? ==> level == Some(r.index) && r.path == args[0]
    ensures r.Query? || r.PrintFstab? || r.CreateDeck? || r.Run? ==>
      IsDeck in defined && IsDirty in defined && IsMounted in defined && Create in defined
    ensures r.PrintFstab? || r.CreateDeck? || r.Run? ==> GetFstab in defined
    ensures r.Query? ==> args == [r.path] && action == Some(r.query) && level.None?
    ensures r.PrintFstab? ==> args == [r.path] && action == Some(GetFstab) && level.None?
    ensures r.Run? ==>
      && args == [r.path] && level.None? && !IsQuery(r.action)
      && r.action != GetFstab && r.action != Create
      && (action.Some? ==> action == Some(r.action)) && (action.None? ==> r.action == Mount)
    ensures r.CreateDeck? ==> args == [r.source, r.newDeck] && action.None? && level.None?
  {
    if args == [] then Usage("")
    else if action.None? && |args| == 1 && Mount !in defined then MissingFunction(Mount)
    else if Create !in defined then MissingFunction(Create)
    else
      var func := if action.Some? then action
        else if |args| == 2 then Some(Create)
        else if |args| == 1 then Some(Mount)
        else None;
      if func != Some(Create) && |args| != 1 then Usage(BadArgCount)
      else if level.Some? then PrintLevel(args[0], level.value)
      else if IsDeck !in defined then MissingFunction(IsDeck)
      else if IsDirty !in defined then MissingFunction(IsDirty)
      else if IsMounted !in defined then MissingFunction(IsMounted)
      else if IsQuery(func.value) then Query(func.value, args[0])
      else if GetFstab !in defined then MissingFunction(GetFstab)
      else if func.value == GetFstab then PrintFstab(args[0])
      else if func.value == Create then CreateDeck(args[0], args[1])
      else Run(func.value, args[0])
  }

  /** `main` after getopt: the scan, then the selection. Options that neither exit nor raise
      and name at most one action select on that action and the last `--get-level`. */
  function MainOf(defined: set<Action>, opts: seq<Opt>, args: seq<string>): (r: Command)
    ensures Tame(defined, opts) && ActionCount(opts) <= 1 ==>
      r == Select(defined, args, FirstAction(opts), LastLevel(opts))
  {
    ScanKeeps(defined, opts);
    match ScanOf(defined, opts)
    case Stopped(c) => c
    case Scanned(a, l) => Select(defined, args, a, l)
  }

  // ---------------------------------------------------------------- properties

  /** Options whose scan neither exits with usage nor raises: no `-h`, every action option's
      function defined, every `--get-level` value an index. */
  predicate Tame(defined: set<Action>, opts: seq<Opt>) {
    && LevelsParse(opts)
    && forall i | 0 <= i < |opts| ::
      && opts[i].name != "-h"
      && (ActionOf(opts[i].name).Some? ==> ActionOf(opts[i].name).value in defined)
  }

  predicate LevelsParse(opts: seq<Opt>) {
    forall i | 0 <= i < |opts| :: opts[i].name == "--get-level" ==> LevelIndex(opts[i].val).Ok?
  }

  /** How many options name an action. */
  function ActionCount(opts: seq<Opt>): nat {
    if opts == [] then 0
    else (if ActionOf(opts[0].name).Some? then 1 else 0) + ActionCount(opts[1..])
  }

  /** The action the first action option names. */
  function FirstAction(opts: seq<Opt>): (r: Option<Action>)
    ensures r.Some? <==> ActionCount(opts) > 0
    ensures r != Some(Create)
  {
    if opts == [] then None
    else if ActionOf(opts[0].name).Some? then ActionOf(opts[0].name)
    else FirstAction(opts[1..])
  }

  /** The index the last `--get-level` option gives. */
  function LastLevel(opts: seq<Opt>): Option<int>
    requires LevelsParse(opts)
  {
    if opts == [] then None
    else
      var o := opts[|opts| - 1];
      if o.name == "--get-level" then Some(LevelIndex(o.val).value)
      else LastLevel(opts[..|opts| - 1])
  }

  lemma {:induction false} LastLevelCons(opts: seq<Opt>)
    requires opts != [] && LevelsParse(opts)
    ensures LastLevel(opts) ==
      if LastLevel(opts[1..]).Some? then LastLevel(opts[1..])
      else if opts[0].name == "--get-level" then Some(LevelIndex(opts[0].val).value)
      else None
    decreases |opts|
  {
    var n := |opts|;
    if n > 1 {
      assert opts[1..][..n - 2] == opts[..n - 1][1..];
      assert opts[1..][n - 2] == opts[n - 1];
      if opts[n - 1].name != "--get-level" {
        LastLevelCons(opts[..n - 1]);
      }
    }
  }

  /** The scan from a state: it stops on a conflict exactly when the options name an action
      while one is held, or name two; otherwise it holds the first action and the last level. */
  lemma {:induction false} ScanFromTame(defined: set<Action>, opts: seq<Opt>, action: Option<Action>, level: Option<int>)
    requires Tame(defined, opts)
    ensures ScanFrom(defined, opts, action, level) == Stopped(Fatal(Conflict)) <==>
      ActionCount(opts) + (if action.Some? then 1 else 0) >= 2
    ensures ActionCount(opts) + (if action.Some? then 1 else 0) < 2 ==>
      ScanFrom(defined, opts, action, level) ==
        Scanned(if action.Some? then action else FirstAction(opts),
                if LastLevel(opts).Some? then LastLevel(opts) else level)
    decreases |opts|
  {
    if opts != [] {
      ScanFromCons(defined, opts, action, level);
      LastLevelCons(opts);
      var o := opts[0];
      assert ActionCount(opts) == (if ActionOf(o.name).Some? then 1 else 0) + ActionCount(opts[1..]);
      assert FirstAction(opts) == if ActionOf(o.name).Some? then ActionOf(o.name) else FirstAction(opts[1..]);
      if ActionOf(o.name).Some? {
        if action.None? {
          ScanFromTame(defined, opts[1..], ActionOf(o.name), level);
        }
      } else if o.name == "--get-level" {
        ScanFromTame(defined, opts[1..], action, Some(LevelIndex(o.val).value));
      } else {
        ScanFromTame(defined, opts[1..], action, level);
      }
    }
  }

  /** One step of the scan over tame options, and the rest of them stays tame. */
  lemma ScanFromCons(defined: set<Action>, opts: seq<Opt>, action: Option<Action>, level: Option<int>)
    requires opts != [] && Tame(defined, opts)
    ensures Tame(defined, opts[1..])
    ensures opts[0].name == "--get-level" ==> LevelIndex(opts[0].val).Ok?
    ensures ScanFrom(defined, opts, action, level) ==
      if ActionOf(opts[0].name).Some? then
        if action.Some? then Stopped(Fatal(Conflict)) else ScanFrom(defined, opts[1..], ActionOf(opts[0].name), level)
      else if opts[0].name == "--get-level" then ScanFrom(defined, opts[1..], action, Some(LevelIndex(opts[0].val).value))
      else ScanFrom(defined, opts[1..], action, level)
  {
    assert Tame(defined, opts[1..]) by {
      forall i | 0 <= i < |opts| - 1 ensures opts[1..][i] == opts[i + 1] { }
    }
    assert opts[0].name != "-h" && (opts[0].name == "--get-level" ==> LevelIndex(opts[0].val).Ok?);
    assert ActionOf(opts[0].name).Some? ==> ActionOf(opts[0].name).value in defined;
  }

  /** Giving two action options ends in "conflicting deck options", and only then. */
  lemma ConflictIffTwoActions(defined: set<Action>, opts: seq<Opt>, args: seq<string>)
    requires Tame(defined, opts)
    ensures MainOf(defined, opts, args) == Fatal(Conflict) <==> ActionCount(opts) >= 2
  {
    ScanFromTame(defined, opts, None, None);
  }

  /** Without a conflict the scan keeps the one action named and the last `--get-level`. */
  lemma ScanKeeps(defined: set<Action>, opts: seq<Opt>)
    ensures Tame(defined, opts) && ActionCount(opts) <= 1 ==>
      ScanOf(defined, opts) == Scanned(FirstAction(opts), LastLevel(opts))
  {
    if Tame(defined, opts) {
      ScanFromTame(defined, opts, None, None);
    }
  }

  /** With every function defined and no action option, two arguments create a deck from
      the first at the second, one argument mounts it, and any other count is usage. */
  lemma DefaultAction(args: seq<string>)
    requires args != []
    ensures |args| == 2 ==> MainOf(AllFunctions, [], args) == CreateDeck(args[0], args[1])
    ensures |args| == 1 ==> MainOf(AllFunctions, [], args) == Run(Mount, args[0])
    ensures |args| > 2 ==> MainOf(AllFunctions, [], args) == Usage(BadArgCount)
  {
  }

  /** An action option needs exactly one argument, whatever functions are defined. */
  lemma ActionNeedsOneArg(defined: set<Action>, args: seq<string>, a: Action, level: Option<int>)
    requires a != Create && Create in defined && args != []
    ensures Select(defined, args, Some(a), level) == Usage(BadArgCount) <==> |args| != 1
  {
  }

  /** `first` and `last` pick the bottom and the top of a non-empty stack. */
  lemma LevelWords(levels: seq<string>)
    requires levels != []
    ensures LevelIndex("first") == Ok(0) && LevelAt(levels, 0) == Some(levels[0])
    ensures LevelIndex("last") == Ok(-1) && LevelAt(levels, -1) == Some(levels[|levels| - 1])
  {
  }

  /** A decimal `n` or `-n` is read as that number and picks like a Python index. */
  lemma LevelNumbers(levels: seq<string>, n: nat)
    ensures LevelIndex(Decimal(n)) == Ok(n)
    ensures LevelIndex("-" + Decimal(n)) == Ok(-(n as int))
    ensures n < |levels| ==> LevelAt(levels, n) == Some(levels[n])
    ensures 0 < n <= |levels| ==> LevelAt(levels, -(n as int)) == Some(levels[|levels| - n])
  {
    ParseDecimal(n);
    DecimalNotWord(n);
  }

  lemma DecimalNotWord(n: nat)
    ensures Decimal(n) != "first" && Decimal(n) != "last"
    ensures "-" + Decimal(n) != "first" && "-" + Decimal(n) != "last"
  {
    var d := Decimal(n);
    assert IsDigit(d[0]);
    assert ("-" + d)[0] == '-';
  }

  /** `int()` reads back the decimal rendering of a number and of its negation. */
  lemma ParseDecimal(n: nat)
    ensures ParseInt(Decimal(n)) == Ok(n)
    ensures ParseInt("-" + Decimal(n)) == Ok(-(n as int))
  {
    DigitsOfDecimal(n);
    ParseDigits(Decimal(n), n);
    ParseNegated(Decimal(n), n);
  }

  lemma ParseDigits(d: string, v: nat)
    requires d != [] && AllDigits(d) && DigitsValue(d) == v
    ensures ParseInt(d) == Ok(v)
  {
    StripKeeps(d);
  }

  lemma ParseNegated(d: string, v: nat)
    requires d != [] && AllDigits(d) && DigitsValue(d) == v
    ensures ParseInt("-" + d) == Ok(-(v as int))
  {
    var w: string := [];
    assert [('-')] + w + d == "-" + d;
    ParseSpacedSign('-', w, d, v);
  }

  /** Whitespace between the sign and the digits is skipped: `int("- 1") == -1`. */
  lemma ParseSpacedSign(sign: char, w: string, d: string, v: nat)
    requires sign == '+' || sign == '-'
    requires forall i | 0 <= i < |w| :: IsSpace(w[i])
    requires d != [] && AllDigits(d) && DigitsValue(d) == v
    ensures ParseInt([sign] + w + d) == Ok(if sign == '-' then -(v as int) else v)
  {
    var m := [sign] + w + d;
    assert m[1..] == w + d && m[|m| - 1] == d[|d| - 1];
    StripKeeps(m);
    TrimLeftSpaces(w, d);
  }

  lemma {:induction false} TrimLeftSpaces(w: string, d: string)
    requires forall i | 0 <= i < |w| :: IsSpace(w[i])
    requires d == [] || !IsSpace(d[0])
    ensures TrimLeft(w + d) == d
  {
    if w != [] {
      assert (w + d)[1..] == w[1..] + d;
      TrimLeftSpaces(w[1..], d);
    }
  }

  lemma {:induction false} DigitsOfDecimal(n: nat)
    ensures AllDigits(Decimal(n)) && DigitsValue(Decimal(n)) == n
    decreases n
  {
    var d := Decimal(n);
    if n >= 10 {
      assert d[..|d| - 1] == Decimal(n / 10);
      DigitsOfDecimal(n / 10);
    }
  }

  /** A negative index counts from the top: it picks what its non-negative twin picks. */
  lemma NegativeIndex(levels: seq<string>, i: int)
    requires 0 <= i < |levels|
    ensures LevelAt(levels, i - |levels|) == LevelAt(levels, i)
  {
  }

  // ---------------------------------------------------------------- the query options

  /** With the functions module `deck` defines, `--isdeck`, `--isdirty`, `--ismounted` and
      `--get-fstab` stop the scan with `AttributeError` whatever else is given. */
  lemma QueryOptionMissing(o: Opt, rest: seq<Opt>, args: seq<string>)
    requires ActionOf(o.name).Some? && ActionOf(o.name).value !in DeckFunctions
    ensures IsQuery(ActionOf(o.name).value) || ActionOf(o.name).value == GetFstab
    ensures MainOf(DeckFunctions, [o] + rest, args) == MissingFunction(ActionOf(o.name).value)
  {
    assert ([o] + rest)[0] == o;
  }

  /** `deck --isdeck /path` as written. */
  lemma IsDeckOptionFails()
    ensures MainOf(DeckFunctions, [Opt("--isdeck", "")], ["/path"]) == MissingFunction(IsDeck)
  {
    QueryOptionMissing(Opt("--isdeck", ""), [], ["/path"]);
    assert [Opt("--isdeck", "")] + [] == [Opt("--isdeck", "")];
  }

  /** As written: with the functions module `deck` defines, every command that reaches the
      dispatch without `--get-level` raises `AttributeError` on `deck.isdeck`; the only
      other outcome is the argument-count usage. */
  lemma DispatchMissing(args: seq<string>, action: Option<Action>)
    requires args != [] && (action.Some? ==> action.value in DeckFunctions && action.value != Create)
    ensures Select(DeckFunctions, args, action, None) == MissingFunction(IsDeck) <==>
      (action.Some? && |args| == 1) || (action.None? && |args| <= 2)
    ensures Select(DeckFunctions, args, action, None) != MissingFunction(IsDeck) ==>
      Select(DeckFunctions, args, action, None) == Usage(BadArgCount)
  {
  }

  /** `deck /path` as written: the mount never reaches `deck.mount`. */
  lemma MountCommandFails()
    ensures MainOf(DeckFunctions, [], ["/path"]) == MissingFunction(IsDeck)
  {
  }

  /** With every function defined, an option naming mount, umount, delete or refresh on one
      argument runs that function on it. */
  lemma ActionOptionRuns(o: Opt, path: string)
    requires ActionOf(o.name).Some?
    requires !IsQuery(ActionOf(o.name).value) && ActionOf(o.name).value != GetFstab
    ensures MainOf(AllFunctions, [o], [path]) == Run(ActionOf(o.name).value, path)
  {
    var a := ActionOf(o.name).value;
    assert a in AllFunctions;
    assert [o][1..] == [];
    assert ScanFrom(AllFunctions, [], Some(a), None) == Scanned(Some(a), None);
    assert ScanFrom(AllFunctions, [o], None, None) == ScanFrom(AllFunctions, [], Some(a), None);
  }

  /** With every function an option names defined, a query option on one argument runs the
      query (whose exit status is `QueryStatus`) and `--get-fstab` prints the fstab. */
  lemma QueryOptionSelects(o: Opt, path: string)
    requires ActionOf(o.name).Some?
    requires IsQuery(ActionOf(o.name).value) || ActionOf(o.name).value == GetFstab
    ensures IsQuery(ActionOf(o.name).value) ==>
      MainOf(AllFunctions, [o], [path]) == Query(ActionOf(o.name).value, path)
    ensures ActionOf(o.name).value == GetFstab ==> MainOf(AllFunctions, [o], [path]) == PrintFstab(path)
  {
    var a := ActionOf(o.name).value;
    assert a in AllFunctions;
    assert [o][1..] == [];
    assert ScanFrom(AllFunctions, [], Some(a), None) == Scanned(Some(a), None);
    assert ScanFrom(AllFunctions, [o], None, None) == ScanFrom(AllFunctions, [], Some(a), None);
  }
}
