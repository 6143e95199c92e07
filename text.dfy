/**
 * String helpers with the semantics of the Python 2 built-ins the source relies on:
 * os.path.join and basename, str.strip/rstrip, str.split on a separator, re.split(r'\s+'),
 * and the decimal rendering of a non-negative integer.
 */
module Text {

  /** The characters Python's `str.strip()` and the regex `\s` treat as whitespace. */
  predicate IsSpace(c: char) {
    c == ' ' || c == '\t' || c == '\n' || c == '\r' || c == 11 as char || c == 12 as char
  }

  predicate NoSpace(s: string) {
    forall i | 0 <= i < |s| :: !IsSpace(s[i])
  }

  predicate StartsWith(s: string, prefix: string) {
    |prefix| <= |s| && s[..|prefix|] == prefix
  }

  /** `os.path.join(a, b)` for two components. */
  function Join(a: string, b: string): (r: string)
    ensures StartsWith(b, "/") ==> r == b
    ensures !StartsWith(b, "/") ==> exists sep :: (sep == "" || sep == "/") && r == a + sep + b
  {
    if StartsWith(b, "/") then b
    else if a == "" || a[|a| - 1] == '/' then
      assert a + b == a + "" + b;
      a + b
    else a + "/" + b
  }

  /** `s.rstrip("/")`: the longest prefix of `s` that does not end in a slash. */
  function RStripSlash(s: string): (r: string)
    ensures |r| <= |s| && r == s[..|r|]
    ensures r == [] || r[|r| - 1] != '/'
  {
    if |s| > 0 && s[|s| - 1] == '/' then RStripSlash(s[..|s| - 1]) else s
  }

  lemma RStripSlashIdempotent(s: string)
    ensures RStripSlash(RStripSlash(s)) == RStripSlash(s)
  {
  }

  /** `s.lstrip()`: drops leading whitespace. */
  function TrimLeft(s: string): (r: string)
    ensures |r| <= |s| && r == s[|s| - |r|..]
    ensures r == [] || !IsSpace(r[0])
    ensures forall i | 0 <= i < |s| - |r| :: IsSpace(s[i])
  {
    if |s| > 0 && IsSpace(s[0]) then
      var r := TrimLeft(s[1..]);
      assert s[1..][|s| - 1 - |r|..] == s[|s| - |r|..];
      assert forall i | 1 <= i < |s| - |r| :: s[i] == s[1..][i - 1];
      r
    else s
  }

  /** `s.rstrip()`: drops trailing whitespace. */
  function TrimRight(s: string): (r: string)
    ensures |r| <= |s| && r == s[..|r|]
    ensures r == [] || !IsSpace(r[|r| - 1])
    ensures forall i | |r| <= i < |s| :: IsSpace(s[i])
  {
    if |s| > 0 && IsSpace(s[|s| - 1]) then
      var r := TrimRight(s[..|s| - 1]);
      assert s[..|s| - 1][..|r|] == s[..|r|];
      assert forall i | |r| <= i < |s| - 1 :: s[i] == s[..|s| - 1][i];
      r
    else s
  }

  /** `s.strip()`. */
  function Strip(s: string): string {
    TrimRight(TrimLeft(s))
  }

  lemma StripKeeps(s: string)
    requires s != [] && !IsSpace(s[0]) && !IsSpace(s[|s| - 1])
    ensures Strip(s) == s
  {
  }

  /** `s.split(sep)`: the pieces between occurrences of `sep`; always at least one piece. */
  function SplitOn(s: string, sep: char): (r: seq<string>)
    ensures |r| >= 1
    ensures forall i | 0 <= i < |r| :: sep !in r[i]
    decreases |s|
  {
    if |s| == 0 then [""]
    else
      var rest := SplitOn(s[1..], sep);
      if s[0] == sep then [""] + rest else [[s[0]] + rest[0]] + rest[1..]
  }

  /** `sep.join(pieces)`. */
  function JoinWith(pieces: seq<string>, sep: char): string {
    if |pieces| == 0 then ""
    else if |pieces| == 1 then pieces[0]
    else pieces[0] + [sep] + JoinWith(pieces[1..], sep)
  }

  /** What `JoinWith` builds begins with the first piece. */
  lemma JoinWithStartsWith(pieces: seq<string>, sep: char)
    requires |pieces| >= 1
    ensures |JoinWith(pieces, sep)| >= |pieces[0]|
    ensures JoinWith(pieces, sep)[..|pieces[0]|] == pieces[0]
  {
  }

  lemma {:induction false} SplitOnPiece(a: string, sep: char)
    requires sep !in a
    ensures SplitOn(a, sep) == [a]
    decreases |a|
  {
    if |a| > 0 {
      SplitOnPiece(a[1..], sep);
      assert [a[0]] + a[1..] == a;
    }
  }

  lemma {:induction false} SplitOnCons(a: string, sep: char, b: string)
    requires sep !in a
    ensures SplitOn(a + [sep] + b, sep) == [a] + SplitOn(b, sep)
    decreases |a|
  {
    var s := a + [sep] + b;
    if |a| == 0 {
      assert s[1..] == b;
    } else {
      assert s[1..] == a[1..] + [sep] + b;
      SplitOnCons(a[1..], sep, b);
      assert [a[0]] + a[1..] == a;
    }
  }

  /** Splitting what `JoinWith` built gives back the pieces, when no piece holds the separator. */
  lemma {:induction false} SplitJoin(pieces: seq<string>, sep: char)
    requires |pieces| >= 1
    requires forall i | 0 <= i < |pieces| :: sep !in pieces[i]
    ensures SplitOn(JoinWith(pieces, sep), sep) == pieces
    decreases |pieces|
  {
    if |pieces| == 1 {
      SplitOnPiece(pieces[0], sep);
    } else {
      SplitJoin(pieces[1..], sep);
      SplitOnCons(pieces[0], sep, JoinWith(pieces[1..], sep));
      assert [pieces[0]] + pieces[1..] == pieces;
    }
  }

  /** `re.split(r'\s+', s)`: the pieces between maximal runs of whitespace. */
  function SplitWs(s: string): (r: seq<string>)
    ensures |r| >= 1
    decreases |s|
  {
    if |s| == 0 then [""]
    else if IsSpace(s[0]) then
      var t := TrimLeft(s);
      [""] + SplitWs(t)
    else
      var rest := SplitWs(s[1..]);
      [[s[0]] + rest[0]] + rest[1..]
  }

  lemma {:induction false} SplitWsWord(a: string)
    requires NoSpace(a)
    ensures SplitWs(a) == [a]
    decreases |a|
  {
    if |a| > 0 {
      SplitWsWord(a[1..]);
      assert [a[0]] + a[1..] == a;
    }
  }

  lemma {:induction false} SplitWsCons(a: string, b: string)
    requires NoSpace(a)
    requires b == [] || !IsSpace(b[0])
    ensures SplitWs(a + " " + b) == [a] + SplitWs(b)
    decreases |a|
  {
    var s := a + " " + b;
    if |a| == 0 {
      assert s[1..] == b;
      assert TrimLeft(s) == TrimLeft(b) == b;
    } else {
      assert s[1..] == a[1..] + " " + b;
      SplitWsCons(a[1..], b);
      assert [a[0]] + a[1..] == a;
    }
  }

  /** `os.path.basename(p)`: the text after the last slash. */
  function Basename(p: string): (r: string)
    ensures '/' !in r
    ensures |r| <= |p| && r == p[|p| - |r|..]
    decreases |p|
  {
    if |p| == 0 || p[|p| - 1] == '/' then ""
    else Basename(p[..|p| - 1]) + [p[|p| - 1]]
  }

  lemma {:induction false} BasenameOfChild(dir: string, name: string)
    requires '/' !in name
    ensures Basename(dir + "/" + name) == name
    decreases |name|
  {
    var p := dir + "/" + name;
    if |name| == 0 {
      assert p[|p| - 1] == '/';
    } else {
      var n' := name[..|name| - 1];
      var c := name[|name| - 1];
      assert p[|p| - 1] == c && c != '/';
      assert p[..|p| - 1] == dir + "/" + n';
      assert Basename(p) == Basename(dir + "/" + n') + [c];
      BasenameOfChild(dir, n');
      assert n' + [c] == name;
    }
  }

  /** `os.path.dirname(p)`: the text before the last slash, trailing slashes removed unless
      it consists of slashes only. */
  function Dirname(p: string): (r: string)
    ensures |r| <= |p| && r == p[..|r|]
  {
    var head := p[..|p| - |Basename(p)|];
    if head != "" && RStripSlash(head) != "" then RStripSlash(head) else head
  }

  /** A child's directory is its parent, when the parent does not end in a slash. */
  lemma DirnameOfChild(dir: string, name: string)
    requires '/' !in name && dir != "" && dir[|dir| - 1] != '/'
    ensures Dirname(dir + "/" + name) == dir
  {
    var p := dir + "/" + name;
    BasenameOfChild(dir, name);
    var head := dir + "/";
    assert p[..|p| - |name|] == head;
    assert head[..|dir|] == dir;
    assert RStripSlash(head) == RStripSlash(dir) == dir;
  }

  /** `list.reverse()`. */
  function Reversed<T>(s: seq<T>): (r: seq<T>)
    ensures |r| == |s| && forall i {:trigger r[i]} | 0 <= i < |s| :: r[i] == s[|s| - 1 - i]
  {
    if s == [] then [] else [s[|s| - 1]] + Reversed(s[..|s| - 1])
  }

  function DigitChar(d: nat): (c: char)
    requires d < 10
    ensures '0' <= c <= '9'
  {
    (48 + d) as char
  }

  /** The decimal rendering of `n` (Python's `repr` of a non-negative int). */
  function Decimal(n: nat): (r: string)
    ensures |r| >= 1
    ensures forall i | 0 <= i < |r| :: '0' <= r[i] <= '9'
    ensures (n < 10) == (|r| == 1)
    ensures n >= 1 ==> r[0] != '0'
  {
    if n < 10 then [DigitChar(n)] else Decimal(n / 10) + [DigitChar(n % 10)]
  }

  lemma {:induction false} DecimalInjective(a: nat, b: nat)
    requires Decimal(a) == Decimal(b)
    ensures a == b
    decreases a
  {
    if a >= 10 && b >= 10 {
      var da, db := Decimal(a), Decimal(b);
      assert da[|da| - 1] == db[|db| - 1];
      assert da[..|da| - 1] == Decimal(a / 10);
      assert db[..|db| - 1] == Decimal(b / 10);
      DecimalInjective(a / 10, b / 10);
    }
  }
}
