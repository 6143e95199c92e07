/**
 * fstab-style mount tables: parsing, root filtering, serialisation, the trailing-slash
 * insensitive lookup, and applying or removing the entries against the kernel's mount
 * table. The kernel is modelled by its table of active mounts (what /proc/mounts lists)
 * and by the log of mount and umount commands issued.
 */
module Mounts {
  import opened Wrappers
  import opened Text

  /** One entry: device, mount directory, filesystem type, options. */
  datatype Mount = Mount(device: string, dir: string, fstype: string, opts: string)

  /** A parsed table and the root it was filtered by ("" when no root was given). */
  datatype Table = Table(mounts: seq<Mount>, root: string)

  // ---------------------------------------------------------------- parsing

  /** A directory field with a slash prepended unless it has one. */
  function AbsDir(d: string): (r: string)
    ensures StartsWith(r, "/")
    ensures StartsWith(d, "/") ==> r == d
  {
    if StartsWith(d, "/") then d else "/" + d
  }

  /** The whitespace-separated fields of a stripped line. */
  function Fields(line: string): seq<string> {
    SplitWs(Strip(line))
  }

  /** The rule `Mounts.__init__` applies to one line; `root` is "" when no filter is given.
      Blank lines and comments are skipped. */
  function ParseLine(line: string, root: string): (r: Option<Mount>)
    ensures Strip(line) == [] || Strip(line)[0] == '#' ==> r.None?
    ensures |Fields(line)| < 4 ==> r.None?
    ensures Strip(line) != [] && Strip(line)[0] != '#' && |Fields(line)| >= 4 ==>
      r == UnderRoot(Mount(Fields(line)[0], AbsDir(Fields(line)[1]), Fields(line)[2], Fields(line)[3]), root)
  {
    var l := Strip(line);
    if l == [] || l[0] == '#' then None else FromFields(SplitWs(l), root)
  }

  /** A line with fewer than four fields is skipped; otherwise its first four fields,
      the directory made absolute, go through the root filter. */
  function FromFields(vals: seq<string>, root: string): Option<Mount> {
    if |vals| < 4 then None else UnderRoot(Mount(vals[0], AbsDir(vals[1]), vals[2], vals[3]), root)
  }

  /** The root filter: with a root, only entries strictly below it are kept, and (unless the
      root is "/") their directory is made relative to it, keeping its leading slash. */
  function UnderRoot(m: Mount, root: string): (r: Option<Mount>)
    requires StartsWith(m.dir, "/")
    ensures root == "" ==> r == Some(m)
    ensures r.Some? ==> r.value.device == m.device && r.value.fstype == m.fstype && r.value.opts == m.opts
    ensures r.Some? ==> StartsWith(r.value.dir, "/")
    ensures r.Some? ==> |r.value.dir| <= |m.dir| && r.value.dir == m.dir[|m.dir| - |r.value.dir|..]
    ensures r.Some? && root != "" && root != "/" ==> RealDir(root, r.value.dir) == m.dir && m.dir != root
    ensures root != "" && !StartsWith(m.dir, root + "/") ==> r.None?
    ensures root != "" && StartsWith(m.dir, root + "/") ==>
      r == Some(if root == "/" then m else m.(dir := m.dir[|root|..]))
  {
    if root == "" then Some(m)
    else if m.dir == root || !StartsWith(m.dir, root + "/") then None
    else if root != "/" then
      var kept := m.dir[|root|..];
      assert root + kept == m.dir;
      assert kept[0] == '/';
      Some(m.(dir := kept))
    else Some(m)
  }

  function Kept(e: Option<Mount>): seq<Mount> {
    if e.Some? then [e.value] else []
  }

  /** The entries of the lines, in order. */
  function ParseLines(lines: seq<string>, root: string): (r: seq<Mount>)
    ensures |r| <= |lines|
  {
    if lines == [] then []
    else ParseLines(lines[..|lines| - 1], root) + Kept(ParseLine(lines[|lines| - 1], root))
  }

  lemma ParseLinesSnoc(lines: seq<string>, line: string, root: string)
    ensures ParseLines(lines + [line], root) == ParseLines(lines, root) + Kept(ParseLine(line, root))
  {
    assert (lines + [line])[..|lines|] == lines;
  }

  lemma ParseStep(lines: seq<string>, i: nat, root: string)
    requires i < |lines|
    ensures ParseLines(lines[..i + 1], root) == ParseLines(lines[..i], root) + Kept(ParseLine(lines[i], root))
  {
    assert lines[..i + 1][..i] == lines[..i];
  }

  /** The table `Mounts(text, root)` holds. */
  function Parse(text: string, root: string): seq<Mount> {
    ParseLines(SplitOn(text, '\n'), root)
  }

  /** `Mounts.__init__` on fstab text: the line loop appending each kept entry. */
  method ParseTable(text: string, root: string) returns (t: Table)
    ensures t.mounts == Parse(text, root) && t.root == root
    ensures |t.mounts| <= |SplitOn(text, '\n')|
  {
    var lines := SplitOn(text, '\n');
    var ms: seq<Mount> := [];
    for i := 0 to |lines|
      invariant ms == ParseLines(lines[..i], root)
    {
      ParseStep(lines, i, root);
      ms := ms + Kept(ParseLine(lines[i], root));
    }
    assert lines[..|lines|] == lines;
    t := Table(ms, root);
  }

  // ---------------------------------------------------------------- well-formed entries

  predicate IsField(s: string) {
    s != [] && NoSpace(s)
  }

  /** What an entry must satisfy for its serialised line to parse back to it. */
  predicate WellFormed(m: Mount) {
    IsField(m.device) && m.device[0] != '#' && IsField(m.dir) && StartsWith(m.dir, "/")
    && IsField(m.fstype) && IsField(m.opts)
  }

  lemma {:induction false} SplitWsNoSpace(s: string)
    ensures forall i | 0 <= i < |SplitWs(s)| :: NoSpace(SplitWs(s)[i])
    decreases |s|
  {
    if |s| > 0 {
      if IsSpace(s[0]) {
        SplitWsNoSpace(TrimLeft(s));
      } else {
        SplitWsNoSpace(s[1..]);
      }
    }
  }

  lemma {:induction false} SplitWsTailNonEmpty(s: string)
    requires s == [] || !IsSpace(s[|s| - 1])
    ensures forall i | 1 <= i < |SplitWs(s)| :: SplitWs(s)[i] != []
    decreases |s|
  {
    if |s| > 0 {
      if IsSpace(s[0]) {
        var t := TrimLeft(s);
        assert t != [] && !IsSpace(t[0]) && t[|t| - 1] == s[|s| - 1];
        SplitWsTailNonEmpty(t);
      } else {
        SplitWsTailNonEmpty(s[1..]);
      }
    }
  }

  lemma StripShape(line: string)
    requires Strip(line) != []
    ensures !IsSpace(Strip(line)[0]) && !IsSpace(Strip(line)[|Strip(line)| - 1])
  {
    var t := TrimLeft(line);
    var l := Strip(line);
    assert l == TrimRight(t) && l == t[..|l|];
  }

  /** A stripped non-empty text splits into non-empty, whitespace-free fields. */
  lemma SplitWsFields(l: string)
    requires l != [] && !IsSpace(l[0]) && !IsSpace(l[|l| - 1])
    ensures forall i | 0 <= i < |SplitWs(l)| :: IsField(SplitWs(l)[i])
  {
    SplitWsNoSpace(l);
    SplitWsTailNonEmpty(l);
    assert SplitWs(l)[0] != [] by {
      assert SplitWs(l)[0][0] == l[0];
    }
  }

  lemma AbsDirField(d: string)
    requires NoSpace(d)
    ensures IsField(AbsDir(d))
  {
    if !StartsWith(d, "/") {
      assert AbsDir(d) == "/" + d;
    }
  }

  lemma SuffixNoSpace(d: string, s: string)
    requires NoSpace(s) && |d| <= |s| && d == s[|s| - |d|..]
    ensures NoSpace(d)
  {
    forall i | 0 <= i < |d| ensures !IsSpace(d[i]) {
      assert d[i] == s[|s| - |d| + i];
    }
  }

  lemma UnderRootWellFormed(m: Mount, root: string)
    requires WellFormed(m)
    requires UnderRoot(m, root).Some?
    ensures WellFormed(UnderRoot(m, root).value)
  {
    SuffixNoSpace(UnderRoot(m, root).value.dir, m.dir);
  }

  /** Every entry a line yields satisfies `WellFormed`. */
  lemma ParseLineWellFormed(line: string, root: string)
    requires ParseLine(line, root).Some?
    ensures WellFormed(ParseLine(line, root).value)
  {
    var l := Strip(line);
    StripShape(line);
    var vals := SplitWs(l);
    SplitWsFields(l);
    AbsDirField(vals[1]);
    var m := Mount(vals[0], AbsDir(vals[1]), vals[2], vals[3]);
    assert vals[0][0] == l[0];
    UnderRootWellFormed(m, root);
  }

  lemma ParseLinesWellFormed(lines: seq<string>, root: string)
    ensures forall i | 0 <= i < |ParseLines(lines, root)| :: WellFormed(ParseLines(lines, root)[i])
  {
    if lines != [] {
      ParseLinesWellFormed(lines[..|lines| - 1], root);
      var e := ParseLine(lines[|lines| - 1], root);
      if e.Some? {
        ParseLineWellFormed(lines[|lines| - 1], root);
      }
    }
  }

  /** With the root "/", an entry is kept only when its directory is spelled with a leading
      "//"; a canonical absolute directory is dropped. */
  lemma RootSlashDropsCanonicalDirs(line: string)
    requires |Fields(line)| >= 4
    requires !StartsWith(AbsDir(Fields(line)[1]), "//")
    ensures ParseLine(line, "/") == None
  {
  }

  // ---------------------------------------------------------------- serialising

  /** One entry as `device dir type opts`. */
  function Line(m: Mount): string {
    m.device + " " + m.dir + " " + m.fstype + " " + m.opts
  }

  function Lines(ms: seq<Mount>): (r: seq<string>)
    ensures |r| == |ms| && forall i | 0 <= i < |ms| :: r[i] == Line(ms[i])
  {
    if ms == [] then [] else Lines(ms[..|ms| - 1]) + [Line(ms[|ms| - 1])]
  }

  /** `str(mounts)`: the lines joined by newlines. */
  function Serialize(ms: seq<Mount>): string {
    JoinWith(Lines(ms), '\n')
  }

  /** `len(mounts)`: zero exactly when `str(mounts)` is empty, so a table worth saving is one
      whose text is not. */
  function Len(t: Table): (r: nat)
    ensures r == 0 <==> Serialize(t.mounts) == ""
  {
    SerializeEmpty(t.mounts);
    |t.mounts|
  }

  /** Every line holds at least the three separating spaces, so only no mount writes no text. */
  lemma SerializeEmpty(ms: seq<Mount>)
    ensures ms == [] <==> Serialize(ms) == ""
  {
    if ms != [] {
      JoinWithStartsWith(Lines(ms), '\n');
      assert |Line(ms[0])| >= 3;
    }
  }

  lemma FieldsCons(a: string, b: string, fields: seq<string>)
    requires NoSpace(a) && b != [] && !IsSpace(b[0])
    requires SplitWs(b) == fields
    ensures SplitWs(a + " " + b) == [a] + fields
  {
    SplitWsCons(a, b);
  }

  lemma LineShape(m: Mount)
    ensures Line(m) == m.device + " " + (m.dir + " " + (m.fstype + " " + m.opts))
  {
  }

  lemma LineFields(m: Mount)
    requires WellFormed(m)
    ensures SplitWs(Line(m)) == [m.device, m.dir, m.fstype, m.opts]
  {
    var rest := m.fstype + " " + m.opts;
    var tail := m.dir + " " + rest;
    LineShape(m);
    assert rest[0] == m.fstype[0] && tail[0] == m.dir[0];
    SplitWsWord(m.opts);
    FieldsCons(m.fstype, m.opts, [m.opts]);
    FieldsCons(m.dir, rest, [m.fstype, m.opts]);
    FieldsCons(m.device, tail, [m.dir, m.fstype, m.opts]);
  }

  lemma LineStripped(m: Mount)
    requires WellFormed(m)
    ensures Strip(Line(m)) == Line(m)
  {
    var l := Line(m);
    assert l[0] == m.device[0];
    assert l[|l| - 1] == m.opts[|m.opts| - 1];
    StripKeeps(l);
  }

  /** The line written for a well-formed entry parses back to it. */
  lemma LineParses(m: Mount)
    requires WellFormed(m)
    ensures ParseLine(Line(m), "") == Some(m)
  {
    LineFields(m);
    LineStripped(m);
    assert Line(m)[0] == m.device[0];
  }

  lemma {:induction false} LinesParse(ms: seq<Mount>)
    requires forall i | 0 <= i < |ms| :: WellFormed(ms[i])
    ensures ParseLines(Lines(ms), "") == ms
    decreases |ms|
  {
    if ms != [] {
      var init := ms[..|ms| - 1];
      var last := ms[|ms| - 1];
      assert init + [last] == ms;
      assert Lines(ms) == Lines(init) + [Line(last)];
      LinesParse(init);
      LineParses(last);
      ParseLinesSnoc(Lines(init), Line(last), "");
    }
  }

  /** Parsing the serialised table with no root gives the same entries back. */
  lemma SerializeRoundTrip(ms: seq<Mount>)
    requires forall i | 0 <= i < |ms| :: WellFormed(ms[i])
    ensures Parse(Serialize(ms), "") == ms
  {
    if ms == [] {
      assert SplitOn("", '\n') == [""];
      assert Strip("") == "";
      assert ParseLines([""], "") == ParseLines([], "") + Kept(ParseLine("", ""));
    } else {
      var ls := Lines(ms);
      forall i | 0 <= i < |ls| ensures '\n' !in ls[i] {
        var m := ms[i];
        assert ls[i] == m.device + " " + m.dir + " " + m.fstype + " " + m.opts;
      }
      SplitJoin(ls, '\n');
      LinesParse(ms);
    }
  }

  /** What deck.py relies on: a table parsed from any text (filtered by any root), written
      with `str` and parsed again without a root, is the same table. */
  lemma ParseSerializeParse(text: string, root: string)
    ensures Parse(Serialize(Parse(text, root)), "") == Parse(text, root)
  {
    ParseLinesWellFormed(SplitOn(text, '\n'), root);
    SerializeRoundTrip(Parse(text, root));
  }

  // ---------------------------------------------------------------- lookup

  /** Two directories name the same mount point once trailing slashes are stripped. */
  predicate SameDir(a: string, b: string) {
    RStripSlash(a) == RStripSlash(b)
  }

  /** `Mounts.exists(dir)`: the scan over the entries for one at `dir`. */
  function Exists(ms: seq<Mount>, dir: string): bool {
    if ms == [] then false
    else SameDir(ms[|ms| - 1].dir, dir) || Exists(ms[..|ms| - 1], dir)
  }

  /** The scan finds an entry exactly when some entry's directory is `dir`, trailing slashes
      ignored. */
  lemma {:induction false} ExistsIff(ms: seq<Mount>, dir: string)
    ensures Exists(ms, dir) <==> exists i | 0 <= i < |ms| :: SameDir(ms[i].dir, dir)
  {
    if ms != [] {
      var init := ms[..|ms| - 1];
      ExistsIff(init, dir);
      if Exists(init, dir) {
        var i :| 0 <= i < |init| && SameDir(init[i].dir, dir);
        assert ms[i] == init[i];
      }
      if exists i | 0 <= i < |ms| :: SameDir(ms[i].dir, dir) {
        var i :| 0 <= i < |ms| && SameDir(ms[i].dir, dir);
        if i < |init| {
          assert init[i] == ms[i];
        }
      }
    }
  }

  /** `exists` on a path with trailing slashes answers as on the stripped path. */
  lemma {:induction false} ExistsIgnoresTrailingSlash(ms: seq<Mount>, dir: string)
    ensures Exists(ms, dir) == Exists(ms, RStripSlash(dir))
  {
    if ms != [] {
      RStripSlashIdempotent(dir);
      ExistsIgnoresTrailingSlash(ms[..|ms| - 1], dir);
    }
  }

  // ---------------------------------------------------------------- applying to the kernel

  /** Where an entry is mounted: `root + dir` when a root is given, else `dir`. */
  function RealDir(root: string, dir: string): string {
    if root != "" then root + dir else dir
  }

  /** A command issued to the system: `mount`/`umount` for single entries, and the
      `useraufs-mount`/`-umount`/`-remount` helpers for union mounts. */
  datatype Command = MountCmd(fstype: string, opts: string, device: string, dir: string)
                   | UmountCmd(dir: string)
                   | UnionMountCmd(path: string, branches: seq<string>)
                   | UnionUmountCmd(path: string)
                   | UnionRemountCmd(path: string, operations: seq<string>)

  /** One branch of a union mount and whether it is writable. */
  datatype Branch = Branch(dir: string, writable: bool)

  /** The kernel's table after mounting `m` (Mount.mount): unchanged when already mounted. */
  function MountOne(m: Mount, root: string, table: seq<Mount>): seq<Mount> {
    var at := RealDir(root, m.dir);
    if Exists(table, at) then table else table + [Mount(m.device, at, m.fstype, m.opts)]
  }

  /** The command Mount.mount issues, if any. */
  function MountCmdOf(m: Mount, root: string, table: seq<Mount>): seq<Command> {
    var at := RealDir(root, m.dir);
    if Exists(table, at) then [] else [MountCmd(m.fstype, m.opts, m.device, at)]
  }

  /** The kernel table without its latest mount at `dir`. */
  function RemoveLast(table: seq<Mount>, dir: string): seq<Mount> {
    if table == [] then []
    else if SameDir(table[|table| - 1].dir, dir) then table[..|table| - 1]
    else RemoveLast(table[..|table| - 1], dir) + [table[|table| - 1]]
  }

  /** Removing the latest mount at a mounted directory takes out exactly one entry. */
  lemma {:induction false} RemoveLastLength(table: seq<Mount>, dir: string)
    requires Exists(table, dir)
    ensures |RemoveLast(table, dir)| == |table| - 1
  {
    if !SameDir(table[|table| - 1].dir, dir) {
      RemoveLastLength(table[..|table| - 1], dir);
    }
  }

  /** The kernel's table after unmounting `m` (Mount.umount): unchanged when not mounted. */
  function UmountOne(m: Mount, root: string, table: seq<Mount>): seq<Mount> {
    var at := RealDir(root, m.dir);
    if Exists(table, at) then RemoveLast(table, at) else table
  }

  function UmountCmdOf(m: Mount, root: string, table: seq<Mount>): seq<Command> {
    var at := RealDir(root, m.dir);
    if Exists(table, at) then [UmountCmd(at)] else []
  }

  /** The kernel's table once `Mounts.mount` has applied the first `n` entries, in order. */
  function Mounted(ms: seq<Mount>, n: nat, root: string, table: seq<Mount>): seq<Mount>
    requires n <= |ms|
  {
    if n == 0 then table else MountOne(ms[n - 1], root, Mounted(ms, n - 1, root, table))
  }

  /** The commands those first `n` steps issue. */
  function MountLog(ms: seq<Mount>, n: nat, root: string, table: seq<Mount>): seq<Command>
    requires n <= |ms|
  {
    if n == 0 then []
    else MountLog(ms, n - 1, root, table) + MountCmdOf(ms[n - 1], root, Mounted(ms, n - 1, root, table))
  }

  /** The kernel's table once `Mounts.umount` has removed the entries from index `i` on,
      the last entry first. */
  function Unmounted(ms: seq<Mount>, i: nat, root: string, table: seq<Mount>): seq<Mount>
    requires i <= |ms|
    decreases |ms| - i
  {
    if i == |ms| then table else UmountOne(ms[i], root, Unmounted(ms, i + 1, root, table))
  }

  /** The commands those steps issue. */
  function UmountLog(ms: seq<Mount>, i: nat, root: string, table: seq<Mount>): seq<Command>
    requires i <= |ms|
    decreases |ms| - i
  {
    if i == |ms| then []
    else UmountLog(ms, i + 1, root, table) + UmountCmdOf(ms[i], root, Unmounted(ms, i + 1, root, table))
  }

  /** The root `Mounts.mount` and `Mounts.umount` use: the given one, else the table's. */
  function RootOr(root: Option<string>, t: Table): string {
    if root.Some? then root.value else t.root
  }

  lemma ConcatAssoc<T>(a: seq<T>, b: seq<T>, c: seq<T>)
    ensures a + (b + c) == (a + b) + c
  {
  }

  /** The kernel: its table of single mounts (what /proc/mounts lists), its union mounts
      (what `useraufs-show` lists: mount point and branches) and the commands issued so far. */
  class Kernel {
    var table: seq<Mount>
    var unions: map<string, seq<Branch>>
    var log: seq<Command>

    constructor (table: seq<Mount>, unions: map<string, seq<Branch>>)
      ensures this.table == table && this.unions == unions && log == []
    {
      this.table := table;
      this.unions := unions;
      log := [];
    }

    /** `is_mounted(dir)`: the kernel table lists `dir`, trailing slashes ignored. */
    function IsMounted(dir: string): (r: bool)
      reads this
      ensures r <==> exists i | 0 <= i < |table| :: SameDir(table[i].dir, dir)
    {
      ExistsIff(table, dir);
      Exists(table, dir)
    }

    /** `Mount.mount(root)`: False and no effect when already mounted, else mounts. */
    method MountEntry(m: Mount, root: string) returns (done: bool)
      modifies this`table, this`log
      ensures done == !old(IsMounted(RealDir(root, m.dir)))
      ensures table == MountOne(m, root, old(table))
      ensures log == old(log) + MountCmdOf(m, root, old(table))
    {
      var at := RealDir(root, m.dir);
      if IsMounted(at) {
        return false;
      }
      table := table + [Mount(m.device, at, m.fstype, m.opts)];
      log := log + [MountCmd(m.fstype, m.opts, m.device, at)];
      done := true;
    }

    /** `Mount.umount(root)`: False and no effect when not mounted, else unmounts. */
    method UmountEntry(m: Mount, root: string) returns (done: bool)
      modifies this`table, this`log
      ensures done == old(IsMounted(RealDir(root, m.dir)))
      ensures table == UmountOne(m, root, old(table))
      ensures log == old(log) + UmountCmdOf(m, root, old(table))
    {
      var at := RealDir(root, m.dir);
      if !IsMounted(at) {
        return false;
      }
      table := RemoveLast(table, at);
      log := log + [UmountCmd(at)];
      done := true;
    }

    /** The loop of `Mounts.mount`: every entry in table order. */
    method MountAll(ms: seq<Mount>, root: string)
      modifies this`table, this`log
      ensures table == Mounted(ms, |ms|, root, old(table))
      ensures log == old(log) + MountLog(ms, |ms|, root, old(table))
    {
      ghost var t0, l0 := table, log;
      for i := 0 to |ms|
        invariant table == Mounted(ms, i, root, t0)
        invariant log == l0 + MountLog(ms, i, root, t0)
      {
        ConcatAssoc(l0, MountLog(ms, i, root, t0), MountCmdOf(ms[i], root, table));
        var _ := MountEntry(ms[i], root);
      }
    }

    /** The loop of `Mounts.umount`: every entry in reverse table order. */
    method UmountAll(ms: seq<Mount>, root: string)
      modifies this`table, this`log
      ensures table == Unmounted(ms, 0, root, old(table))
      ensures log == old(log) + UmountLog(ms, 0, root, old(table))
    {
      ghost var t0, l0 := table, log;
      var i := |ms|;
      while i > 0
        invariant 0 <= i <= |ms|
        invariant table == Unmounted(ms, i, root, t0)
        invariant log == l0 + UmountLog(ms, i, root, t0)
      {
        i := i - 1;
        ConcatAssoc(l0, UmountLog(ms, i + 1, root, t0), UmountCmdOf(ms[i], root, table));
        var _ := UmountEntry(ms[i], root);
      }
    }

    /** `Mounts.mount(root)`: a root of None means the table's own. */
    method MountTable(t: Table, root: Option<string>)
      modifies this`table, this`log
      ensures table == Mounted(t.mounts, |t.mounts|, RootOr(root, t), old(table))
      ensures log == old(log) + MountLog(t.mounts, |t.mounts|, RootOr(root, t), old(table))
    {
      MountAll(t.mounts, RootOr(root, t));
    }

    /** `Mounts.umount(root)`. */
    method UmountTable(t: Table, root: Option<string>)
      modifies this`table, this`log
      ensures table == Unmounted(t.mounts, 0, RootOr(root, t), old(table))
      ensures log == old(log) + UmountLog(t.mounts, 0, RootOr(root, t), old(table))
    {
      UmountAll(t.mounts, RootOr(root, t));
    }
  }

  /** A mounted directory is mounted again by nothing and unmounted by one step. */
  lemma MountOneMounts(m: Mount, root: string, table: seq<Mount>)
    ensures Exists(MountOne(m, root, table), RealDir(root, m.dir))
    ensures Exists(table, RealDir(root, m.dir)) ==>
      |UmountOne(m, root, table)| == |table| - 1 && MountOne(m, root, table) == table
  {
    var at := RealDir(root, m.dir);
    if !Exists(table, at) {
      var t := MountOne(m, root, table);
      assert t[..|t| - 1] == table;
    } else {
      RemoveLastLength(table, at);
    }
  }

  // ---------------------------------------------------------------- mount then umount

  /** The real directories of the entries are pairwise distinct and none is mounted yet. */
  predicate Fresh(ms: seq<Mount>, root: string, table: seq<Mount>) {
    && (forall i, j | 0 <= i < j < |ms| ::
          !SameDir(RealDir(root, ms[i].dir), RealDir(root, ms[j].dir)))
    && (forall i | 0 <= i < |ms| :: !Exists(table, RealDir(root, ms[i].dir)))
  }

  /** Where the kernel lists an entry mounted under `root`. */
  function Entry(m: Mount, root: string): Mount {
    Mount(m.device, RealDir(root, m.dir), m.fstype, m.opts)
  }

  /** The kernel entries for the first `n` entries. */
  function Entries(ms: seq<Mount>, n: nat, root: string): (r: seq<Mount>)
    requires n <= |ms|
    ensures |r| == n && forall i | 0 <= i < n :: r[i] == Entry(ms[i], root)
  {
    if n == 0 then [] else Entries(ms, n - 1, root) + [Entry(ms[n - 1], root)]
  }

  /** The commands mounting every entry issues, in table order. */
  function MountCmds(ms: seq<Mount>, root: string): (r: seq<Command>)
    ensures |r| == |ms|
    ensures forall i | 0 <= i < |ms| ::
      r[i] == MountCmd(ms[i].fstype, ms[i].opts, ms[i].device, RealDir(root, ms[i].dir))
  {
    if ms == [] then []
    else
      var m := ms[|ms| - 1];
      MountCmds(ms[..|ms| - 1], root) + [MountCmd(m.fstype, m.opts, m.device, RealDir(root, m.dir))]
  }

  /** The commands unmounting every entry issues: the last entry's first. */
  function UmountCmds(ms: seq<Mount>, root: string): (r: seq<Command>)
    ensures |r| == |ms|
    ensures forall i | 0 <= i < |ms| :: r[i] == UmountCmd(RealDir(root, ms[|ms| - 1 - i].dir))
  {
    if ms == [] then [] else UmountCmds(ms[1..], root) + [UmountCmd(RealDir(root, ms[0].dir))]
  }

  lemma {:induction false} ExistsAppend(a: seq<Mount>, b: seq<Mount>, dir: string)
    ensures Exists(a + b, dir) <==> Exists(a, dir) || Exists(b, dir)
  {
    if b != [] {
      var init := b[..|b| - 1];
      assert (a + b)[..|a + b| - 1] == a + init;
      ExistsAppend(a, init, dir);
    } else {
      assert a + b == a;
    }
  }

  /** Entry `n` of a fresh table is neither mounted nor among the entries before it. */
  lemma FreshAt(ms: seq<Mount>, n: nat, root: string, table: seq<Mount>)
    requires n < |ms| && Fresh(ms, root, table)
    ensures !Exists(table + Entries(ms, n, root), RealDir(root, ms[n].dir))
  {
    var at := RealDir(root, ms[n].dir);
    assert !Exists(Entries(ms, n, root), at) by {
      ExistsIff(Entries(ms, n, root), at);
    }
    ExistsAppend(table, Entries(ms, n, root), at);
  }

  lemma MountCmdsStep(ms: seq<Mount>, n: nat, root: string)
    requires n < |ms|
    ensures MountCmds(ms[..n + 1], root)
         == MountCmds(ms[..n], root) + [MountCmd(ms[n].fstype, ms[n].opts, ms[n].device, RealDir(root, ms[n].dir))]
  {
    assert ms[..n + 1][..n] == ms[..n];
  }

  /** Mounting the first `n` fresh entries appends exactly their kernel entries, in order,
      issuing one command each. */
  lemma {:induction false} MountFresh(ms: seq<Mount>, n: nat, root: string, table: seq<Mount>)
    requires n <= |ms| && Fresh(ms, root, table)
    ensures Mounted(ms, n, root, table) == table + Entries(ms, n, root)
    ensures MountLog(ms, n, root, table) == MountCmds(ms[..n], root)
  {
    if n > 0 {
      MountFresh(ms, n - 1, root, table);
      FreshAt(ms, n - 1, root, table);
      ConcatAssoc(table, Entries(ms, n - 1, root), [Entry(ms[n - 1], root)]);
      MountCmdsStep(ms, n - 1, root);
    }
  }

  lemma UmountCmdsStep(ms: seq<Mount>, i: nat, root: string)
    requires i < |ms|
    ensures UmountCmds(ms[i..], root) == UmountCmds(ms[i + 1..], root) + [UmountCmd(RealDir(root, ms[i].dir))]
  {
    assert ms[i..][1..] == ms[i + 1..];
  }

  /** Unmounting, last entry first, the kernel entries of the whole table takes the kernel
      back to the entries before index `i`, issuing one umount per entry in reverse order. */
  lemma {:induction false} UmountAfterMount(ms: seq<Mount>, i: nat, root: string, table: seq<Mount>)
    requires i <= |ms|
    ensures Unmounted(ms, i, root, table + Entries(ms, |ms|, root)) == table + Entries(ms, i, root)
    ensures UmountLog(ms, i, root, table + Entries(ms, |ms|, root)) == UmountCmds(ms[i..], root)
    decreases |ms| - i
  {
    if i < |ms| {
      UmountAfterMount(ms, i + 1, root, table);
      var t1 := table + Entries(ms, i + 1, root);
      ConcatAssoc(table, Entries(ms, i, root), [Entry(ms[i], root)]);
      assert t1[|t1| - 1] == Entry(ms[i], root) && t1[..|t1| - 1] == table + Entries(ms, i, root);
      UmountCmdsStep(ms, i, root);
    } else {
      assert ms[i..] == [];
    }
  }

  /** `Mounts.mount` then `Mounts.umount` on an unmounted table with distinct directories
      restores the kernel table; the umounts run in reverse order of the mounts. */
  lemma MountThenUmount(ms: seq<Mount>, root: string, table: seq<Mount>)
    requires Fresh(ms, root, table)
    ensures Unmounted(ms, 0, root, Mounted(ms, |ms|, root, table)) == table
    ensures MountLog(ms, |ms|, root, table) + UmountLog(ms, 0, root, Mounted(ms, |ms|, root, table))
         == MountCmds(ms, root) + UmountCmds(ms, root)
  {
    MountFresh(ms, |ms|, root, table);
    UmountAfterMount(ms, 0, root, table);
    assert ms[..|ms|] == ms && ms[0..] == ms;
  }
}
