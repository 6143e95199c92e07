/**
 * `Paths`: a directory whose registered file names are read back as attributes. A name
 * with a slash registers its first component as a sub-directory, itself a `Paths` object
 * attached to the parent as an attribute, and the rest of the name inside it.
 *
 * A `Paths` object together with the sub-directory objects hanging from it is held as one
 * tree: each object is named by the chain of attribute names that leads to it from the
 * root (the root is `[]`, `paths.sub_dir` is `["sub_dir"]`). For every object the tree
 * keeps its directory path and its `files` dictionary (attribute name to file name).
 */
module Paths {
  import opened Wrappers
  import opened Text

  // ---------------------------------------------------------------- names

  /** One character of `re.sub(r'[\.-]', '_', fname)`. */
  function Mangle(c: char): char {
    if c == '.' || c == '-' then '_' else c
  }

  /** `_fname2attr(fname)`: one character for each character of the name. */
  function Attr(fname: string): (r: string)
    ensures |r| == |fname|
  {
    if fname == [] then [] else [Mangle(fname[0])] + Attr(fname[1..])
  }

  /** Every `.` and `-` of the name becomes `_` and every other character stays where it
      was; so no `.` or `-` is left, and a slash stays a slash. */
  lemma {:induction false} AttrAt(fname: string)
    ensures forall i | 0 <= i < |fname| :: Attr(fname)[i] == (if fname[i] == '.' || fname[i] == '-' then '_' else fname[i])
    ensures '.' !in Attr(fname) && '-' !in Attr(fname)
    ensures '/' in Attr(fname) <==> '/' in fname
  {
    if fname != [] {
      AttrAt(fname[1..]);
      var r := Attr(fname);
      assert r == [Mangle(fname[0])] + Attr(fname[1..]);
      assert forall i | 1 <= i < |fname| :: r[i] == Attr(fname[1..])[i - 1] && fname[i] == fname[1..][i - 1];
      assert fname == [fname[0]] + fname[1..];
    }
  }

  /** `s.split(sep, 1)` on a string that holds `sep`: the text before the first `sep`, and
      the text after it. */
  function SplitFirst(s: string, sep: char): (r: (string, string))
    requires sep in s
    ensures r.0 + [sep] + r.1 == s && sep !in r.0
    ensures |r.1| < |s|
  {
    if s[0] == sep then
      assert s == [] + [sep] + s[1..];
      ([], s[1..])
    else
      var (a, b) := SplitFirst(s[1..], sep);
      assert s == [s[0]] + s[1..];
      ([s[0]] + a, b)
  }

  // ---------------------------------------------------------------- the tree

  /** The directory path of each object, and its `files` dictionary. */
  datatype Tree = Tree(dirs: map<seq<string>, string>, files: map<seq<string>, map<string, string>>)

  /** The root is there, every object has a dictionary, and every sub-directory object
      hangs from an object of the tree. */
  predicate WellFormed(t: Tree) {
    && [] in t.dirs && t.dirs.Keys == t.files.Keys
    && (forall c | c in t.dirs && c != [] :: c[..|c| - 1] in t.dirs)
  }

  /** `Paths(path)` before anything is registered. */
  function Empty(path: string): (t: Tree)
    ensures WellFormed(t) && t.dirs == map[[] := path]
  {
    Tree(map[[] := path], map[[] := map[]])
  }

  /** `register(filename)` on the object at `at`. A name without a slash is filed under its
      attribute. Otherwise the name is split at its first slash; the sub-directory object
      for the first part is reused when the attribute names one, and made, rooted at
      `join(path, subdir)`, when not; the rest is registered in it. Nothing registered
      before is lost and no directory moves. */
  function Registered(t: Tree, at: seq<string>, filename: string): (r: Tree)
    requires WellFormed(t) && at in t.dirs
    ensures WellFormed(r) && t.dirs.Keys <= r.dirs.Keys
    ensures forall c | c in t.dirs :: r.dirs[c] == t.dirs[c]
    decreases |filename|
  {
    if '/' in filename then
      var (subdir, rest) := SplitFirst(filename, '/');
      Registered(Attach(t, at, subdir), at + [Attr(subdir)], rest)
    else
      Filed(t, at, filename)
  }

  /** The sub-directory object for `subdir` under the object at `at`: kept when the
      attribute names one, else made and rooted at `join(path, subdir)`. */
  function Attach(t: Tree, at: seq<string>, subdir: string): (r: Tree)
    requires WellFormed(t) && at in t.dirs
    ensures WellFormed(r) && r.files.Keys == r.dirs.Keys == t.dirs.Keys + {at + [Attr(subdir)]}
    ensures forall c | c in t.dirs :: r.dirs[c] == t.dirs[c] && r.files[c] == t.files[c]
    ensures at + [Attr(subdir)] !in t.dirs ==>
      r.dirs[at + [Attr(subdir)]] == Join(t.dirs[at], subdir) && r.files[at + [Attr(subdir)]] == map[]
  {
    var child := at + [Attr(subdir)];
    assert child[..|child| - 1] == at;
    if child in t.dirs then t else Tree(t.dirs[child := Join(t.dirs[at], subdir)], t.files[child := map[]])
  }

  lemma AttachPresent(t: Tree, at: seq<string>, subdir: string)
    requires WellFormed(t) && at in t.dirs && at + [Attr(subdir)] in t.dirs
    ensures Attach(t, at, subdir) == t
  {
  }

  /** `files[attr] = filename` on the object at `at`. */
  function Filed(t: Tree, at: seq<string>, f: string): (r: Tree)
    requires WellFormed(t) && at in t.dirs
    ensures WellFormed(r) && r.dirs == t.dirs
    ensures r.files == t.files[at := t.files[at][Attr(f) := f]]
  {
    t.(files := t.files[at := t.files[at][Attr(f) := f]])
  }

  /** The constructor's loop: each name registered at the root, in order. */
  function RegisterAll(t: Tree, names: seq<string>): (r: Tree)
    requires WellFormed(t)
    ensures WellFormed(r)
    decreases |names|
  {
    if names == [] then t else RegisterAll(Registered(t, [], names[0]), names[1..])
  }

  /** What reading an attribute gives: a sub-directory object, or a file's path. */
  datatype Attribute = Sub(at: seq<string>) | FilePath(path: string)

  /** Reading attribute `name` of the object at `at`: an attached sub-directory object is
      an attribute of the instance and is found first; otherwise `__getattr__` gives
      `join(path, files[name])`, or raises AttributeError. */
  function GetAttr(t: Tree, at: seq<string>, name: string): (r: Result<Attribute, string>)
    requires WellFormed(t) && at in t.dirs
    ensures r.Err? <==> at + [name] !in t.dirs && name !in t.files[at]
    ensures r.Err? ==> r.error == "no such attribute: " + name
    ensures r.Ok? && r.value.Sub? ==> r.value.at == at + [name] && r.value.at in t.dirs
  {
    if at + [name] in t.dirs then Ok(Sub(at + [name]))
    else if name in t.files[at] then Ok(FilePath(Join(t.dirs[at], t.files[at][name])))
    else Err("no such attribute: " + name)
  }

  /** `listdir()`: the file names registered directly in the object at `at`. */
  function Listdir(t: Tree, at: seq<string>): set<string>
    requires WellFormed(t) && at in t.dirs
  {
    t.files[at].Values
  }

  // ---------------------------------------------------------------- register

  /** A name without a slash reads back as its path under the object's directory, through
      its attribute, unless a sub-directory object of that attribute shadows it; every
      other attribute of every object reads as before. */
  lemma RegisterFile(t: Tree, at: seq<string>, f: string, c: seq<string>, name: string)
    requires WellFormed(t) && at in t.dirs && '/' !in f && c in t.dirs
    ensures var r := Registered(t, at, f);
      && r.dirs == t.dirs
      && (at + [Attr(f)] !in t.dirs ==> GetAttr(r, at, Attr(f)) == Ok(FilePath(Join(t.dirs[at], f))))
      && (c != at || name != Attr(f) ==> GetAttr(r, c, name) == GetAttr(t, c, name))
  {
  }

  /** A name with a slash makes (or reuses) the sub-directory object for its first part and
      registers the rest there: the attribute of the first part reads as that object, whose
      directory is `join(path, subdir)` when it is new and unchanged when it was there. */
  lemma RegisterNested(t: Tree, at: seq<string>, f: string)
    requires WellFormed(t) && at in t.dirs && '/' in f
    ensures var (subdir, rest) := SplitFirst(f, '/');
      var child := at + [Attr(subdir)];
      var r := Registered(t, at, f);
      && GetAttr(r, at, Attr(subdir)) == Ok(Sub(child))
      && r.dirs[child] == (if child in t.dirs then t.dirs[child] else Join(t.dirs[at], subdir))
      && ('/' !in rest ==> (child + [Attr(rest)] !in r.dirs ==>
            GetAttr(r, child, Attr(rest)) == Ok(FilePath(Join(r.dirs[child], rest)))))
  {
    var (subdir, rest) := SplitFirst(f, '/');
    var child := at + [Attr(subdir)];
    assert child[..|child| - 1] == at;
    var t1 := if child in t.dirs then t else Tree(t.dirs[child := Join(t.dirs[at], subdir)], t.files[child := map[]]);
    assert Registered(t, at, f) == Registered(t1, child, rest);
    if '/' !in rest {
      RegisterFile(t1, child, rest, child, Attr(rest));
    }
  }

  /** Registering the same name twice is registering it once, so a name listed twice among
      a constructor's names changes nothing. */
  lemma {:induction false} RegisterIdempotent(t: Tree, at: seq<string>, f: string)
    requires WellFormed(t) && at in t.dirs
    ensures Registered(Registered(t, at, f), at, f) == Registered(t, at, f)
    decreases |f|
  {
    if '/' in f {
      var (subdir, rest) := SplitFirst(f, '/');
      var child := at + [Attr(subdir)];
      var t1 := Attach(t, at, subdir);
      var r := Registered(t1, child, rest);
      assert Registered(t, at, f) == r;
      AttachPresent(r, at, subdir);
      assert Registered(r, at, f) == Registered(r, child, rest);
      RegisterIdempotent(t1, child, rest);
    } else {
      var r := Registered(t, at, f);
      assert r.files[at] == t.files[at][Attr(f) := f];
      assert Registered(r, at, f).files[at] == r.files[at];
    }
  }

  /** After registering a name without a slash, `listdir()` holds it, and loses at most the
      name that was filed under the same attribute. */
  lemma ListdirAfterRegister(t: Tree, at: seq<string>, f: string)
    requires WellFormed(t) && at in t.dirs && '/' !in f
    ensures var after := Listdir(Registered(t, at, f), at);
      && f in after
      && after <= Listdir(t, at) + {f}
      && (Attr(f) !in t.files[at] ==> after == Listdir(t, at) + {f})
  {
    assert Registered(t, at, f).files[at] == t.files[at][Attr(f) := f];
    ValuesAfterUpdate(t.files[at], Attr(f), f);
  }

  lemma ValuesAfterUpdate<K, V>(m: map<K, V>, k: K, v: V)
    ensures v in m[k := v].Values && m[k := v].Values <= m.Values + {v}
    ensures k !in m ==> m[k := v].Values == m.Values + {v}
  {
    var m' := m[k := v];
    assert m'[k] == v;
    forall x | x in m'.Values ensures x in m.Values + {v} {
      var a :| a in m' && m'[a] == x;
      if a != k {
        assert m[a] == x;
      }
    }
    if k !in m {
      forall x | x in m.Values ensures x in m'.Values {
        var a :| a in m && m[a] == x;
        assert m'[a] == x;
      }
    }
  }

  // ---------------------------------------------------------------- class-level files

  /** A class of the `Paths` family: its own `files` list and its bases; `isPaths` says
      whether it is `Paths` or derives from it. */
  datatype Class = Class(files: seq<string>, bases: seq<Class>, isPaths: bool)

  function Concat(pieces: seq<seq<string>>): (r: seq<string>)
    ensures forall x :: x in r <==> exists i | 0 <= i < |pieces| :: x in pieces[i]
  {
    if pieces == [] then []
    else
      var r := pieces[0] + Concat(pieces[1..]);
      assert forall i | 1 <= i < |pieces| :: pieces[i] == pieces[1..][i - 1];
      r
  }

  /** `classfiles(cls)`: the class's own files, then those of each base that is a `Paths`
      class, in the order of the bases. */
  function ClassFiles(c: Class): seq<string>
    decreases c
  {
    c.files + Concat(seq(|c.bases|, i requires 0 <= i < |c.bases| =>
                           if c.bases[i].isPaths then ClassFiles(c.bases[i]) else []))
  }

  /** A name is among the class files exactly when the class lists it or some `Paths` base
      has it among its own class files; bases outside the family add nothing. */
  lemma ClassFilesMembers(c: Class, x: string)
    ensures x in ClassFiles(c) <==>
      x in c.files || exists i | 0 <= i < |c.bases| :: c.bases[i].isPaths && x in ClassFiles(c.bases[i])
  {
    var pieces := seq(|c.bases|, i requires 0 <= i < |c.bases| =>
                        if c.bases[i].isPaths then ClassFiles(c.bases[i]) else []);
    assert ClassFiles(c) == c.files + Concat(pieces);
    if exists i | 0 <= i < |c.bases| :: c.bases[i].isPaths && x in ClassFiles(c.bases[i]) {
      var i :| 0 <= i < |c.bases| && c.bases[i].isPaths && x in ClassFiles(c.bases[i]);
      assert x in pieces[i];
    }
  }

  // ---------------------------------------------------------------- the object

  /** A `Paths` object and the sub-directory objects attached to it. */
  class PathsObject {
    var dirs: map<seq<string>, string>
    var files: map<seq<string>, map<string, string>>

    function State(): Tree
      reads this
    {
      Tree(dirs, files)
    }

    /** `Paths(path, files)` of class `cls`: the given names, then the class files, each
        registered at the root in order. */
    constructor (path: string, names: seq<string>, cls: Class)
      ensures WellFormed(State())
      ensures State() == RegisterAll(Empty(path), names + ClassFiles(cls))
    {
      dirs := map[[] := path];
      files := map[[] := map[]];
      new;
      RegisterEach(names + ClassFiles(cls));
    }

    /** The registration loop of the constructor: each name at the root, in order. */
    method RegisterEach(all: seq<string>)
      requires WellFormed(State())
      modifies this
      ensures State() == RegisterAll(old(State()), all)
    {
      ghost var t0 := State();
      for i := 0 to |all|
        invariant WellFormed(State())
        invariant RegisterAll(t0, all) == RegisterAll(State(), all[i..])
      {
        assert all[i..][1..] == all[i + 1..];
        Register([], all[i]);
      }
      assert all[|all|..] == [];
    }

    /** `register(filename)` on the object at `at`: the object's dictionary, and the
        attached sub-directory objects, change as `Registered` says. */
    method Register(at: seq<string>, filename: string)
      requires WellFormed(State()) && at in dirs
      modifies this
      ensures State() == Registered(old(State()), at, filename)
      decreases |filename|
    {
      if '/' in filename {
        var (subdir, rest) := SplitFirst(filename, '/');
        var child := at + [Attr(subdir)];
        assert child[..|child| - 1] == at;
        if child !in dirs {
          dirs, files := dirs[child := Join(dirs[at], subdir)], files[child := map[]];
        }
        Register(child, rest);
      } else {
        files := files[at := files[at][Attr(filename) := filename]];
      }
    }

    /** Reading attribute `name` of the object at `at`. */
    function Get(at: seq<string>, name: string): Result<Attribute, string>
      reads this
      requires WellFormed(State()) && at in dirs
    {
      GetAttr(State(), at, name)
    }
  }

  /** A name without `.` or `-` is its own attribute. */
  lemma AttrPlain(s: string)
    requires '.' !in s && '-' !in s
    ensures Attr(s) == s
  {
    AttrAt(s);
    assert forall i | 0 <= i < |s| :: Attr(s)[i] == s[i];
  }
}
