/**
 * The contents of a `.deck` directory, as values: each deck's stack of numbered positions
 * (symlinks named "0", "1", ...), the pool of level directories, each level's reference
 * directory (the names of the decks whose stacks link it) and each deck's mounts file.
 * The invariant the storage operations keep, and what `add_level`, `delete`, `get_levels`
 * and the mounts file do to these contents.
 */
module DeckStore {
  import opened Wrappers
  import opened Text
  import opened Positions

  /** What a stack position links to: a directory outside the store (position 0, the deck's
      base) or a level of the pool. */
  datatype Target = External(path: string) | Level(id: string)

  /** A deck's stack: position number to link. */
  type Stack = map<nat, Target>

  /** `stacks/<name>/<pos>`, `levels/<id>`, `levels.refs/<id>/<name>` and `mounts/<name>`. */
  datatype Meta = Meta(stacks: map<string, Stack>, levels: set<string>,
                       refs: map<string, set<string>>, mounts: map<string, string>)

  /** The errors storage operations raise, by cause. */
  datatype Error =
    | AlreadyExists(name: string)        // create: the stack is already there
    | NotADirectory(path: string)        // create: the source is not a directory
    | OtherDirectory                     // create: branching from a deck of another `.deck`
    | NotADeck(path: string)             // Deck(path): no stack for it
    | AlreadyMounted(path: string)
    | NotMounted(path: string)
    | NotEmpty(path: string)             // init_create: the deck path is a file or a non-empty directory
    | NoStack(name: string)              // listing a stack directory that is not there
    | EmptyStack(name: string)           // `max` of no positions, or `levels[0]` of none
    | RefExists(id: string, name: string) // the reference link is already there
    | NoRef(id: string, name: string)    // the reference link to remove is not there
    | IdsExhausted                       // the rehash bound ran out
    | BlobError                          // the mounts blob could not be read or written

  /** A `.deck` directory that is not there: every listing is empty. */
  const Gone := Meta(map[], {}, map[], map[])

  // ---------------------------------------------------------------- paths

  /** `join(paths.levels, id)`. */
  function LevelPath(root: string, id: string): string {
    Join(Join(root, "levels"), id)
  }

  /** Where a link leads: an external directory as written, a level as its directory. */
  function Resolve(root: string, t: Target): string {
    match t
    case External(p) => p
    case Level(id) => LevelPath(root, id)
  }

  /** `basename(os.readlink(link))`: a level link ends in its id. */
  function LinkId(t: Target): string {
    match t
    case External(p) => Basename(p)
    case Level(id) => id
  }

  lemma JoinLevels(root: string)
    ensures Join(root, "levels") != [] && Join(root, "levels")[|Join(root, "levels")| - 1] == 's'
  {
  }

  /** The level's id is the last component of its resolved path. */
  lemma BasenameOfLevelPath(root: string, id: string)
    requires '/' !in id
    ensures Basename(LevelPath(root, id)) == id
  {
    var dir := Join(root, "levels");
    JoinLevels(root);
    assert !StartsWith(id, "/") by {
      if |id| > 0 { assert id[0] in id; }
    }
    assert LevelPath(root, id) == dir + "/" + id;
    BasenameOfChild(dir, id);
  }

  // ---------------------------------------------------------------- the invariant

  /** Positions 0..n-1, position 0 outside the pool, every other one a level whose id has
      no slash, and no level linked twice. */
  predicate StackOk(st: Stack) {
    && st.Keys == Dense(|st.Keys|)
    && 0 in st && st[0].External?
    && (forall p | p in st && p > 0 :: st[p].Level? && '/' !in st[p].id)
    && (forall p, q | p in st && q in st && 0 < p < q :: st[p] != st[q])
  }

  /** Deck `name`'s stack links level `id`. */
  predicate Holds(s: Meta, name: string, id: string) {
    name in s.stacks && Level(id) in s.stacks[name].Values
  }

  /** A level exists exactly when its reference directory does, that directory is never
      empty, and it names exactly the decks whose stacks link the level. */
  ghost predicate Valid(s: Meta) {
    StacksOk(s) && PoolOk(s) && RefsSound(s) && RefsComplete(s)
  }

  predicate StacksOk(s: Meta) {
    forall n | n in s.stacks :: StackOk(s.stacks[n])
  }

  predicate PoolOk(s: Meta) {
    s.refs.Keys == s.levels && forall id | id in s.refs :: s.refs[id] != {}
  }

  /** Every name in a reference directory is a deck linking that level. */
  ghost predicate RefsSound(s: Meta) {
    forall id, n | id in s.refs && n in s.refs[id] :: Holds(s, n, id)
  }

  /** Every level a deck links has that deck's name in its reference directory. */
  ghost predicate RefsComplete(s: Meta) {
    forall n, id | Holds(s, n, id) :: id in s.refs && n in s.refs[id]
  }

  /** A level exists if and only if some deck references it. */
  lemma LevelExistsIffReferenced(s: Meta, id: string)
    requires Valid(s)
    ensures id in s.levels <==> exists n :: Holds(s, n, id)
  {
    if id in s.levels {
      var n :| n in s.refs[id];
    }
  }

  /** The reference sets of a valid store follow from its stacks and its levels. */
  lemma RefsDetermined(a: Meta, b: Meta)
    requires Valid(a) && Valid(b)
    requires a.stacks == b.stacks && a.levels == b.levels
    ensures a.refs == b.refs
  {
    assert a.refs.Keys == b.refs.Keys;
    forall id | id in a.refs ensures a.refs[id] == b.refs[id] {
      RefsAgree(a, b, id);
    }
  }

  lemma RefsAgree(a: Meta, b: Meta, id: string)
    requires RefsSound(a) && RefsComplete(b) && RefsSound(b) && RefsComplete(a)
    requires a.stacks == b.stacks && id in a.refs && id in b.refs
    ensures a.refs[id] == b.refs[id]
  {
    forall n | n in a.refs[id] ensures n in b.refs[id] {
      assert Holds(a, n, id);
      assert Holds(b, n, id);
    }
    forall n | n in b.refs[id] ensures n in a.refs[id] {
      assert Holds(b, n, id);
      assert Holds(a, n, id);
    }
  }

  /** The empty store (no `.deck` directory) is valid. */
  lemma GoneValid()
    ensures Valid(Gone)
  {
  }

  // ---------------------------------------------------------------- add_level

  predicate IsMax(m: nat, s: set<nat>) {
    m in s && forall x | x in s :: x <= m
  }

  lemma {:induction false} MaxExists(s: set<nat>)
    requires s != {}
    ensures exists m :: IsMax(m, s)
    decreases s
  {
    var y :| y in s;
    assert forall x | x in s :: x == y || x in s - {y};
    if s != {y} {
      MaxExists(s - {y});
      var m :| IsMax(m, s - {y});
      if y > m {
        assert IsMax(y, s);
      } else {
        assert IsMax(m, s);
      }
    } else {
      assert IsMax(y, s);
    }
  }

  /** The largest position. */
  function MaxOf(s: set<nat>): (m: nat)
    requires s != {}
    ensures IsMax(m, s)
  {
    MaxExists(s);
    var m :| IsMax(m, s);
    m
  }

  /** `max(map(int, os.listdir(stack))) + 1`. */
  function NextPos(st: Stack): nat
    requires st != map[]
  {
    MaxOf(st.Keys) + 1
  }

  /** The next position of a dense stack is its size. */
  lemma NextPosDense(st: Stack)
    requires st != map[] && st.Keys == Dense(|st.Keys|)
    ensures NextPos(st) == |st.Keys|
  {
    var n := |st.Keys|;
    assert n - 1 in st.Keys by {
      var k :| k in st.Keys;
    }
  }

  /** What the outcome of a step is: the contents afterwards, and the error it raised, if any. */
  datatype Outcome = Outcome(state: Meta, err: Option<Error>)

  /** `makedirs(levels/<id>)` and `makedirs(levels.refs/<id>)`, both kept when present. */
  function Provision(s: Meta, id: string): Meta {
    s.(levels := s.levels + {id}, refs := if id in s.refs then s.refs else s.refs[id := {}])
  }

  /** `add_level(id)` for deck `name`: create the level and its reference directory, link
      the level at the next position, then add the reference. The listing of a missing
      stack, the `max` of an empty one and an existing reference link raise, leaving what
      was done before them in place. */
  function AddLevelOutcome(s: Meta, name: string, id: string): Outcome {
    var t := Provision(s, id);
    if name !in t.stacks then Outcome(t, Some(NoStack(name)))
    else if t.stacks[name] == map[] then Outcome(t, Some(EmptyStack(name)))
    else
      var st := t.stacks[name];
      var u := t.(stacks := t.stacks[name := st[NextPos(st) := Level(id)]]);
      if name in u.refs[id] then Outcome(u, Some(RefExists(id, name)))
      else Outcome(u.(refs := u.refs[id := u.refs[id] + {name}]), None)
  }

  /** The reference set of a level, empty when it has no reference directory. */
  function RefsOf(s: Meta, id: string): set<string> {
    if id in s.refs then s.refs[id] else {}
  }

  /** The contents after a successful `add_level(id)` on a dense stack. */
  function Added(s: Meta, name: string, id: string): Meta
    requires name in s.stacks
  {
    var st := s.stacks[name];
    Meta(s.stacks[name := st[|st.Keys| := Level(id)]], s.levels + {id},
         s.refs[id := RefsOf(s, id) + {name}], s.mounts)
  }

  /** On a valid store, adding to an existing stack a level it does not link yet succeeds;
      the stack gains exactly one position, numbered by its size, so positions 0..N become
      0..N+1, and the level gains the deck as a reference. */
  lemma AddLevelAppends(s: Meta, name: string, id: string)
    requires name in s.stacks && StackOk(s.stacks[name]) && name !in RefsOf(s, id)
    ensures AddLevelOutcome(s, name, id) == Outcome(Added(s, name, id), None)
  {
    var st := s.stacks[name];
    assert 0 in st;
    NextPosDense(st);
    var t := Provision(s, id);
    assert t.stacks == s.stacks && id in t.refs && t.refs[id] == RefsOf(s, id);
    var x := RefsOf(s, id) + {name};
    if id !in s.refs {
      MapOverwrite(s.refs, id, {}, x);
    }
  }

  lemma MapOverwrite<K, V>(m: map<K, V>, k: K, a: V, b: V)
    ensures m[k := a][k := b] == m[k := b]
  {
  }

  /** Positions 0..N become 0..N+1. */
  lemma AppendDense(st: Stack, t: Target)
    requires st.Keys == Dense(|st.Keys|)
    ensures st[|st.Keys| := t].Keys == Dense(|st.Keys| + 1)
    ensures |st[|st.Keys| := t].Keys| == |st.Keys| + 1
  {
    AppendCard(st, t);
  }

  lemma AppendCard(st: Stack, t: Target)
    requires |st.Keys| !in st
    ensures |st[|st.Keys| := t].Keys| == |st.Keys| + 1
  {
    var n := |st.Keys|;
    assert st[n := t].Keys == st.Keys + {n};
  }

  /** A deck that does not link a level is not among its references. */
  lemma NotHeldNoRef(s: Meta, name: string, id: string)
    requires RefsSound(s) && !Holds(s, name, id)
    ensures name !in RefsOf(s, id)
  {
  }

  lemma ValuesAfterAppend(st: Stack, k: nat, v: Target)
    requires k !in st
    ensures st[k := v].Values == st.Values + {v}
  {
    forall x | x in st[k := v].Values ensures x in st.Values + {v} {
      var p :| p in st[k := v] && st[k := v][p] == x;
      if p != k { assert st[p] == x; }
    }
    forall x | x in st.Values ensures x in st[k := v].Values {
      var p :| p in st && st[p] == x;
      assert st[k := v][p] == x;
    }
    assert st[k := v][k] == v;
  }

  /** The stack with one more level on top still meets the stack invariant. */
  lemma AppendStackOk(st: Stack, id: string)
    requires StackOk(st) && Level(id) !in st.Values && '/' !in id
    ensures StackOk(st[|st.Keys| := Level(id)])
  {
    var n := |st.Keys|;
    var st' := st[n := Level(id)];
    AppendDense(st, Level(id));
    AppendDistinct(st, id);
    assert st'.Keys == Dense(|st'.Keys|);
    assert 0 in st' && st'[0] == st[0];
    forall p | p in st' && p > 0 ensures st'[p].Level? && '/' !in st'[p].id {
      if p != n {
        assert st'[p] == st[p];
      }
    }
  }

  lemma AppendDistinct(st: Stack, id: string)
    requires forall p, q | p in st && q in st && 0 < p < q :: st[p] != st[q]
    requires Level(id) !in st.Values && |st.Keys| !in st
    ensures var st' := st[|st.Keys| := Level(id)];
            forall p, q | p in st' && q in st' && 0 < p < q :: st'[p] != st'[q]
  {
    var n := |st.Keys|;
    var st' := st[n := Level(id)];
    forall p, q | p in st' && q in st' && 0 < p < q ensures st'[p] != st'[q] {
      if q == n {
        assert st[p] in st.Values;
      }
    }
  }

  /** Holding after the step: what held before, plus `name` holding `id`. */
  lemma HoldsAfterAdd(s: Meta, name: string, id: string, n: string, i: string)
    requires name in s.stacks && StackOk(s.stacks[name])
    ensures Holds(Added(s, name, id), n, i) <==> Holds(s, n, i) || (n == name && i == id)
  {
    var st := s.stacks[name];
    assert |st.Keys| !in st;
    ValuesAfterAppend(st, |st.Keys|, Level(id));
  }

  lemma AddedRefsSound(s: Meta, name: string, id: string)
    requires RefsSound(s) && name in s.stacks && StackOk(s.stacks[name])
    ensures RefsSound(Added(s, name, id))
  {
    var t := Added(s, name, id);
    forall i, n | i in t.refs && n in t.refs[i] ensures Holds(t, n, i) {
      HoldsAfterAdd(s, name, id, n, i);
    }
  }

  lemma AddedRefsComplete(s: Meta, name: string, id: string)
    requires RefsComplete(s) && name in s.stacks && StackOk(s.stacks[name])
    ensures RefsComplete(Added(s, name, id))
  {
    var t := Added(s, name, id);
    forall n, i | Holds(t, n, i) ensures i in t.refs && n in t.refs[i] {
      HoldsAfterAdd(s, name, id, n, i);
    }
  }

  lemma AddedStacksOk(s: Meta, name: string, id: string)
    requires StacksOk(s) && name in s.stacks && Level(id) !in s.stacks[name].Values && '/' !in id
    ensures StacksOk(Added(s, name, id))
  {
    AppendStackOk(s.stacks[name], id);
  }

  lemma AddedPoolOk(s: Meta, name: string, id: string)
    requires PoolOk(s) && name in s.stacks
    ensures PoolOk(Added(s, name, id))
  {
  }

  /** `add_level` keeps the store valid, and afterwards the level exists and names the deck
      among its references; the pool gains the level and nothing else changes. */
  lemma AddLevelValid(s: Meta, name: string, id: string)
    requires Valid(s) && name in s.stacks && !Holds(s, name, id) && '/' !in id
    ensures var t := AddLevelOutcome(s, name, id).state;
            Valid(t) && id in t.levels && name in t.refs[id] && Holds(t, name, id)
    ensures var t := AddLevelOutcome(s, name, id).state;
            t.levels == s.levels + {id} && t.mounts == s.mounts
  {
    NotHeldNoRef(s, name, id);
    AddLevelAppends(s, name, id);
    AddedStacksOk(s, name, id);
    AddedPoolOk(s, name, id);
    AddedRefsSound(s, name, id);
    AddedRefsComplete(s, name, id);
    HoldsAfterAdd(s, name, id, name, id);
  }

  /** A level that does not exist yet is linked by no stack. */
  lemma FreshNotHeld(s: Meta, name: string, id: string)
    requires Valid(s) && id !in s.levels
    ensures !Holds(s, name, id)
  {
  }

  /** `add_level` on one deck leaves every other deck's stack alone. */
  lemma AddLevelKeepsOthers(s: Meta, name: string, id: string, other: string)
    requires other != name && other in s.stacks
    ensures other in AddLevelOutcome(s, name, id).state.stacks
    ensures AddLevelOutcome(s, name, id).state.stacks[other] == s.stacks[other]
  {
  }

  /** `add_level(id)` creates level `id`, even when it fails later on. */
  lemma AddLevelProvides(s: Meta, name: string, id: string)
    ensures id in AddLevelOutcome(s, name, id).state.levels
  {
  }

  lemma AddLevelKeepsPool(s: Meta, name: string, id: string)
    ensures s.levels <= AddLevelOutcome(s, name, id).state.levels
  {
  }

  /** After a successful `add_level` the stack has at least two positions: the one it had
      and the new one above it. */
  lemma AddedHasTwo(s: Meta, name: string, id: string)
    requires AddLevelOutcome(s, name, id).err.None?
    ensures name in AddLevelOutcome(s, name, id).state.stacks
    ensures |AddLevelOutcome(s, name, id).state.stacks[name].Keys| >= 2
  {
    var st := Provision(s, id).stacks[name];
    var next := NextPos(st);
    assert next !in st.Keys;
    assert st[next := Level(id)].Keys == st.Keys + {next};
  }

  // ---------------------------------------------------------------- get_levels

  /** `get_levels()`: the links in `sorted(os.listdir(stack))` order, each resolved. */
  function Levels(root: string, st: Stack): (r: seq<string>)
    ensures |r| == |st.Keys|
  {
    var ns := ByName(st.Keys);
    seq(|ns|, i requires 0 <= i < |ns| => Resolve(root, st[ns[i]]))
  }

  /** The positions in `keys` below `n`, in numeric order. */
  function Below(keys: set<nat>, n: nat): (r: seq<nat>)
    ensures forall i | 0 <= i < |r| :: r[i] in keys && r[i] < n
    ensures forall k | k in keys && k < n :: k in r
    ensures forall i, j | 0 <= i < j < |r| :: r[i] < r[j]
  {
    if n == 0 then [] else Below(keys, n - 1) + (if n - 1 in keys then [n - 1] else [])
  }

  /** The positions in numeric order: the order in which `add_level()` numbers them. */
  function ByNumber(keys: set<nat>): (r: seq<nat>)
    ensures forall i | 0 <= i < |r| :: r[i] in keys
    ensures forall k | k in keys :: k in r
    ensures forall i, j | 0 <= i < j < |r| :: r[i] < r[j]
  {
    if keys == {} then [] else Below(keys, MaxOf(keys) + 1)
  }

  lemma {:induction false} BelowAgrees(a: set<nat>, b: set<nat>, n: nat)
    requires forall k | k < n :: k in a <==> k in b
    ensures Below(a, n) == Below(b, n)
  {
    if n > 0 {
      BelowAgrees(a, b, n - 1);
    }
  }

  lemma {:induction false} BelowPast(keys: set<nat>, lo: nat, hi: nat)
    requires lo <= hi && forall k | k in keys :: k < lo
    ensures Below(keys, hi) == Below(keys, lo)
    decreases hi
  {
    if hi > lo {
      BelowPast(keys, lo, hi - 1);
    }
  }

  /** A position above all others is listed last. */
  lemma ByNumberAddAbove(keys: set<nat>, next: nat)
    requires forall k | k in keys :: k < next
    ensures ByNumber(keys + {next}) == ByNumber(keys) + [next]
  {
    var ks := keys + {next};
    assert IsMax(next, ks);
    BelowAgrees(ks, keys, next);
    if keys == {} {
      BelowPast(keys, 0, next);
    } else {
      BelowPast(keys, MaxOf(keys) + 1, next);
    }
  }

  /** `get_levels()` with the links sorted by position number rather than by name. */
  function NumericLevels(root: string, st: Stack): seq<string> {
    var ns := ByNumber(st.Keys);
    seq(|ns|, i requires 0 <= i < |ns| => Resolve(root, st[ns[i]]))
  }

  /** Sorted by number, the link `add_level()` makes is listed last, so it is the top that
      `mount()` and the remount make writable, however many levels the stack holds. */
  lemma NumericLevelsAfterAdd(root: string, st: Stack, t: Target)
    requires st != map[]
    ensures NumericLevels(root, st[NextPos(st) := t]) == NumericLevels(root, st) + [Resolve(root, t)]
  {
    var next := NextPos(st);
    var st' := st[next := t];
    assert st'.Keys == st.Keys + {next};
    ByNumberAddAbove(st.Keys, next);
    NumericLevelsSnoc(root, st, st', next);
  }

  lemma NumericLevelsSnoc(root: string, st: Stack, st': Stack, next: nat)
    requires ByNumber(st'.Keys) == ByNumber(st.Keys) + [next]
    requires next in st' && forall k | k in st :: k in st' && st'[k] == st[k]
    ensures NumericLevels(root, st') == NumericLevels(root, st) + [Resolve(root, st'[next])]
  {
    var ns := ByNumber(st.Keys);
    var a, b := NumericLevels(root, st'), NumericLevels(root, st) + [Resolve(root, st'[next])];
    assert |a| == |ns| + 1 == |b|;
    forall i | 0 <= i < |a| ensures a[i] == b[i] {
      NumericLevelAt(root, st', i);
      if i < |ns| {
        NumericLevelAt(root, st, i);
      }
    }
  }

  lemma NumericLevelAt(root: string, st: Stack, i: nat)
    requires i < |ByNumber(st.Keys)|
    ensures ByNumber(st.Keys)[i] in st
    ensures NumericLevels(root, st)[i] == Resolve(root, st[ByNumber(st.Keys)[i]])
  {
  }


  /** A list that resolves the link at each sorted name, in order, is the listing. */
  lemma LevelsAt(root: string, st: Stack, levels: seq<string>)
    requires |levels| == |ByName(st.Keys)|
    requires forall k | 0 <= k < |levels| :: levels[k] == Resolve(root, st[ByName(st.Keys)[k]])
    ensures levels == Levels(root, st)
  {
    var all := Levels(root, st);
    forall k | 0 <= k < |levels| ensures levels[k] == all[k] {
    }
  }

  /** The first level listed is the deck's base, position 0. */
  lemma LevelsStartAtBase(root: string, st: Stack)
    requires 0 in st
    ensures Levels(root, st)[0] == Resolve(root, st[0])
  {
    ZeroListedFirst(st.Keys);
  }

  /** The links at positions 0..n-1, resolved, in position order. */
  function InPositionOrder(root: string, st: Stack, n: nat): (r: seq<string>)
    ensures |r| == n
  {
    seq(n, p => if p in st then Resolve(root, st[p]) else "")
  }

  /** With at most ten positions the levels are listed in position order. */
  lemma LevelsInPositionOrder(root: string, st: Stack)
    requires st.Keys == Dense(|st.Keys|) && |st.Keys| <= 10
    ensures Levels(root, st) == InPositionOrder(root, st, |st.Keys|)
  {
    ByNameIsNumericUpToTen(|st.Keys|);
  }

  lemma InPositionOrderAppend(root: string, st: Stack, n: nat, t: Target)
    requires n !in st
    ensures InPositionOrder(root, st[n := t], n + 1) == InPositionOrder(root, st, n) + [Resolve(root, t)]
  {
    var a, b := InPositionOrder(root, st[n := t], n + 1), InPositionOrder(root, st, n) + [Resolve(root, t)];
    forall p | 0 <= p <= n ensures a[p] == b[p] {
      if p < n {
        assert p in st[n := t] <==> p in st;
      }
    }
  }

  /** With at most ten positions, linking a level on top appends it to the list. */
  lemma LevelsAfterAppend(root: string, st: Stack, t: Target)
    requires st.Keys == Dense(|st.Keys|) && |st.Keys| + 1 <= 10
    ensures Levels(root, st[|st.Keys| := t]) == Levels(root, st) + [Resolve(root, t)]
  {
    var n := |st.Keys|;
    LevelsOfAppended(root, st, t);
    LevelsInPositionOrder(root, st);
    assert n !in st;
    InPositionOrderAppend(root, st, n, t);
  }

  lemma LevelsOfAppended(root: string, st: Stack, t: Target)
    requires st.Keys == Dense(|st.Keys|) && |st.Keys| + 1 <= 10
    ensures Levels(root, st[|st.Keys| := t]) == InPositionOrder(root, st[|st.Keys| := t], |st.Keys| + 1)
  {
    var n := |st.Keys|;
    var st' := st[n := t];
    AppendDense(st, t);
    assert |st'.Keys| == n + 1;
    LevelsInPositionOrder(root, st');
  }

  // ---------------------------------------------------------------- create

  /** `makedirs(stack)` and the link at position 0 to `base`. */
  function Started(s: Meta, name: string, base: string): Meta {
    s.(stacks := s.stacks[name := map[0 := External(base)]])
  }

  /** The stack a branch builds from the first `i` of a list of levels: the first linked
      as the base, each later one by its id (the last component of its path). */
  function StackOf(levels: seq<string>, i: nat): (r: Stack)
    requires 1 <= i <= |levels|
    ensures forall p: nat :: p in r <==> p < i
  {
    map p: nat | p < i :: if p == 0 then External(levels[0]) else Level(Basename(levels[p]))
  }

  /** The branch loop: link `levels[0]` at position 0, then `add_level(basename(level))` for
      each later level, in list order; the first failure stops it. */
  function Copied(s: Meta, name: string, levels: seq<string>, i: nat): Outcome
    requires 1 <= i <= |levels|
  {
    if i == 1 then Outcome(Started(s, name, levels[0]), None)
    else
      var o := Copied(s, name, levels, i - 1);
      if o.err.Some? then o else AddLevelOutcome(o.state, name, Basename(levels[i - 1]))
  }

  /** `create` of deck `name` branched from deck `src` of the same store: the stack directory
      is made, the source's levels are copied (an empty list fails at `levels[0]`), the
      source gets a new level `srcId`, its mounts attribute is copied, and the new deck gets
      a new level `id`. */
  function BranchOutcome(root: string, s: Meta, name: string, src: string, srcId: string, id: string): Outcome
    requires src in s.stacks
  {
    var o1 := CopyOutcome(root, s, name, src);
    if o1.err.Some? then o1 else GrowOutcome(o1.state, name, src, srcId, id)
  }

  /** The copy part of a branch: the stack directory is made and the source's levels are
      copied; an empty list fails at `levels[0]`. */
  function CopyOutcome(root: string, s: Meta, name: string, src: string): Outcome
    requires src in s.stacks
  {
    var levels := Levels(root, s.stacks[src]);
    if levels == [] then Outcome(s.(stacks := s.stacks[name := map[]]), Some(EmptyStack(src)))
    else Copied(s, name, levels, |levels|)
  }

  /** The rest of a branch: the source gets a new level `srcId`, its mounts attribute is
      copied, and the new deck gets a new level `id`. */
  function GrowOutcome(s: Meta, name: string, src: string, srcId: string, id: string): Outcome {
    var o2 := AddLevelOutcome(s, src, srcId);
    if o2.err.Some? then o2
    else AddLevelOutcome(SetMounts(o2.state, name, MountsOf(o2.state, src)), name, id)
  }

  /** `create` of deck `name` on a plain directory `base`: position 0 links the directory,
      then a new level `id` is added. */
  function PlainOutcome(s: Meta, name: string, base: string, id: string): Outcome {
    AddLevelOutcome(Started(s, name, base), name, id)
  }

  /** The new deck links no level, so every deck links what it linked before. */
  lemma HoldsAfterStart(s: Meta, name: string, base: string, n: string, id: string)
    requires name !in s.stacks
    ensures Holds(Started(s, name, base), n, id) <==> Holds(s, n, id)
  {
    if n == name {
      var st := map[0 := External(base)];
      assert forall k | k in st :: st[k] == External(base);
      assert Level(id) !in st.Values;
    }
  }

  lemma StartedStacksOk(s: Meta, name: string, base: string)
    requires StacksOk(s)
    ensures StacksOk(Started(s, name, base))
  {
    var st := map[0 := External(base)];
    assert st.Keys == Dense(1);
  }

  /** Linking the base of a new deck keeps the store valid. */
  lemma StartedValid(s: Meta, name: string, base: string)
    requires Valid(s) && name !in s.stacks
    ensures Valid(Started(s, name, base))
  {
    var t := Started(s, name, base);
    StartedStacksOk(s, name, base);
    forall n, id | Holds(t, n, id) ensures id in t.refs && n in t.refs[id] {
      HoldsAfterStart(s, name, base, n, id);
    }
    forall id, n | id in t.refs && n in t.refs[id] ensures Holds(t, n, id) {
      HoldsAfterStart(s, name, base, n, id);
    }
  }

  /** No two of the levels after the first share an id. */
  predicate DistinctIds(levels: seq<string>) {
    forall j, k | 1 <= j < k < |levels| :: Basename(levels[j]) != Basename(levels[k])
  }

  lemma StackOfStep(levels: seq<string>, i: nat)
    requires 1 <= i < |levels|
    ensures var st := StackOf(levels, i);
            |st.Keys| == i && st[|st.Keys| := Level(Basename(levels[i]))] == StackOf(levels, i + 1)
  {
    StackOfCard(levels, i);
    StackOfExtends(levels, i);
  }

  lemma StackOfExtends(levels: seq<string>, i: nat)
    requires 1 <= i < |levels|
    ensures StackOf(levels, i)[i := Level(Basename(levels[i]))] == StackOf(levels, i + 1)
  {
    var a := StackOf(levels, i)[i := Level(Basename(levels[i]))];
    var b := StackOf(levels, i + 1);
    assert a.Keys == b.Keys;
    MapExt(a, b);
  }

  lemma NotInStackOf(levels: seq<string>, i: nat)
    requires 1 <= i < |levels| && DistinctIds(levels)
    ensures Level(Basename(levels[i])) !in StackOf(levels, i).Values
  {
  }

  lemma StackOfOk(levels: seq<string>, i: nat)
    requires 1 <= i <= |levels| && DistinctIds(levels)
    ensures StackOk(StackOf(levels, i))
  {
    var st := StackOf(levels, i);
    assert st.Keys == Dense(i);
    DenseCard(i);
  }

  /** One more level of the list added to the new deck, whose stack holds the ones before. */
  lemma CopyStep(s: Meta, t: Meta, name: string, levels: seq<string>, i: nat)
    requires Valid(t) && 1 <= i < |levels| && DistinctIds(levels)
    requires t.stacks == s.stacks[name := StackOf(levels, i)]
    ensures var o := AddLevelOutcome(t, name, Basename(levels[i]));
            && o.err.None? && Valid(o.state)
            && o.state.stacks == s.stacks[name := StackOf(levels, i + 1)]
            && o.state.mounts == t.mounts
  {
    var id := Basename(levels[i]);
    NotInStackOf(levels, i);
    StackOfOk(levels, i);
    NotHeldNoRef(t, name, id);
    AddLevelAppends(t, name, id);
    AddLevelValid(t, name, id);
    StackOfStep(levels, i);
    var st := t.stacks[name];
    assert st == StackOf(levels, i);
    var next := st[|st.Keys| := Level(id)];
    assert Added(t, name, id).stacks == t.stacks[name := next];
    MapOverwrite(s.stacks, name, StackOf(levels, i), next);
  }

  lemma StackOfOne(levels: seq<string>)
    requires 1 <= |levels|
    ensures StackOf(levels, 1) == map[0 := External(levels[0])]
  {
  }

  /** What copying the first `i` levels gives: no failure, a valid store, the new deck's
      stack `StackOf(levels, i)`, and the other stacks and the mounts files as they were. */
  ghost predicate CopiedOk(s: Meta, name: string, levels: seq<string>, i: nat, o: Outcome)
    requires 1 <= i <= |levels|
  {
    && o.err.None? && Valid(o.state)
    && o.state.stacks == s.stacks[name := StackOf(levels, i)]
    && o.state.mounts == s.mounts
  }

  lemma CopiedFirst(s: Meta, name: string, levels: seq<string>)
    requires Valid(s) && name !in s.stacks && 1 <= |levels|
    ensures CopiedOk(s, name, levels, 1, Copied(s, name, levels, 1))
  {
    StartedValid(s, name, levels[0]);
    StackOfOne(levels);
  }

  lemma CopiedNext(s: Meta, name: string, levels: seq<string>, i: nat)
    requires 1 < i <= |levels| && DistinctIds(levels)
    requires CopiedOk(s, name, levels, i - 1, Copied(s, name, levels, i - 1))
    ensures CopiedOk(s, name, levels, i, Copied(s, name, levels, i))
  {
    var o := Copied(s, name, levels, i - 1);
    assert Copied(s, name, levels, i) == AddLevelOutcome(o.state, name, Basename(levels[i - 1]));
    CopyStep(s, o.state, name, levels, i - 1);
  }

  /** Copying a list of levels with distinct ids into a new deck keeps going as it started:
      once the base is linked in a valid store, every later level is added without failure,
      the store stays valid, the new deck's stack is `StackOf(levels, i)`, and the other
      stacks and the mounts files are left alone. */
  lemma {:induction false} CopiedValid(s: Meta, name: string, levels: seq<string>, i: nat)
    requires 1 <= i <= |levels| && DistinctIds(levels)
    requires CopiedOk(s, name, levels, 1, Copied(s, name, levels, 1))
    ensures CopiedOk(s, name, levels, i, Copied(s, name, levels, i))
  {
    if i > 1 {
      CopiedValid(s, name, levels, i - 1);
      CopiedNext(s, name, levels, i);
    }
  }

  /** Once a copy step fails, the branch loop stops: later steps change nothing. */
  lemma {:induction false} CopiedStops(s: Meta, name: string, levels: seq<string>, i: nat, j: nat)
    requires 1 <= i <= j <= |levels| && Copied(s, name, levels, i).err.Some?
    ensures Copied(s, name, levels, j) == Copied(s, name, levels, i)
    decreases j - i
  {
    if i < j {
      CopiedFailed(s, name, levels, i + 1);
      CopiedStops(s, name, levels, i + 1, j);
    }
  }

  lemma CopiedFailed(s: Meta, name: string, levels: seq<string>, j: nat)
    requires 2 <= j <= |levels| && Copied(s, name, levels, j - 1).err.Some?
    ensures Copied(s, name, levels, j) == Copied(s, name, levels, j - 1)
  {
  }

  /** The branch loop never removes a level from the pool. */
  lemma {:induction false} CopiedKeepsPool(s: Meta, name: string, levels: seq<string>, i: nat)
    requires 1 <= i <= |levels|
    ensures s.levels <= Copied(s, name, levels, i).state.levels
  {
    if i > 1 {
      CopiedKeepsPool(s, name, levels, i - 1);
      var o := Copied(s, name, levels, i - 1);
      if o.err.None? {
        AddLevelKeepsPool(o.state, name, Basename(levels[i - 1]));
      }
    }
  }

  /** The levels a valid stack lists: its base first, then levels of the pool that the deck
      links, with distinct ids. */
  lemma SourceLevels(root: string, s: Meta, src: string)
    requires Valid(s) && src in s.stacks
    ensures var levels := Levels(root, s.stacks[src]);
            && |levels| >= 1 && DistinctIds(levels)
            && (forall k | 1 <= k < |levels| :: Holds(s, src, Basename(levels[k])))
  {
    var st := s.stacks[src];
    var levels := Levels(root, st);
    var ns := ByName(st.Keys);
    ZeroListedFirst(st.Keys);
    ByNameDistinct(st.Keys);
    forall k | 1 <= k < |levels| ensures st[ns[k]] == Level(Basename(levels[k])) {
      assert ns[k] != ns[0];
      BasenameOfLevelPath(root, st[ns[k]].id);
    }
    forall k | 1 <= k < |levels| ensures Holds(s, src, Basename(levels[k])) {
      assert st[ns[k]] in st.Values;
    }
    forall j, k | 1 <= j < k < |levels| ensures Basename(levels[j]) != Basename(levels[k]) {
      assert st[ns[j]] != st[ns[k]];
    }
  }

  /** Adding a level a deck does not link yet succeeds, keeps the store valid and gives the
      closed form `Added`. */
  lemma AddNew(t: Meta, name: string, id: string)
    requires Valid(t) && name in t.stacks && !Holds(t, name, id) && '/' !in id
    ensures AddLevelOutcome(t, name, id) == Outcome(Added(t, name, id), None)
    ensures Valid(Added(t, name, id))
  {
    NotHeldNoRef(t, name, id);
    AddLevelAppends(t, name, id);
    AddLevelValid(t, name, id);
  }

  /** A level the copied stack links is a level of the source. */
  lemma CopiedHolds(s: Meta, src: string, levels: seq<string>, i: nat, x: string)
    requires 1 <= i <= |levels| && Level(x) in StackOf(levels, i).Values
    requires forall k | 1 <= k < |levels| :: Holds(s, src, Basename(levels[k]))
    ensures Holds(s, src, x)
  {
    var st := StackOf(levels, i);
    var p :| p in st && st[p] == Level(x);
    assert Basename(levels[p]) == x;
  }

  /** The store once a branch has copied the source's levels and added `srcId` to the source. */
  function BranchCopied(root: string, s: Meta, name: string, src: string, srcId: string): Meta
    requires src in s.stacks && Levels(root, s.stacks[src]) != []
  {
    var levels := Levels(root, s.stacks[src]);
    AddLevelOutcome(Copied(s, name, levels, |levels|).state, src, srcId).state
  }

  /** What the first two steps of a branch leave: no failure, a valid store, the copied
      stack for the new deck, the source one level higher, the mounts files as they were. */
  ghost predicate BranchCopyOk(root: string, s: Meta, name: string, src: string, srcId: string)
    requires src in s.stacks
  {
    var levels := Levels(root, s.stacks[src]);
    var st := s.stacks[src];
    && levels != []
    && Copied(s, name, levels, |levels|).err.None?
    && AddLevelOutcome(Copied(s, name, levels, |levels|).state, src, srcId).err.None?
    && var t := BranchCopied(root, s, name, src, srcId);
    && Valid(t)
    && t.stacks == s.stacks[name := StackOf(levels, |levels|)][src := st[|st.Keys| := Level(srcId)]]
    && t.mounts == s.mounts
  }

  /** The first two steps of a branch: the copy and the source's new level. */
  lemma BranchCopyValid(root: string, s: Meta, name: string, src: string, srcId: string)
    requires Valid(s) && name !in s.stacks && src in s.stacks
    requires srcId !in s.levels && '/' !in srcId
    ensures BranchCopyOk(root, s, name, src, srcId)
  {
    var st := s.stacks[src];
    var levels := Levels(root, st);
    SourceLevels(root, s, src);
    CopiedFirst(s, name, levels);
    CopiedValid(s, name, levels, |levels|);
    var t1 := Copied(s, name, levels, |levels|).state;
    UpdateKeeps(s.stacks, name, StackOf(levels, |levels|), src);
    FreshNotHeld(s, src, srcId);
    AddNew(t1, src, srcId);
  }

  /** A level that is not in the store is not among those a branch copied. */
  lemma NotCopied(root: string, s: Meta, name: string, src: string, srcId: string, id: string)
    requires Valid(s) && name !in s.stacks && src in s.stacks && id !in s.levels
    requires BranchCopyOk(root, s, name, src, srcId)
    ensures !Holds(BranchCopied(root, s, name, src, srcId), name, id)
  {
    var st := s.stacks[src];
    var levels := Levels(root, st);
    var t := BranchCopied(root, s, name, src, srcId);
    SourceLevels(root, s, src);
    UpdateOther(s.stacks, name, StackOf(levels, |levels|), src, st[|st.Keys| := Level(srcId)]);
    if Holds(t, name, id) {
      CopiedHolds(s, src, levels, |levels|, id);
      LevelExistsIffReferenced(s, id);
      assert false;
    }
  }

  /** The mounts files are no part of the invariant. */
  lemma SetMountsValid(t: Meta, name: string, v: Option<string>)
    requires Valid(t)
    ensures Valid(SetMounts(t, name, v))
  {
    var u := SetMounts(t, name, v);
    assert u.stacks == t.stacks && u.refs == t.refs && u.levels == t.levels;
    forall n, id ensures Holds(u, n, id) == Holds(t, n, id) {
    }
  }

  lemma StackOfCard(levels: seq<string>, i: nat)
    requires 1 <= i <= |levels|
    ensures |StackOf(levels, i).Keys| == i
  {
    assert StackOf(levels, i).Keys == Dense(i);
    DenseCard(i);
  }

  /** The last step of a branch: the new deck's own new level. */
  lemma BranchFinishValid(t: Meta, name: string, src: string, levels: seq<string>, id: string)
    requires Valid(t) && 1 <= |levels| && '/' !in id && !Holds(t, name, id)
    requires name in t.stacks && t.stacks[name] == StackOf(levels, |levels|)
    ensures var u := SetMounts(t, name, MountsOf(t, src));
            && AddLevelOutcome(u, name, id) == Outcome(Added(u, name, id), None)
            && Valid(Added(u, name, id))
            && Added(u, name, id).stacks == t.stacks[name := StackOf(levels, |levels|)[|levels| := Level(id)]]
            && MountsOf(Added(u, name, id), name) == MountsOf(t, src)
  {
    var u := SetMounts(t, name, MountsOf(t, src));
    assert u.stacks == t.stacks;
    SetMountsValid(t, name, MountsOf(t, src));
    AddNew(u, name, id);
    MountsCopy(t, src, name);
    StackOfCard(levels, |levels|);
  }

  /** How a branch that copied its levels and gave the source a new level goes on. */
  lemma BranchUnfold(root: string, s: Meta, name: string, src: string, srcId: string, id: string)
    requires src in s.stacks
    requires var levels := Levels(root, s.stacks[src]);
             && levels != []
             && Copied(s, name, levels, |levels|).err.None?
             && AddLevelOutcome(Copied(s, name, levels, |levels|).state, src, srcId).err.None?
    ensures var t := BranchCopied(root, s, name, src, srcId);
            BranchOutcome(root, s, name, src, srcId, id) == AddLevelOutcome(SetMounts(t, name, MountsOf(t, src)), name, id)
  {
  }

  lemma RemoveUpdated<K, V>(m: map<K, V>, k: K, v: V)
    requires k !in m
    ensures m[k := v] - {k} == m
  {
  }

  lemma UpdateOther<K, V>(m: map<K, V>, k: K, a: V, j: K, b: V)
    requires k != j
    ensures k in m[k := a][j := b] && m[k := a][j := b][k] == a
  {
  }

  lemma UpdateKeeps<K, V>(m: map<K, V>, k: K, a: V, j: K)
    requires k != j && j in m
    ensures j in m[k := a] && m[k := a][j] == m[j]
  {
  }

  lemma UpdateTwice<K, V>(m: map<K, V>, name: K, src: K, a: V, b: V, x: V)
    requires name != src
    ensures m[name := a][src := b][name := x] == m[src := b][name := x]
  {
  }

  /** What a branch leaves: no failure, a valid store, the source with `srcId` on top, the
      new deck with the copied stack and `id` on top, the new deck's mounts attribute equal
      to the source's, and every other deck's mounts attribute as it was. */
  ghost predicate BranchOk(root: string, s: Meta, name: string, src: string, srcId: string, id: string, o: Outcome)
    requires src in s.stacks
  {
    var levels := Levels(root, s.stacks[src]);
    var st := s.stacks[src];
    && o.err.None? && Valid(o.state) && levels != []
    && o.state.stacks == s.stacks[src := st[|st.Keys| := Level(srcId)]][name := StackOf(levels, |levels|)[|levels| := Level(id)]]
    && MountsOf(o.state, name) == MountsOf(s, src)
    && o.state.mounts - {name} == s.mounts - {name}
  }

  /** The last steps of a branch write only the new deck's mounts attribute. */
  lemma FinishKeepsOtherMounts(t: Meta, name: string, v: Option<string>, id: string)
    ensures AddLevelOutcome(SetMounts(t, name, v), name, id).state.mounts - {name} == t.mounts - {name}
  {
    var u := SetMounts(t, name, v);
    assert AddLevelOutcome(u, name, id).state.mounts == u.mounts;
  }

  lemma BranchAssemble(root: string, s: Meta, name: string, src: string, srcId: string, id: string)
    requires src in s.stacks && name != src && '/' !in id
    requires BranchCopyOk(root, s, name, src, srcId)
    requires !Holds(BranchCopied(root, s, name, src, srcId), name, id)
    ensures BranchOk(root, s, name, src, srcId, id, BranchOutcome(root, s, name, src, srcId, id))
  {
    var st := s.stacks[src];
    var levels := Levels(root, st);
    var t := BranchCopied(root, s, name, src, srcId);
    BranchUnfold(root, s, name, src, srcId, id);
    UpdateOther(s.stacks, name, StackOf(levels, |levels|), src, st[|st.Keys| := Level(srcId)]);
    BranchFinishValid(t, name, src, levels, id);
    FinishKeepsOtherMounts(t, name, MountsOf(t, src), id);
    UpdateTwice(s.stacks, name, src, StackOf(levels, |levels|), st[|st.Keys| := Level(srcId)],
                StackOf(levels, |levels|)[|levels| := Level(id)]);
  }

  /** A branch on a valid store with fresh ids fails nowhere and keeps the store valid. The
      source gains `srcId` on top; the new deck gets the copied stack with `id` on top and
      the source's mounts attribute; every other deck is left alone. */
  lemma BranchValid(root: string, s: Meta, name: string, src: string, srcId: string, id: string)
    requires Valid(s) && name !in s.stacks && src in s.stacks
    requires srcId !in s.levels && id !in s.levels && '/' !in srcId && '/' !in id
    ensures BranchOk(root, s, name, src, srcId, id, BranchOutcome(root, s, name, src, srcId, id))
  {
    BranchCopyValid(root, s, name, src, srcId);
    NotCopied(root, s, name, src, srcId, id);
    BranchAssemble(root, s, name, src, srcId, id);
  }

  /** What a plain `create` leaves: no failure, a valid store, the new deck with the
      directory at position 0 and the new level at position 1, the pool one level larger,
      the mounts files as they were. */
  ghost predicate PlainOk(s: Meta, name: string, base: string, id: string, o: Outcome) {
    && o.err.None? && Valid(o.state)
    && o.state.stacks == s.stacks[name := map[0 := External(base), 1 := Level(id)]]
    && o.state.levels == s.levels + {id}
    && o.state.mounts == s.mounts
  }

  lemma PlainAdd(s: Meta, name: string, base: string, id: string)
    requires '/' !in id
    requires Valid(Started(s, name, base)) && !Holds(Started(s, name, base), name, id)
    ensures PlainOk(s, name, base, id, PlainOutcome(s, name, base, id))
  {
    var t := Started(s, name, base);
    var st := map[0 := External(base)];
    StartedShape(s, name, base, id);
    AddNew(t, name, id);
    MapOverwrite(s.stacks, name, st, st[1 := Level(id)]);
  }

  lemma StartedShape(s: Meta, name: string, base: string, id: string)
    ensures var t := Started(s, name, base);
            var st := map[0 := External(base)];
            && name in t.stacks && t.stacks[name] == st && |st.Keys| == 1
            && Added(t, name, id).stacks == s.stacks[name := st][name := st[1 := Level(id)]]
            && Added(t, name, id).levels == s.levels + {id}
            && Added(t, name, id).mounts == s.mounts
  {
    var st := map[0 := External(base)];
    assert st.Keys == {0};
  }

  /** A plain `create` on a valid store with a fresh id fails nowhere and keeps the store
      valid. */
  lemma PlainValid(s: Meta, name: string, base: string, id: string)
    requires Valid(s) && name !in s.stacks && id !in s.levels && '/' !in id
    ensures PlainOk(s, name, base, id, PlainOutcome(s, name, base, id))
  {
    StartedValid(s, name, base);
    HoldsAfterStart(s, name, base, name, id);
    FreshNotHeld(s, name, id);
    PlainAdd(s, name, base, id);
  }

  /** With at most ten positions, a branch links exactly the source's stack. */
  lemma BranchCopiesStack(root: string, st: Stack)
    requires StackOk(st) && |st.Keys| <= 10
    ensures StackOf(Levels(root, st), |st.Keys|) == st
  {
    LevelsInPositionOrder(root, st);
    StackOfPositions(root, st, Levels(root, st));
  }

  lemma StackOfPositions(root: string, st: Stack, levels: seq<string>)
    requires StackOk(st) && levels == InPositionOrder(root, st, |st.Keys|)
    ensures StackOf(levels, |st.Keys|) == st
  {
    var r := StackOf(levels, |st.Keys|);
    assert r.Keys == st.Keys;
    forall p | p in r ensures r[p] == st[p] {
      CopiesPosition(root, st, levels, p);
    }
    MapExt(r, st);
  }

  lemma MapExt<K, V>(a: map<K, V>, b: map<K, V>)
    requires a.Keys == b.Keys && forall k | k in a :: a[k] == b[k]
    ensures a == b
  {
  }

  lemma CopiesPosition(root: string, st: Stack, levels: seq<string>, p: nat)
    requires StackOk(st) && p in st && levels == InPositionOrder(root, st, |st.Keys|)
    ensures p < |levels| && (if p == 0 then External(levels[0]) else Level(Basename(levels[p]))) == st[p]
  {
    if p > 0 {
      BasenameOfLevelPath(root, st[p].id);
    }
  }

  // ---------------------------------------------------------------- delete

  /** Dropping one reference: `os.remove(levels.refs/<id>/<name>)`, then, when the reference
      directory is left empty, `os.rmdir` of it and `shutil.rmtree` of the level. */
  function Release(s: Meta, name: string, id: string): Outcome {
    if id !in s.refs || name !in s.refs[id] then Outcome(s, Some(NoRef(id, name)))
    else
      var rest := s.refs[id] - {name};
      if rest != {} then Outcome(s.(refs := s.refs[id := rest]), None)
      else if id !in s.levels then Outcome(s.(refs := s.refs - {id}), Some(NoRef(id, name)))
      else Outcome(s.(refs := s.refs - {id}, levels := s.levels - {id}), None)
  }

  /** The first `i` links of `ns` released in order; the first failure stops the loop. */
  function Released(s: Meta, name: string, st: Stack, ns: seq<nat>, i: nat): Outcome
    requires i <= |ns| && forall k | 0 <= k < |ns| :: ns[k] in st
  {
    if i == 0 then Outcome(s, None)
    else
      var o := Released(s, name, st, ns, i - 1);
      if o.err.Some? then o else Release(o.state, name, LinkId(st[ns[i - 1]]))
  }

  /** Once a release fails, the loop stops: later steps change nothing. */
  lemma {:induction false} ReleasedStops(s: Meta, name: string, st: Stack, ns: seq<nat>, i: nat, j: nat)
    requires i <= j <= |ns| && forall k | 0 <= k < |ns| :: ns[k] in st
    requires Released(s, name, st, ns, i).err.Some?
    ensures Released(s, name, st, ns, j) == Released(s, name, st, ns, i)
    decreases j
  {
    if j > i {
      ReleasedStops(s, name, st, ns, i, j - 1);
    }
  }

  /** `symlinks[1:]`. */
  function Tail(ns: seq<nat>): (r: seq<nat>)
    ensures forall k | 0 <= k < |r| :: r[k] in ns
  {
    if ns == [] then [] else ns[1..]
  }

  /** `delete()`: release every link but the first listed, remove the stack, and remove the
      whole `.deck` directory when no stack is left. The mounts file stays. */
  function DeleteOutcome(s: Meta, name: string): Outcome {
    if name !in s.stacks then Outcome(s, Some(NoStack(name)))
    else
      var st := s.stacks[name];
      var ns := Tail(ByName(st.Keys));
      var o := Released(s, name, st, ns, |ns|);
      if o.err.Some? then o
      else
        var t := o.state.(stacks := o.state.stacks - {name});
        if t.stacks == map[] then Outcome(Gone, None) else Outcome(t, None)
  }

  /** The levels deck `name` links. */
  function HeldIds(st: Stack): set<string> {
    set t | t in st.Values && t.Level? :: t.id
  }

  /** The references and levels once `name` is dropped from the levels in `d`. */
  function Partial(s: Meta, name: string, d: set<string>): Meta {
    var refs := map id | id in s.refs && (id !in d || s.refs[id] - {name} != {}) ::
                  if id in d then s.refs[id] - {name} else s.refs[id];
    s.(refs := refs, levels := refs.Keys)
  }

  /** What `delete` leaves: the deck's name gone from every reference set, the levels left
      without references gone, the stack gone; nothing at all when no stack is left. */
  function Deleted(s: Meta, name: string): Meta
    requires name in s.stacks
  {
    var rest := s.stacks - {name};
    if rest == map[] then Gone
    else Partial(s, name, HeldIds(s.stacks[name])).(stacks := rest)
  }

  ghost function Ids(st: Stack, ns: seq<nat>, i: nat): set<string>
    requires i <= |ns| && forall k | 0 <= k < |ns| :: ns[k] in st
  {
    set k | 0 <= k < i :: LinkId(st[ns[k]])
  }

  lemma PartialNone(s: Meta, name: string)
    requires PoolOk(s)
    ensures Partial(s, name, {}) == s
  {
    assert Partial(s, name, {}).refs == s.refs;
  }

  /** Releasing one more level the deck references extends the set of released levels. */
  lemma ReleaseStep(s: Meta, name: string, d: set<string>, id: string)
    requires PoolOk(s) && id in s.refs && name in s.refs[id] && id !in d
    ensures Release(Partial(s, name, d), name, id) == Outcome(Partial(s, name, d + {id}), None)
  {
    var p := Partial(s, name, d);
    var q := Partial(s, name, d + {id});
    assert id in p.refs && p.refs[id] == s.refs[id];
    var rest := s.refs[id] - {name};
    if rest != {} {
      assert p.refs[id := rest] == q.refs;
    } else {
      assert p.refs - {id} == q.refs;
    }
  }

  /** Every position listed after the first is a position of the stack. */
  lemma TailListed(st: Stack)
    ensures var ns := Tail(ByName(st.Keys));
            forall k | 0 <= k < |ns| :: ns[k] in st
  {
    var all := ByName(st.Keys);
    var ns := Tail(all);
    forall k | 0 <= k < |ns| ensures ns[k] in st {
      assert ns[k] == all[k + 1];
    }
  }

  lemma TailInStack(st: Stack)
    requires 0 in st
    ensures var ns := Tail(ByName(st.Keys));
            forall k | 0 <= k < |ns| :: ns[k] in st && ns[k] > 0
  {
    var all := ByName(st.Keys);
    ZeroListedFirst(st.Keys);
    ByNameDistinct(st.Keys);
    var ns := Tail(all);
    forall k | 0 <= k < |ns| ensures ns[k] in st && ns[k] > 0 {
      assert ns[k] == all[k + 1];
      assert all[0] != all[k + 1];
    }
  }

  lemma TailDistinct(st: Stack)
    ensures var ns := Tail(ByName(st.Keys));
            forall j, k | 0 <= j < k < |ns| :: ns[j] != ns[k]
  {
    var all := ByName(st.Keys);
    ByNameDistinct(st.Keys);
    var ns := Tail(all);
    forall j, k | 0 <= j < k < |ns| ensures ns[j] != ns[k] {
      assert ns[j] == all[j + 1] && ns[k] == all[k + 1];
    }
  }

  lemma TailCovers(st: Stack)
    requires 0 in st
    ensures var ns := Tail(ByName(st.Keys));
            forall p | p in st && p > 0 :: p in ns
  {
    var all := ByName(st.Keys);
    ZeroListedFirst(st.Keys);
    var ns := Tail(all);
    forall p | p in st && p > 0 ensures p in ns {
      assert p in st.Keys;
      var i :| 0 <= i < |all| && all[i] == p;
      assert i != 0;
      assert ns[i - 1] == all[i];
    }
  }

  /** The positions listed after the first are the non-zero positions, each once. */
  lemma TailPositions(st: Stack)
    requires 0 in st
    ensures var ns := Tail(ByName(st.Keys));
            && (forall k | 0 <= k < |ns| :: ns[k] in st && ns[k] > 0)
            && (forall j, k | 0 <= j < k < |ns| :: ns[j] != ns[k])
            && (forall p | p in st && p > 0 :: p in ns)
  {
    TailInStack(st);
    TailDistinct(st);
    TailCovers(st);
  }

  lemma IdsStep(st: Stack, ns: seq<nat>, i: nat)
    requires 0 < i <= |ns| && forall k | 0 <= k < |ns| :: ns[k] in st
    ensures Ids(st, ns, i) == Ids(st, ns, i - 1) + {LinkId(st[ns[i - 1]])}
  {
  }

  /** The level at one listed position is not among those released before it. */
  lemma NotYetReleased(st: Stack, ns: seq<nat>, i: nat)
    requires StackOk(st) && i < |ns|
    requires forall k | 0 <= k < |ns| :: ns[k] in st && ns[k] > 0
    requires forall j, k | 0 <= j < k < |ns| :: ns[j] != ns[k]
    ensures LinkId(st[ns[i]]) !in Ids(st, ns, i)
  {
  }

  /** Releasing listed positions whose levels all reference the deck, each level once, fails
      nowhere and drops the deck from exactly those levels. */
  lemma {:induction false} ReleasedPrefix(s: Meta, name: string, st: Stack, ns: seq<nat>, i: nat)
    requires PoolOk(s) && i <= |ns|
    requires forall k | 0 <= k < |ns| :: ns[k] in st
    requires forall k | 0 <= k < |ns| :: LinkId(st[ns[k]]) in s.refs && name in s.refs[LinkId(st[ns[k]])]
    requires forall k | 0 <= k < |ns| :: LinkId(st[ns[k]]) !in Ids(st, ns, k)
    ensures Released(s, name, st, ns, i) == Outcome(Partial(s, name, Ids(st, ns, i)), None)
  {
    if i == 0 {
      PartialNone(s, name);
      assert Ids(st, ns, 0) == {};
    } else {
      ReleasedPrefix(s, name, st, ns, i - 1);
      var d := Ids(st, ns, i - 1);
      var id := LinkId(st[ns[i - 1]]);
      assert Released(s, name, st, ns, i) == Release(Partial(s, name, d), name, id);
      ReleaseStep(s, name, d, id);
      IdsStep(st, ns, i);
    }
  }

  /** In a valid store every position listed after the first names a level that references
      the deck, and no level is listed twice. */
  lemma Releasable(s: Meta, name: string, ns: seq<nat>)
    requires RefsComplete(s) && name in s.stacks && StackOk(s.stacks[name])
    requires forall k | 0 <= k < |ns| :: ns[k] in s.stacks[name] && ns[k] > 0
    requires forall j, k | 0 <= j < k < |ns| :: ns[j] != ns[k]
    ensures var st := s.stacks[name];
            && (forall k | 0 <= k < |ns| :: LinkId(st[ns[k]]) in s.refs && name in s.refs[LinkId(st[ns[k]])])
            && (forall k | 0 <= k < |ns| :: LinkId(st[ns[k]]) !in Ids(st, ns, k))
  {
    var st := s.stacks[name];
    forall k | 0 <= k < |ns|
      ensures LinkId(st[ns[k]]) in s.refs && name in s.refs[LinkId(st[ns[k]])]
    {
      var id := LinkId(st[ns[k]]);
      assert st[ns[k]] == Level(id);
      assert Holds(s, name, id);
    }
    forall k | 0 <= k < |ns| ensures LinkId(st[ns[k]]) !in Ids(st, ns, k) {
      NotYetReleased(st, ns, k);
    }
  }

  lemma InHeld(st: Stack, p: nat)
    requires p in st && st[p].Level?
    ensures st[p].id in HeldIds(st)
  {
    var t := st[p];
    assert t in st.Values;
  }

  lemma HeldAt(st: Stack, x: string) returns (p: nat)
    requires x in HeldIds(st)
    ensures p in st && st[p] == Level(x)
  {
    var t :| t in st.Values && t.Level? && t.id == x;
    p :| p in st && st[p] == t;
  }

  lemma IdsAreHeld(st: Stack, ns: seq<nat>)
    requires forall k | 0 <= k < |ns| :: ns[k] in st && ns[k] > 0
    requires forall p | p in st && p > 0 :: st[p].Level?
    ensures Ids(st, ns, |ns|) <= HeldIds(st)
  {
    forall x | x in Ids(st, ns, |ns|) ensures x in HeldIds(st) {
      var k :| 0 <= k < |ns| && LinkId(st[ns[k]]) == x;
      InHeld(st, ns[k]);
    }
  }

  lemma HeldAreIds(st: Stack, ns: seq<nat>)
    requires forall k | 0 <= k < |ns| :: ns[k] in st
    requires forall p | p in st && p > 0 :: p in ns
    requires 0 in st && st[0].External?
    ensures HeldIds(st) <= Ids(st, ns, |ns|)
  {
    forall x | x in HeldIds(st) ensures x in Ids(st, ns, |ns|) {
      var p := HeldAt(st, x);
      var k :| 0 <= k < |ns| && ns[k] == p;
      assert LinkId(st[ns[k]]) == x;
    }
  }

  lemma LevelsAbove(st: Stack)
    requires StackOk(st)
    ensures 0 in st && st[0].External? && forall p | p in st && p > 0 :: st[p].Level?
  {
  }

  /** The levels released by the whole loop are exactly those the stack links. */
  lemma AllReleased(st: Stack, ns: seq<nat>)
    requires forall k | 0 <= k < |ns| :: ns[k] in st && ns[k] > 0
    requires forall p | p in st && p > 0 :: p in ns
    requires 0 in st && st[0].External? && forall p | p in st && p > 0 :: st[p].Level?
    ensures Ids(st, ns, |ns|) == HeldIds(st)
  {
    IdsAreHeld(st, ns);
    HeldAreIds(st, ns);
  }

  /** On a valid store `delete` fails nowhere and leaves `Deleted`. */
  lemma DeleteIsDeleted(s: Meta, name: string)
    requires Valid(s) && name in s.stacks
    ensures DeleteOutcome(s, name) == Outcome(Deleted(s, name), None)
  {
    var st := s.stacks[name];
    var ns := Tail(ByName(st.Keys));
    TailPositions(st);
    Releasable(s, name, ns);
    ReleasedPrefix(s, name, st, ns, |ns|);
    LevelsAbove(st);
    AllReleased(st, ns);
    DeleteFromReleased(s, name);
  }

  lemma DeleteFromReleased(s: Meta, name: string)
    requires name in s.stacks
    requires var st := s.stacks[name];
             var ns := Tail(ByName(st.Keys));
             Released(s, name, st, ns, |ns|) == Outcome(Partial(s, name, HeldIds(st)), None)
    ensures DeleteOutcome(s, name) == Outcome(Deleted(s, name), None)
  {
  }

  lemma HoldsAfterDelete(s: Meta, name: string, n: string, id: string)
    requires name in s.stacks && s.stacks - {name} != map[]
    ensures Holds(Deleted(s, name), n, id) <==> Holds(s, n, id) && n != name
  {
  }

  lemma DeletedPool(s: Meta, name: string)
    requires Valid(s) && name in s.stacks
    ensures PoolOk(Deleted(s, name)) && StacksOk(Deleted(s, name))
  {
    DeletedPoolOk(s, name);
    DeletedStacksOk(s, name);
  }

  lemma DeletedPoolOk(s: Meta, name: string)
    requires PoolOk(s) && name in s.stacks
    ensures PoolOk(Deleted(s, name))
  {
    if s.stacks - {name} != map[] {
      var t := Deleted(s, name);
      forall id | id in t.refs ensures t.refs[id] != {} {
        assert id in s.refs;
      }
    }
  }

  lemma DeletedStacksOk(s: Meta, name: string)
    requires StacksOk(s) && name in s.stacks
    ensures StacksOk(Deleted(s, name))
  {
    if s.stacks - {name} != map[] {
      var t := Deleted(s, name);
      assert t.stacks == s.stacks - {name};
      forall n | n in t.stacks ensures StackOk(t.stacks[n]) {
        assert t.stacks[n] == s.stacks[n];
      }
    }
  }

  lemma DeletedRefsSound(s: Meta, name: string)
    requires Valid(s) && name in s.stacks && s.stacks - {name} != map[]
    ensures RefsSound(Deleted(s, name))
  {
    var t := Deleted(s, name);
    forall id, n | id in t.refs && n in t.refs[id] ensures Holds(t, n, id) {
      HoldsAfterDelete(s, name, n, id);
    }
  }

  lemma DeletedRefsComplete(s: Meta, name: string)
    requires Valid(s) && name in s.stacks && s.stacks - {name} != map[]
    ensures RefsComplete(Deleted(s, name))
  {
    var t := Deleted(s, name);
    forall n, id | Holds(t, n, id) ensures id in t.refs && n in t.refs[id] {
      HoldsAfterDelete(s, name, n, id);
      assert id in HeldIds(s.stacks[n]) || n != name;
      if id in HeldIds(s.stacks[name]) {
        assert n in s.refs[id] - {name};
      }
    }
  }

  lemma DeletedLevels(s: Meta, name: string)
    requires Valid(s) && name in s.stacks && s.stacks - {name} != map[]
    ensures forall id :: id in Deleted(s, name).levels <==> id in s.levels && s.refs[id] != {name}
  {
    forall id ensures id in Deleted(s, name).levels <==> id in s.levels && s.refs[id] != {name} {
      LevelKept(s, name, id);
    }
  }

  lemma PartialKeys(s: Meta, name: string, d: set<string>, id: string)
    ensures id in Partial(s, name, d).levels <==> id in s.refs && (id !in d || s.refs[id] - {name} != {})
  {
  }

  lemma LevelKept(s: Meta, name: string, id: string)
    requires PoolOk(s) && RefsSound(s) && RefsComplete(s) && name in s.stacks && s.stacks - {name} != map[]
    ensures id in Deleted(s, name).levels <==> id in s.levels && s.refs[id] != {name}
  {
    var d := HeldIds(s.stacks[name]);
    PartialKeys(s, name, d, id);
    assert Deleted(s, name).levels == Partial(s, name, d).levels;
    if id in s.refs {
      if name in s.refs[id] {
        HeldIfReferenced(s, name, id);
      } else if id in d {
        var p := HeldAt(s.stacks[name], id);
      }
    }
  }

  lemma PartialAt(s: Meta, name: string, d: set<string>, id: string)
    requires id in Partial(s, name, d).refs
    ensures id in s.refs
    ensures Partial(s, name, d).refs[id] == if id in d then s.refs[id] - {name} else s.refs[id]
  {
  }

  lemma DeletedRefs(s: Meta, name: string)
    requires RefsSound(s) && name in s.stacks && s.stacks - {name} != map[]
    ensures forall id | id in Deleted(s, name).refs :: Deleted(s, name).refs[id] == s.refs[id] - {name}
  {
    var t := Deleted(s, name);
    var d := HeldIds(s.stacks[name]);
    var p := Partial(s, name, d);
    assert t.refs == p.refs;
    forall id | id in p.refs ensures p.refs[id] == s.refs[id] - {name} {
      PartialAt(s, name, d, id);
      if id !in d {
        if name in s.refs[id] {
          HeldIfReferenced(s, name, id);
        }
        assert p.refs[id] == s.refs[id];
      }
    }
  }

  lemma HeldIfReferenced(s: Meta, name: string, id: string)
    requires RefsSound(s) && id in s.refs && name in s.refs[id]
    ensures name in s.stacks && id in HeldIds(s.stacks[name])
  {
    assert Holds(s, name, id);
    var t := Level(id);
    assert t in s.stacks[name].Values && t.Level? && t.id == id;
  }

  /** `delete` keeps the store valid. It drops the deck from every reference set, removes
      exactly the levels it was the last to reference, removes its stack and leaves the
      other stacks; with no stack left nothing remains. */
  lemma DeleteValid(s: Meta, name: string)
    requires Valid(s) && name in s.stacks
    ensures Valid(Deleted(s, name))
    ensures name !in Deleted(s, name).stacks
    ensures s.stacks - {name} == map[] ==> Deleted(s, name) == Gone
    ensures s.stacks - {name} != map[] ==>
      && Deleted(s, name).stacks == s.stacks - {name}
      && Deleted(s, name).mounts == s.mounts
      && (forall id :: id in Deleted(s, name).levels <==> id in s.levels && s.refs[id] != {name})
      && (forall id | id in Deleted(s, name).refs :: Deleted(s, name).refs[id] == s.refs[id] - {name})
  {
    DeletedPool(s, name);
    if s.stacks - {name} != map[] {
      DeletedRefsSound(s, name);
      DeletedRefsComplete(s, name);
      DeletedLevels(s, name);
      DeletedRefs(s, name);
    }
  }

  // ---------------------------------------------------------------- the mounts file

  /** Reading the `mounts` attribute: the file's content with trailing whitespace removed,
      or None when there is no file. */
  function MountsOf(s: Meta, name: string): (r: Option<string>)
    ensures r.Some? <==> name in s.mounts
  {
    if name in s.mounts then Some(TrimRight(s.mounts[name])) else None
  }

  /** Setting the `mounts` attribute: None removes the file, a value is written with a
      newline after it. */
  function SetMounts(s: Meta, name: string, v: Option<string>): Meta {
    match v
    case None => s.(mounts := s.mounts - {name})
    case Some(x) => s.(mounts := s.mounts[name := x + "\n"])
  }

  lemma TrimRightNewline(x: string)
    requires x == [] || !IsSpace(x[|x| - 1])
    ensures TrimRight(x + "\n") == x
  {
    var y := x + "\n";
    assert y[..|y| - 1] == x;
  }

  /** Reading back what was set gives it back, when it has no trailing whitespace; setting
      what was read copies the attribute; other decks' files are untouched. */
  lemma MountsRoundTrip(s: Meta, name: string, v: Option<string>)
    requires v.Some? ==> v.value == [] || !IsSpace(v.value[|v.value| - 1])
    ensures MountsOf(SetMounts(s, name, v), name) == v
    ensures forall other | other != name :: MountsOf(SetMounts(s, name, v), other) == MountsOf(s, other)
  {
    if v.Some? {
      TrimRightNewline(v.value);
    }
  }

  /** What the attribute reads never ends in whitespace, so copying it is exact. */
  lemma MountsCopy(s: Meta, from: string, to: string)
    ensures MountsOf(SetMounts(s, to, MountsOf(s, from)), to) == MountsOf(s, from)
  {
    MountsRoundTrip(s, to, MountsOf(s, from));
  }
}
