/**
 * The deck objects: the `.deck` directory as a store whose listings the storage methods
 * change in place, `DeckStorage` (one deck's stack, the levels it links and its mounts
 * attribute) and `Deck`, the front end that mounts a deck's levels as an aufs union and
 * replays the deck's saved mounts inside it; then the two entry points `init_create` and
 * `Deck.delete`.
 */
module Decks {
  import opened Wrappers
  import opened Text
  import opened Positions
  import opened DeckStore
  import Mounts
  import Aufs
  import AnonCache

  // ---------------------------------------------------------------- paths

  /** `DeckPaths(path).path`: the `.deck` directory beside the deck. Of `realpath` only the
      dropping of trailing slashes is modelled; paths are taken to be absolute and free of
      symbolic links. */
  function MetaPath(deckPath: string): string {
    Join(Dirname(RStripSlash(deckPath)), ".deck")
  }

  /** `basename(path.rstrip('/'))`: the deck's name in its store. */
  function DeckName(deckPath: string): string {
    Basename(RStripSlash(deckPath))
  }

  lemma ChildPath(dir: string, name: string)
    requires dir != "" && dir[|dir| - 1] != '/'
    requires name != "" && '/' !in name
    ensures RStripSlash(dir + "/" + name) == dir + "/" + name
    ensures Dirname(dir + "/" + name) == dir && Basename(dir + "/" + name) == name
  {
    var p := dir + "/" + name;
    assert p[|p| - 1] == name[|name| - 1];
    DirnameOfChild(dir, name);
    BasenameOfChild(dir, name);
  }

  /** Decks made side by side in one directory share one store, and each is known there by
      its own name; a trailing slash on the deck path changes neither. */
  lemma SiblingsShareStore(dir: string, a: string, b: string)
    requires dir != "" && dir[|dir| - 1] != '/'
    requires a != "" && b != "" && '/' !in a && '/' !in b
    ensures MetaPath(dir + "/" + a) == MetaPath(dir + "/" + b) == Join(dir, ".deck")
    ensures DeckName(dir + "/" + a) == a && DeckName(dir + "/" + b) == b
    ensures MetaPath(dir + "/" + a + "/") == MetaPath(dir + "/" + a)
    ensures DeckName(dir + "/" + a + "/") == a
  {
    ChildPath(dir, a);
    ChildPath(dir, b);
    var p := dir + "/" + a;
    assert (p + "/")[..|p + "/"| - 1] == p;
  }

  // ---------------------------------------------------------------- the store

  /** The `.deck` directory at `path`: the listings of its `stacks`, `levels`, `levels.refs`
      and `mounts` sub-directories. */
  class Store {
    const path: string
    var stacks: map<string, Stack>
    var levels: set<string>
    var refs: map<string, set<string>>
    var mounts: map<string, string>

    constructor (path: string, s: Meta)
      ensures this.path == path && State() == s
    {
      this.path := path;
      stacks, levels, refs, mounts := s.stacks, s.levels, s.refs, s.mounts;
    }

    /** The contents as a value. */
    function State(): Meta
      reads this
    {
      Meta(stacks, levels, refs, mounts)
    }
  }

  /** `digest` applied `k` more times to `digest(seed)`. */
  function Rehash(digest: Digest, seed: string, k: nat): HexDigest {
    if k == 0 then digest(seed) else digest(Rehash(digest, seed, k - 1))
  }

  /** A hexadecimal digest never contains a slash, so it names a single directory. */
  lemma HexNoSlash(h: HexDigest)
    ensures '/' !in h
  {
  }

  /** Where `create` takes a deck from: its source path, whether that is a directory, and,
      for a source whose store is another directory's, whether it is a deck there. */
  datatype Source = Source(path: string, isDir: bool, deckElsewhere: bool)

  /** What `create` makes of its source: a plain directory to start from, a deck of this
      store to branch from, or a deck of another store, which it refuses. */
  datatype SourceKind = PlainDir | SameStoreDeck(deck: string) | OtherStoreDeck

  function KindOf(src: Source, root: string, s: Meta): (r: SourceKind)
    ensures r.SameStoreDeck? <==> MetaPath(src.path) == root && DeckName(src.path) in s.stacks
    ensures r.SameStoreDeck? ==> r.deck == DeckName(src.path)
    ensures r.OtherStoreDeck? <==> MetaPath(src.path) != root && src.deckElsewhere
  {
    if MetaPath(src.path) == root then
      if DeckName(src.path) in s.stacks then SameStoreDeck(DeckName(src.path)) else PlainDir
    else if src.deckElsewhere then OtherStoreDeck
    else PlainDir
  }

  /** `create(source)` for deck `name` of the store at `root`, with `srcId` the level the
      branched-from deck gains and `id` the level the new deck gets: the checks in order,
      then a branch or a plain start. */
  function CreateOutcome(root: string, s: Meta, name: string, src: Source, srcId: string, id: string): Outcome {
    if name in s.stacks then Outcome(s, Some(AlreadyExists(name)))
    else if !src.isDir then Outcome(s, Some(NotADirectory(src.path)))
    else match KindOf(src, root, s)
      case OtherStoreDeck => Outcome(s, Some(OtherDirectory))
      case SameStoreDeck(from) => BranchOutcome(root, s, name, from, srcId, id)
      case PlainDir => PlainOutcome(s, name, src.path, id)
  }

  /** The new ids are new to the store and name single directories. */
  predicate IdsFresh(root: string, s: Meta, src: Source, srcId: string, id: string) {
    && id !in s.levels && '/' !in id
    && (KindOf(src, root, s).SameStoreDeck? ==> srcId !in s.levels && '/' !in srcId && srcId != id)
  }

  /** On a valid store, creating a deck under a new name from a directory, or from a deck of
      the same store, succeeds with fresh ids and keeps the store valid. */
  lemma CreateValid(root: string, s: Meta, name: string, src: Source, srcId: string, id: string)
    requires Valid(s) && name !in s.stacks && src.isDir && !KindOf(src, root, s).OtherStoreDeck?
    requires IdsFresh(root, s, src, srcId, id)
    ensures CreateOutcome(root, s, name, src, srcId, id).err.None?
    ensures Valid(CreateOutcome(root, s, name, src, srcId, id).state)
  {
    match KindOf(src, root, s)
    case SameStoreDeck(from) =>
      BranchValid(root, s, name, from, srcId, id);
    case PlainDir =>
      PlainValid(s, name, src.path, id);
  }

  /** A plain start gives a stack of two positions: the directory, then the new level. */
  lemma CreatePlain(root: string, s: Meta, name: string, src: Source, id: string)
    requires Valid(s) && name !in s.stacks && src.isDir && KindOf(src, root, s).PlainDir?
    requires id !in s.levels && '/' !in id
    ensures CreateOutcome(root, s, name, src, "", id).state.stacks
              == s.stacks[name := map[0 := External(src.path), 1 := Level(id)]]
  {
    PlainValid(s, name, src.path, id);
  }

  /** A branch from deck `from` of at most ten positions gives the new deck a copy of the
      source's stack with the new level on top and the source's mounts attribute, and puts
      the source's own new level on the source's stack. */
  lemma CreateBranch(root: string, s: Meta, name: string, src: Source, from: string, srcId: string, id: string)
    requires Valid(s) && name !in s.stacks && src.isDir && KindOf(src, root, s) == SameStoreDeck(from)
    requires from in s.stacks && |s.stacks[from].Keys| <= 10
    requires srcId !in s.levels && '/' !in srcId && id !in s.levels && '/' !in id && srcId != id
    ensures var st := s.stacks[from];
      var t := CreateOutcome(root, s, name, src, srcId, id).state;
      && MountsOf(t, name) == MountsOf(s, from)
      && t.stacks == s.stacks[from := st[|st.Keys| := Level(srcId)]][name := st[|st.Keys| := Level(id)]]
  {
    BranchValid(root, s, name, from, srcId, id);
    BranchCopiesStack(root, s.stacks[from]);
  }

  /** The loop of `get_levels`: each link of `sorted(os.listdir(stack))`, resolved. */
  method ListLevels(root: string, st: Stack) returns (levels: seq<string>)
    ensures levels == Levels(root, st)
  {
    var ns := ByName(st.Keys);
    levels := ResolveAll(root, st, ns);
    LevelsAt(root, st, levels);
  }

  /** Each link named in `ns`, resolved, in the order of `ns`. */
  method ResolveAll(root: string, st: Stack, ns: seq<nat>) returns (levels: seq<string>)
    requires forall i | 0 <= i < |ns| :: ns[i] in st
    ensures |levels| == |ns|
    ensures forall i | 0 <= i < |ns| :: levels[i] == Resolve(root, st[ns[i]])
  {
    levels := [];
    for i := 0 to |ns|
      invariant |levels| == i
      invariant forall k | 0 <= k < i :: levels[k] == Resolve(root, st[ns[k]])
    {
      levels := levels + [Resolve(root, st[ns[i]])];
    }
  }


  // ---------------------------------------------------------------- DeckStorage

  /** `DeckStorage`: deck `name`'s share of the store. */
  class DeckStorage {
    const name: string
    const store: Store

    constructor (deckPath: string, store: Store)
      requires store.path == MetaPath(deckPath)
      ensures name == DeckName(deckPath) && this.store == store
    {
      name := DeckName(deckPath);
      this.store := store;
    }

    /** `exists()`: the stack directory is there. */
    predicate Exists()
      reads store
    {
      name in store.stacks
    }

    /** Reading the `mounts` attribute. */
    function GetMounts(): Option<string>
      reads store
    {
      MountsOf(store.State(), name)
    }

    /** Setting the `mounts` attribute; None removes the file only when it is there. What is
        set reads back unless it ends in whitespace. */
    method PutMounts(v: Option<string>)
      modifies store
      ensures store.State() == SetMounts(old(store.State()), name, v)
      ensures (v.Some? ==> v.value == [] || !IsSpace(v.value[|v.value| - 1])) ==> GetMounts() == v
      ensures store.stacks == old(store.stacks)
    {
      match v {
        case None =>
          if name in store.mounts {
            store.mounts := store.mounts - {name};
          }
        case Some(x) =>
          store.mounts := store.mounts[name := x + "\n"];
      }
      if v.Some? ==> v.value == [] || !IsSpace(v.value[|v.value| - 1]) {
        MountsRoundTrip(old(store.State()), name, v);
      }
    }

    /** `_new_level_id()`: the first of `digest(name + now)`, `digest` of that, and so on,
        that is not a level of the pool; None once `fuel` rehashes found none. */
    method NewLevelId(now: string, digest: Digest, fuel: nat) returns (r: Option<string>)
      ensures r.Some? ==> r.value !in store.levels && '/' !in r.value
      ensures r.Some? ==> exists k: nat | k <= fuel :: r.value == Rehash(digest, name + now, k)
                            && forall j: nat | j < k :: Rehash(digest, name + now, j) in store.levels
      ensures r.None? ==> forall j: nat | j <= fuel :: Rehash(digest, name + now, j) in store.levels
    {
      var id := digest(name + now);
      var k := 0;
      while id in store.levels
        invariant k <= fuel && id == Rehash(digest, name + now, k)
        invariant forall j: nat | j < k :: Rehash(digest, name + now, j) in store.levels
        decreases fuel - k
      {
        if k == fuel {
          return None;
        }
        id := digest(id);
        k := k + 1;
      }
      HexNoSlash(id);
      return Some(id);
    }

    /** `add_level(level_id)`: make the level and its reference directory, link the level at
        the next position of the stack, then add the reference. */
    method AddLevel(id: string) returns (err: Option<Error>)
      modifies store
      ensures Outcome(store.State(), err) == AddLevelOutcome(old(store.State()), name, id)
      ensures old(store.stacks).Keys <= store.stacks.Keys
      ensures err.None? ==> name in store.stacks
    {
      store.levels := store.levels + {id};
      if id !in store.refs {
        store.refs := store.refs[id := {}];
      }
      if name !in store.stacks {
        return Some(NoStack(name));
      }
      var st := store.stacks[name];
      if st == map[] {
        return Some(EmptyStack(name));
      }
      store.stacks := store.stacks[name := st[NextPos(st) := Level(id)]];
      if name in store.refs[id] {
        return Some(RefExists(id, name));
      }
      store.refs := store.refs[id := store.refs[id] + {name}];
      err := None;
    }

    /** `add_level()`: the same with a new id, which is new to the pool and a single path
        component; nothing changes when no new id was found. */
    method AddFreshLevel(now: string, digest: Digest, fuel: nat) returns (id: string, err: Option<Error>)
      modifies store
      ensures err == Some(IdsExhausted) ==> store.State() == old(store.State())
      ensures err != Some(IdsExhausted) ==>
        && id !in old(store.levels) && '/' !in id
        && Outcome(store.State(), err) == AddLevelOutcome(old(store.State()), name, id)
      ensures old(store.stacks).Keys <= store.stacks.Keys
      ensures err.None? ==> name in store.stacks
    {
      var found := NewLevelId(now, digest, fuel);
      if found.None? {
        return "", Some(IdsExhausted);
      }
      id := found.value;
      err := AddLevel(id);
    }

    /** `get_levels()`: the stack's links in `sorted(os.listdir(stack))` order, each resolved
        to a path; listing a missing stack raises. */
    method GetLevels() returns (r: Result<seq<string>, Error>)
      ensures Exists() ==> r == Ok(Levels(store.path, store.stacks[name]))
      ensures !Exists() ==> r == Err(NoStack(name))
    {
      if name !in store.stacks {
        return Err(NoStack(name));
      }
      var levels := ListLevels(store.path, store.stacks[name]);
      return Ok(levels);
    }

    /** The branch loop of `create`: `add_level(basename(level))` for each level after the
        first, in list order, stopping at the first failure. */
    method CopyLevels(levels: seq<string>, ghost s: Meta) returns (err: Option<Error>)
      requires 1 <= |levels| && store.State() == Copied(s, name, levels, 1).state
      modifies store
      ensures Outcome(store.State(), err) == Copied(s, name, levels, |levels|)
      ensures old(store.stacks).Keys <= store.stacks.Keys
    {
      for i := 1 to |levels|
        invariant Copied(s, name, levels, i) == Outcome(store.State(), None)
        invariant old(store.stacks).Keys <= store.stacks.Keys
      {
        err := AddLevel(Basename(levels[i]));
        if err.Some? {
          CopiedStops(s, name, levels, i + 1, |levels|);
          return;
        }
      }
      err := None;
    }

    /** The branch part of `create`: copy the stack of deck `source`, give the source a new
        level (remounting it when mounted), copy its mounts attribute, then give this deck a
        new level. */
    method Branch(source: Deck, now: string, digest: Digest, fuel: nat)
      returns (err: Option<Error>, srcId: string, id: string)
      requires source.storage.store == store && source.storage.name in store.stacks
      requires name !in store.stacks
      modifies store, source.kernel
      ensures err != Some(IdsExhausted) ==>
        Outcome(store.State(), err) == BranchOutcome(store.path, old(store.State()), name, source.storage.name, srcId, id)
      ensures err.None? ==>
        srcId !in old(store.levels) && '/' !in srcId && id !in old(store.levels) && '/' !in id && srcId != id
      ensures source.kernel.table == old(source.kernel.table)
      ensures source.kernel.unions - {source.path} == old(source.kernel.unions) - {source.path}
      ensures (source.path in source.kernel.unions) == old(source.path in source.kernel.unions)
      ensures err.None? && !old(source.IsMounted()) ==> unchanged(source.kernel)
      ensures err.None? && old(source.IsMounted()) ==>
        && source.storage.name in store.stacks
        && var levels := Levels(store.path, store.stacks[source.storage.name]);
        && |levels| >= 2
        && KernelOf(source.kernel) == RemountStep(old(KernelOf(source.kernel)), source.path, levels)
      ensures err.None? ==> name in store.stacks
    {
      ghost var s0 := store.State();
      srcId, id := "", "";
      err := CopyFrom(source.storage);
      if err.Some? {
        return;
      }
      srcId, id, err := Grow(source, now, digest, fuel);
    }

    /** The copy part of a branch from the deck `source` stores. */
    method CopyFrom(source: DeckStorage) returns (err: Option<Error>)
      requires source.store == store && source.name in store.stacks && name !in store.stacks
      modifies store
      ensures Outcome(store.State(), err) == CopyOutcome(store.path, old(store.State()), name, source.name)
      ensures old(store.levels) <= store.levels
      ensures err.None? ==> name in store.stacks && source.name in store.stacks
    {
      ghost var s0 := store.State();
      var got := source.GetLevels();
      var levels := got.value;
      if levels == [] {
        store.stacks := store.stacks[name := map[]];
        return Some(EmptyStack(source.name));
      }
      store.stacks := store.stacks[name := map[0 := External(levels[0])]];
      err := CopyLevels(levels, s0);
      CopiedKeepsPool(s0, name, levels, |levels|);
    }

    /** The rest of a branch: the source deck's `add_level()` (which remounts it when it is
        mounted), then the mounts attribute and a new level for this deck. */
    method Grow(source: Deck, now: string, digest: Digest, fuel: nat)
      returns (srcId: string, id: string, err: Option<Error>)
      requires source.storage.store == store && source.storage.name in store.stacks
      requires name != source.storage.name
      modifies store, source.kernel
      ensures err != Some(IdsExhausted) ==>
        Outcome(store.State(), err) == GrowOutcome(old(store.State()), name, source.storage.name, srcId, id)
      ensures err.None? ==>
        srcId !in old(store.levels) && '/' !in srcId && id !in old(store.levels) && '/' !in id && srcId != id
      ensures source.kernel.table == old(source.kernel.table)
      ensures source.kernel.unions - {source.path} == old(source.kernel.unions) - {source.path}
      ensures (source.path in source.kernel.unions) == old(source.path in source.kernel.unions)
      ensures err.None? && !old(source.IsMounted()) ==> unchanged(source.kernel)
      ensures err.None? && old(source.IsMounted()) ==>
        && source.storage.name in store.stacks
        && var levels := Levels(store.path, store.stacks[source.storage.name]);
        && |levels| >= 2
        && KernelOf(source.kernel) == RemountStep(old(KernelOf(source.kernel)), source.path, levels)
      ensures err.None? ==> name in store.stacks
    {
      id := "";
      ghost var s1 := store.State();
      srcId, err := source.AddLevel(now, digest, fuel);
      if err.Some? {
        return;
      }
      AddLevelKeepsPool(s1, source.storage.name, srcId);
      AddLevelProvides(s1, source.storage.name, srcId);
      ghost var k1 := KernelOf(source.kernel);
      ghost var st1 := store.stacks[source.storage.name];
      id, err := FinishBranch(source.storage.name, source.storage.GetMounts(), now, digest, fuel);
      assert KernelOf(source.kernel) == k1;
      assert store.stacks[source.storage.name] == st1;
    }

    /** The end of a branch: take over the mounts attribute `m` of deck `src`, then add a new
        level; deck `src`'s stack is left as it is. */
    method FinishBranch(src: string, m: Option<string>, now: string, digest: Digest, fuel: nat)
      returns (id: string, err: Option<Error>)
      requires src != name && src in store.stacks
      modifies store
      ensures err != Some(IdsExhausted) ==>
        Outcome(store.State(), err) == AddLevelOutcome(SetMounts(old(store.State()), name, m), name, id)
      ensures err.None? ==> id !in old(store.levels) && '/' !in id && name in store.stacks
      ensures src in store.stacks && store.stacks[src] == old(store.stacks[src])
    {
      ghost var s0 := store.State();
      PutMounts(m);
      id, err := AddFreshLevel(now, digest, fuel);
      if err != Some(IdsExhausted) {
        AddLevelKeepsOthers(SetMounts(s0, name, m), name, id, src);
      }
    }

    /** The plain part of `create`: link the directory `base` at position 0, then give the
        deck a new level. */
    method Start(base: string, now: string, digest: Digest, fuel: nat) returns (err: Option<Error>, id: string)
      modifies store
      ensures err != Some(IdsExhausted) ==> Outcome(store.State(), err) == PlainOutcome(old(store.State()), name, base, id)
      ensures err.None? ==> id !in old(store.levels) && '/' !in id
      ensures err.None? ==> name in store.stacks
    {
      store.stacks := store.stacks[name := map[0 := External(base)]];
      id, err := AddFreshLevel(now, digest, fuel);
    }

    /** `create(source)`: refuse an existing deck, a source that is not a directory and a
        deck of another store, then branch or start. Only the source deck's union mount is
        touched, and only by the remount of its `add_level`. */
    method Create(src: Source, kernel: Mounts.Kernel, cache: AnonCache.Cache, now: string, digest: Digest, fuel: nat)
      returns (err: Option<Error>, srcId: string, id: string)
      modifies store, kernel
      ensures err != Some(IdsExhausted) ==>
        Outcome(store.State(), err) == CreateOutcome(store.path, old(store.State()), name, src, srcId, id)
      ensures err.None? ==> IdsFresh(store.path, old(store.State()), src, srcId, id)
      ensures kernel.table == old(kernel.table)
      ensures kernel.unions - {src.path} == old(kernel.unions) - {src.path}
      ensures (src.path in kernel.unions) == old(src.path in kernel.unions)
      ensures !old(KindOf(src, store.path, store.State())).SameStoreDeck? ==> unchanged(kernel)
      ensures err.None? && !old(Aufs.IsMounted(kernel, src.path)) ==> unchanged(kernel)
      ensures err.None? && old(KindOf(src, store.path, store.State())).SameStoreDeck? && old(Aufs.IsMounted(kernel, src.path)) ==>
        && DeckName(src.path) in store.stacks
        && var levels := Levels(store.path, store.stacks[DeckName(src.path)]);
        && |levels| >= 2
        && KernelOf(kernel) == RemountStep(old(KernelOf(kernel)), src.path, levels)
      ensures err.None? ==> name in store.stacks
    {
      srcId, id := "", "";
      if name in store.stacks {
        return Some(AlreadyExists(name)), srcId, id;
      }
      if !src.isDir {
        return Some(NotADirectory(src.path)), srcId, id;
      }
      match KindOf(src, store.path, store.State()) {
        case OtherStoreDeck =>
          return Some(OtherDirectory), srcId, id;
        case SameStoreDeck(from) =>
          var sourceStorage := new DeckStorage(src.path, store);
          // `Deck(source_path)`: its stack was just found
          var source := new Deck(src.path, sourceStorage, kernel, cache);
          err, srcId, id := Branch(source, now, digest, fuel);
        case PlainDir =>
          err, id := Start(src.path, now, digest, fuel);
      }
    }

    /** One step of the loop of `delete()`: remove this deck's reference to level `id`, and
        the level itself when no reference is left. */
    method Unlink(id: string) returns (err: Option<Error>)
      modifies store
      ensures Outcome(store.State(), err) == Release(old(store.State()), name, id)
    {
      if id !in store.refs || name !in store.refs[id] {
        return Some(NoRef(id, name));
      }
      var rest := store.refs[id] - {name};
      if rest != {} {
        store.refs := store.refs[id := rest];
        return None;
      }
      store.refs := store.refs - {id};
      if id !in store.levels {
        return Some(NoRef(id, name));
      }
      store.levels := store.levels - {id};
      err := None;
    }

    /** `delete()`: release every link but the first listed, in listing order, then remove
        the stack, and the whole store when no stack is left. */
    method Delete() returns (err: Option<Error>)
      modifies store
      ensures Outcome(store.State(), err) == DeleteOutcome(old(store.State()), name)
    {
      if name !in store.stacks {
        return Some(NoStack(name));
      }
      ghost var s0 := store.State();
      var st := store.stacks[name];
      var ns := Tail(ByName(st.Keys));
      TailListed(st);
      for i := 0 to |ns|
        invariant Released(s0, name, st, ns, i) == Outcome(store.State(), None)
      {
        err := Unlink(LinkId(st[ns[i]]));
        if err.Some? {
          ReleasedStops(s0, name, st, ns, i + 1, |ns|);
          return;
        }
      }
      DropStack();
      err := None;
    }

    /** The end of `delete()`: the stack directory goes, and the whole store with the last one. */
    method DropStack()
      modifies store
      ensures var t := old(store.State()).(stacks := old(store.stacks) - {name});
              store.State() == if t.stacks == map[] then Gone else t
    {
      store.stacks := store.stacks - {name};
      if store.stacks == map[] {
        store.levels, store.refs, store.mounts := {}, map[], map[];
      }
    }
  }

  // ---------------------------------------------------------------- the kernel side

  /** The kernel's table of single mounts, its union mounts and its command log, as a value. */
  datatype KernelState = KernelState(table: seq<Mounts.Mount>, unions: map<string, seq<Mounts.Branch>>,
                                     log: seq<Mounts.Command>)

  function KernelOf(k: Mounts.Kernel): KernelState
    reads k
  {
    KernelState(k.table, k.unions, k.log)
  }

  /** The kernel after a step of the front end, and the error the step raised, if any. */
  datatype Step = Step(kernel: KernelState, err: Option<Error>)

  /** The saved mounts of a deck as `mount` and `umount` find them: none, a blob that cannot
      be read, or the blob's text. */
  type Saved = Option<Result<string, AnonCache.CacheError>>

  /** `mount()` on a deck that is not mounted, given its levels (oldest first) and its saved
      mounts: the levels become a union, newest on top, then every saved mount is mounted
      under the deck path; a blob that cannot be read raises after the union mount. */
  function MountStep(k: KernelState, path: string, levels: seq<string>, saved: Saved): Step {
    var bs := Reversed(levels);
    SavedStep(k.(unions := k.unions[path := Aufs.Layout(bs)], log := k.log + [Mounts.UnionMountCmd(path, bs)]),
              path, saved)
  }

  /** The second half of `mount()`: every saved mount under the deck path, in table order;
      a blob that cannot be read raises. */
  function SavedStep(u: KernelState, path: string, saved: Saved): Step {
    match saved
    case None => Step(u, None)
    case Some(Err(_)) => Step(u, Some(BlobError))
    case Some(Ok(text)) =>
      var ms := Mounts.Parse(text, "");
      Step(u.(table := Mounts.Mounted(ms, |ms|, path, u.table),
              log := u.log + Mounts.MountLog(ms, |ms|, path, u.table)), None)
  }

  /** Whatever the saved mounts, `mount()` lays the levels out as the union, newest first;
      saved mounts that read back are mounted in table order under the deck path. */
  lemma MountStepLays(k: KernelState, path: string, levels: seq<string>, saved: Saved)
    ensures MountStep(k, path, levels, saved).kernel.unions == k.unions[path := Aufs.Layout(Reversed(levels))]
    ensures saved.Some? && saved.value.Ok? ==>
      var ms := Mounts.Parse(saved.value.value, "");
      MountStep(k, path, levels, saved).kernel.table == Mounts.Mounted(ms, |ms|, path, k.table)
  {
  }

  /** `umount()` on a mounted deck: every saved mount is unmounted, the last first, then the
      union; a blob that cannot be read raises before anything is unmounted. */
  function UmountStep(k: KernelState, path: string, saved: Saved): Step {
    match saved
    case None =>
      Step(k.(unions := k.unions - {path}, log := k.log + [Mounts.UnionUmountCmd(path)]), None)
    case Some(Err(_)) => Step(k, Some(BlobError))
    case Some(Ok(text)) =>
      var ms := Mounts.Parse(text, "");
      Step(KernelState(Mounts.Unmounted(ms, 0, path, k.table), k.unions - {path},
                       k.log + Mounts.UmountLog(ms, 0, path, k.table) + [Mounts.UnionUmountCmd(path)]), None)
  }

  /** Mounting a deck and unmounting it again restores the kernel's tables when the deck path
      was not a union mount and the saved mounts land on distinct directories that are not
      mounted yet; the log records the union mount, each saved mount in table order, their
      unmounts in reverse order, and the union unmount. */
  lemma MountThenUmount(k: KernelState, path: string, levels: seq<string>, text: string)
    requires path !in k.unions
    requires Mounts.Fresh(Mounts.Parse(text, ""), path, k.table)
    ensures var m := MountStep(k, path, levels, Some(Ok(text)));
      var u := UmountStep(m.kernel, path, Some(Ok(text)));
      var ms := Mounts.Parse(text, "");
      && m.err.None? && u.err.None?
      && path in m.kernel.unions
      && u.kernel.table == k.table && u.kernel.unions == k.unions
      && u.kernel.log == k.log + [Mounts.UnionMountCmd(path, Reversed(levels))]
                       + (Mounts.MountCmds(ms, path) + Mounts.UmountCmds(ms, path))
                       + [Mounts.UnionUmountCmd(path)]
  {
    var ms := Mounts.Parse(text, "");
    var bs := Reversed(levels);
    var u := k.(unions := k.unions[path := Aufs.Layout(bs)], log := k.log + [Mounts.UnionMountCmd(path, bs)]);
    var m := MountStep(k, path, levels, Some(Ok(text)));
    var mounted := Mounts.Mounted(ms, |ms|, path, k.table);
    assert m.kernel == u.(table := mounted, log := u.log + Mounts.MountLog(ms, |ms|, path, k.table));
    var d := UmountStep(m.kernel, path, Some(Ok(text)));
    assert d.kernel.table == Mounts.Unmounted(ms, 0, path, mounted);
    assert d.kernel.log == m.kernel.log + Mounts.UmountLog(ms, 0, path, mounted) + [Mounts.UnionUmountCmd(path)];
    Mounts.MountThenUmount(ms, path, k.table);
    RemoveUpdated(k.unions, path, Aufs.Layout(bs));
    assert d.kernel.unions == k.unions;
    Regroup(k.log + [Mounts.UnionMountCmd(path, bs)], Mounts.MountLog(ms, |ms|, path, k.table),
            Mounts.UmountLog(ms, 0, path, mounted), [Mounts.UnionUmountCmd(path)]);
  }

  lemma Regroup<T>(h: seq<T>, x: seq<T>, y: seq<T>, z: seq<T>)
    ensures h + x + y + z == h + (x + y) + z
  {
  }

  /** The same for a deck without saved mounts. */
  lemma MountThenUmountBare(k: KernelState, path: string, levels: seq<string>)
    requires path !in k.unions
    ensures var m := MountStep(k, path, levels, None);
      var u := UmountStep(m.kernel, path, None);
      && m.err.None? && u.err.None?
      && u.kernel == k.(log := k.log + [Mounts.UnionMountCmd(path, Reversed(levels)), Mounts.UnionUmountCmd(path)])
  {
    RemoveUpdated(k.unions, path, Aufs.Layout(Reversed(levels)));
  }

  /** `mod:<beforelast>=ro` and `prepend:<last>=rw`: demote the top branch, add the new one. */
  function TopOps(levels: seq<string>): seq<Aufs.Op>
    requires |levels| >= 2
  {
    [Aufs.Mod(levels[|levels| - 2], false), Aufs.Prepend(levels[|levels| - 1], true)]
  }

  /** The remount `Deck.add_level` issues on a mounted deck with the given levels. */
  function RemountStep(k: KernelState, path: string, levels: seq<string>): KernelState
    requires |levels| >= 2 && path in k.unions
  {
    var ops := TopOps(levels);
    k.(unions := k.unions[path := Aufs.ApplyOps(ops, k.unions[path])],
       log := k.log + [Mounts.UnionRemountCmd(path, Aufs.OpTexts(ops))])
  }

  /** The remount touches only the union at `path`: the mount table and every other union
      stay as they are. */
  lemma RemountFrame(k: KernelState, path: string, levels: seq<string>)
    requires |levels| >= 2 && path in k.unions
    ensures RemountStep(k, path, levels).table == k.table
    ensures RemountStep(k, path, levels).unions - {path} == k.unions - {path}
    ensures path in RemountStep(k, path, levels).unions
  {
  }

  /** With at most ten positions, the remount after `add_level` lays the union out exactly as
      a fresh mount of the grown stack would: the new level on top and writable, the rest
      read-only, newest first. */
  lemma RemountMatchesMount(root: string, s: Meta, name: string, id: string, k: KernelState, path: string)
    requires name in s.stacks && StackOk(s.stacks[name]) && name !in RefsOf(s, id)
    requires |s.stacks[name].Keys| + 1 <= 10
    requires path in k.unions && k.unions[path] == Aufs.Layout(Reversed(Levels(root, s.stacks[name])))
    ensures AddLevelOutcome(s, name, id).err.None?
    ensures var t := AddLevelOutcome(s, name, id).state;
      && name in t.stacks
      && var levels := Levels(root, t.stacks[name]);
      && |levels| >= 2
      && RemountStep(k, path, levels).unions == k.unions[path := Aufs.Layout(Reversed(levels))]
  {
    var st := s.stacks[name];
    AddLevelAppends(s, name, id);
    assert Added(s, name, id).stacks[name] == st[|st.Keys| := Level(id)];
    LevelsAfterAppend(root, st, Level(id));
    assert 0 in st.Keys;
    var before := Levels(root, st);
    RemountTop(k, path, before, LevelPath(root, id));
    assert Levels(root, AddLevelOutcome(s, name, id).state.stacks[name]) == before + [LevelPath(root, id)];
  }

  lemma RemountTop(k: KernelState, path: string, before: seq<string>, last: string)
    requires |before| >= 1 && path in k.unions && k.unions[path] == Aufs.Layout(Reversed(before))
    ensures RemountStep(k, path, before + [last]).unions == k.unions[path := Aufs.Layout(Reversed(before + [last]))]
  {
    RemountUnions(k, path, before + [last]);
    RemountOps(before, last);
  }

  lemma RemountUnions(k: KernelState, path: string, levels: seq<string>)
    requires |levels| >= 2 && path in k.unions
    ensures RemountStep(k, path, levels).unions == k.unions[path := Aufs.ApplyOps(TopOps(levels), k.unions[path])]
  {
  }

  lemma RemountOps(before: seq<string>, last: string)
    requires |before| >= 1
    ensures Aufs.ApplyOps(TopOps(before + [last]), Aufs.Layout(Reversed(before))) == Aufs.Layout(Reversed(before + [last]))
  {
    var levels := before + [last];
    var n := |before|;
    assert |levels| == n + 1;
    assert levels[n - 1] == before[n - 1];
    assert levels[n] == last;
    Aufs.RemountAddsTop(before, last);
  }

  // ---------------------------------------------------------------- Deck

  /** The front end of a deck at `path`. */
  class Deck {
    const path: string
    const storage: DeckStorage
    const kernel: Mounts.Kernel
    const cache: AnonCache.Cache

    constructor (path: string, storage: DeckStorage, kernel: Mounts.Kernel, cache: AnonCache.Cache)
      ensures this.path == path && this.storage == storage && this.kernel == kernel && this.cache == cache
    {
      this.path := path;
      this.storage := storage;
      this.kernel := kernel;
      this.cache := cache;
    }

    /** `Deck(path)`: refuses a path whose store has no stack for it. */
    static method Open(path: string, store: Store, kernel: Mounts.Kernel, cache: AnonCache.Cache)
      returns (r: Result<Deck, Error>)
      requires store.path == MetaPath(path)
      ensures r.Err? <==> DeckName(path) !in store.stacks
      ensures r.Err? ==> r.error == NotADeck(path)
      ensures r.Ok? ==> fresh(r.value) && r.value.path == path && r.value.kernel == kernel
                        && r.value.cache == cache && r.value.storage.store == store
                        && r.value.storage.name == DeckName(path)
    {
      var storage := new DeckStorage(path, store);
      if !storage.Exists() {
        return Err(NotADeck(path));
      }
      var deck := new Deck(path, storage, kernel, cache);
      return Ok(deck);
    }

    /** `is_mounted()`: `useraufs-show` lists the deck path as a union mount point. */
    predicate IsMounted()
      reads kernel
      ensures forall show | Aufs.Lists(show, kernel.unions) :: IsMounted() == Aufs.ScanShow(show, path)
    {
      Aufs.IsMounted(kernel, path)
    }

    /** What `mount` and `umount` find as the saved mounts: none when the attribute is unset
        or empty, else the blob the attribute names, or the error opening it. */
    function SavedMounts(): Saved
      reads storage.store, cache
    {
      var m := MountsOf(storage.store.State(), storage.name);
      if m.None? || m.value == "" then None else Some(cache.Read(m.value))
    }

    /** `mount()`: refuse a mounted deck; mount the levels as a union, newest first, then
        the saved mounts under the deck path. */
    method Mount() returns (err: Option<Error>)
      modifies kernel
      ensures storage.store.State() == old(storage.store.State()) && SavedMounts() == old(SavedMounts())
      ensures old(IsMounted()) ==> err == Some(AlreadyMounted(path)) && unchanged(kernel)
      ensures !old(IsMounted()) && !storage.Exists() ==> err == Some(NoStack(storage.name)) && unchanged(kernel)
      ensures !old(IsMounted()) && storage.Exists() ==>
        Step(KernelOf(kernel), err)
          == MountStep(old(KernelOf(kernel)), path, Levels(storage.store.path, storage.store.stacks[storage.name]), SavedMounts())
    {
      if IsMounted() {
        return Some(AlreadyMounted(path));
      }
      var got := storage.GetLevels();
      if got.Err? {
        return Some(got.error);
      }
      var _ := Aufs.Mount(kernel, Reversed(got.value), path);
      err := MountSaved();
    }

    /** The saved mounts of the deck, mounted under its path. */
    method MountSaved() returns (err: Option<Error>)
      modifies kernel
      ensures Step(KernelOf(kernel), err) == SavedStep(old(KernelOf(kernel)), path, SavedMounts())
    {
      var m := storage.GetMounts();
      if m.Some? && m.value != "" {
        var content := cache.Read(m.value);
        if content.Err? {
          return Some(BlobError);
        }
        var table := Mounts.ParseTable(content.value, "");
        kernel.MountTable(table, Some(path));
      }
      err := None;
    }

    /** `umount()`: refuse an unmounted deck; unmount the saved mounts, last first, then the
        union. */
    method Umount() returns (err: Option<Error>)
      modifies kernel
      ensures !old(IsMounted()) ==> err == Some(NotMounted(path)) && unchanged(kernel)
      ensures old(IsMounted()) ==> Step(KernelOf(kernel), err) == UmountStep(old(KernelOf(kernel)), path, SavedMounts())
    {
      if !IsMounted() {
        return Some(NotMounted(path));
      }
      var m := storage.GetMounts();
      if m.Some? && m.value != "" {
        var content := cache.Read(m.value);
        if content.Err? {
          return Some(BlobError);
        }
        var table := Mounts.ParseTable(content.value, "");
        kernel.UmountTable(table, Some(path));
      }
      var _ := Aufs.Umount(kernel, path);
      err := None;
    }

    /** The first step of `Deck.delete`: `umount()` when the deck is mounted. Afterwards the
        deck is not mounted, unless unmounting it raised. */
    method UmountIfMounted() returns (err: Option<Error>)
      modifies kernel
      ensures !old(IsMounted()) ==> err.None? && unchanged(kernel)
      ensures old(IsMounted()) ==> Step(KernelOf(kernel), err) == UmountStep(old(KernelOf(kernel)), path, SavedMounts())
      ensures err.None? ==> !IsMounted()
    {
      err := None;
      if IsMounted() {
        err := Umount();
      }
    }

    /** `add_level()`: a new level for the deck, then, when the deck is mounted, a remount
        that demotes the old top level and puts the new one on top. */
    method AddLevel(now: string, digest: Digest, fuel: nat) returns (id: string, err: Option<Error>)
      modifies storage.store, kernel
      ensures err == Some(IdsExhausted) ==> storage.store.State() == old(storage.store.State())
      ensures err != Some(IdsExhausted) ==>
        && id !in old(storage.store.levels) && '/' !in id
        && Outcome(storage.store.State(), err) == AddLevelOutcome(old(storage.store.State()), storage.name, id)
      ensures old(storage.store.stacks).Keys <= storage.store.stacks.Keys
      ensures err.Some? || !old(IsMounted()) ==> unchanged(kernel)
      ensures kernel.table == old(kernel.table)
      ensures kernel.unions - {path} == old(kernel.unions) - {path}
      ensures (path in kernel.unions) == old(path in kernel.unions)
      ensures err.None? && old(IsMounted()) ==>
        && storage.name in storage.store.stacks
        && var levels := Levels(storage.store.path, storage.store.stacks[storage.name]);
        && |levels| >= 2
        && KernelOf(kernel) == RemountStep(old(KernelOf(kernel)), path, levels)
    {
      ghost var s0 := storage.store.State();
      id, err := storage.AddFreshLevel(now, digest, fuel);
      if err.Some? {
        return;
      }
      if IsMounted() {
        AddedHasTwo(s0, storage.name, id);
        RemountTop();
      }
    }

    /** The remount that ends `add_level()` on a mounted deck, over a stack of two levels or
        more; nothing but the deck's own union mount changes. */
    method RemountTop()
      requires IsMounted()
      requires storage.name in storage.store.stacks && |storage.store.stacks[storage.name].Keys| >= 2
      modifies kernel
      ensures var levels := Levels(storage.store.path, storage.store.stacks[storage.name]);
        && |levels| >= 2
        && KernelOf(kernel) == RemountStep(old(KernelOf(kernel)), path, levels)
      ensures kernel.table == old(kernel.table)
      ensures kernel.unions - {path} == old(kernel.unions) - {path}
      ensures path in kernel.unions
    {
      var got := storage.GetLevels();
      ghost var k0 := KernelOf(kernel);
      Aufs.Remount(kernel, TopOps(got.value), path);
      RemountFrame(k0, path, got.value);
    }
  }

  // ---------------------------------------------------------------- entry points

  /** What is at the deck path before `init_create`: nothing, an empty directory, or a file
      or non-empty directory. */
  datatype PathState = Missing | EmptyDir | Occupied

  /** A blob just written reads back, and its id names a mounts attribute that reads back. */
  lemma SavedBlob(cache: AnonCache.Cache, id: string, content: string)
    requires AnonCache.ValidId(id) && AnonCache.BlobPath(cache.path, id).value in cache.blobs
    requires cache.blobs[AnonCache.BlobPath(cache.path, id).value] == content
    ensures cache.Read(id) == Ok(content)
    ensures id != "" && !IsSpace(id[|id| - 1])
  {
    var p := AnonCache.BlobPath(cache.path, id).value;
    assert AnonCache.BlobPath(cache.path, id) == Ok(p) && p in cache.blobs;
    assert AnonCache.IsAlnum(id[|id| - 1]);
  }

  /** The mounts step of `init_create`: the mounts under the source are written, as `str`
      prints them, to a new blob, whose id becomes the deck's mounts attribute. */
  method SaveMounts(storage: DeckStorage, cache: AnonCache.Cache, ms: seq<Mounts.Mount>,
                    now: string, random: string, digest: Digest, fuel: nat)
    returns (err: Option<Error>, b: string)
    modifies storage.store, cache
    ensures err.Some? ==> err == Some(IdsExhausted) && storage.store.State() == old(storage.store.State())
    ensures err.None? ==>
      && storage.store.State() == SetMounts(old(storage.store.State()), storage.name, Some(b))
      && storage.GetMounts() == Some(b) && cache.Read(b) == Ok(Mounts.Serialize(ms)) && b != ""
    ensures storage.store.stacks == old(storage.store.stacks)
  {
    var blob := cache.NewId("None", now, random, digest, fuel);
    if blob.None? {
      return Some(IdsExhausted), "";
    }
    b := blob.value;
    var _ := cache.Write(b, Mounts.Serialize(ms));
    SavedBlob(cache, b, Mounts.Serialize(ms));
    storage.PutMounts(Some(b));
    err := None;
  }

  /** `DeckStorage(path).create(source)`, seen from `init_create`: the deck exists
      afterwards, and a valid store stays valid. */
  method CreateValidStorage(src: Source, storage: DeckStorage, kernel: Mounts.Kernel, cache: AnonCache.Cache,
                            now: string, digest: Digest, fuel: nat)
    returns (err: Option<Error>)
    modifies storage.store, kernel
    ensures kernel.table == old(kernel.table)
    ensures err.None? ==> storage.Exists()
    ensures err.None? && old(Valid(storage.store.State())) ==> Valid(storage.store.State())
  {
    ghost var s0 := storage.store.State();
    var srcId, id;
    err, srcId, id := storage.Create(src, kernel, cache, now, digest, fuel);
    if err.None? && Valid(s0) {
      CreateValid(storage.store.path, s0, storage.name, src, srcId, id);
    }
  }

  /** The mounts step of `Deck.init_create`: when the mount table has lines below the
      source, save them as a new blob named by the deck's mounts attribute. The stacks do
      not change, and a valid store stays valid. */
  method SaveSourceMounts(storage: DeckStorage, cache: AnonCache.Cache, mtab: string, source: string,
                          now: string, random: string, digest: Digest, fuel: nat)
    returns (err: Option<Error>, b: string)
    modifies storage.store, cache
    ensures storage.store.stacks == old(storage.store.stacks)
    ensures err.None? && old(Valid(storage.store.State())) ==> Valid(storage.store.State())
    ensures err.None? && |Mounts.Parse(mtab, source)| > 0 ==>
      && b != "" && storage.GetMounts() == Some(b)
      && cache.Read(b) == Ok(Mounts.Serialize(Mounts.Parse(mtab, source)))
  {
    err, b := None, "";
    var table := Mounts.ParseTable(mtab, source);
    if Mounts.Len(table) > 0 {
      ghost var s1 := storage.store.State();
      err, b := SaveMounts(storage, cache, table.mounts, now, random, digest, fuel);
      if err.None? && Valid(s1) {
        SetMountsValid(s1, storage.name, Some(b));
      }
    }
  }

  /** The storage steps of `Deck.init_create`: create the storage, then save the mounts
      below the source. */
  method CreateStorage(src: Source, storage: DeckStorage, kernel: Mounts.Kernel, cache: AnonCache.Cache,
                       mtab: string, now: string, random: string, digest: Digest, fuel: nat)
    returns (err: Option<Error>, b: string)
    modifies storage.store, kernel, cache
    ensures kernel.table == old(kernel.table)
    ensures err.None? ==> storage.Exists()
    ensures err.None? && old(Valid(storage.store.State())) ==> Valid(storage.store.State())
    ensures err.None? && |Mounts.Parse(mtab, src.path)| > 0 ==>
      && b != "" && storage.GetMounts() == Some(b)
      && cache.Read(b) == Ok(Mounts.Serialize(Mounts.Parse(mtab, src.path)))
  {
    b := "";
    err := CreateValidStorage(src, storage, kernel, cache, now, digest, fuel);
    if err.Some? {
      return;
    }
    // `makedirs(deck_path)`: the mount point itself is not part of the model
    err, b := SaveSourceMounts(storage, cache, mtab, src.path, now, random, digest, fuel);
  }

  /** `Deck.init_create(source, path)`: refuse an occupied deck path, create the storage,
      save the mounts under the source (the lines of `mtab` below it) as a new blob, then
      open and mount the deck. The new deck is mounted with its levels as the union, newest
      first, and the saved mounts mounted again under the deck path. */
  method InitCreate(src: Source, deckPath: string, at: PathState, store: Store, kernel: Mounts.Kernel,
                    cache: AnonCache.Cache, mtab: string, now: string, random: string, digest: Digest, fuel: nat)
    returns (r: Result<Deck, Error>)
    requires store.path == MetaPath(deckPath)
    modifies store, kernel, cache
    ensures at == Occupied ==> r == Err(NotEmpty(deckPath)) && store.State() == old(store.State()) && unchanged(kernel)
    ensures r.Ok? ==>
      && r.value.path == deckPath && r.value.storage.name == DeckName(deckPath)
      && r.value.storage.store == store && r.value.kernel == kernel && r.value.cache == cache
      && DeckName(deckPath) in store.stacks && Aufs.IsMounted(kernel, deckPath)
      && kernel.unions[deckPath] == Aufs.Layout(Reversed(Levels(store.path, store.stacks[DeckName(deckPath)])))
    ensures r.Ok? && |Mounts.Parse(mtab, src.path)| > 0 ==>
      var ms := Mounts.Parse(mtab, src.path);
      kernel.table == Mounts.Mounted(ms, |ms|, deckPath, old(kernel.table))
    ensures r.Ok? && old(Valid(store.State())) ==> Valid(store.State())
  {
    if at == Occupied {
      return Err(NotEmpty(deckPath));
    }
    var storage := new DeckStorage(deckPath, store);
    var e, b := CreateStorage(src, storage, kernel, cache, mtab, now, random, digest, fuel);
    if e.Some? {
      return Err(e.value);
    }
    ghost var k1 := KernelOf(kernel);
    // `cls(deck_path)`: the stack was just created
    var deck := new Deck(deckPath, storage, kernel, cache);
    ghost var saved := deck.SavedMounts();
    if |Mounts.Parse(mtab, src.path)| > 0 {
      assert saved == Some(Ok(Mounts.Serialize(Mounts.Parse(mtab, src.path))));
      Mounts.ParseSerializeParse(mtab, src.path);
    }
    e := deck.Mount();
    if e.Some? {
      return Err(e.value);
    }
    MountStepLays(k1, deckPath, Levels(store.path, store.stacks[storage.name]), saved);
    return Ok(deck);
  }

  /** `Deck.delete(path)`: open the deck, unmount it when mounted, then delete its storage.
      On a valid store the storage step cannot fail and leaves the store valid. */
  method DeleteDeck(deckPath: string, store: Store, kernel: Mounts.Kernel, cache: AnonCache.Cache)
    returns (err: Option<Error>)
    requires store.path == MetaPath(deckPath)
    modifies store, kernel
    ensures DeckName(deckPath) !in old(store.stacks) ==>
      err == Some(NotADeck(deckPath)) && store.State() == old(store.State()) && unchanged(kernel)
    ensures DeckName(deckPath) in old(store.stacks) && !old(Aufs.IsMounted(kernel, deckPath)) ==>
      Outcome(store.State(), err) == DeleteOutcome(old(store.State()), DeckName(deckPath)) && unchanged(kernel)
    ensures err.None? ==>
      && !Aufs.IsMounted(kernel, deckPath)
      && Outcome(store.State(), None) == DeleteOutcome(old(store.State()), DeckName(deckPath))
    ensures old(Valid(store.State())) && err.None? ==>
      store.State() == Deleted(old(store.State()), DeckName(deckPath)) && Valid(store.State())
  {
    ghost var s0 := store.State();
    var open := Deck.Open(deckPath, store, kernel, cache);
    if open.Err? {
      return Some(open.error);
    }
    err := open.value.UmountIfMounted();
    if err.Some? {
      return;
    }
    // `os.rmdir(deck_path)`: the mount point itself is not part of the model
    var storage := new DeckStorage(deckPath, store);
    err := storage.Delete();
    if Valid(s0) {
      DeleteIsDeleted(s0, storage.name);
      DeleteValid(s0, storage.name);
    }
  }
}
