# Deck: a verified model

Deck builds a writable directory tree, a *deck*, over an existing directory or over another
deck. It does this by stacking copy-on-write *levels* in an aufs union mount. This project
models the core of the tool in Dafny and proves properties of that model:

- **Deck store** (`deckstore.dfy`, `decks.dfy`). All decks in one parent directory share a
  `.deck` store with four parts:
  - `stacks/<deck>/<n>`: the links of a deck's stack;
  - `levels/<id>`: one directory per level;
  - `levels.refs/<id>/<deck>`: which decks reference each level;
  - `mounts/<deck>`: the id of the deck's saved submounts.

  The store is a value, `Meta`; class `Store` holds it as fields.
  - `DeckStorage` implements `add_level`, `create`, `delete`, `get_levels` and the `mounts`
    attribute as imperative methods. Each method is proved against a function that gives
    the store and error it leaves (`AddLevelOutcome`, `CreateOutcome`, `DeleteOutcome`).
  - Lemmas prove that these outcomes keep the store's invariant `Valid`:
    - every stack is dense, with an external base at position 0 and distinct level ids above it;
    - a level exists exactly when a deck references it;
    - reference sets are exact.
  - `Deck` drives a kernel mount table and a union-mount backend. Its operations are
    `mount`, `umount`, `add_level` (remounting the top), `init_create` and the class-level
    `delete`.
  - Stack listing uses Python's string sort of the position names, as in the source.
    `Positions` proves this equals numeric order for at most ten positions and differs from
    eleven on.
- **Mount tables** (`mounts.dfy`): `Mounts` parsing with root filtering, its text form, the
  `exists` scan, and `mount`/`umount` of each entry in table and reverse order over a
  kernel table. The round trip parse ∘ serialize ∘ parse = parse is proved.
- **Blob cache** (`anoncache.dfy`): id validation, the sharded blob path (injective),
  `exists`, `new_id`, `blob` read/write and `delete`.
- **Paths** (`paths.dfy`): the attribute mangling of `_fname2attr`, `register` with nested
  sub-path objects, attribute lookup, `listdir`, and the constructor's registration of
  given and inherited names.
- **Command line** (`cmddeck.dfy`, `rigidval.dfy`): the set-once `RigidVal` cell, the
  option scan (conflicts, `--get-level` parsing with Python `int()` and list indexing), the
  choice of action by argument count, and the cell's own test scenario.
- **Backend** (`aufs.dfy`): the contract of the union-mount calls (a branch layout per
  mount point) that `Deck` relies on.

Time, randomness and md5 are parameters: `now`, `random`, and a `Digest` function that
returns 32 hex digits. The file system is the `Meta` value plus the cache's maps. The
kernel is the `/proc/mounts` table plus the union map, and a log records the
`mount`/`umount`/`useraufs-*` commands in order.

## Model

| member | source | states |
|---|---|---|
| Text.Decimal | pylib/deck.py:93-95 | the backquoted position is a non-empty run of digits, one digit exactly below 10, no leading zero otherwise |
| Text.DecimalInjective | pylib/deck.py:93-95 | distinct positions get distinct link names |
| Text.SplitJoin | pylib/mounts.py:111-113 | splitting a newline-joined text on newlines gives back the lines, when no line holds a newline |
| Text.SplitWsCons | pylib/mounts.py:86 | `re.split(r'\s+')` of `a + " " + b` is `a` followed by the split of `b` |
| Positions.StrLtTransitive | pylib/deck.py:133-134 | Python's string order on link names is transitive |
| Positions.StrLtTotal | pylib/deck.py:133-134 | any two distinct names are ordered one way |
| Positions.StrLtIrreflexive | pylib/deck.py:133-134 | no name sorts before itself |
| Positions.ByName | pylib/deck.py:155-157 | `sorted(os.listdir(stack))`: every position exactly once, in string order of the decimal names |
| Positions.SortedByNameUnique | pylib/deck.py:155-157 | two listings sorted by name that hold the same positions are equal |
| Positions.ByNameIsNumericUpToTen | pylib/deck.py:155-157 | for positions 0..n-1 with n ≤ 10 the sorted listing is 0, 1, …, n-1 |
| Positions.ByNameIsNotNumericFromEleven | pylib/deck.py:155-157 | from 11 positions on the sorted listing is not numeric order ("10" precedes "2") |
| Positions.ByNameTopIsNotLast | pylib/deck.py:155-157 | with 11 to 90 positions the sorted listing does not end with the highest position |
| Positions.DenseCard | pylib/deck.py:93 | the positions 0..n-1 are n positions |
| Positions.ZeroListedFirst | pylib/deck.py:133-137 | the base position 0 is always listed first, so `symlinks[1:]` skips exactly the base |
| AnonCache.BlobPath | pylib/anoncache.py:20-24 | an id is rejected iff it is shorter than 3 characters or not alphanumeric; otherwise the path is `root/id[:2]/id[2:]` |
| AnonCache.BlobPathInjective | pylib/anoncache.py:20-24 | distinct valid ids never share a blob path |
| AnonCache.HexDigestIsValidId | pylib/anoncache.py:29-35 | every md5 hexdigest is a legal blob id |
| AnonCache.Cache.constructor | pylib/anoncache.py:16-18 | the cache over `path` holds exactly the shard directories and blobs already there; `makedirs` discards nothing |
| AnonCache.Cache.Exists | pylib/anoncache.py:26-27 | an illegal id raises; otherwise true iff the id's blob file is there |
| AnonCache.Cache.Read | pylib/anoncache.py:40-53 | an illegal id raises the id error; a missing blob fails to open; a present blob yields its content |
| AnonCache.Cache.NewId | pylib/anoncache.py:29-38 | the id is legal, names no existing blob, and its shard directory is created; running out of fuel changes nothing |
| AnonCache.Cache.Write | pylib/anoncache.py:40-53 | writing a blob needs a legal id and an existing shard; it then sets exactly that blob's content |
| AnonCache.Cache.Delete | pylib/anoncache.py:55-56 | removes exactly the id's blob, fails on an illegal or missing id, and leaves every other blob readable as before |
| Mounts.AbsDir | pylib/mounts.py:91-92 | the directory is made absolute by a leading slash, and an absolute one is kept |
| Mounts.ParseLine | pylib/mounts.py:82-103 | blank lines, comments and lines with fewer than four fields give no entry; any other line gives the entry of its first four fields (directory made absolute) if the root filter keeps it |
| Mounts.UnderRoot | pylib/mounts.py:94-101 | with a root, an entry is kept exactly when its directory starts with the root and a slash, and then the root prefix is cut (unless the root is `/`); device, type and options are kept; without a root every entry is kept |
| Mounts.ParseLinesSnoc | pylib/mounts.py:81-104 | each line adds at most its own entry at the end, in order |
| Mounts.ParseTable | pylib/mounts.py:59-106 | the line loop builds exactly the parsed entries of the text and records the root |
| Mounts.ParseLinesWellFormed | pylib/mounts.py:81-104 | every parsed entry has four non-empty whitespace-free fields and an absolute directory |
| Mounts.RootSlashDropsCanonicalDirs | pylib/mounts.py:94-98 | with root `/`, every entry whose directory does not start with `//` is skipped |
| Mounts.LineParses | pylib/mounts.py:111-113 | the text line of a well-formed entry parses back to that entry |
| Mounts.SerializeRoundTrip | pylib/mounts.py:111-113 | parsing `str(mounts)` of well-formed entries gives back the same entries |
| Mounts.Len | pylib/mounts.py:108-109 | the count is zero exactly when `str(mounts)` is empty, which is when `init_create` saves no blob |
| Mounts.ParseSerializeParse | pylib/mounts.py:59-113 | parsing, serializing and parsing again gives the first parse (a saved table reads back) |
| Mounts.ExistsIff | pylib/mounts.py:120-125 | `exists(dir)` iff some entry's directory equals `dir` up to trailing slashes |
| Mounts.ExistsIgnoresTrailingSlash | pylib/mounts.py:120-125 | trailing slashes on the queried directory do not matter |
| Mounts.Kernel.MountEntry | pylib/mounts.py:28-38 | an entry already mounted is skipped (false); otherwise it is mounted at `root + dir` and the mount command is logged (true) |
| Mounts.Kernel.IsMounted | pylib/mounts.py:13-14 | true iff some kernel table entry names `dir`, trailing slashes ignored |
| Mounts.Kernel.UmountEntry | pylib/mounts.py:40-49 | an entry not mounted is skipped (false); otherwise its last mount is removed and the umount command is logged (true) |
| Mounts.MountOneMounts | pylib/mounts.py:28-49 | after mounting an entry it is mounted; if it already was, mounting changes nothing and unmounting removes one entry |
| Mounts.Kernel.MountAll | pylib/mounts.py:131-132 | the loop mounts the entries one by one in table order |
| Mounts.Kernel.UmountAll | pylib/mounts.py:138-139 | the loop unmounts the entries one by one in reverse table order |
| Mounts.Kernel.MountTable | pylib/mounts.py:127-132 | `mount(root)` uses the table's own root when none is given |
| Mounts.Kernel.UmountTable | pylib/mounts.py:134-139 | `umount(root)` uses the table's own root when none is given |
| Mounts.MountCmds | pylib/mounts.py:127-132 | one `mount -t type -o opts device dir` command per entry, in table order |
| Mounts.UmountCmds | pylib/mounts.py:134-139 | one `umount dir` command per entry, in reverse table order |
| Mounts.MountFresh | pylib/mounts.py:127-132 | on directories not yet mounted, mounting appends every entry in order and logs every mount command |
| Mounts.UmountAfterMount | pylib/mounts.py:134-139 | unmounting what was just mounted removes the entries in reverse order |
| Mounts.MountThenUmount | pylib/mounts.py:127-139 | mount then umount restores the kernel table; the log is the mounts in order, then the umounts in reverse |
| Aufs.Layout | pylib/aufs.py:26-36 | a union mount lists the branches in order, only the first writable |
| Aufs.Mount | pylib/aufs.py:26-36 | a mounted path is left alone (false); otherwise it gets the branch layout and the command is logged |
| Aufs.IsMounted | pylib/aufs.py:15-24 | for any `useraufs-show` listing of exactly the union mounts, in any order, the scan for `path` finds it iff `path` is a union mount point |
| Aufs.Umount | pylib/aufs.py:38-44 | an unmounted path is left alone (false); otherwise its union goes and the command is logged |
| Aufs.Remount | pylib/aufs.py:46-52 | the remount command is logged and the operations are applied in order to a mounted union |
| Aufs.OpTexts | pylib/aufs.py:46-52 | the remount command carries one argument per operation, its command-line text, in order |
| Aufs.RemountAddsTop | pylib/deck.py:233-236 | making the old top read-only and prepending the new level gives the layout of the grown stack |
| DeckStore.BasenameOfLevelPath | pylib/deck.py:118-121 | the basename of a level's directory is the level id, which is what a branch copies |
| DeckStore.LevelExistsIffReferenced | pylib/deck.py:143-147 | in a valid store a level exists iff some deck's stack links it |
| DeckStore.RefsDetermined | pylib/deck.py:97-99 | two valid stores with the same stacks and levels have the same reference directories |
| DeckStore.MaxOf | pylib/deck.py:93 | `max` of the positions is a position no smaller than any other |
| DeckStore.NextPosDense | pylib/deck.py:93 | on a dense stack 0..n-1 the next position is n |
| DeckStore.AddLevelAppends | pylib/deck.py:82-99 | on a well-formed stack whose deck has no reference to `id` yet, `add_level(id)` succeeds and links `id` at the next position |
| DeckStore.AddLevelValid | pylib/deck.py:82-99 | adding a level the deck does not hold keeps the store valid, creates the level and records the deck's reference |
| DeckStore.AddLevelKeepsPool | pylib/deck.py:89-90 | `add_level` never removes a level, even when it fails part way |
| DeckStore.LevelsStartAtBase | pylib/deck.py:155-166 | the first listed level is the stack's base |
| DeckStore.LevelsInPositionOrder | pylib/deck.py:155-166 | for at most ten positions `get_levels` lists the links in position order |
| DeckStore.LevelsAfterAppend | pylib/deck.py:155-166 | after a level is added at the next position (up to ten) it is listed last |
| DeckStore.ByNumber | pylib/deck.py:155-157 | the positions listed in strictly increasing numeric order, each exactly once |
| DeckStore.ByNumberAddAbove | pylib/deck.py:93-95 | a position above every other one is listed last in numeric order |
| DeckStore.NumericLevelsAfterAdd | pylib/deck.py:93-95 | listed by number, the level `add_level` links is listed last whatever the stack's size |
| DeckStore.AddLevelKeepsOthers | pylib/deck.py:82-99 | `add_level` on one deck leaves every other deck's stack as it was |
| DeckStore.AddLevelProvides | pylib/deck.py:89-90 | after `add_level(id)` the level `id` exists, whether or not the link succeeded |
| DeckStore.CopiedStops | pylib/deck.py:119-121 | the branch loop stops at the first failing `add_level` |
| DeckStore.CopiedValid | pylib/deck.py:116-121 | copying a source's levels one by one keeps the store valid and builds the copied stack |
| DeckStore.SourceLevels | pylib/deck.py:116-121 | a valid source lists its base and distinct level ids, each referenced by the source |
| DeckStore.BranchValid | pylib/deck.py:111-125 | branching from a deck in the same store succeeds with fresh ids, keeps the store valid, gives the source a new top level and copies its mounts; no other deck's mounts attribute changes |
| DeckStore.PlainValid | pylib/deck.py:126-130 | creating from a plain directory links it as base 0 and a fresh level at 1 |
| DeckStore.BranchCopiesStack | pylib/deck.py:116-121 | re-linking the listed levels of a stack of at most ten positions rebuilds the same stack |
| DeckStore.ReleasedStops | pylib/deck.py:137-147 | the delete loop stops at the first failing dereference |
| DeckStore.DeleteIsDeleted | pylib/deck.py:132-153 | in a valid store `delete` succeeds and leaves exactly `Deleted` |
| DeckStore.DeleteValid | pylib/deck.py:132-153 | delete removes the stack and the deck's references; a level goes iff the deck was its only referrer; the whole store goes with the last stack; validity is kept |
| DeckStore.HoldsAfterDelete | pylib/deck.py:132-149 | after a delete, other decks still hold exactly what they held |
| DeckStore.MountsOf | pylib/deck.py:43-51 | reading the mounts attribute gives a value iff the deck's mounts file is there |
| DeckStore.MountsRoundTrip | pylib/deck.py:43-62 | setting the mounts attribute and reading it back gives the value, other decks unchanged |
| DeckStore.MountsCopy | pylib/deck.py:125 | a branch's mounts read back as the source's |
| Decks.SiblingsShareStore | pylib/deck.py:31-38 | decks in one directory share its `.deck` store and are named by their last component, trailing slash or not |
| Decks.KindOf | pylib/deck.py:111-114 | a source is branched iff it is a deck of the same store, refused iff it is a deck elsewhere |
| Decks.CreateValid | pylib/deck.py:104-130 | `create` of a new deck from a directory that is not a deck elsewhere succeeds with fresh ids and keeps the store valid |
| Decks.CreatePlain | pylib/deck.py:126-130 | a plain source gives the stack {0: source, 1: new level} |
| Decks.CreateBranch | pylib/deck.py:111-125 | a branch copies the source's stack and mounts; the source and the copy each get their own new top, and the two new ids differ because the second is drawn after the first level exists |
| Decks.ListLevels | pylib/deck.py:155-166 | the listing loop resolves each link in sorted-name order |
| Decks.ResolveAll | pylib/deck.py:159-164 | the loop resolves each named link, in the order given |
| Decks.DeckStorage.constructor | pylib/deck.py:66-69 | the deck's name is the last component of its path, and its store is its directory's `.deck` |
| Decks.DeckStorage.PutMounts | pylib/deck.py:53-62 | setting the attribute writes or removes the mounts file; the value reads back |
| Decks.DeckStorage.NewLevelId | pylib/deck.py:71-80 | the id is the first of md5(name + time), md5 of that, … that names no level, within the fuel |
| Decks.DeckStorage.AddLevel | pylib/deck.py:82-99 | the store and error follow `AddLevelOutcome` |
| Decks.DeckStorage.AddFreshLevel | pylib/deck.py:82-99 | `add_level()` with a fresh id from `_new_level_id` |
| Decks.DeckStorage.GetLevels | pylib/deck.py:155-166 | the deck's levels in sorted-name order, or an error when its stack is missing |
| Decks.DeckStorage.CopyLevels | pylib/deck.py:119-121 | the loop adds the listed levels after the first in order, stopping at the first failure |
| Decks.DeckStorage.CopyFrom | pylib/deck.py:116-121 | the copy of the source's levels follows `CopyOutcome`; no level leaves the pool |
| Decks.DeckStorage.Grow | pylib/deck.py:123-130 | the source's `add_level` with its remount, the copied mounts, then the new deck's `add_level`, as `GrowOutcome` says; two distinct fresh ids; only the source's union mount changes, and only if it was mounted |
| Decks.DeckStorage.FinishBranch | pylib/deck.py:125-130 | the mounts are copied and a fresh level is added to the new deck; the source's stack is unchanged |
| Decks.DeckStorage.Branch | pylib/deck.py:116-125 | the branch follows `BranchOutcome` with two distinct fresh ids; a mounted source is remounted with its new top writable; no other union mount and no other mount changes; an unmounted source leaves the kernel unchanged |
| Decks.DeckStorage.Start | pylib/deck.py:126-130 | a plain start follows `PlainOutcome` with a fresh id |
| Decks.DeckStorage.Create | pylib/deck.py:104-130 | `create` follows `CreateOutcome`: an existing deck, a source that is not a directory, and a deck elsewhere are refused first; the kernel changes only when a mounted source deck of the same store is branched, and then only by the remount of its union |
| Decks.DeckStorage.Unlink | pylib/deck.py:138-147 | one dereference: the deck's reference goes, and the level goes with its last reference |
| Decks.DeckStorage.Delete | pylib/deck.py:132-153 | the store and error follow `DeleteOutcome` |
| Decks.DeckStorage.DropStack | pylib/deck.py:149-153 | the deck's stack goes; when it was the last, the whole store goes (levels, references and mounts files included) |
| Decks.MountStepLays | pylib/deck.py:211-219 | mounting lays the reversed levels as the union; saved mounts that read back are mounted in order under the deck |
| Decks.MountThenUmount | pylib/deck.py:211-228 | mount then umount of a deck with saved mounts restores the kernel; the log shows the union mount, the mounts, the umounts in reverse, then the union umount |
| Decks.MountThenUmountBare | pylib/deck.py:211-228 | the same without saved mounts |
| Decks.RemountMatchesMount | pylib/deck.py:230-236 | after `add_level` on a mounted deck (up to ten positions) the remounted union equals a fresh mount of the new stack |
| Decks.RemountOps | pylib/deck.py:233-236 | the two remount operations turn the old layout into the new one |
| Decks.Deck.Mount | pylib/deck.py:211-219 | a mounted deck is refused; otherwise the union is mounted over the reversed levels, then the saved mounts; the store is untouched |
| Decks.Deck.Open | pylib/deck.py:202-206 | opening fails with "not a deck" exactly when the store has no stack for the path; otherwise the deck is over that store, kernel and cache |
| Decks.Deck.IsMounted | pylib/deck.py:208-209 | the scan of any `useraufs-show` listing finds the deck path |
| Decks.Deck.MountSaved | pylib/deck.py:218-219 | the saved mounts, if any, are read from their blob and mounted in order under the deck; an unreadable blob raises |
| Decks.Deck.Umount | pylib/deck.py:221-228 | an unmounted deck is refused; otherwise the saved mounts are unmounted, then the union |
| Decks.Deck.UmountIfMounted | pylib/deck.py:195-196 | unmounts only a mounted deck; a success leaves it unmounted |
| Decks.Deck.AddLevel | pylib/deck.py:230-236 | adds a level, and a mounted deck is remounted with the new top writable; the mount table and every other union mount are unchanged |
| Decks.Deck.RemountTop | pylib/deck.py:232-236 | on a mounted deck with two levels or more, the remount follows `RemountStep` and changes nothing but the deck's own union |
| Decks.RemountFrame | pylib/deck.py:232-236 | a remount leaves the mount table and every other union mount as they were, and the deck stays mounted |
| Decks.SaveMounts | pylib/deck.py:181-185 | the table's text goes into a new blob whose id becomes the deck's mounts attribute |
| Decks.CreateValidStorage | pylib/deck.py:176-177 | creating the storage keeps the store valid and leaves the deck existing |
| Decks.SaveSourceMounts | pylib/deck.py:180-185 | a non-empty submount table of the source is saved and reads back |
| Decks.CreateStorage | pylib/deck.py:176-185 | the storage is created and the source's submounts are saved |
| Decks.InitCreate | pylib/deck.py:171-190 | an occupied path is refused; a new deck exists, is mounted over its levels, and gets the source's submounts mounted |
| Decks.DeleteDeck | pylib/deck.py:193-200 | a non-deck is refused; a mounted deck is unmounted first; then the storage is deleted as `DeleteOutcome` says |
| Paths.AttrAt | pylib/paths.py:53-55 | each `.` and `-` becomes `_`, every other character is kept |
| Paths.AttrPlain | pylib/paths.py:53-55 | a name without `.` or `-` is its own attribute |
| Paths.SplitFirst | pylib/paths.py:63 | `split('/', 1)`: the part before the first slash and the rest |
| Paths.Empty | pylib/paths.py:32-34 | a new object has its path and no files |
| Paths.Registered | pylib/paths.py:61-73 | registering keeps the object tree well formed and never moves an existing sub-object |
| Paths.Attach | pylib/paths.py:62-67 | a sub-object for the first component is reused, or made at `join(path, subdir)` |
| Paths.Filed | pylib/paths.py:71-73 | `files[attr] = filename` on that object only |
| Paths.RegisterFile | pylib/paths.py:61-73 | after registering a plain name its attribute gives `join(path, name)`; nothing else changes |
| Paths.RegisterNested | pylib/paths.py:62-69 | a name with a slash makes the sub-object at `join(path, subdir)` or reuses it, and the first component's attribute then gives that sub-object |
| Paths.RegisterIdempotent | pylib/paths.py:61-73 | registering a name twice is registering it once |
| Paths.GetAttr | pylib/paths.py:47-51 | a lookup fails with "no such attribute: name" iff neither a sub-object nor a file has that name |
| Paths.ListdirAfterRegister | pylib/paths.py:57-59 | after registering a name, `listdir()` holds it and loses at most the name filed under the same attribute |
| Paths.ClassFilesMembers | pylib/paths.py:36-42 | the class's names are its own and those of its `Paths` bases |
| Paths.PathsObject.constructor | pylib/paths.py:32-45 | the given names, then the class's, are registered at the root in order |
| Paths.PathsObject.RegisterEach | pylib/paths.py:44-45 | registering each name at the root in order leaves the tree `RegisterAll` gives |
| Paths.PathsObject.Register | pylib/paths.py:61-73 | the object tree becomes `Registered` of the old one |
| CmdDeck.RigidVal.constructor | pylib/cmd_deck.py:37-38 | a new cell holds nothing (the copy in tests/rigidval.py:5-6 too) |
| CmdDeck.RigidVal.Set | pylib/cmd_deck.py:40-43 | a held value raises and stays; an empty cell takes the value (the copy in tests/rigidval.py:8-11 too) |
| CmdDeck.RigidVal.Get | pylib/cmd_deck.py:45-46 | reads the cell: `None` until a value is set, then the first value set (with Set's contract) |
| RigidValScenario.Foo | tests/rigidval.py:16-24 | set 666, a refused set 111: prints the warning, then "val: 666" |
| CmdDeck.ActionOf | pylib/cmd_deck.py:67-82 | no option selects create |
| CmdDeck.ParseInt | pylib/cmd_deck.py:89 | `int(val)` succeeds iff the stripped text is digits, or a sign followed by optional whitespace and digits; a failure carries the text |
| CmdDeck.ParseSpacedSign | pylib/cmd_deck.py:89 | whitespace between the sign and the digits is skipped, as in `int("- 1") == -1` |
| CmdDeck.ParseDecimal | pylib/cmd_deck.py:89 | `int()` reads back `n` and `-n` from their decimal text |
| CmdDeck.LevelWords | pylib/cmd_deck.py:84-87 | `first` is index 0, the bottom level; `last` is -1, the top |
| CmdDeck.LevelNumbers | pylib/cmd_deck.py:83-89 | a decimal `n` or `-n` is that index and picks like a Python list index |
| CmdDeck.LevelAt | pylib/cmd_deck.py:50 | `levels[i]` exists iff -len ≤ i < len, counting from the end for negative i |
| CmdDeck.NegativeIndex | pylib/cmd_deck.py:50 | index i - len picks what i picks |
| CmdDeck.PrintLevelOf | pylib/cmd_deck.py:48-52 | prints a listed level, or fails with "illegal deck level (%d)" exactly when the index is out of range; a deck error is passed on |
| CmdDeck.QueryStatus | pylib/cmd_deck.py:112-114 | the exit status is 0 exactly when the query answers true |
| CmdDeck.ScanFrom | pylib/cmd_deck.py:61-92 | the scan never ends holding create unless it started so |
| CmdDeck.ScanOptions | pylib/cmd_deck.py:61-92 | the option loop over a fresh cell ends as `ScanOf` says |
| CmdDeck.ScanFromTame | pylib/cmd_deck.py:63-92 | the scan is fatal iff two actions are named, counting the one already held; otherwise it keeps the first action and the last level |
| CmdDeck.ConflictIffTwoActions | pylib/cmd_deck.py:63-92 | `main` ends in "conflicting deck options" iff two action options are given |
| CmdDeck.MainOf | pylib/cmd_deck.py:54-124 | options that neither exit nor raise and name at most one action select on that action and the last `--get-level` |
| CmdDeck.ScanKeeps | pylib/cmd_deck.py:64-89 | without a conflict the scan keeps the one action named and the last `--get-level` |
| CmdDeck.Select | pylib/cmd_deck.py:94-122 | no arguments is usage; create only by default with two arguments; every other action on exactly one; `--get-level` wins; any other dispatch needs `deck.isdeck`, `isdirty` and `ismounted`, and all but a query need `deck.get_fstab`; a missing one raises AttributeError |
| CmdDeck.DefaultAction | pylib/cmd_deck.py:94-122 | with every function defined and no action option, two arguments create, one mounts, more is usage |
| CmdDeck.ActionNeedsOneArg | pylib/cmd_deck.py:105-106 | an action option with other than one argument is "bad number of arguments", and only then |
| CmdDeck.DispatchMissing | pylib/cmd_deck.py:97-116 | with the functions pylib/deck.py defines, every command without `--get-level` that passes the argument check raises AttributeError on `deck.isdeck` |
| CmdDeck.MountCommandFails | pylib/cmd_deck.py:102-112 | `deck /path` raises AttributeError before it mounts |
| CmdDeck.ActionOptionRuns | pylib/cmd_deck.py:67-74 | with every function defined, `-m`, `-u`, `-D` or `-r` on one argument runs that function on it |
| CmdDeck.QueryOptionMissing | pylib/cmd_deck.py:75-82 | an action option whose function pylib/deck.py does not define is a query or `--get-fstab`, and `main` raises AttributeError on it |
| CmdDeck.IsDeckOptionFails | pylib/cmd_deck.py:75-76 | `deck --isdeck /path` raises AttributeError |
| CmdDeck.QueryOptionSelects | pylib/cmd_deck.py:108-116 | with every function defined, a query option on one argument runs the query and `--get-fstab` prints the fstab |

## Left out

- I/O is not modelled: real file-system calls, `print`, `sys.exit`, getopt and the usage text. The command line starts from getopt's (name, value) pairs and ends in a `Command` value.
- CmdDeck.Select: the commands it selects are not connected to the `Decks` operations. `Run(Mount, p)` stands for `deck.mount(p)`, and so on.
- `refresh_fstab` only prints; it is the `Run(RefreshFstab, p)` command.
- `help.usage` is not part of this model: `Usage` records only the reason given.
- getopt's own errors are not modelled.
- md5, `time.time()` and `random.SystemRandom()` are parameters: a `Digest` function that returns 32 hex digits, and `now` and `random` strings.
- Decks.DeckStorage.NewLevelId: the rehash loop carries a `fuel` bound. Running out of it is an `IdsExhausted` error, which the source has no counterpart for: its loop could run forever.
- AnonCache.Cache.NewId: the same `fuel` bound on the rehash loop. Running out of it gives `None`.
- aufs internals, the `useraufs-*` helpers and `executil` are not part of this model. The backend is a map from mount point to branch layout with a command log.
- wrapper.py is not part of this model.
- Concurrency and failures of individual system calls are not modelled. A failing `makedirs`, `symlink` or `rmtree` only appears where the source raises on a state the model tracks: a missing stack, an existing reference, a missing blob.
- Partial effects of a failing `mount`/`umount` command are not modelled.
- `deck.isdeck`, `isdirty`, `ismounted` and `get_fstab` are not defined in pylib/deck.py. Their answers (a boolean, a text) are outside this model; see Findings.
- Mounts: the file-path and file-handle inputs of `Mounts.__init__` are left out. Only the text input is modelled; reading a file gives the same text.
- `realpath` is the identity: paths are taken as already canonical.
- `Mounts.save` is not modelled; `deck.py` writes `str(mounts)` to a blob instead, which is modelled.
- Paths.PathsObject.constructor: `classfiles` extends the class's `files` list in place, so an inherited list grows on every construction. The model does not keep that growth; RegisterIdempotent shows that registering a name again changes nothing.
- Paths: attribute names that collide with a `Paths` object's own attributes are not modelled (`path`, `files`, `register`, `listdir`).
- Paths: sub-path objects are values in one tree, so aliasing of a child object that is shared elsewhere is not modelled.
- Decks.Deck.constructor: the `not a deck` check of `Deck(path)` is made by `Deck.Open` (which `DeleteDeck` uses), not by the constructor. `Create` and `InitCreate` call the constructor directly at the points where the stack has just been found or created, so the check could not fail there.
- Blob deletion on deck delete is not modelled, because the source never deletes a deck's mounts blob.
- `is_deck` is modelled as the `deckElsewhere` flag of a `Source`, and only for decks in another store. A deck in the same store is recognised from the stacks.
- Positions: the string sort of stack positions is modelled as written. It agrees with numeric order up to ten positions (`Positions.ByNameIsNumericUpToTen`) and not from eleven on (`Positions.ByNameIsNotNumericFromEleven`). The listing lemmas that rely on position order are stated for at most ten positions.
- Mounts.UnderRoot: the root filter is modelled as written. With root `/` it keeps only directories that start with `//` (`Mounts.RootSlashDropsCanonicalDirs`).

## Findings

| source | as written | input that shows it | evidently intended | confidence | as-written member | corrected member |
|---|---|---|---|---|---|---|
| pylib/cmd_deck.py:112-116 | the dispatch tests `func in (deck.isdeck, deck.isdirty, deck.ismounted)` and then `func is deck.get_fstab`, but pylib/deck.py defines none of these functions, so every command without `--get-level` raises AttributeError: mount, umount, delete, refresh and create | `deck /path` | the dispatch reaches `deck.mount(path)` | high, not executed | CmdDeck.MountCommandFails | CmdDeck.DefaultAction |
| pylib/deck.py:155-157 | `get_levels` sorts the link names as strings, but `add_level` numbers positions with `max(map(int, ...)) + 1`; from eleven positions on the listing does not end with the newest level, so `mount` and the remount of `Deck.add_level` make an older level the writable top | a deck with positions 0..10 (after ten `add_level` calls): the listing ends with position 9 | `symlinks.sort(key=int)`: the levels listed by position number, the newest last | medium, not executed | Positions.ByNameTopIsNotLast | DeckStore.NumericLevelsAfterAdd |
| pylib/cmd_deck.py:75-82 | `--isdeck`, `--isdirty`, `--ismounted` and `--get-fstab` look up `deck.isdeck`, `deck.isdirty`, `deck.ismounted` and `deck.get_fstab`, which pylib/deck.py does not define, so the option raises AttributeError | `deck --isdeck /path` | the option selects the query (exit 0 iff true) or prints the fstab, as the option's name says | high, not executed | CmdDeck.IsDeckOptionFails | CmdDeck.QueryOptionSelects |

The scan takes the set of defined deck functions as a parameter. `DeckFunctions` is the set
in pylib/deck.py and `AllFunctions` every function an option names. `Select` looks the
functions up in the order the source does. The corrected lemmas (`DefaultAction`,
`ActionOptionRuns`, `QueryOptionSelects`) use `AllFunctions`.

The rest of the model keeps the string sort of `get_levels`, because the operations are
modelled as written. `NumericLevels` is the corrected listing, and `NumericLevelsAfterAdd`
proves that it ends with the level `add_level` just linked, for stacks of any size.
