/**
 * The union-mount helper commands (`useraufs-show`, `-mount`, `-umount`, `-remount`)
 * against the kernel's table of union mounts. A union mount is listed with its branches,
 * top first; mounting a branch list makes the first branch writable and the others
 * read-only, which is aufs's default when no permissions are given.
 */
module Aufs {
  import opened Text
  import opened Mounts

  /** One `useraufs-remount` operation: change a branch's permission, or add a branch on top. */
  datatype Op = Mod(dir: string, writable: bool) | Prepend(dir: string, writable: bool)

  function Perm(writable: bool): string {
    if writable then "rw" else "ro"
  }

  /** The operation as written on the command line: `mod:<dir>=ro`, `prepend:<dir>=rw`. */
  function OpText(op: Op): string {
    match op
    case Mod(d, w) => "mod:" + d + "=" + Perm(w)
    case Prepend(d, w) => "prepend:" + d + "=" + Perm(w)
  }

  /** The operations as written on the command line, one argument each, in order. */
  function OpTexts(ops: seq<Op>): (r: seq<string>)
    ensures |r| == |ops| && forall i | 0 <= i < |ops| :: r[i] == OpText(ops[i])
  {
    if ops == [] then [] else [OpText(ops[0])] + OpTexts(ops[1..])
  }

  /** The branches of a fresh union mount of `dirs`. */
  function Layout(dirs: seq<string>): (r: seq<Branch>)
    ensures |r| == |dirs|
    ensures forall i {:trigger r[i]} | 0 <= i < |r| :: r[i].dir == dirs[i] && (r[i].writable <==> i == 0)
  {
    seq(|dirs|, i requires 0 <= i < |dirs| => Branch(dirs[i], i == 0))
  }

  /** The branches after one remount operation. */
  function ApplyOp(op: Op, bs: seq<Branch>): (r: seq<Branch>) {
    match op
    case Mod(d, w) => seq(|bs|, i requires 0 <= i < |bs| => if bs[i].dir == d then Branch(d, w) else bs[i])
    case Prepend(d, w) => [Branch(d, w)] + bs
  }

  /** The branches after the operations, applied in order. */
  function ApplyOps(ops: seq<Op>, bs: seq<Branch>): seq<Branch> {
    if ops == [] then bs else ApplyOps(ops[1..], ApplyOp(ops[0], bs))
  }

  /** One line of `useraufs-show`, split at its tab: the branches, then the mount point. */
  datatype ShowLine = ShowLine(branches: string, mnt: string)

  /** `useraufs-show` lists every union mount of `unions` and nothing else, in any order. */
  predicate Lists(show: seq<ShowLine>, unions: map<string, seq<Branch>>) {
    && (forall i | 0 <= i < |show| :: show[i].mnt in unions)
    && (forall mnt | mnt in unions :: exists i | 0 <= i < |show| :: show[i].mnt == mnt)
  }

  /** The loop of `is_mounted` over the lines: true at the first line whose mount point is
      `path`. */
  function ScanShow(show: seq<ShowLine>, path: string): bool {
    show != [] && (show[0].mnt == path || ScanShow(show[1..], path))
  }

  lemma {:induction false} ScanShowFinds(show: seq<ShowLine>, path: string)
    ensures ScanShow(show, path) <==> exists i | 0 <= i < |show| :: show[i].mnt == path
  {
    if show != [] {
      ScanShowFinds(show[1..], path);
      if ScanShow(show[1..], path) {
        var i :| 0 <= i < |show| - 1 && show[1..][i].mnt == path;
        assert show[i + 1].mnt == path;
      }
      if exists i | 0 <= i < |show| :: show[i].mnt == path {
        var i :| 0 <= i < |show| && show[i].mnt == path;
        if i > 0 {
          assert show[1..][i - 1].mnt == path;
        }
      }
    }
  }

  /** `is_mounted(path)`: whatever order `useraufs-show` lists the union mounts in, the
      scan finds `path` exactly when it is a union mount point. */
  function IsMounted(k: Kernel, path: string): (r: bool)
    reads k
    ensures forall show | Lists(show, k.unions) :: r == ScanShow(show, path)
  {
    ScanShowFindsAll(k.unions, path);
    path in k.unions
  }

  lemma ScanShowFindsAll(unions: map<string, seq<Branch>>, path: string)
    ensures forall show | Lists(show, unions) :: ScanShow(show, path) == (path in unions)
  {
    forall show | Lists(show, unions)
      ensures ScanShow(show, path) == (path in unions)
    {
      ScanShowFinds(show, path);
    }
  }

  /** `mount(branches, path)`: False and no command when `path` is already a union mount. */
  method Mount(k: Kernel, branches: seq<string>, path: string) returns (done: bool)
    modifies k`unions, k`log
    ensures done == !old(IsMounted(k, path))
    ensures done ==> k.unions == old(k.unions)[path := Layout(branches)]
    ensures done ==> k.log == old(k.log) + [UnionMountCmd(path, branches)]
    ensures !done ==> k.unions == old(k.unions) && k.log == old(k.log)
    ensures IsMounted(k, path)
  {
    if IsMounted(k, path) {
      return false;
    }
    k.log := k.log + [UnionMountCmd(path, branches)];
    k.unions := k.unions[path := Layout(branches)];
    done := true;
  }

  /** `umount(path)`: False and no command when `path` is not a union mount. */
  method Umount(k: Kernel, path: string) returns (done: bool)
    modifies k`unions, k`log
    ensures done == old(IsMounted(k, path))
    ensures done ==> k.unions == old(k.unions) - {path} && k.log == old(k.log) + [UnionUmountCmd(path)]
    ensures !done ==> k.unions == old(k.unions) && k.log == old(k.log)
    ensures !IsMounted(k, path)
  {
    if !IsMounted(k, path) {
      return false;
    }
    k.log := k.log + [UnionUmountCmd(path)];
    k.unions := k.unions - {path};
    done := true;
  }

  /** `remount(operations, path)`: issued without checking that `path` is mounted; a path that
      is not a union mount is left as it is. */
  method Remount(k: Kernel, ops: seq<Op>, path: string)
    modifies k`unions, k`log
    ensures k.log == old(k.log) + [UnionRemountCmd(path, OpTexts(ops))]
    ensures old(IsMounted(k, path)) ==> k.unions == old(k.unions)[path := ApplyOps(ops, old(k.unions)[path])]
    ensures !old(IsMounted(k, path)) ==> k.unions == old(k.unions)
  {
    k.log := k.log + [UnionRemountCmd(path, OpTexts(ops))];
    if IsMounted(k, path) {
      k.unions := k.unions[path := ApplyOps(ops, k.unions[path])];
    }
  }

  /** The branches of `dirs`, all read-only. */
  function ReadOnly(dirs: seq<string>): (r: seq<Branch>)
    ensures |r| == |dirs|
    ensures forall i | 0 <= i < |r| :: r[i] == Branch(dirs[i], false)
  {
    seq(|dirs|, i requires 0 <= i < |dirs| => Branch(dirs[i], false))
  }

  lemma ReversedSnoc(levels: seq<string>, last: string)
    ensures Reversed(levels + [last]) == [last] + Reversed(levels)
  {
  }

  /** Making the top branch of a fresh mount read-only leaves every branch read-only. */
  lemma DemoteTop(dirs: seq<string>)
    requires |dirs| >= 1
    ensures ApplyOp(Mod(dirs[0], false), Layout(dirs)) == ReadOnly(dirs)
  {
  }

  lemma LayoutCons(top: string, dirs: seq<string>)
    ensures Layout([top] + dirs) == [Branch(top, true)] + ReadOnly(dirs)
  {
  }

  lemma ApplyTwo(a: Op, b: Op, bs: seq<Branch>)
    ensures ApplyOps([a, b], bs) == ApplyOp(b, ApplyOp(a, bs))
  {
    assert [a, b][1..] == [b];
    assert [b][1..] == [];
    assert ApplyOps([b], ApplyOp(a, bs)) == ApplyOps([], ApplyOp(b, ApplyOp(a, bs)));
  }

  /** Demoting the top branch and prepending a new writable one gives the layout a fresh
      mount of the extended stack (top first) would have. */
  lemma RemountAddsTop(levels: seq<string>, last: string)
    requires |levels| >= 1
    ensures ApplyOps([Mod(levels[|levels| - 1], false), Prepend(last, true)], Layout(Reversed(levels)))
         == Layout(Reversed(levels + [last]))
  {
    var rev := Reversed(levels);
    ApplyTwo(Mod(levels[|levels| - 1], false), Prepend(last, true), Layout(rev));
    DemoteTop(rev);
    ReversedSnoc(levels, last);
    LayoutCons(last, rev);
  }
}
