/**
 * The anonymous blob cache: small files kept under a root directory, each named by an
 * opaque alphanumeric id and sharded two levels deep as `root/id[:2]/id[2:]`. The file
 * system below the root is modelled by the set of shard directories created and a map
 * from blob path to content.
 */
module AnonCache {
  import opened Wrappers
  import opened Text

  /** The cache's failures: a rejected id (the cache's own `Error`), a blob that cannot be
      opened (an IOError re-raised as the cache's `Error`), and removing a blob that is not
      there (an OSError that is not converted). */
  datatype CacheError = IllegalId | CannotOpen | NoSuchFile

  /** Python 2 `str.isalnum()` on one character. */
  predicate IsAlnum(c: char) {
    ('a' <= c <= 'z') || ('A' <= c <= 'Z') || ('0' <= c <= '9')
  }

  /** The check `_get_blob_path` makes before building a path: the id is non-empty, at least
      three characters long and alphanumeric. */
  predicate ValidId(id: string) {
    |id| >= 3 && forall i | 0 <= i < |id| :: IsAlnum(id[i])
  }

  lemma HexDigestIsValidId(h: HexDigest)
    ensures ValidId(h)
  {
  }

  /** What `os.path.join(root, x)` puts before a relative `x`. */
  function RootPrefix(root: string): (r: string)
    ensures r == root || r == root + "/"
    ensures r == [] || r[|r| - 1] == '/'
  {
    if root == "" || root[|root| - 1] == '/' then root else root + "/"
  }

  function ShardDir(root: string, id: string): string
    requires |id| >= 2
  {
    Join(root, id[..2])
  }

  /** `_get_blob_path`: rejects an invalid id, otherwise the two-level sharded path. */
  function BlobPath(root: string, id: string): (r: Result<string, CacheError>)
    ensures r.Err? <==> !ValidId(id)
    ensures r.Err? ==> r.error == IllegalId
    ensures r.Ok? ==> r.value == RootPrefix(root) + id[..2] + "/" + id[2..]
  {
    if !ValidId(id) then Err(IllegalId)
    else
      var dir := ShardDir(root, id);
      assert !StartsWith(id[..2], "/") by { assert id[..2][..1][0] == id[0]; }
      assert dir == RootPrefix(root) + id[..2];
      assert !StartsWith(id[2..], "/") by { assert id[2..][..1][0] == id[2]; }
      assert dir[|dir| - 1] == id[1];
      Ok(Join(dir, id[2..]))
  }

  /** Distinct valid ids never share a blob path. */
  lemma BlobPathInjective(root: string, a: string, b: string)
    requires ValidId(a) && ValidId(b)
    requires BlobPath(root, a) == BlobPath(root, b)
    ensures a == b
  {
    var p := RootPrefix(root);
    var qa := a[..2] + "/" + a[2..];
    var qb := b[..2] + "/" + b[2..];
    assert BlobPath(root, a).value == p + qa;
    assert BlobPath(root, b).value == p + qb;
    assert qa == (p + qa)[|p|..];
    assert qa == qb;
    assert a[..2] == qa[..2] && a[2..] == qa[3..];
    assert b[..2] == qb[..2] && b[2..] == qb[3..];
    assert a == a[..2] + a[2..];
    assert b == b[..2] + b[2..];
  }

  class Cache {
    const path: string
    var dirs: set<string>
    var blobs: map<string, string>

    /** `AnonCache(path)` over the shard directories `dirs` and blobs `blobs` already under
        `path`: `makedirs` creates the root when it is missing and keeps whatever is there. */
    constructor (path: string, dirs: set<string>, blobs: map<string, string>)
      ensures this.path == path && this.dirs == dirs && this.blobs == blobs
    {
      this.path := path;
      this.dirs := dirs;
      this.blobs := blobs;
    }

    /** `exists(id)`: validates the id, then whether its blob file is there. */
    function Exists(id: string): (r: Result<bool, CacheError>)
      reads this
      ensures r.Err? <==> !ValidId(id)
      ensures r.Err? ==> r.error == IllegalId
      ensures r.Ok? ==> (r.value <==> exists p :: BlobPath(path, id) == Ok(p) && p in blobs)
    {
      match BlobPath(path, id)
      case Err(e) => Err(e)
      case Ok(p) => Ok(p in blobs)
    }

    /** `blob(id)` opened for reading, then read. */
    function Read(id: string): (r: Result<string, CacheError>)
      reads this
      ensures !ValidId(id) ==> r == Err(IllegalId)
      ensures ValidId(id) ==> (r.Ok? <==> Exists(id) == Ok(true))
      ensures r.Err? && ValidId(id) ==> r.error == CannotOpen
      ensures r.Ok? ==> blobs[BlobPath(path, id).value] == r.value
    {
      match BlobPath(path, id)
      case Err(e) => Err(e)
      case Ok(p) => if p in blobs then Ok(blobs[p]) else Err(CannotOpen)
    }

    /** `new_id(seed)`: digests the seed, the time and a random value, then re-digests until
        no blob has that id, and creates the id's shard directory. The source loops without
        bound; `fuel` bounds the rehashing, and running out of it yields `None`. */
    method NewId(seed: string, now: string, random: string, digest: Digest, fuel: nat)
      returns (r: Option<string>)
      modifies this`dirs
      ensures r.Some? ==> ValidId(r.value) && Exists(r.value) == Ok(false)
      ensures r.Some? ==> dirs == old(dirs) + {ShardDir(path, r.value)}
      ensures r.None? ==> dirs == old(dirs)
    {
      var id: HexDigest := digest(seed + now + random);
      HexDigestIsValidId(id);
      var n := fuel;
      while Exists(id) == Ok(true)
        invariant ValidId(id)
        invariant dirs == old(dirs)
        decreases n
      {
        if n == 0 {
          return None;
        }
        id := digest(id);
        HexDigestIsValidId(id);
        n := n - 1;
      }
      dirs := dirs + {ShardDir(path, id)};
      r := Some(id);
    }

    /** `blob(id, "w").write(content)`: the shard directory must exist for the open to succeed;
        the blob is created or truncated. */
    method Write(id: string, content: string) returns (r: Result<(), CacheError>)
      modifies this`blobs
      ensures !ValidId(id) ==> r == Err(IllegalId) && blobs == old(blobs)
      ensures ValidId(id) && ShardDir(path, id) !in dirs ==> r == Err(CannotOpen) && blobs == old(blobs)
      ensures ValidId(id) && ShardDir(path, id) in dirs ==>
        r == Ok(()) && blobs == old(blobs)[BlobPath(path, id).value := content]
    {
      var p := BlobPath(path, id);
      if p.Err? {
        return Err(p.error);
      }
      if ShardDir(path, id) !in dirs {
        return Err(CannotOpen);
      }
      blobs := blobs[p.value := content];
      r := Ok(());
    }

    /** `delete(id)`: validates the id, then removes that one blob file. */
    method Delete(id: string) returns (r: Result<(), CacheError>)
      modifies this`blobs
      ensures !ValidId(id) ==> r == Err(IllegalId) && blobs == old(blobs)
      ensures ValidId(id) && old(Exists(id)) == Ok(false) ==> r == Err(NoSuchFile) && blobs == old(blobs)
      ensures ValidId(id) && old(Exists(id)) == Ok(true) ==>
        r == Ok(()) && blobs == old(blobs) - {BlobPath(path, id).value}
      ensures r.Ok? ==> Exists(id) == Ok(false)
      ensures forall other | other != id :: Read(other) == old(Read(other))
    {
      var p := BlobPath(path, id);
      if p.Err? {
        return Err(p.error);
      }
      if p.value !in blobs {
        return Err(NoSuchFile);
      }
      blobs := blobs - {p.value};
      r := Ok(());
      forall other | other != id ensures Read(other) == old(Read(other)) {
        if ValidId(other) && BlobPath(path, other) == p {
          BlobPathInjective(path, id, other);
        }
      }
    }
  }
}
