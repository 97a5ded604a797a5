/** The in-memory namespace of the FUSE mount (OriPriv): a table from paths
    to file information, a table from directory ids to directory listings,
    and the counter new ids are drawn from. A thrown PosixException is an
    `Err(Posix(..))` result; a failed `assert` or a dereference of the null
    directory that `dirs[id]` inserts for an unknown id aborts the process,
    which is `Err(Abort)`. */
module Mount {
  import opened Wrappers

  type OriPrivId = nat

  /** The id no file ever gets; ids are issued from the next one up. Its
      value and the width of OriPrivId are set in oripriv.h, which is not
      part of this model: here the value is 0 and ids are unbounded, so the
      counter never wraps around. */
  const ORIPRIVID_INVALID: OriPrivId := 0

  /** File-format bits of `st_mode`, as in POSIX <sys/stat.h>. */
  const S_IFMT: nat := 0xF000
  const S_IFDIR: nat := 0x4000
  const S_IFREG: nat := 0x8000
  const S_IFLNK: nat := 0xA000

  /** Octal 0600: read and write permission for the owner. */
  const S_IRUSR_IWUSR: nat := 0x180

  /** `mode & S_IFMT`. */
  function Format(mode: nat): nat
  {
    mode / 0x1000 % 0x10 * 0x1000
  }

  /** `0600 | S_IFDIR`, the mode of the lazily created root; the two bit
      sets are disjoint, so the union is the sum. */
  const ROOT_MODE: nat := S_IRUSR_IWUSR + S_IFDIR

  lemma RootModeIsDir()
    ensures Format(ROOT_MODE) == S_IFDIR && ROOT_MODE % 0x1000 == S_IRUSR_IWUSR
  {
  }

  datatype FileType = Null | Temporary

  datatype StatInfo = StatInfo(uid: nat, gid: nat, mode: nat, nlink: nat, size: nat, mtime: int, ctime: int)

  datatype FileInfo = FileInfo(statInfo: StatInfo, ftype: FileType, id: OriPrivId)
  {
    predicate IsDir() { Format(statInfo.mode) == S_IFDIR }
    predicate IsSymlink() { Format(statInfo.mode) == S_IFLNK }
    predicate IsReg() { Format(statInfo.mode) == S_IFREG }
  }

  /** A directory listing: entry names and the ids of their files. */
  datatype OriDir = OriDir(entries: map<string, OriPrivId>)
  {
    predicate IsEmpty() { |entries| == 0 }
  }

  const EMPTY_DIR := OriDir(map[])

  datatype Errno = ENOENT | ENOTDIR
  {
    /** The numeric values of Linux's <errno.h>. */
    function Code(): nat
    {
      match this
      case ENOENT => 2
      case ENOTDIR => 20
    }
  }

  datatype Failure = Posix(errno: Errno) | Abort

  class OriPriv {
    /** geteuid() and getegid() of the mounting process. */
    const euid: nat
    const egid: nat

    var paths: map<string, FileInfo>
    var dirs: map<OriPrivId, OriDir>
    var nextId: OriPrivId

    /** Every id in use was issued before `nextId`, no two paths share an
        id, and a path has a directory listing exactly when it is a
        directory. */
    ghost predicate Valid()
      reads this
    {
      && ORIPRIVID_INVALID < nextId
      && (forall p :: p in paths ==> ORIPRIVID_INVALID < paths[p].id < nextId)
      && (forall id :: id in dirs ==> id < nextId)
      && (forall p, q :: p in paths && q in paths && p != q ==> paths[p].id != paths[q].id)
      && (forall p :: p in paths ==> (paths[p].id in dirs <==> paths[p].IsDir()))
    }

    /** The information of a new temporary file with mode `mode`. */
    function NewInfo(mode: nat, size: nat, id: OriPrivId): FileInfo
      reads this
    {
      FileInfo(StatInfo(euid, egid, mode, 1, size, 0, 0), Temporary, id)
    }

    constructor (euid: nat, egid: nat)
      ensures Valid()
      ensures this.euid == euid && this.egid == egid
      ensures paths == map[] && dirs == map[] && nextId == ORIPRIVID_INVALID + 1
    {
      this.euid := euid;
      this.egid := egid;
      paths := map[];
      dirs := map[];
      nextId := ORIPRIVID_INVALID + 1;
    }

    /** Returns the counter and advances it: the id is valid and no path
        or directory listing holds it yet. */
    method GenerateId() returns (id: OriPrivId)
      requires Valid()
      modifies this
      ensures Valid()
      ensures id == old(nextId) && nextId == id + 1
      ensures paths == old(paths) && dirs == old(dirs)
      ensures id != ORIPRIVID_INVALID && id !in dirs
      ensures forall p :: p in paths ==> paths[p].id != id
    {
      id := nextId;
      nextId := nextId + 1;
    }

    /** The information of `path`: ENOENT when the path is unknown or
        holds a NULL-type entry. */
    function GetFileInfo(path: string): (r: Result<FileInfo, Failure>)
      reads this
      ensures r.Ok? <==> path in paths && paths[path].ftype != Null
      ensures r.Ok? ==> r.value == paths[path]
      ensures r.Err? ==> r.error == Posix(ENOENT)
    {
      if path in paths then
        if paths[path].ftype == Null then Err(Posix(ENOENT)) else Ok(paths[path])
      else
        Err(Posix(ENOENT))
    }

    /** Maps `path` to a new symbolic link with a fresh id. */
    method AddSymlink(path: string) returns (info: FileInfo)
      requires Valid()
      modifies this
      ensures Valid()
      ensures info == NewInfo(S_IFLNK, 1, old(nextId)) && info.IsSymlink()
      ensures forall p :: p in old(paths) ==> old(paths)[p].id != info.id
      ensures paths == old(paths)[path := info] && dirs == old(dirs)
      ensures nextId == old(nextId) + 1
      ensures GetFileInfo(path) == Ok(info)
    {
      var id := GenerateId();
      info := NewInfo(S_IFLNK, 1, id);
      paths := paths[path := info];
    }

    /** Removes a symbolic link or regular file: ENOENT for an unknown
        path, an abort for any other kind of file; only `path` goes. */
    method Unlink(path: string) returns (res: Result<(), Failure>)
      requires Valid()
      modifies this
      ensures Valid()
      ensures old(GetFileInfo(path)).Err? ==> res == Err(Posix(ENOENT))
      ensures old(GetFileInfo(path)).Ok? ==>
                (res.Ok? <==> old(paths[path]).IsSymlink() || old(paths[path]).IsReg())
      ensures res.Err? ==> res.error == Posix(ENOENT) || res.error == Abort
      ensures res.Ok? ==> paths == old(paths) - {path}
      ensures res.Err? ==> paths == old(paths)
      ensures dirs == old(dirs) && nextId == old(nextId)
    {
      var info := GetFileInfo(path);
      if info.Err? {
        return Err(info.error);
      }
      if !(info.value.IsSymlink() || info.value.IsReg()) {
        return Err(Abort);
      }
      paths := paths - {path};
      return Ok(());
    }

    /** Moves the information of `fromPath` to `toPath`, replacing what
        `toPath` held; ENOENT when `fromPath` is unknown. */
    method Rename(fromPath: string, toPath: string) returns (res: Result<(), Failure>)
      requires Valid()
      modifies this
      ensures Valid()
      ensures res.Ok? <==> old(GetFileInfo(fromPath)).Ok?
      ensures res.Err? ==> res == Err(Posix(ENOENT)) && paths == old(paths)
      ensures res.Ok? ==> paths == (old(paths) - {fromPath})[toPath := old(paths[fromPath])]
      ensures res.Ok? ==> GetFileInfo(toPath) == old(GetFileInfo(fromPath))
      ensures res.Ok? && fromPath != toPath ==> fromPath !in paths
      ensures forall p :: p != fromPath && p != toPath ==>
                (p in paths <==> p in old(paths)) && (p in paths ==> paths[p] == old(paths[p]))
      ensures dirs == old(dirs) && nextId == old(nextId)
    {
      var info := GetFileInfo(fromPath);
      if info.Err? {
        return Err(info.error);
      }
      paths := paths - {fromPath};
      paths := paths[toPath := info.value];
      return Ok(());
    }

    /** Maps `path` to a new directory with a fresh id and an empty
        listing under that id. */
    method AddDir(path: string) returns (info: FileInfo)
      requires Valid()
      modifies this
      ensures Valid()
      ensures info == NewInfo(S_IFDIR, 1, old(nextId)) && info.IsDir()
      ensures info.id !in old(dirs) && forall p :: p in old(paths) ==> old(paths)[p].id != info.id
      ensures paths == old(paths)[path := info] && dirs == old(dirs)[info.id := EMPTY_DIR]
      ensures nextId == old(nextId) + 1
      ensures GetFileInfo(path) == Ok(info)
    {
      var id := GenerateId();
      info := NewInfo(S_IFDIR, 1, id);
      dirs := dirs[id := EMPTY_DIR];
      paths := paths[path := info];
    }

    /** Removes an empty directory and its listing: ENOENT for an unknown
        path; an abort when the path has no listing (it is no directory)
        or the listing is not empty. */
    method RmDir(path: string) returns (res: Result<(), Failure>)
      requires Valid()
      modifies this
      ensures Valid()
      ensures old(GetFileInfo(path)).Err? ==> res == Err(Posix(ENOENT))
      ensures old(GetFileInfo(path)).Ok? ==>
                (res.Ok? <==> old(paths[path]).IsDir() && old(dirs[paths[path].id]).IsEmpty())
      ensures res.Err? ==> res.error == Posix(ENOENT) || res.error == Abort
      ensures res.Ok? ==> paths == old(paths) - {path} && dirs == old(dirs) - {old(paths[path]).id}
      ensures res.Err? ==> paths == old(paths) && dirs == old(dirs)
      ensures nextId == old(nextId)
    {
      var info := GetFileInfo(path);
      if info.Err? {
        return Err(info.error);
      }
      var id := info.value.id;
      if id !in dirs || !dirs[id].IsEmpty() {
        return Err(Abort);
      }
      dirs := dirs - {id};
      paths := paths - {path};
      return Ok(());
    }

    /** The listing of directory `path`. A known non-directory is ENOTDIR,
        checked before a NULL-type entry, which is ENOENT; an unknown "/"
        is created as an empty directory; any other unknown path is
        ENOENT. */
    method GetDir(path: string) returns (res: Result<OriDir, Failure>)
      requires Valid()
      modifies this
      ensures Valid()
      ensures path in old(paths) || path != "/" ==> unchanged(this)
      ensures path in old(paths) && !old(paths[path]).IsDir() ==> res == Err(Posix(ENOTDIR))
      ensures path in old(paths) && old(paths[path]).IsDir() && old(paths[path]).ftype == Null ==>
                res == Err(Posix(ENOENT))
      ensures path in old(paths) && old(paths[path]).IsDir() && old(paths[path]).ftype != Null ==>
                old(paths[path]).id in old(dirs) && res == Ok(old(dirs[paths[path].id]))
      ensures path !in old(paths) && path != "/" ==> res == Err(Posix(ENOENT))
      ensures path !in old(paths) && path == "/" ==>
                && res == Ok(EMPTY_DIR)
                && paths == old(paths)["/" := NewInfo(ROOT_MODE, 512, old(nextId))]
                && dirs == old(dirs)[old(nextId) := EMPTY_DIR]
                && nextId == old(nextId) + 1
    {
      if path in paths {
        var info := paths[path];
        if !info.IsDir() {
          return Err(Posix(ENOTDIR));
        }
        if info.ftype == Null {
          return Err(Posix(ENOENT));
        }
        return Ok(dirs[info.id]);
      }
      if path == "/" {
        var info := AddRoot();
        return Ok(dirs[info.id]);
      }
      return Err(Posix(ENOENT));
    }

    /** The lazy creation of "/" in getDir: a directory of mode 0600 and
        size 512 with a fresh id and an empty listing. */
    method AddRoot() returns (info: FileInfo)
      requires Valid()
      modifies this
      ensures Valid()
      ensures info == NewInfo(ROOT_MODE, 512, old(nextId)) && info.IsDir()
      ensures paths == old(paths)["/" := info] && dirs == old(dirs)[info.id := EMPTY_DIR]
      ensures nextId == old(nextId) + 1
    {
      RootModeIsDir();
      var id := GenerateId();
      info := NewInfo(ROOT_MODE, 512, id);
      dirs := dirs[id := EMPTY_DIR];
      paths := paths["/" := info];
    }
  }

  /** The root is created once: asking for it twice gives the same empty
      listing, and the second call changes nothing. */
  method GetRootTwice(priv: OriPriv) returns (first: Result<OriDir, Failure>, second: Result<OriDir, Failure>)
    requires priv.Valid() && "/" !in priv.paths
    modifies priv
    ensures priv.Valid()
    ensures first == second == Ok(EMPTY_DIR)
    ensures priv.nextId == old(priv.nextId) + 1 && "/" in priv.paths
  {
    first := priv.GetDir("/");
    second := priv.GetDir("/");
  }
}
