/** The provider object, its fields changed in place, against the value model. */
module GitHubFs {
  import opened Options
  import opened Results
  import Text
  import opened RepoPaths
  import opened OverlayFs
  import opened OverlayRuns
  import opened OverlayFlush

  lemma SetSnoc<T>(s: seq<T>, x: T)
    ensures (set k | k in s + [x]) == (set k | k in s) + {x}
  {
    forall k ensures k in s + [x] <==> k in s || k == x {}
  }

  function FirstDirs(parts: seq<string>, n: int): set<string>
    requires n <= |parts|
  {
    set j | 1 <= j < n :: Text.Join(parts[..j], '/')
  }

  lemma OneMoreDir(parts: seq<string>, n: nat)
    requires 1 <= n < |parts|
    ensures FirstDirs(parts, n + 1) == FirstDirs(parts, n) + {Text.Join(parts[..n], '/')}
  {}

  /** The remote repository: each branch's head tree. */
  class Repository {
    var heads: Heads
    constructor (heads: Heads)
      ensures this.heads == heads
    {
      this.heads := heads;
    }
  }

  class GitHubFsProvider {
    const repository: Repository
    const branch: string
    const reservedPrefix: Option<string>
    var tree: Option<Tree>
    var loadingTree: Promise
    var blobContentCache: Files
    var overlay: Edits
    var virtualDirs: set<string>

    constructor (repository: Repository, branch: string, reservedPrefix: Option<string>)
      ensures this.repository == repository && this.branch == branch && this.reservedPrefix == reservedPrefix
      ensures State() == EMPTY
    {
      this.repository, this.branch, this.reservedPrefix := repository, branch, reservedPrefix;
      tree, loadingTree, blobContentCache, overlay, virtualDirs := None, NotStarted, map[], map[], {};
    }

    function State(): Mem
      reads this
    {
      Mem(tree, loadingTree, blobContentCache, overlay, virtualDirs)
    }

    /** The branch's tree as the next load would find it. */
    function Head(): Option<Tree>
      reads repository
    {
      if branch in repository.heads then Some(repository.heads[branch]) else None
    }

    method EnsureTree() returns (r: Result<Tree, Error>)
      modifies this`tree, this`loadingTree
      ensures State() == Ensured(old(State()), Head()) && r == TreeResult(State())
    {
      if tree.Some? {
        return Ok(tree.value);
      }
      if loadingTree == NotStarted {
        if branch in repository.heads {
          tree, loadingTree := Some(repository.heads[branch]), Resolved;
        } else {
          loadingTree := Rejected;
        }
      }
      r := if loadingTree == Rejected then Err(RefMissing) else if tree.Some? then Ok(tree.value) else Err(TreeMissing);
    }

    method ReadFile(path: string) returns (r: Result<string, Error>)
      modifies this`tree, this`loadingTree, this`blobContentCache
      ensures (r, State()) == ReadPath(old(State()), Head(), path)
    {
      var normalized := Normalize(path);
      if normalized.OutsideRepo? {
        return Err(PathOutsideRepo);
      }
      var p := normalized.path;
      if p in overlay {
        if overlay[p].None? {
          return Err(Enoent);
        }
        return Ok(overlay[p].value);
      }
      if p in blobContentCache {
        return Ok(blobContentCache[p]);
      }
      var loaded := EnsureTree();
      if loaded.Err? {
        return Err(loaded.error);
      }
      if p !in loaded.value || !loaded.value[p].BlobEntry? {
        return Err(Enoent);
      }
      var content := loaded.value[p].content;
      blobContentCache := blobContentCache[p := content];
      r := Ok(content);
    }

    /** `parentDirs`, outermost first. */
    static method ListParentDirs(path: string) returns (dirs: seq<string>)
      ensures (set dir | dir in dirs) == ParentDirs(path)
    {
      var parts := Text.Split(path, '/');
      dirs := [];
      for i := 1 to |parts|
        invariant (set dir | dir in dirs) == FirstDirs(parts, i)
      {
        var dir := Text.Join(parts[..i], '/');
        SetSnoc(dirs, dir);
        OneMoreDir(parts, i);
        dirs := dirs + [dir];
      }
    }

    method AddParentDirs(path: string)
      modifies this`virtualDirs
      ensures virtualDirs == old(virtualDirs) + ParentDirs(path)
    {
      var dirs := ListParentDirs(path);
      for i := 0 to |dirs|
        invariant virtualDirs == old(virtualDirs) + set dir | dir in dirs[..i]
      {
        virtualDirs := virtualDirs + {dirs[i]};
        assert dirs[..i + 1] == dirs[..i] + [dirs[i]];
      }
      assert dirs[..|dirs|] == dirs;
    }

    method WriteFile(path: string, content: string) returns (r: Result<string, Error>)
      modifies this`overlay, this`blobContentCache, this`virtualDirs
      ensures (r, State()) == Apply(old(State()), Head(), Write(path, content))
    {
      var normalized := Normalize(path);
      if normalized.OutsideRepo? {
        return Err(PathOutsideRepo);
      }
      var p := normalized.path;
      overlay := overlay[p := Some(content)];
      blobContentCache := blobContentCache - {p};
      AddParentDirs(p);
      r := Ok("");
    }

    method AppendFile(path: string, content: string) returns (r: Result<string, Error>)
      modifies this
      ensures (r, State()) == Apply(old(State()), Head(), Append(path, content))
    {
      var existing := "";
      var read := ReadFile(path);
      if read.Ok? {
        existing := read.value;
      }
      r := WriteFile(path, existing + content);
    }

    method MakeDir(path: string) returns (r: Result<string, Error>)
      modifies this`virtualDirs
      ensures (r, State()) == Apply(old(State()), Head(), Mkdir(path))
    {
      var normalized := Normalize(path);
      if normalized.OutsideRepo? {
        return Err(PathOutsideRepo);
      }
      virtualDirs := virtualDirs + {normalized.path};
      r := Ok("");
    }

    method DirectoryExists(path: string, files: Tree) returns (found: bool)
      ensures found == DirExists(State(), files, path)
    {
      if path == "" || (path in virtualDirs && !(path in overlay && overlay[path].None?)) {
        return true;
      }
      if path in files && files[path].TreeEntry? && !(path in overlay && overlay[path].None?) {
        return true;
      }
      var keys := overlay.Keys + files.Keys;
      var rest := keys;
      while rest != {}
        invariant rest <= keys
        invariant forall k | k in keys && k !in rest :: !(Under(path, k) && !Deleted(State(), k))
        decreases |rest|
      {
        var key :| key in rest;
        if Under(path, key) && !(key in overlay && overlay[key].None?) {
          return true;
        }
        rest := rest - {key};
      }
      found := false;
    }

    /** The loop of a recursive removal. */
    method BuryUnder(p: string, keys: set<string>)
      modifies this`overlay
      ensures overlay == old(overlay) + map k | k in keys && (k == p || Under(p, k)) :: None
    {
      var rest := keys;
      while rest != {}
        invariant rest <= keys
        invariant overlay == old(overlay) + map k | k in keys && k !in rest && (k == p || Under(p, k)) :: None
        decreases |rest|
      {
        var key :| key in rest;
        rest := rest - {key};
        if key == p || Under(p, key) {
          overlay := overlay[key := None];
        }
      }
    }

    /** `exists` for a path that is not a directory. */
    method IsKnown(p: string, files: Tree) returns (known: bool)
      requires !DirExists(State(), files, p)
      ensures known == PathExists(State(), files, p)
    {
      known := if p in overlay then overlay[p].Some? else p in files;
    }

    method Remove(path: string, recursive: bool, force: bool) returns (r: Result<string, Error>)
      modifies this
      ensures (r, State()) == Apply(old(State()), Head(), Rm(path, recursive, force))
    {
      var normalized := Normalize(path);
      if normalized.OutsideRepo? {
        return Err(PathOutsideRepo);
      }
      var p := normalized.path;
      var loaded := EnsureTree();
      if loaded.Err? {
        var found := p == "" || (p in virtualDirs && !(p in overlay && overlay[p].None?));
        return Err(if loaded.error == TreeMissing && found && !recursive then NotEmptyDirectory else loaded.error);
      }
      var isDir := DirectoryExists(p, loaded.value);
      if isDir {
        if !recursive {
          return Err(NotEmptyDirectory);
        }
        BuryUnder(p, overlay.Keys + loaded.value.Keys);
        virtualDirs := virtualDirs - {p};
        return Ok("");
      }
      var known := IsKnown(p, loaded.value);
      if !known {
        return if force then Ok("") else Err(Enoent);
      }
      overlay := overlay[p := None];
      blobContentCache := blobContentCache - {p};
      r := Ok("");
    }

    /** The loop of a directory rename, over the keys known at its start. */
    method MoveFiles(from: string, to: string, keys: set<string>) returns (ghost order: seq<string>)
      modifies this
      ensures (set k | k in order) == keys
      ensures State() == MoveAll(old(State()), Head(), from, to, order)
    {
      ghost var m := State();
      order := [];
      var rest := keys;
      while rest != {}
        invariant rest <= keys && (set k | k in order) == keys - rest
        invariant State() == MoveAll(m, Head(), from, to, order)
        decreases |rest|
      {
        var key :| key in rest;
        rest := rest - {key};
        MoveAllSnoc(m, Head(), from, to, order, key);
        SetSnoc(order, key);
        order := order + [key];
        MoveFile(from, to, key);
      }
    }

    /** One round of that loop. */
    method MoveFile(from: string, to: string, key: string)
      modifies this
      ensures State() == MoveOne(old(State()), Head(), from, to, key)
    {
      if Under(from, key) {
        var read := ReadFile(key);
        if read.Ok? {
          var newKey := to + key[|from|..];
          overlay := overlay[newKey := Some(read.value)];
          AddParentDirs(newKey);
          overlay := overlay[key := None];
        }
      }
    }

    method RenamePath(src: string, dest: string) returns (r: Result<string, Error>, ghost order: seq<string>)
      modifies this
      ensures Lists(order, Ensured(old(State()), Head()), Head())
      ensures (r, State()) == Apply(old(State()), Head(), Rename(src, dest, order))
    {
      order := AnyOrder(Ensured(State(), Head()), Head());
      var source, destination := Normalize(src), Normalize(dest);
      if source.OutsideRepo? || destination.OutsideRepo? {
        r := Err(PathOutsideRepo);
        return;
      }
      var from, to := source.path, destination.path;
      var loaded := EnsureTree();
      if loaded.Err? {
        r := Err(loaded.error);
        return;
      }
      var isDir := DirectoryExists(from, loaded.value);
      if isDir {
        order := MoveFiles(from, to, overlay.Keys + loaded.value.Keys);
        virtualDirs := virtualDirs - {from} + {to};
        r := Ok("");
        return;
      }
      NormalizeIdempotent(src);
      NormalizeIdempotent(dest);
      var read := ReadFile(from);
      if read.Err? {
        r := Err(read.error);
        return;
      }
      var _ := WriteFile(to, read.value);
      overlay := overlay[from := None];
      blobContentCache := blobContentCache - {from};
      r := Ok("");
    }

    /** The committable part of the overlay, entry by entry. */
    method PendingChanges() returns (edits: Edits)
      ensures edits == Committable(overlay, reservedPrefix)
    {
      edits := map[];
      var rest := overlay.Keys;
      while rest != {}
        invariant rest <= overlay.Keys
        invariant edits == map p | p in overlay && p !in rest && !IsReserved(reservedPrefix, p) :: overlay[p]
        decreases |rest|
      {
        var p :| p in rest;
        rest := rest - {p};
        if !IsReserved(reservedPrefix, p) {
          edits := edits[p := overlay[p]];
        }
      }
    }

    /** `pendingChangeCount` */
    method PendingChangeCount() returns (count: nat)
      ensures count == |Committable(overlay, reservedPrefix)|
      ensures count == |set p | p in overlay
                          && (reservedPrefix == None
                                || (p != reservedPrefix.value && !(reservedPrefix.value + "/" <= p)))|
    {
      var edits := PendingChanges();
      CommittableKeys(overlay, reservedPrefix);
      assert |edits| == |edits.Keys|;
      count := |edits|;
    }

    method Forget(paths: set<string>)
      modifies this`overlay
      ensures overlay == old(overlay) - paths
    {
      var rest := paths;
      while rest != {}
        invariant rest <= paths
        invariant overlay == old(overlay) - (paths - rest)
        decreases |rest|
      {
        var p :| p in rest;
        assert old(overlay) - (paths - (rest - {p})) == old(overlay) - (paths - rest) - {p};
        rest := rest - {p};
        overlay := overlay - {p};
      }
      assert paths - rest == paths;
    }

    method Flush(target: Option<string>) returns (r: Result<Tree, Error>)
      modifies this, repository
      ensures (r, State(), repository.heads)
              == FlushMem(old(State()), old(repository.heads), branch, target, reservedPrefix)
    {
      var committable := PendingChanges();
      if committable == map[] {
        return Err(NothingToCommit);
      }
      var targetBranch := if target.Some? then target.value else branch;
      if branch !in repository.heads {
        return Err(RefMissing);
      }
      if targetBranch !in repository.heads {
        repository.heads := repository.heads[targetBranch := repository.heads[branch]];
      }
      var commit := Commit(repository.heads[targetBranch], committable);
      repository.heads := repository.heads[targetBranch := commit];
      assert repository.heads == old(repository.heads)[targetBranch := commit];
      Forget(committable.Keys);
      tree := None;
      r := Ok(commit);
    }
  }

  lemma {:induction false} ListSet(keys: set<string>) returns (order: seq<string>)
    ensures (set k | k in order) == keys
  {
    if keys == {} {
      order := [];
    } else {
      var x :| x in keys;
      var rest := ListSet(keys - {x});
      SetSnoc(rest, x);
      order := rest + [x];
    }
  }

  lemma AnyOrder(m: Mem, head: Option<Tree>) returns (order: seq<string>)
    ensures Lists(order, m, head)
  {
    order := ListSet(m.overlay.Keys + Snapshot(m, head).Keys);
  }

  lemma MoveAllSnoc(m: Mem, head: Option<Tree>, from: string, to: string, order: seq<string>, key: string)
    ensures MoveAll(m, head, from, to, order + [key]) == MoveOne(MoveAll(m, head, from, to, order), head, from, to, key)
  {
    assert (order + [key])[..|order|] == order;
  }
}
