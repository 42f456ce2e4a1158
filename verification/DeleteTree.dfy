/** The delete walkers of the daemon (native/folder_manager_daemon.cpp, lines 713-784 and 903-928) over a model of the disk.

  The disk maps every existing path to its kind. Removing a file always succeeds and removing a directory succeeds
  just when it is empty; a listing returns the entries present when it is read, in any order.
*/
module DeleteTree {
  import opened Text
  import opened ParsedRules

  datatype NodeKind = FileNode | DirNode

  const DATA_MEDIA_ROOT := "/data/media/"

  predicate IsSafeDeletePath(path: string) {
    StartsWith(path, DATA_MEDIA_ROOT) && |path| > |DATA_MEDIA_ROOT|
  }

  /** Only what lies below the media directory is ever deleted. */
  lemma SafePathIs(path: string)
    ensures IsSafeDeletePath(path) <==> exists rest :: rest != "" && path == "/data/media/" + rest
  {
    if IsSafeDeletePath(path) {
      assert path == "/data/media/" + path[|DATA_MEDIA_ROOT|..];
    }
    if rest :| rest != "" && path == "/data/media/" + rest {
      assert path[..|DATA_MEDIA_ROOT|] == DATA_MEDIA_ROOT;
    }
  }

  type Nodes = map<string, NodeKind>

  /** Names between slashes are nonempty, and everything above an existing path is an existing directory. */
  ghost predicate IsTree(nodes: Nodes) {
    forall p, i | p in nodes && 0 <= i < |p| && p[i] == '/' ::
      && i + 1 < |p| && p[i + 1] != '/'
      && (i > 0 ==> p[..i] in nodes && nodes[p[..i]] == DirNode)
  }

  predicate IsChild(path: string, directory: string) {
    |path| > |directory| + 1 && IsDirectoryMatch(path, directory) && SlashFree(path[|directory| + 1..])
  }

  ghost function Children(nodes: Nodes, directory: string): set<string> {
    set p | p in nodes && IsChild(p, directory)
  }

  class Disk {
    var nodes: Nodes

    method Unlink(path: string) returns (ok: bool)
      modifies this
      ensures ok <==> path in old(nodes) && old(nodes)[path] == FileNode
      ensures nodes == if ok then old(nodes) - {path} else old(nodes)
    {
      ok := path in nodes && nodes[path] == FileNode;
      if ok {
        nodes := nodes - {path};
      }
    }

    method Rmdir(path: string) returns (ok: bool)
      modifies this
      ensures ok <==> path in old(nodes) && old(nodes)[path] == DirNode && Children(old(nodes), path) == {}
      ensures nodes == if ok then old(nodes) - {path} else old(nodes)
    {
      var children := set p | p in nodes && IsChild(p, path);
      ok := path in nodes && nodes[path] == DirNode && children == {};
      if ok {
        nodes := nodes - {path};
      }
    }

    method ReadDir(path: string) returns (children: seq<string>)
      ensures forall p :: p in children <==> p in Children(nodes, path)
    {
      var left := set p | p in nodes && IsChild(p, path);
      children := [];
      while left != {}
        invariant forall p :: p in children || p in left <==> p in Children(nodes, path)
        decreases left
      {
        var p :| p in left;
        children := children + [p];
        left := left - {p};
      }
    }
  }

  // ---------------------------------------------------------------------------
  // What a delete leaves

  /** Whether a path below the deleted one goes: files always, directories unless they are to be kept. */
  predicate Goes(nodes: Nodes, path: string, mode: DeleteDirMode, p: string)
    requires p in nodes
  {
    IsDirectoryMatch(p, path) && (mode != KeepDirs || nodes[p] == FileNode)
  }

  ghost function AfterDelete(nodes: Nodes, path: string, mode: DeleteDirMode): Nodes {
    map p | p in nodes && !Goes(nodes, path, mode, p) :: nodes[p]
  }

  /** What is left once the children already visited have been deleted. */
  ghost function AfterSome(nodes: Nodes, visited: seq<string>, mode: DeleteDirMode): Nodes {
    map p | p in nodes && !(exists c :: c in visited && Goes(nodes, c, mode, p)) :: nodes[p]
  }

  ghost predicate IsAbove(directory: string, p: string) {
    IsDirectoryMatch(p, directory) && p != directory
  }

  lemma MatchIsTransitive(p: string, c: string, directory: string)
    requires IsDirectoryMatch(p, c) && IsDirectoryMatch(c, directory)
    ensures IsDirectoryMatch(p, directory)
  {
    if p != c && c != directory {
      assert p[..|directory|] == p[..|c|][..|directory|];
      assert p[|directory|] == p[..|c|][|directory|];
    }
  }

  /** A path below a directory lies in, or is, one of the children of the directory. */
  lemma ChildOnTheWay(nodes: Nodes, directory: string, p: string) returns (c: string)
    requires IsTree(nodes) && p in nodes && IsAbove(directory, p) && directory != ""
    ensures c in Children(nodes, directory) && IsDirectoryMatch(p, c)
  {
    var n := |directory| + 1;
    assert p[n - 1] == '/';
    var rest := p[n..];
    var slash := FirstIndex(rest, '/');
    if slash < 0 {
      c := p;
    } else {
      assert p[n + slash] == '/';
      c := p[..n + slash];
      assert rest[0] == p[n];
      assert c[..|directory|] == p[..|directory|];
      assert c[n..] == rest[..slash];
    }
  }

  lemma NextChild(nodes: Nodes, visited: seq<string>, c: string, mode: DeleteDirMode)
    ensures AfterDelete(AfterSome(nodes, visited, mode), c, mode) == AfterSome(nodes, visited + [c], mode)
  {
    hide Goes;
    var some := AfterSome(nodes, visited, mode);
    forall p | p in nodes
      ensures (exists d :: d in visited + [c] && Goes(nodes, d, mode, p)) <==>
              (exists d :: d in visited && Goes(nodes, d, mode, p)) || Goes(nodes, c, mode, p)
    {
      assert c in visited + [c];
      assert forall d :: d in visited ==> d in visited + [c];
    }
    GoesAmongSome(nodes, some, c, mode);
  }

  lemma GoesAmongSome(nodes: Nodes, some: Nodes, c: string, mode: DeleteDirMode)
    requires forall p :: p in some ==> p in nodes && some[p] == nodes[p]
    ensures forall p :: p in some ==> (Goes(some, c, mode, p) <==> Goes(nodes, c, mode, p))
  {
  }

  /** With every child visited, all that is left of the subtree is the directory itself and, if they are kept, the directories. */
  lemma AllChildrenVisited(nodes: Nodes, path: string, children: seq<string>, mode: DeleteDirMode)
    requires IsTree(nodes) && path in nodes && nodes[path] == DirNode && path != ""
    requires forall p :: p in children <==> p in Children(nodes, path)
    ensures mode == KeepDirs ==> AfterSome(nodes, children, mode) == AfterDelete(nodes, path, mode)
    ensures mode != KeepDirs ==> AfterSome(nodes, children, mode) - {path} == AfterDelete(nodes, path, mode)
    ensures path in AfterSome(nodes, children, mode)
    ensures mode != KeepDirs ==> Children(AfterSome(nodes, children, mode), path) == {}
  {
    forall p | p in nodes
      ensures (exists c :: c in children && Goes(nodes, c, mode, p)) <==> p != path && Goes(nodes, path, mode, p)
    {
      forall c | c in children && IsDirectoryMatch(p, c) ensures IsDirectoryMatch(p, path) && p != path {
        MatchIsTransitive(p, c, path);
      }
      if p != path && IsDirectoryMatch(p, path) {
        var c := ChildOnTheWay(nodes, path, p);
        assert c in children;
      }
    }
  }

  method DeleteFile(disk: Disk, path: string) returns (ok: bool)
    requires IsTree(disk.nodes)
    modifies disk
    ensures !IsSafeDeletePath(path) ==> !ok && disk.nodes == old(disk.nodes)
    ensures IsSafeDeletePath(path) ==>
      disk.nodes == (if path in old(disk.nodes) && old(disk.nodes)[path] == FileNode then old(disk.nodes) - {path}
                     else old(disk.nodes))
    ensures IsSafeDeletePath(path) ==> (ok <==> path !in disk.nodes)
  {
    if !IsSafeDeletePath(path) {
      return false;
    }
    ok := disk.Unlink(path);
    if !ok {
      ok := path !in disk.nodes;
    }
  }

  ghost predicate Within(nodes: Nodes, length: nat) {
    forall p :: p in nodes ==> |p| <= length
  }

  /** Deletes what the mode says is to go, below and including the path, and nothing else. */
  method DeleteTreeInternal(disk: Disk, path: string, mode: DeleteDirMode, ghost depth: nat) returns (ok: bool)
    requires IsTree(disk.nodes) && Within(disk.nodes, |path| + depth)
    modifies disk
    ensures IsTree(disk.nodes)
    ensures ok <==> IsSafeDeletePath(path)
    ensures disk.nodes == if ok then AfterDelete(old(disk.nodes), path, mode) else old(disk.nodes)
    decreases depth, 1
  {
    if !IsSafeDeletePath(path) {
      return false;
    }
    if path !in disk.nodes {
      return true;
    }
    if disk.nodes[path] != DirNode {
      ok := DeleteFile(disk, path);
      return;
    }
    var children := disk.ReadDir(path);
    AllChildrenVisited(disk.nodes, path, children, mode);
    DeleteChildren(disk, path, children, mode, depth);
    if mode == KeepDirs {
      return true;
    }
    ok := disk.Rmdir(path);
  }

  /** The loop over the entries of a directory. */
  method DeleteChildren(disk: Disk, path: string, children: seq<string>, mode: DeleteDirMode, ghost depth: nat)
    requires IsTree(disk.nodes) && Within(disk.nodes, |path| + depth)
    requires IsSafeDeletePath(path)
    requires forall c :: c in children ==> c in Children(disk.nodes, path)
    modifies disk
    ensures IsTree(disk.nodes)
    ensures disk.nodes == AfterSome(old(disk.nodes), children, mode)
    decreases depth, 0
  {
    hide Goes, IsTree, IsSafeDeletePath;
    ghost var before := disk.nodes;
    var i := 0;
    assert AfterSome(before, [], mode) == before;
    while i < |children|
      invariant 0 <= i <= |children|
      invariant IsTree(disk.nodes)
      invariant disk.nodes == AfterSome(before, children[..i], mode)
    {
      var child := children[i];
      ChildIsDeeper(before, path, child, depth);
      NextChild(before, children[..i], child, mode);
      assert children[..i] + [child] == children[..i + 1];
      assert Within(disk.nodes, |path| + depth);
      var _ := DeleteTreeInternal(disk, child, mode, |path| + depth - |child|);
      i := i + 1;
    }
    assert children[..i] == children;
  }

  lemma ChildIsDeeper(nodes: Nodes, path: string, child: string, depth: nat)
    requires Within(nodes, |path| + depth) && IsSafeDeletePath(path)
    requires child in Children(nodes, path)
    ensures |path| < |child| <= |path| + depth && IsSafeDeletePath(child)
  {
    assert child[..|DATA_MEDIA_ROOT|] == child[..|path|][..|DATA_MEDIA_ROOT|] == path[..|DATA_MEDIA_ROOT|];
  }

  ghost function LongestPath(paths: set<string>): (n: nat)
    ensures forall p :: p in paths ==> |p| <= n
  {
    if paths == {} then 0
    else
      var p :| p in paths;
      var rest := LongestPath(paths - {p});
      if |p| > rest then |p| else rest
  }

  method DeleteTree(disk: Disk, path: string, mode: DeleteDirMode) returns (ok: bool)
    requires IsTree(disk.nodes)
    modifies disk
    ensures IsTree(disk.nodes)
    ensures ok <==> IsSafeDeletePath(path)
    ensures disk.nodes == if ok then AfterDelete(old(disk.nodes), path, mode) else old(disk.nodes)
  {
    ghost var depth := LongestPath(disk.nodes.Keys);
    ok := DeleteTreeInternal(disk, path, mode, depth);
  }

  /** What a delete means for one path: outside the deleted tree nothing changes; inside, files go, and directories go
    unless they are to be kept. */
  lemma DeleteMeaning(nodes: Nodes, path: string, mode: DeleteDirMode, p: string)
    requires p in nodes
    ensures var after := AfterDelete(nodes, path, mode);
      && (p in after ==> after[p] == nodes[p])
      && (!IsDirectoryMatch(p, path) ==> p in after)
      && (IsDirectoryMatch(p, path) && nodes[p] == FileNode ==> p !in after)
      && (IsDirectoryMatch(p, path) && nodes[p] == DirNode ==> (p in after <==> mode == KeepDirs))
  {
  }

  // ---------------------------------------------------------------------------
  // Removing empty parents

  /** An empty directory on the way from the path up to the stop, with nothing below it but such directories. */
  ghost predicate Removable(nodes: Nodes, path: string, stop: string, p: string) {
    && path in nodes && p in nodes
    && IsDirectoryMatch(path, p) && IsDirectoryMatch(p, stop) && IsSafeDeletePath(p)
    && forall q :: q in nodes && IsDirectoryMatch(q, p) ==> nodes[q] == DirNode && IsDirectoryMatch(path, q)
  }

  ghost function AfterCleanup(nodes: Nodes, path: string, stop: string): Nodes {
    map p | p in nodes && !Removable(nodes, path, stop, p) :: nodes[p]
  }

  lemma ParentsAreInOrder(path: string, p: string)
    requires IsDirectoryMatch(path, p)
    ensures forall q: string :: IsDirectoryMatch(path, q) && |q| <= |p| ==> IsDirectoryMatch(p, q)
    ensures forall q: string :: IsDirectoryMatch(path, q) && |q| == |p| ==> q == p
  {
    forall q: string | IsDirectoryMatch(path, q) && |q| <= |p| ensures IsDirectoryMatch(p, q) && (|q| == |p| ==> q == p) {
      assert path[..|p|] == p && path[..|q|] == q;
      assert p[..|q|] == path[..|p|][..|q|];
      if |q| < |p| {
        assert p[|q|] == path[..|p|][|q|] == path[|q|];
      }
    }
  }

  /** The loop has removed the removable directories longer than `current`, and all longer ones on the way were. */
  ghost predicate Cleaned(before: Nodes, now: Nodes, path: string, stop: string, current: string) {
    && current != "" && IsDirectoryMatch(path, current)
    && (forall p :: p in now <==> p in before && !(Removable(before, path, stop, p) && |p| > |current|))
    && (forall p :: p in now ==> now[p] == before[p])
    && (forall p: string :: IsDirectoryMatch(path, p) && |p| > |current| ==> Removable(before, path, stop, p))
  }

  /** Nothing at or above `current` is removable: the loop may stop. */
  ghost predicate Exhausted(before: Nodes, path: string, stop: string, current: string) {
    forall p :: p in before && |p| <= |current| ==> !Removable(before, path, stop, p)
  }

  lemma OutsideIsExhausted(before: Nodes, path: string, stop: string, current: string)
    requires IsDirectoryMatch(path, current)
    requires !IsDirectoryMatch(current, stop) || !IsSafeDeletePath(current)
    ensures Exhausted(before, path, stop, current)
  {
    forall p | p in before && |p| <= |current| && IsDirectoryMatch(path, p) ensures !Removable(before, path, stop, p) {
      ParentsAreInOrder(path, current);
      if IsDirectoryMatch(p, stop) && IsSafeDeletePath(p) {
        MatchIsTransitive(current, p, stop);
      }
    }
  }

  lemma FailedRmdirIsExhausted(before: Nodes, now: Nodes, path: string, stop: string, current: string)
    requires IsTree(before) && Cleaned(before, now, path, stop, current)
    requires current !in now || now[current] != DirNode || Children(now, current) != {}
    ensures Exhausted(before, path, stop, current)
  {
    if current !in now {
      if current != path {
        assert path[|current|] == '/';
      }
      assert path !in before;
    } else {
      forall p | p in before && |p| <= |current| && IsDirectoryMatch(path, p) ensures !Removable(before, path, stop, p) {
        ParentsAreInOrder(path, current);
        if now[current] == DirNode {
          var c :| c in Children(now, current);
          MatchIsTransitive(c, current, p);
          assert !Removable(before, path, stop, c);
        }
      }
    }
  }

  lemma RemovedIsRemovable(before: Nodes, now: Nodes, path: string, stop: string, current: string)
    requires IsTree(before) && Cleaned(before, now, path, stop, current)
    requires IsDirectoryMatch(current, stop) && IsSafeDeletePath(current)
    requires current in now && now[current] == DirNode && Children(now, current) == {}
    ensures Removable(before, path, stop, current)
  {
    if path != current {
      assert Removable(before, path, stop, path);
    }
    forall q | q in before && IsDirectoryMatch(q, current)
      ensures before[q] == DirNode && IsDirectoryMatch(path, q)
    {
      if q != current {
        var c := ChildOnTheWay(before, current, q);
        assert c in now <==> c in Children(now, current);
        assert Removable(before, path, stop, c);
      }
    }
  }

  /** Between a directory and its parent there is nothing on the way. */
  lemma ParentIsNext(path: string, current: string)
    requires IsDirectoryMatch(path, current) && current != ""
    ensures var slash := LastIndex(current, '/');
      forall p: string :: IsDirectoryMatch(path, p) && |p| < |current| ==> |p| <= slash
    ensures LastIndex(current, '/') >= 0 ==> IsDirectoryMatch(path, current[..LastIndex(current, '/')])
  {
    var slash := LastIndex(current, '/');
    ParentsAreInOrder(path, current);
    if slash >= 0 {
      MatchIsTransitive(path, current, current[..slash]);
    }
  }

  lemma AfterRemoval(before: Nodes, now: Nodes, path: string, stop: string, current: string)
    requires Cleaned(before, now, path, stop, current) && Removable(before, path, stop, current)
    requires current == stop || LastIndex(current, '/') <= 0
    ensures forall p :: p in before && |p| < |current| ==> !Removable(before, path, stop, p)
  {
    ParentIsNext(path, current);
  }

  lemma CleanedParent(before: Nodes, now: Nodes, path: string, stop: string, current: string)
    requires Cleaned(before, now, path, stop, current) && Removable(before, path, stop, current)
    requires LastIndex(current, '/') > 0
    ensures Cleaned(before, now - {current}, path, stop, current[..LastIndex(current, '/')])
  {
    var parent := current[..LastIndex(current, '/')];
    ParentIsNext(path, current);
    ParentsAreInOrder(path, current);
    forall p: string | IsDirectoryMatch(path, p) && |p| > |parent| ensures |p| > |current| || p == current {
    }
  }

  /** The kernel refuses to remove what is not an empty directory, so the tree stays a tree. */
  lemma RmdirKeepsTree(nodes: Nodes, path: string)
    requires IsTree(nodes) && Children(nodes, path) == {} && path != ""
    ensures IsTree(nodes - {path})
  {
    forall p, i | p in nodes && 0 <= i < |p| && p[i] == '/' ensures i > 0 ==> p[..i] != path {
      if i > 0 && p[..i] == path {
        assert IsAbove(path, p);
        var c := ChildOnTheWay(nodes, path, p);
      }
    }
  }

  lemma CleanedAndExhausted(before: Nodes, now: Nodes, path: string, stop: string, current: string)
    requires Cleaned(before, now, path, stop, current) && Exhausted(before, path, stop, current)
    ensures now == AfterCleanup(before, path, stop)
  {
    hide Removable;
  }

  lemma RemovalEnds(before: Nodes, now: Nodes, path: string, stop: string, current: string)
    requires Cleaned(before, now, path, stop, current) && Removable(before, path, stop, current)
    requires forall p :: p in before && |p| < |current| ==> !Removable(before, path, stop, p)
    ensures now - {current} == AfterCleanup(before, path, stop)
  {
    forall p | p in before && Removable(before, path, stop, p) && |p| == |current| ensures p == current {
      ParentsAreInOrder(path, current);
    }
  }

  method CleanupEmptyParents(disk: Disk, path: string, stopAt: string)
    requires IsTree(disk.nodes)
    modifies disk
    ensures IsTree(disk.nodes)
    ensures disk.nodes == if path == "" || stopAt == "" then old(disk.nodes) else AfterCleanup(old(disk.nodes), path, stopAt)
  {
    if path == "" || stopAt == "" {
      return;
    }
    hide Cleaned, IsTree, Exhausted, Removable, AfterCleanup, IsSafeDeletePath;
    var current := path;
    ghost var before := disk.nodes;
    while true
      invariant IsTree(disk.nodes)
      invariant Cleaned(before, disk.nodes, path, stopAt, current)
      decreases |current|
    {
      if !IsDirectoryMatch(current, stopAt) || !IsSafeDeletePath(current) {
        OutsideIsExhausted(before, path, stopAt, current);
        CleanedAndExhausted(before, disk.nodes, path, stopAt, current);
        break;
      }
      ghost var now := disk.nodes;
      var ok := disk.Rmdir(current);
      if !ok {
        FailedRmdirIsExhausted(before, now, path, stopAt, current);
        CleanedAndExhausted(before, now, path, stopAt, current);
        break;
      }
      RemovedIsRemovable(before, now, path, stopAt, current);
      RmdirKeepsTree(now, current);
      var slash := LastIndex(current, '/');
      if current == stopAt || slash <= 0 {
        AfterRemoval(before, now, path, stopAt, current);
        RemovalEnds(before, now, path, stopAt, current);
        return;
      }
      CleanedParent(before, now, path, stopAt, current);
      current := current[..slash];
    }
  }

  /** What is removed is an empty directory below the media directory, on the way from the path up to the stop, or holds
    nothing but such directories, which are removed with it. */
  lemma CleanupMeaning(nodes: Nodes, path: string, stop: string, p: string)
    requires p in nodes && p !in AfterCleanup(nodes, path, stop)
    ensures nodes[p] == DirNode && IsDirectoryMatch(path, p) && IsDirectoryMatch(p, stop) && path in nodes
    ensures exists rest :: rest != "" && p == "/data/media/" + rest
    ensures forall q :: q in nodes && IsAbove(p, q) ==> q !in AfterCleanup(nodes, path, stop)
  {
    SafePathIs(p);
    forall q | q in nodes && IsAbove(p, q) ensures Removable(nodes, path, stop, q) {
      MatchIsTransitive(q, p, stop);
      StaysSafe(p, q);
      forall r | r in nodes && IsDirectoryMatch(r, q) ensures nodes[r] == DirNode && IsDirectoryMatch(path, r) {
        MatchIsTransitive(r, q, p);
      }
    }
  }

  lemma StaysSafe(p: string, q: string)
    requires IsSafeDeletePath(p) && IsDirectoryMatch(q, p)
    ensures IsSafeDeletePath(q)
  {
    if q != p {
      assert q[..|DATA_MEDIA_ROOT|] == q[..|p|][..|DATA_MEDIA_ROOT|];
    }
  }

  /** And it goes on as far as it can: a directory that is left, on this way, at or below the stop and below the media
    directory, has something below it that is left as well, or the path was not there. */
  lemma CleanupGoesOn(nodes: Nodes, path: string, stop: string, p: string, rest: string)
    requires IsTree(nodes) && path in nodes && nodes[path] == DirNode && p in AfterCleanup(nodes, path, stop)
    requires IsDirectoryMatch(path, p) && IsDirectoryMatch(p, stop) && rest != "" && p == "/data/media/" + rest
    ensures exists q :: q in AfterCleanup(nodes, path, stop) && IsAbove(p, q)
  {
    SafePathIs(p);
    var after := AfterCleanup(nodes, path, stop);
    assert nodes[p] == DirNode by { WayIsDirectories(nodes, path, p); }
    var q :| q in nodes && IsDirectoryMatch(q, p) && !(nodes[q] == DirNode && IsDirectoryMatch(path, q));
    assert q in after && IsAbove(p, q);
  }

  lemma WayIsDirectories(nodes: Nodes, path: string, p: string)
    requires IsTree(nodes) && path in nodes && nodes[path] == DirNode && p in nodes && IsDirectoryMatch(path, p) && p != ""
    ensures nodes[p] == DirNode
  {
    if p != path {
      assert path[|p|] == '/' && path[..|p|] == p;
    }
  }
}
