/** What a whitelist policy allows when no rule hits (native/rule_engine.cpp, lines 568-659 and 1583-1600). */
module Whitelist {
  import opened Text
  import opened Sorting
  import opened PathMapper
  import opened IndexRefinement

  /** `candidate` is the path itself or one of the directories above it, up to the root directory. */
  predicate IsSameOrAncestor(candidate: string, path: string) {
    || candidate == path
    || (candidate == "/" && path != "" && path[0] == '/')
    || (candidate != "" && IsDirectoryMatch(path, candidate))
  }

  method IsSameOrParentPathOf(candidate: string, path: string) returns (found: bool)
    ensures found <==> IsSameOrAncestor(candidate, path)
  {
    var current := path;
    while true
      invariant IsSameOrAncestor(candidate, path) <==> IsSameOrAncestor(candidate, current)
      decreases |current|, current != "/"
    {
      if candidate == current {
        return true;
      }
      if current == "/" {
        return false;
      }
      var slash := LastIndex(current, '/');
      if slash < 0 {
        return false;
      }
      current := if slash == 0 then "/" else current[..slash];
    }
  }

  /** The directories from the storage root down to the path. */
  ghost predicate IsExternalAncestor(candidate: string, path: string) {
    IsExternal(candidate) && IsDirectoryMatch(path, candidate)
  }

  method AppendWhitelistAncestorPaths(path: string, output: seq<string>) returns (more: seq<string>)
    ensures forall a :: a in more <==> a in output || IsExternalAncestor(a, path)
  {
    more := output;
    if path == "" || !IsExternal(path) {
      forall a: string ensures !IsExternalAncestor(a, path) {
        if IsExternalAncestor(a, path) {
          InsideExternal(path, a);
        }
      }
      return;
    }
    var current := path;
    while true
      invariant IsExternal(current)
      invariant forall a :: a in output || IsExternalAncestor(a, path) <==> a in more || IsExternalAncestor(a, current)
      decreases |current|
    {
      more := more + [current];
      if current == EXTERNAL_ROOT {
        break;
      }
      var slash := LastIndex(current, '/');
      // Below shared storage there is always a further slash to cut at, so the other exits are never taken.
      current := current[..slash];
    }
  }

  /** All directories that lead to one of the paths, in order and without repetition. */
  method CollectAllowPaths(paths: seq<string>) returns (allowed: seq<string>)
    ensures StrictlySorted(allowed)
    ensures forall a :: a in allowed <==> LeadsTo(a, paths)
  {
    allowed := [];
    var i := 0;
    while i < |paths|
      invariant 0 <= i <= |paths|
      invariant forall a :: a in allowed <==> LeadsTo(a, paths[..i])
    {
      allowed := AppendWhitelistAncestorPaths(paths[i], allowed);
      i := i + 1;
    }
    assert paths[..i] == paths;
    allowed := SortUnique(allowed);
  }

  ghost predicate LeadsTo(a: string, paths: seq<string>) {
    exists p :: p in paths && IsExternalAncestor(a, p)
  }

  // ---------------------------------------------------------------------------
  // The decision

  /** What is known about the app besides its rules. */
  datatype Grants = Grants(
    packageName: string,
    ownedDataRoot: string,
    ownedMediaRoot: string,
    allowPaths: seq<string>,
    accessiblePaths: seq<string>
  )

  predicate Related(path: string, root: string) {
    IsDirectoryMatch(root, path) || IsDirectoryMatch(path, root)
  }

  /** Outside shared storage; related to a directory the app owns; on the way to a path it was given; or in a folder
    shared with it. `granted` are the paths of its allow and redirect rules and of its accessible folders. */
  ghost predicate ImplicitlyAllowed(g: Grants, granted: seq<string>, path: string) {
    || !IsExternal(path)
    || (g.packageName != "" && (Related(path, g.ownedDataRoot) || Related(path, g.ownedMediaRoot)))
    || (exists p :: p in granted && IsDirectoryMatch(p, path))
    || (exists p :: p in g.accessiblePaths && IsDirectoryMatch(path, p))
  }

  ghost predicate GrantsHold(g: Grants, granted: seq<string>) {
    StrictlySorted(g.allowPaths) && forall a :: a in g.allowPaths <==> LeadsTo(a, granted)
  }

  method IsAppOwnedExternalPath(g: Grants, path: string) returns (owned: bool)
    ensures owned <==> g.packageName != "" && IsExternal(path) &&
                       (Related(path, g.ownedDataRoot) || Related(path, g.ownedMediaRoot))
  {
    if g.packageName == "" || !IsExternal(path) {
      return false;
    }
    owned := IsSameOrParentPathOf(path, g.ownedDataRoot);
    if !owned && !IsDirectoryMatch(path, g.ownedDataRoot) {
      owned := IsSameOrParentPathOf(path, g.ownedMediaRoot);
      return owned || IsDirectoryMatch(path, g.ownedMediaRoot);
    }
    return true;
  }

  method ShouldImplicitlyAllowWhitelistPath(g: Grants, ghost granted: seq<string>, path: string) returns (allow: bool)
    requires GrantsHold(g, granted)
    ensures allow <==> ImplicitlyAllowed(g, granted, path)
  {
    if !IsExternal(path) {
      return true;
    }
    var owned := IsAppOwnedExternalPath(g, path);
    if owned {
      return true;
    }
    var listed := BinarySearch(g.allowPaths, path);
    assert listed <==> LeadsTo(path, granted);
    if listed {
      return true;
    }
    var i := 0;
    while i < |g.accessiblePaths|
      invariant 0 <= i <= |g.accessiblePaths|
      invariant forall k :: 0 <= k < i ==> !IsDirectoryMatch(path, g.accessiblePaths[k])
    {
      if IsDirectoryMatch(path, g.accessiblePaths[i]) {
        return true;
      }
      i := i + 1;
    }
    return false;
  }
}
