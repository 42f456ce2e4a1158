/** native/path_kind_cache.cpp: what earlier accesses revealed about paths. Each operation is one atomic step. */
module PathKindCache {
  import opened Options

  datatype PathKind = Auto | File | Directory

  class ResolvedPathKindCache {
    var values: map<string, PathKind>

    constructor ()
      ensures values == map[]
    {
      values := map[];
    }

    method TryGet(path: string) returns (kind: Option<PathKind>)
      ensures kind == if path in values then Some(values[path]) else None
    {
      if path !in values {
        return None;
      }
      return Some(values[path]);
    }

    method Put(path: string, kind: PathKind)
      modifies this
      ensures values == old(values)[path := kind]
    {
      values := values[path := kind];
    }

    method Erase(path: string)
      modifies this
      ensures values == old(values) - {path}
    {
      if path in values {
        values := values - {path};
      }
    }

    method Clear()
      modifies this
      ensures values == map[]
    {
      values := map[];
    }
  }

  /** What a caller can see of a cache; having no cache is like having an empty one. */
  ghost function View(cache: ResolvedPathKindCache?): map<string, PathKind>
    reads cache
  {
    if cache == null then map[] else cache.values
  }

  ghost predicate NoAuto(values: map<string, PathKind>) {
    forall path :: path in values ==> values[path] != Auto
  }
}
