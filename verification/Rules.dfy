/** Compiled rules and what one rule says about one access (native/rule_engine.cpp). */
module Rules {
  import opened Options
  import opened Text
  import opened PathKindCache
  import opened PathGlob
  import opened PathMapper
  import Glob

  datatype RuleAction = Allow | Deny | Redirect | RedirectDynamic | Delete

  datatype CompiledRule = CompiledRule(
    action: RuleAction,
    path: string,
    redirectTarget: string,
    extensions: seq<string>,
    hasGlob: bool,
    hasPathGlob: bool,
    globParent: string,
    globPattern: string,
    globBasePrefix: string,
    pathKind: PathKind,
    lineNumber: nat,
    ruleIndex: nat
  )

  /** The glob fields of a rule are the analysis of its path, and a rule with a glob is a file rule. */
  ghost predicate WellFormed(rule: CompiledRule) {
    match AnalyzeGlobPattern(rule.path)
    case NoGlob => !rule.hasGlob && !rule.hasPathGlob
    case FileNameGlob(parent, pattern) =>
      && rule.hasGlob && !rule.hasPathGlob && rule.pathKind == File
      && rule.globParent == parent && rule.globPattern == pattern && rule.globBasePrefix == parent
    case WholePathGlob(base) =>
      && rule.hasPathGlob && !rule.hasGlob && rule.pathKind == File
      && rule.globBasePrefix == base
    case InvalidGlob => false
  }

  // ---------------------------------------------------------------------------
  // The access being decided

  datatype PathOperation =
    | Unknown | Open | OpenDirectory | CreateFile | CreateDirectory
    | Stat | EnumerateDirectory | ReadLink | RemoveFile | RemoveDirectory

  datatype RuntimeContext = RuntimeContext(
    operation: PathOperation,
    directoryFlag: bool,
    createFlag: bool,
    alreadyRedirected: bool
  )

  function InferContextKind(context: RuntimeContext): PathKind {
    match context.operation
    case OpenDirectory => Directory
    case CreateDirectory => Directory
    case EnumerateDirectory => Directory
    case RemoveDirectory => Directory
    case CreateFile => File
    case RemoveFile => File
    case Open =>
      if context.directoryFlag then Directory
      else if context.createFlag then File
      else Auto
    case Stat => Auto
    case ReadLink => Auto
    case Unknown => Auto
  }

  /** One access: the normalized path, the kind its operation implies, and what is cached when rules are tried. */
  datatype Query = Query(path: string, kind: PathKind, cached: map<string, PathKind>)

  /** The kind of a rule that does not know its own, as a function of the access alone. */
  function AutoKind(q: Query, rulePath: string): PathKind {
    if q.kind != Auto && q.path == rulePath then q.kind
    else if rulePath in q.cached && q.cached[rulePath] != Auto then q.cached[rulePath]
    else if q.kind != Auto then q.kind
    else Directory
  }

  function EffectiveKind(rule: CompiledRule, q: Query): PathKind {
    if rule.pathKind != Auto then rule.pathKind else AutoKind(q, rule.path)
  }

  predicate AllowsType(extensions: seq<string>, path: string) {
    extensions == [] ||
    var slash := LastIndex(path, '/');
    var dot := LastIndex(path, '.');
    dot > slash && dot + 1 < |path| && Lower(path[dot + 1..]) in extensions
  }

  /** The path matches the rule, its type filter aside. */
  ghost predicate Matched(rule: CompiledRule, q: Query) {
    if rule.hasPathGlob then
      StartsWith(q.path, rule.globBasePrefix) && PathAccepts(rule.path, q.path)
    else if rule.hasGlob then
      var slash := LastIndex(q.path, '/');
      && 0 <= slash < |q.path| - 1
      && q.path[..slash] == rule.globParent
      && Glob.Accepts(rule.globPattern, q.path[slash + 1..])
    else if EffectiveKind(rule, q) == File then
      q.path == rule.path
    else
      IsDirectoryMatch(q.path, rule.path)
  }

  ghost predicate Hits(rule: CompiledRule, q: Query) {
    rule.action != Delete && Matched(rule, q) && AllowsType(rule.extensions, q.path)
  }

  function HitKind(rule: CompiledRule, q: Query): PathKind {
    if rule.hasGlob || rule.hasPathGlob then File else EffectiveKind(rule, q)
  }

  ghost function FirstHit(rules: seq<CompiledRule>, q: Query): (hit: Option<CompiledRule>)
    ensures hit.Some? ==> hit.value in rules && Hits(hit.value, q)
    ensures hit.None? ==> forall r :: r in rules ==> !Hits(r, q)
  {
    if rules == [] then None
    else if Hits(rules[0], q) then Some(rules[0])
    else FirstHit(rules[1..], q)
  }

  // ---------------------------------------------------------------------------
  // Normalizing a rule path or an input path

  /** A path that already names shared storage only loses its trailing slashes; any other is collapsed. */
  function StripToRoot(path: string): string {
    if |path| > |EXTERNAL_ROOT| && path[|path| - 1] == '/' then StripToRoot(path[..|path| - 1]) else path
  }

  function NormalizedRulePath(input: string): Option<string> {
    var trimmed := Trim(input);
    if trimmed == "" then None
    else if trimmed[0] == '/' then
      if IsExternal(trimmed) then Some(StripToRoot(trimmed)) else Normalized(trimmed, MAX_PATH)
    else Normalized(EXTERNAL_ROOT + "/" + trimmed, MAX_PATH)
  }

  method NormalizeRulePath(input: string) returns (path: Option<string>)
    requires NUL !in input
    ensures path == NormalizedRulePath(input)
  {
    var trimmed := Trim(input);
    TrimIsInside(input);
    if trimmed == "" {
      return None;
    }
    var combined := trimmed;
    if trimmed[0] == '/' {
      if IsExternal(trimmed) {
        while |trimmed| > |EXTERNAL_ROOT| && trimmed[|trimmed| - 1] == '/'
          invariant StripToRoot(trimmed) == StripToRoot(combined)
        {
          trimmed := trimmed[..|trimmed| - 1];
        }
        return Some(trimmed);
      }
    } else {
      combined := EXTERNAL_ROOT + "/" + trimmed;
    }
    var buffer := new char[MAX_PATH];
    var ok := NormalizePath(combined, buffer);
    return if ok then Some(CString(buffer[..])) else None;
  }
}
