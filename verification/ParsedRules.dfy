/** What the rule file parser hands to the policy compiler (native/rule_engine.h, lines 50-102). */
module ParsedRules {
  import opened Rules

  datatype PolicyMode = Blacklist | Whitelist
  datatype DeleteDirMode = KeepDirs | EmptyDirs | Recursive
  datatype MediaQueryMode = AutoQuery | EnableQuery | DisableQuery

  datatype ParsedRuleLine = ParsedRuleLine(
    action: RuleAction,
    path: string,
    redirectTarget: string,
    extensions: seq<string>,
    lineNumber: nat
  )

  datatype ParsedSection = ParsedSection(
    packageName: string,
    enabled: bool,
    hasMode: bool,
    mode: PolicyMode,
    deleteExisting: bool,
    deleteDirMode: DeleteDirMode,
    mediaQuery: MediaQueryMode,
    trashEnabled: bool,
    trashOnRedirect: bool,
    trashDir: string,
    minAgeDays: int,
    minSizeMb: nat,
    rules: seq<ParsedRuleLine>
  )

  datatype ParsedAccessibleSection = ParsedAccessibleSection(
    anchorPackage: string,
    ruleId: string,
    fromPackage: string,
    toPackage: string,
    path: string,
    description: string,
    lineNumber: nat
  )

  datatype ParsedExportSection = ParsedExportSection(
    anchorPackage: string,
    ruleId: string,
    sourcePath: string,
    targetPath: string,
    title: string,
    mediaScan: bool,
    addToDownloads: bool,
    allowChild: bool,
    description: string,
    lineNumber: nat
  )

  /** Errors are line numbers; a section without a mode is reported under line 0. */
  datatype ParsedRules = ParsedRules(
    sections: seq<ParsedSection>,
    accessibleSections: seq<ParsedAccessibleSection>,
    exportSections: seq<ParsedExportSection>,
    errors: seq<nat>
  )
}
