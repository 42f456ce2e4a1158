/** What the other lines of a rule file mean: comments, headers and the list of types (native/rule_engine.cpp, lines 51-122,
  759-782 and 1017-1073). */
module LineWords {
  import opened Options
  import opened Text
  import opened ParsedRules
  import opened LineSyntax
  import opened RuleParser
  import opened ParserProperties
  import opened DocumentedRules
  import opened RuleRenderer
  import opened RuleRoundTrip

  /** Blank lines and those that begin with a number sign change nothing. */
  lemma CommentsAreSkipped(state: ParseState, note: string, number: nat)
    requires WellPlaced(state)
    ensures LineStep(state, "", number) == state && LineStep(state, "#" + note, number) == state
  {
  }

  // ---------------------------------------------------------------------------
  // Headers

  lemma BracketedName(state: ParseState, name: string, number: nat)
    requires WellPlaced(state) && IsTrimmed(name)
    ensures LineStep(state, "[" + name + "]", number) == Enter(state, name, number)
  {
    hide Enter, Trim;
    var line := "[" + name + "]";
    assert line[0] == '[' && line[|line| - 1] == ']' && line[1..|line| - 1] == name;
    TrimOfTrimmed(name);
  }

  /** `[a.accessible.b]` opens the shared folder `b` of the package `a`. */
  lemma SharedHeader(state: ParseState, package: string, id: string, number: nat)
    requires WellPlaced(state) && IsTrimmed(package) && IsTrimmed(id)
    requires var name := package + ".accessible." + id;
      name !in state.sectionNames && Find(name, ".accessible.") == |package|
    ensures var name := package + ".accessible." + id;
      LineStep(state, "[" + name + "]", number) ==
        state.(active := InAccessible, sectionNames := state.sectionNames + {name},
               parsed := state.parsed.(accessibleSections := state.parsed.accessibleSections
                                         + [ParsedAccessibleSection(package, id, "", "", "", "", number)]))
  {
    var name := package + ".accessible." + id;
    hide Trim, Find, LineStep;
    JoinedNameIsTrimmed(package, ".accessible.", id);
    BracketedName(state, name, number);
    TrimOfTrimmed(package);
    TrimOfTrimmed(id);
    NameHasParts(package, ".accessible.", id);
  }

  /** `[a.export.b]` opens the exported folder `b` of the package `a`. */
  lemma ExportHeader(state: ParseState, package: string, id: string, number: nat)
    requires WellPlaced(state) && IsTrimmed(package) && IsTrimmed(id)
    requires var name := package + ".export." + id;
      name !in state.sectionNames && Find(name, ".accessible.") < 0 && Find(name, ".export.") == |package|
    ensures var name := package + ".export." + id;
      LineStep(state, "[" + name + "]", number) ==
        state.(active := InExport, sectionNames := state.sectionNames + {name},
               parsed := state.parsed.(exportSections := state.parsed.exportSections
                                         + [ParsedExportSection(package, id, "", "", "", false, false, false, "", number)]))
  {
    var name := package + ".export." + id;
    hide Trim, Find, LineStep;
    JoinedNameIsTrimmed(package, ".export.", id);
    BracketedName(state, name, number);
    TrimOfTrimmed(package);
    TrimOfTrimmed(id);
    NameHasParts(package, ".export.", id);
  }

  /** Any other new name opens a package section in which nothing is set. */
  lemma PackageHeader(state: ParseState, name: string, number: nat)
    requires WellPlaced(state) && IsTrimmed(name) && name !in state.sectionNames && name !in state.packages
    requires Find(name, ".accessible.") < 0 && Find(name, ".export.") < 0
    ensures LineStep(state, "[" + name + "]", number) ==
      state.(active := InPolicy, sectionNames := state.sectionNames + {name}, packages := state.packages + {name},
             parsed := state.parsed.(sections := state.parsed.sections +
               [ParsedSection(name, true, false, Blacklist, false, KeepDirs, AutoQuery, false, false, "", 0, 0, [])]))
  {
    hide Trim, Find, LineStep;
    BracketedName(state, name, number);
  }

  /** A name that is there already is an error, and so is what follows until the next header. */
  lemma RepeatedHeader(state: ParseState, name: string, line: string, number: nat)
    requires WellPlaced(state) && IsTrimmed(name) && name in state.sectionNames && IsBodyLine(line)
    ensures var after := LineStep(state, "[" + name + "]", number);
      && after.active == Nowhere && after.parsed == state.parsed.(errors := state.parsed.errors + [number])
      && LineStep(after, line, number + 1).parsed == state.parsed.(errors := state.parsed.errors + [number] + [number + 1])
  {
    BracketedName(state, name, number);
  }

  // ---------------------------------------------------------------------------
  // Types

  /** A type as it may be written. */
  predicate IsTypeWord(word: string) {
    IsTrimmed(word) && ',' !in word && word[0] != '.'
  }

  lemma TypeWord(word: string)
    requires IsTypeWord(word)
    ensures ReadType(word) == Some(Lower(word)) && ReadType("." + word) == Some(Lower(word)) && ReadType(" " + word) == Some(Lower(word))
    ensures ReadType("") == None && ReadType(".") == None
  {
    hide Trim, Lower;
    TrimOfTrimmed(word);
    TrimOfTrimmed("." + word);
    assert ("." + word)[1..] == word;
    TrimOfPadded(" ", word, "");
    assert " " + word + "" == " " + word;
    TrimOfTrimmed(".");
    assert "."[1..] == "";
    TrimOfNothing();
  }

  lemma TrimOfNothing()
    ensures Trim("") == ""
  {
  }

  /** The pieces between commas are read one by one; nothing behind the last comma is forgiven, an empty piece is not. */
  lemma TypesInTurn(piece: string, rest: string)
    requires ',' !in piece
    ensures ReadTypes(piece + "," + rest) ==
      if ReadType(piece).None? || ReadTypes(rest).None? then None else Some([ReadType(piece).value] + ReadTypes(rest).value)
  {
    hide ReadType, FirstIndex, ReadTypes;
    CommaAt(piece, rest);
    ReadTypesAt(piece + "," + rest, |piece|);
  }

  lemma ReadTypesAt(text: string, comma: nat)
    requires text != "" && FirstIndex(text, ',') == comma
    ensures ReadTypes(text) == PrependType(ReadType(text[..comma]), ReadTypes(text[comma + 1..]))
  {
    hide ReadType, FirstIndex, PrependType;
  }

  lemma LastType(piece: string)
    requires ',' !in piece && piece != ""
    ensures ReadTypes(piece) == if ReadType(piece).None? then None else Some([ReadType(piece).value])
    ensures ReadTypes("") == Some([])
  {
    hide ReadType, FirstIndex;
    assert FirstIndex(piece, ',') < 0;
    if ReadType(piece).Some? {
      assert [ReadType(piece).value] + [] == [ReadType(piece).value];
    }
  }

  lemma CommaAt(piece: string, rest: string)
    requires ',' !in piece
    ensures var text := piece + "," + rest;
      FirstIndex(text, ',') == |piece| && text[..|piece|] == piece && text[|piece| + 1..] == rest && text != ""
  {
    hide FirstIndex;
    var text := piece + "," + rest;
    assert text[|piece|] == ',';
    assert forall j :: 0 <= j < |piece| ==> text[j] == piece[j];
  }

  /** A redirect for two types, in either way of writing them. */
  lemma TwoTypesAreRead(target: string, a: string, b: string)
    requires IsTrimmed(target) && '@' !in target && IsTypeWord(a) && IsTypeWord(b)
    ensures ParseTypeFilter(target + " @types=" + a + "," + b) == Filter(target, [Lower(a), Lower(b)])
    ensures ParseTypeFilter(target + " @types=" + "." + a + ",." + b) == Filter(target, [Lower(a), Lower(b)])
    ensures ParseTypeFilter(target + " @types=" + a + ",") == Filter(target, [Lower(a)])
  {
    hide ReadType, ReadTypes, Trim, Lower, ParseTypeFilter, IsTypeWord;
    TypeWord(a);
    TypeWord(b);
    CommaFree(a);
    CommaFree(b);
    TypesInTurn(a, b);
    TypesInTurn(a, "");
    LastType(b);
    TypesInTurn("." + a, "." + b);
    LastType("." + b);
    FilterOf(target, a + "," + b);
    FilterOf(target, "." + a + "," + ("." + b));
    FilterOf(target, a + ",");
    assert target + " @types=" + (a + "," + b) == target + " @types=" + a + "," + b;
    assert target + " @types=" + ("." + a + "," + ("." + b)) == target + " @types=" + "." + a + ",." + b;
    assert target + " @types=" + (a + ",") == target + " @types=" + a + ",";
    assert a + "," + "" == a + ",";
    assert [Lower(a)] + [Lower(b)] == [Lower(a), Lower(b)] && [Lower(a)] + [] == [Lower(a)];
  }

  lemma CommaFree(word: string)
    requires IsTypeWord(word)
    ensures ',' !in word && ',' !in "." + word && word != "" && IsTrimmed(word) && IsTrimmed("." + word) && IsTrimmed(word + ",")
  {
  }

  lemma FilterOf(target: string, list: string)
    requires IsTrimmed(target) && '@' !in target && IsTrimmed(list)
    ensures ParseTypeFilter(target + " @types=" + list) ==
      match ReadTypes(list)
      case None => BadFilter
      case Some(types) => if types == [] then BadFilter else Filter(target, types)
  {
    hide ReadTypes, Trim, FindTypes, HasTypes, IsTrimmed;
    var text := target + " @types=" + list;
    NoMarker(target);
    TypesAreFound(target, list);
    PartsOfFilter(target, list);
  }

  lemma PartsOfFilter(target: string, list: string)
    requires IsTrimmed(target) && IsTrimmed(list)
    ensures var text, at := target + " @types=" + list, |target| + 1;
      && text == target + (" " + TYPES + list) && |TYPES| == 7
      && Trim(text[..at]) == target && Trim(text[at + 7..]) == list && target != "" && list != ""
  {
    hide Trim;
    var text, at := target + " @types=" + list, |target| + 1;
    assert text == target + (" " + TYPES + list);
    assert text[..at] == "" + target + " " && text[at + 7..] == list;
    TrimOfPadded("", target, " ");
    TrimOfTrimmed(list);
  }
}
