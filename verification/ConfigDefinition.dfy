/** The `ConfigDefinition` object: options in definition order, and the file generated from them. */
module ConfigDefinition {
  import opened ConfigIni
  import opened ConfigGenerate
  import opened Ordered

  datatype Option = Option(
    section: string,
    name: string,
    required: bool,
    multiValued: bool,
    deprecated: bool,
    hidden: bool,
    relayOnly: bool,
    clientOnly: bool,
    defaults: seq<string>,
    values: seq<string>,
    comments: seq<string>)

  /** What the constructor's static assertions demand; deprecated options are hidden. */
  predicate OptionOk(o: Option)
  {
    (o.required ==> o.defaults == [] && !o.hidden) && (o.deprecated ==> o.hidden)
  }

  /** Deprecated options and those of the other mode become hidden dummies that take any number of values. */
  function Effective(relay: bool, o: Option): Option
  {
    if o.deprecated || (if relay then o.clientOnly else o.relayOnly) then
      Option(o.section, o.name, false, true, false, true, false, false, [], [], [])
    else o
  }

  type Names = seq<string>

  type Definitions = map<string, map<string, Option>>
  type Comments = map<string, map<string, seq<string>>>

  function CommentsOf(comments: Comments, section: string, name: string): seq<string>
  {
    if section in comments && name in comments[section] then comments[section][name] else []
  }

  /** Comments are added to one option, after those it has. */
  ghost predicate Commented(before: Comments, after: Comments, section: string, name: string, more: seq<string>)
  {
    && CommentsOf(after, section, name) == CommentsOf(before, section, name) + more
    && forall s, n | s != section || n != name :: CommentsOf(after, s, n) == CommentsOf(before, s, n)
  }

  function SettingOf(o: Option, comments: seq<string>): Setting
  {
    Setting(o.name, comments, o.required, o.hidden, o.defaults, o.values)
  }

  /** The settings of one section, in the order of `names`. */
  function SettingsOf(defs: map<string, Option>, comments: Comments, section: string, names: Names): seq<Setting>
    requires forall n | n in names :: n in defs
  {
    if names == [] then []
    else
      [SettingOf(defs[names[0]], CommentsOf(comments, section, names[0]))] +
      SettingsOf(defs, comments, section, names[1..])
  }

  ghost predicate Listed(definitions: Definitions, ordering: map<string, Names>, sections: Names)
  {
    && Distinct(sections)
    && definitions.Keys == ordering.Keys
    && (forall s :: s in sections <==> s in definitions)
    && (forall s | s in definitions :: ListedSection(definitions[s], ordering[s]))
  }

  ghost predicate ListedSection(defs: map<string, Option>, names: Names)
  {
    && Distinct(names)
    && (forall n :: n in names <==> n in defs)
    && (forall n | n in defs :: defs[n].name == n && OptionOk(defs[n]))
  }

  /** The options of a section, none if there is no such section yet. */
  function InSection(definitions: Definitions, section: string): map<string, Option>
  {
    if section in definitions then definitions[section] else map[]
  }

  function OrderIn(ordering: map<string, Names>, section: string): Names
  {
    if section in ordering then ordering[section] else []
  }

  lemma ListedSectionGrows(defs: map<string, Option>, names: Names, o: Option)
    requires ListedSection(defs, names) && o.name !in defs && OptionOk(o)
    ensures ListedSection(defs[o.name := o], names + [o.name])
  {
  }

  lemma ListedGrows(definitions: Definitions, ordering: map<string, Names>, sections: Names, o: Option)
    requires Listed(definitions, ordering, sections) && o.name !in InSection(definitions, o.section) && OptionOk(o)
    ensures
      Listed(
        definitions[o.section := InSection(definitions, o.section)[o.name := o]],
        ordering[o.section := OrderIn(ordering, o.section) + [o.name]],
        if o.section in definitions then sections else sections + [o.section])
  {
    hide ListedSection;
    assert ListedSection(InSection(definitions, o.section), OrderIn(ordering, o.section)) by {
      EmptySectionOrdered();
    }
    ListedSectionGrows(InSection(definitions, o.section), OrderIn(ordering, o.section), o);
  }

  lemma ListedUpdate(definitions: Definitions, ordering: map<string, Names>, sections: Names, section: string,
        name: string, values: seq<string>)
    requires Listed(definitions, ordering, sections) && section in definitions && name in definitions[section]
    ensures
      var o := definitions[section][name].(values := values);
      Listed(definitions[section := definitions[section][name := o]], ordering, sections)
  {
    var defs := definitions[section];
    assert ListedSection(defs, ordering[section]);
    assert ListedSection(defs[name := defs[name].(values := values)], ordering[section]);
    hide ListedSection;
  }

  lemma EmptySectionOrdered()
    ensures ListedSection(map[], [])
  {
  }

  datatype Outcome = Stored | Handled | Unrecognized | Duplicate

  /** What becomes of a value: at most one for an option that takes one, and none for an undeclared option. */
  function OutcomeOf(definitions: Definitions, handlers: set<string>, section: string, name: string): (r: Outcome)
    ensures r == Stored ==> section in definitions && name in definitions[section]
  {
    if section in definitions && name in definitions[section] then
      var o := definitions[section][name];
      if o.multiValued || o.values == [] then Stored else Duplicate
    else if section in handlers then Handled
    else Unrecognized
  }

  /** What becomes of a value, by what is declared. */
  lemma OutcomeExactly(definitions: Definitions, handlers: set<string>, section: string, name: string)
    ensures
      var outcome := OutcomeOf(definitions, handlers, section, name);
      var declared := section in definitions && name in definitions[section];
      && (outcome == Unrecognized <==> !declared && section !in handlers)
      && (outcome == Handled <==> !declared && section in handlers)
      && (outcome == Duplicate <==>
            declared && !definitions[section][name].multiValued && |definitions[section][name].values| > 0)
  {
  }

  /** The pairs a section shows are the values of its options, option by option. */
  lemma {:induction false} ValuesAreShownExactly(defs: map<string, Option>, comments: Comments, section: string,
        names: Names, e: Entry)
    requires forall n | n in names :: n in defs
    ensures
      e in SettingsEntries(SettingsOf(defs, comments, section, names), true) <==>
      exists n :: n in names && defs[n].name == e.key && e.value in defs[n].values
  {
    if names != [] {
      var o := defs[names[0]];
      assert names == [names[0]] + names[1..];
      ValuesAreShownExactly(defs, comments, section, names[1..], e);
      EntriesExactly(o.name, o.values, e);
      var settings := SettingsOf(defs, comments, section, names);
      assert settings[1..] == SettingsOf(defs, comments, section, names[1..]);
    }
  }

  lemma {:induction false} EntriesExactly(name: string, values: seq<string>, e: Entry)
    ensures e in Entries(name, values) <==> e.key == name && e.value in values
  {
    if values != [] {
      assert values == [values[0]] + values[1..];
      EntriesExactly(name, values[1..], e);
    }
  }

  predicate OfOtherMode(relay: bool, o: Option)
  {
    (relay && o.clientOnly) || (!relay && o.relayOnly)
  }

  /**
    An option is kept as it is unless it is deprecated or of the other mode. Then it becomes one that leaves no trace in
    a file generated without values, and takes any value.
  */
  lemma DummyExactly(relay: bool, o: Option, definitions: Definitions, handlers: set<string>)
    requires o.section in definitions && o.name in definitions[o.section]
    requires definitions[o.section][o.name] == Effective(relay, o)
    ensures !o.deprecated && !OfOtherMode(relay, o) ==> Effective(relay, o) == o
    ensures o.deprecated || OfOtherMode(relay, o) ==>
      && SettingLines(SettingOf(Effective(relay, o), []), false) == [] && OptionOk(Effective(relay, o))
      && OutcomeOf(definitions, handlers, o.section, o.name) == Stored
      && Effective(relay, o).section == o.section && Effective(relay, o).name == o.name
  {
  }

  class Definition {
    const relay: bool
    var sectionOrdering: Names
    var definitionOrdering: map<string, Names>
    var definitions: Definitions
    var definitionComments: Comments
    var sectionComments: map<string, seq<string>>
    /** sections with a handler for undeclared options, and its calls, oldest first */
    var handlers: set<string>
    var handled: seq<(string, string, string)>

    ghost predicate Valid()
      reads this
    {
      Listed(definitions, definitionOrdering, sectionOrdering)
    }

    ghost function SectionView(section: string): SectionDef
      requires Valid() && section in definitions
      reads this
    {
      var comments := if section in sectionComments then sectionComments[section] else [];
      var names := definitionOrdering[section];
      SectionDef(section, comments, SettingsOf(definitions[section], definitionComments, section, names))
    }

    /** The sections in definition order. */
    ghost function SectionsView(sections: Names): (view: seq<SectionDef>)
      requires Valid() && forall s | s in sections :: s in definitions
      reads this
      ensures |view| == |sections|
      ensures forall i | 0 <= i < |sections| :: view[i] == SectionView(sections[i])
    {
      if sections == [] then [] else [SectionView(sections[0])] + SectionsView(sections[1..])
    }

    ghost function View(): seq<SectionDef>
      requires Valid()
      reads this
    {
      SectionsView(sectionOrdering)
    }

    constructor (relay: bool)
      ensures Valid() && this.relay == relay && View() == [] && handlers == {} && handled == []
    {
      this.relay := relay;
      sectionOrdering, definitionOrdering, definitions := [], map[], map[];
      definitionComments, sectionComments := map[], map[];
      handlers, handled := {}, [];
    }

    /** Fails, leaving everything as it was, if and only if the option is already defined. */
    method DefineOption(option: Option) returns (added: bool)
      requires Valid() && OptionOk(option)
      modifies this
      ensures Valid()
      ensures added <==> !(option.section in old(definitions) && option.name in old(definitions)[option.section])
      ensures !added ==> unchanged(this)
      ensures sectionComments == old(sectionComments) && handlers == old(handlers) && handled == old(handled)
      ensures
        var o := Effective(relay, option);
        added ==>
          && sectionOrdering == old(sectionOrdering) + (if o.section in old(definitions) then [] else [o.section])
          && definitions == old(definitions)[o.section := InSection(old(definitions), o.section)[o.name := o]]
          && definitionOrdering ==
             old(definitionOrdering)[o.section := OrderIn(old(definitionOrdering), o.section) + [o.name]]
          && Commented(old(definitionComments), definitionComments, o.section, o.name, o.comments)
    {
      hide Listed, CommentsOf;
      var def := Effective(relay, option);
      var section, name := def.section, def.name;
      if section in definitions && name in definitions[section] {
        return false;
      }
      ListedGrows(definitions, definitionOrdering, sectionOrdering, def);
      if section !in definitions {
        sectionOrdering := sectionOrdering + [section];
      }
      definitions := definitions[section := InSection(definitions, section)[name := def]];
      definitionOrdering := definitionOrdering[section := OrderIn(definitionOrdering, section) + [name]];
      if def.comments != [] {
        AddOptionComments(section, name, def.comments);
      }
      return true;
    }

    method AddOptionComments(section: string, name: string, comments: seq<string>)
      modifies this`definitionComments
      ensures Commented(old(definitionComments), definitionComments, section, name, comments)
    {
      var inner := if section in definitionComments then definitionComments[section] else map[];
      var before := if name in inner then inner[name] else [];
      definitionComments := definitionComments[section := inner[name := before + comments]];
    }

    method AddSectionComments(section: string, comments: seq<string>)
      requires Valid()
      modifies this`sectionComments
      ensures Valid()
      ensures sectionComments == old(sectionComments)[section :=
        (if section in old(sectionComments) then old(sectionComments)[section] else []) + comments]
    {
      var before := if section in sectionComments then sectionComments[section] else [];
      sectionComments := sectionComments[section := before + comments];
    }

    /** Fails if the section has a handler already. */
    method AddUndeclaredHandler(section: string) returns (added: bool)
      modifies this`handlers
      ensures added <==> section !in old(handlers)
      ensures handlers == old(handlers) + {section}
    {
      if section in handlers {
        return false;
      }
      handlers := handlers + {section};
      return true;
    }

    /**
      The value is kept for its option. An undeclared option goes to the handler of its section; it is
      refused if there is none, and so is a second value for an option that takes one.
    */
    method AddConfigValue(section: string, name: string, value: string) returns (outcome: Outcome)
      requires Valid()
      modifies this`definitions, this`handled
      ensures Valid() && outcome == OutcomeOf(old(definitions), handlers, section, name)
      ensures outcome != Stored ==> definitions == old(definitions)
      ensures outcome == Stored ==>
        var o := old(definitions)[section][name];
        definitions == old(definitions)[section := old(definitions)[section][name := o.(values := o.values + [value])]]
      ensures handled == old(handled) + if outcome == Handled then [(section, name, value)] else []
    {
      hide Listed;
      if section !in definitions || name !in definitions[section] {
        if section !in handlers {
          return Unrecognized;
        }
        handled := handled + [(section, name, value)];
        return Handled;
      }
      var o := definitions[section][name];
      if !o.multiValued && |o.values| > 0 {
        return Duplicate;
      }
      ListedUpdate(definitions, definitionOrdering, sectionOrdering, section, name, o.values + [value]);
      definitions := definitions[section := definitions[section][name := o.(values := o.values + [value])]];
      return Stored;
    }

    method WriteSettings(section: string, useValues: bool) returns (text: string)
      requires Valid() && section in definitions
      ensures text == Unlines(SettingsLines(SectionView(section).settings, useValues))
    {
      hide SettingsLines, SettingLines, Unlines, SettingsOf;
      text := "";
      var names := definitionOrdering[section];
      ghost var all := SectionView(section).settings;
      SettingsOfLength(definitions[section], definitionComments, section, names);
      NoText();
      assert all[0..] == all;
      var n := 0;
      while n < |names|
        invariant 0 <= n <= |names|
        invariant text + Unlines(SettingsLines(all[n..], useValues)) == Unlines(SettingsLines(all, useValues))
      {
        assert names[n] in names;
        var setting := SettingOf(definitions[section][names[n]], CommentsOf(definitionComments, section, names[n]));
        SettingsOfAt(definitions[section], definitionComments, section, names, n);
        var chunk := WriteSetting(setting, useValues);
        SettingsStep(all, n, useValues, text);
        text := text + chunk;
        n := n + 1;
      }
      NothingLeft(all, n, useValues, text);
    }

    lemma ViewAt(n: nat)
      requires Valid() && n < |sectionOrdering|
      ensures |View()| == |sectionOrdering| && sectionOrdering[n] in definitions
      ensures View()[n] == SectionView(sectionOrdering[n])
    {
      assert sectionOrdering[n] in sectionOrdering;
    }

    lemma ViewDistinct()
      requires Valid()
      ensures DistinctNames(View())
    {
    }

    /** One section of the file, nothing if none of its options prints anything. */
    method WriteSection(section: string, useValues: bool, visited: bool) returns (text: string)
      requires Valid() && section in definitions
      ensures text == Unlines(SectionLines(SectionView(section), useValues, visited))
    {
      hide SectionLines, SettingsLines, CommentLines, Unlines, Listed, SettingsOf;
      SectionText(SectionView(section), useValues, visited);
      var body := WriteSettings(section, useValues);
      if body == "" {
        return "";
      }
      var comments := WriteComments(if section in sectionComments then sectionComments[section] else []);
      return (if visited then "\n\n" else "") + ("[" + section + "]\n") + comments + "\n" + body;
    }

    method WriteFile(useValues: bool) returns (ini: string)
      requires Valid()
      ensures ini == Unlines(FileLines(View(), useValues, false))
    {
      ghost var view := View();
      assert |view| == |sectionOrdering| && view[0..] == view;
      hide FileLines, SectionLines, Unlines, Listed, SectionsView, View;
      ini := "";
      var sectionsVisited := 0;
      var n := 0;
      NoText();
      while n < |sectionOrdering|
        invariant 0 <= n <= |sectionOrdering|
        invariant
          ini + Unlines(FileLines(view[n..], useValues, sectionsVisited > 0)) ==
          Unlines(FileLines(view, useValues, false))
      {
        ViewAt(n);
        FileStep(view, n, useValues, sectionsVisited > 0, ini);
        var text := WriteSection(sectionOrdering[n], useValues, sectionsVisited > 0);
        if text != "" {
          sectionsVisited := sectionsVisited + 1;
        }
        ini := ini + text;
        n := n + 1;
      }
      NoSections(view, n, useValues, sectionsVisited > 0, ini);
    }

    /** Parsing the generated file gives back the values that were set, and nothing else. */
    method GenerateIniConfig(useValues: bool) returns (ini: string)
      requires Valid()
      ensures ini == Unlines(FileLines(View(), useValues, false))
      ensures
        var p := Parse(ini, map[]);
        DefsOk(View(), useValues) ==> p.Reading? && Holds(p.config, View(), useValues)
    {
      hide FileLines, Unlines, Holds, Parse, DefsOk, Listed, View;
      ini := WriteFile(useValues);
      if DefsOk(View(), useValues) {
        ViewDistinct();
        GeneratedParses(View(), useValues);
      }
    }
  }

  lemma {:induction false} SettingsOfLength(defs: map<string, Option>, comments: Comments, section: string,
        names: Names)
    requires forall n | n in names :: n in defs
    ensures |SettingsOf(defs, comments, section, names)| == |names|
  {
    if names != [] {
      SettingsOfLength(defs, comments, section, names[1..]);
    }
  }

  lemma {:induction false} SettingsOfAt(defs: map<string, Option>, comments: Comments, section: string, names: Names,
        i: nat)
    requires i < |names| && forall n | n in names :: n in defs
    ensures |SettingsOf(defs, comments, section, names)| == |names|
    ensures
      && names[i] in defs
      && SettingsOf(defs, comments, section, names)[i] ==
         SettingOf(defs[names[i]], CommentsOf(comments, section, names[i]))
  {
    SettingsOfLength(defs, comments, section, names);
    assert names[i] in names;
    if i > 0 {
      SettingsOfAt(defs, comments, section, names[1..], i - 1);
    }
  }

  lemma NothingLeft(settings: seq<Setting>, n: nat, useValues: bool, text: string)
    requires n == |settings|
    ensures text + Unlines(SettingsLines(settings[n..], useValues)) == text
  {
  }

  lemma NoSections(defs: seq<SectionDef>, n: nat, useValues: bool, visited: bool, text: string)
    requires n == |defs|
    ensures text + Unlines(FileLines(defs[n..], useValues, visited)) == text
  {
  }
}
