/**
  The configuration files `ConfigDefinition::generateINIConfig` prints, as lists of lines, and what
  parsing them gives.
*/
module ConfigGenerate {
  import opened ConfigIni

  /** A defined option: its comments, flags, defaults and the values found for it. */
  datatype Setting = Setting(
    name: string,
    comments: seq<string>,
    required: bool,
    hidden: bool,
    defaults: seq<string>,
    values: seq<string>)

  datatype SectionDef = SectionDef(name: string, comments: seq<string>, settings: seq<Setting>)

  /** Each text of the list with something put before it. */
  function Prefixed(prefix: string, texts: seq<string>): seq<string>
  {
    if texts == [] then [] else [prefix + texts[0]] + Prefixed(prefix, texts[1..])
  }

  function CommentLines(comments: seq<string>): seq<string>
  {
    Prefixed("# ", comments)
  }

  function ValueLines(name: string, values: seq<string>): seq<string>
  {
    Prefixed(name + "=", values)
  }

  /** Without a value: the defaults, commented out unless the option is required, or just the name. */
  function DefaultLines(s: Setting): seq<string>
  {
    if s.defaults != [] then Prefixed((if s.required then "" else "#") + s.name + "=", s.defaults)
    else ["#" + s.name + "="]
  }

  predicate ShowsValues(s: Setting, useValues: bool)
  {
    useValues && s.values != []
  }

  function SettingLines(s: Setting, useValues: bool): seq<string>
  {
    var comments := CommentLines(s.comments);
    if ShowsValues(s, useValues) then [""] + comments + ValueLines(s.name, s.values)
    else if !s.hidden then [""] + comments + DefaultLines(s)
    else if s.comments != [] then [""] + comments
    else []
  }

  function SettingsLines(settings: seq<Setting>, useValues: bool): seq<string>
  {
    if settings == [] then [] else SettingLines(settings[0], useValues) + SettingsLines(settings[1..], useValues)
  }

  function SectionLines(d: SectionDef, useValues: bool, visited: bool): seq<string>
  {
    var body := SettingsLines(d.settings, useValues);
    if body == [] then []
    else (if visited then ["", ""] else []) + ["[" + d.name + "]"] + CommentLines(d.comments) + [""] + body
  }

  /** `visited` says whether an earlier section was printed. */
  function FileLines(defs: seq<SectionDef>, useValues: bool, visited: bool): seq<string>
    decreases |defs|
  {
    if defs == [] then []
    else
      var lines := SectionLines(defs[0], useValues, visited);
      lines + FileLines(defs[1..], useValues, visited || lines != [])
  }

  // ---------------------------------------------------------- what the file should say

  function Entries(name: string, values: seq<string>): seq<Entry>
  {
    if values == [] then [] else [Entry(name, values[0])] + Entries(name, values[1..])
  }

  function SettingsEntries(settings: seq<Setting>, useValues: bool): seq<Entry>
  {
    if settings == [] then []
    else
      (if useValues then Entries(settings[0].name, settings[0].values) else []) +
      SettingsEntries(settings[1..], useValues)
  }

  function ValueBlocks(defs: seq<SectionDef>, useValues: bool): seq<Block>
  {
    if defs == [] then []
    else [Block(defs[0].name, SettingsEntries(defs[0].settings, useValues))] + ValueBlocks(defs[1..], useValues)
  }

  // ------------------------------------------------------------- lines that are really several

  /** What is between the line breaks of a text. */
  function Pieces(s: string): seq<string>
  {
    var n := LineLength(s);
    [s[..n]] + if n == |s| then [] else Pieces(s[n + 1..])
  }

  function AllPieces(lines: seq<string>): seq<string>
  {
    if lines == [] then [] else Pieces(lines[0]) + AllPieces(lines[1..])
  }

  lemma {:induction false} LinesOfPieces(l: string, rest: string)
    ensures Lines(l + "\n" + rest) == Pieces(l) + Lines(rest)
    decreases |l|
  {
    var data, n := l + "\n" + rest, LineLength(l);
    LineLengthIs(l);
    assert data[..n] == l[..n];
    if n == |l| {
      assert data[n + 1..] == rest;
      LineEndsAt(data, n);
    } else {
      assert data[n] == l[n];
      LineEndsAt(data, n);
      assert data[n + 1..] == l[n + 1..] + "\n" + rest;
      LinesOfPieces(l[n + 1..], rest);
    }
  }

  /** Reading a text gives the pieces of the lines it was made of. */
  lemma {:induction false} LinesAreAllPieces(lines: seq<string>)
    ensures Lines(Unlines(lines)) == AllPieces(lines)
  {
    if lines != [] {
      LinesOfPieces(lines[0], Unlines(lines[1..]));
      LinesAreAllPieces(lines[1..]);
    }
  }

  lemma {:induction false} AllPiecesAppend(a: seq<string>, b: seq<string>)
    ensures AllPieces(a + b) == AllPieces(a) + AllPieces(b)
  {
    if a == [] {
      assert a + b == b;
    } else {
      assert (a + b)[1..] == a[1..] + b;
      AllPiecesAppend(a[1..], b);
    }
  }

  lemma {:induction false} AllPiecesOneLine(lines: seq<string>)
    requires AllOneLine(lines)
    ensures AllPieces(lines) == lines
  {
    if lines != [] {
      assert lines[0] in lines;
      assert lines[0][..|lines[0]|] == lines[0];
      LineEndsAt(lines[0], |lines[0]|);
      AllPiecesOneLine(lines[1..]);
    }
  }

  ghost function FeedPieces(p: Progress, lines: seq<string>): Progress
  {
    FeedAll(p, AllPieces(lines))
  }

  lemma FeedPiecesAppend(p: Progress, a: seq<string>, b: seq<string>)
    ensures FeedPieces(p, a + b) == FeedPieces(FeedPieces(p, a), b)
  {
    AllPiecesAppend(a, b);
    FeedAllAppend(p, AllPieces(a), AllPieces(b));
  }

  // ------------------------------------------------------------- definitions that print well

  ghost predicate AllSkipped(lines: seq<string>)
  {
    forall l | l in lines :: Classify(l) == Skip
  }

  /** Nothing between the line breaks of these lines is more than a comment. */
  ghost predicate Hushed(lines: seq<string>)
  {
    AllSkipped(AllPieces(lines))
  }

  /** Comments and defaults are hushed. */
  ghost predicate SettingFramed(s: Setting, useValues: bool)
  {
    Hushed(CommentLines(s.comments)) && (ShowsValues(s, useValues) || s.hidden || Hushed(DefaultLines(s)))
  }

  /** And the values shown are ones a line can carry. */
  ghost predicate SettingOk(s: Setting, useValues: bool)
  {
    SettingFramed(s, useValues) && (ShowsValues(s, useValues) ==> ValuesOk(s))
  }

  ghost predicate ValuesOk(s: Setting)
  {
    OneLine(s.name) && AllOneLine(s.values) && forall v | v in s.values :: EntryOk(Entry(s.name, v))
  }

  ghost predicate SectionOk(d: SectionDef, useValues: bool)
  {
    OneLine(d.name) && Hushed(CommentLines(d.comments)) && forall s | s in d.settings :: SettingOk(s, useValues)
  }

  ghost predicate DefsOk(defs: seq<SectionDef>, useValues: bool)
  {
    forall d | d in defs :: SectionOk(d, useValues)
  }

  /** All that is printed around the values is in order. */
  ghost predicate Framed(defs: seq<SectionDef>, useValues: bool)
  {
    forall d | d in defs ::
      && OneLine(d.name) && Hushed(CommentLines(d.comments))
      && forall s | s in d.settings :: SettingFramed(s, useValues)
  }

  ghost predicate AllValuesOk(defs: seq<SectionDef>, useValues: bool)
  {
    forall d, s | d in defs && s in d.settings && ShowsValues(s, useValues) :: ValuesOk(s)
  }

  lemma {:induction false} PrefixedComments(prefix: string, texts: seq<string>)
    requires prefix != [] && prefix[0] == '#'
    ensures AllSkipped(Prefixed(prefix, texts))
  {
    if texts != [] {
      CommentIsSkipped((prefix + texts[0])[1..]);
      assert "#" + (prefix + texts[0])[1..] == prefix + texts[0];
      PrefixedComments(prefix, texts[1..]);
    }
  }

  lemma {:induction false} PrefixedOneLine(prefix: string, texts: seq<string>)
    requires OneLine(prefix) && AllOneLine(texts)
    ensures AllOneLine(Prefixed(prefix, texts))
  {
    if texts != [] {
      assert texts[0] in texts;
      assert forall c | c in prefix + texts[0] :: c in prefix || c in texts[0];
      PrefixedOneLine(prefix, texts[1..]);
    }
  }

  /** Comments on one line are hushed. */
  lemma PlainCommentsAreHushed(comments: seq<string>)
    requires AllOneLine(comments)
    ensures Hushed(CommentLines(comments))
  {
    hide Classify;
    PrefixedOneLine("# ", comments);
    PrefixedComments("# ", comments);
    AllPiecesOneLine(CommentLines(comments));
  }

  /** Names and defaults on one line are hushed, unless the option is required; those have no defaults. */
  lemma PlainDefaultsAreHushed(s: Setting)
    requires OneLine(s.name) && AllOneLine(s.defaults) && (s.required ==> s.defaults == [])
    ensures Hushed(DefaultLines(s))
  {
    hide Classify, Prefixed;
    var prefix := "#" + s.name + "=";
    assert forall c | c in prefix :: c in s.name || c == '=' || c == '#';
    if s.defaults == [] {
      CommentIsSkipped(s.name + "=");
      assert "#" + (s.name + "=") == prefix;
    } else {
      PrefixedOneLine(prefix, s.defaults);
      PrefixedComments(prefix, s.defaults);
    }
    AllPiecesOneLine(DefaultLines(s));
  }

  // ------------------------------------------------------------------ reading it back

  lemma {:induction false} FeedSkipped(p: Progress, lines: seq<string>)
    requires AllSkipped(lines)
    ensures FeedAll(p, lines) == p
  {
    if lines != [] {
      FeedSkipped(p, lines[1..]);
    }
  }

  lemma FeedHushed(p: Progress, lines: seq<string>)
    requires Hushed(lines)
    ensures FeedPieces(p, lines) == p
  {
    FeedSkipped(p, AllPieces(lines));
  }

  lemma FeedBlank(p: Progress)
    ensures FeedPieces(p, [""]) == p && FeedPieces(p, ["", ""]) == p && FeedPieces(p, []) == p
  {
    BlankIsSkipped();
    AllPiecesOneLine([""]);
    AllPiecesOneLine(["", ""]);
    FeedSkipped(p, [""]);
    FeedSkipped(p, ["", ""]);
  }

  lemma {:induction false} ValueLinesAreEntryLines(name: string, values: seq<string>)
    ensures ValueLines(name, values) == EntryLines(Entries(name, values))
  {
    if values != [] {
      ValueLinesAreEntryLines(name, values[1..]);
      assert EntryLine(Entry(name, values[0])) == name + "=" + values[0];
      assert Entries(name, values)[1..] == Entries(name, values[1..]);
    }
  }

  lemma {:induction false} EntriesAreOk(name: string, values: seq<string>)
    requires forall v | v in values :: EntryOk(Entry(name, v))
    ensures EntriesOk(Entries(name, values))
  {
    if values != [] {
      assert values[0] in values;
      EntriesAreOk(name, values[1..]);
    }
  }

  lemma FeedValues(p: Progress, s: Setting)
    requires p.Reading? && ValuesOk(s)
    ensures
      FeedPieces(p, ValueLines(s.name, s.values)) ==
      p.(config := InsertAll(p.config, p.sect, Entries(s.name, s.values)))
  {
    hide EntryOk, FeedAll;
    assert forall c | c in s.name + "=" :: c in s.name || c == '=';
    PrefixedOneLine(s.name + "=", s.values);
    AllPiecesOneLine(ValueLines(s.name, s.values));
    ValueLinesAreEntryLines(s.name, s.values);
    EntriesAreOk(s.name, s.values);
    FeedEntries(p.sect, p.config, Entries(s.name, s.values));
  }

  lemma FeedSetting(p: Progress, s: Setting, useValues: bool)
    requires p.Reading? && SettingOk(s, useValues)
    ensures
      FeedPieces(p, SettingLines(s, useValues)) ==
      p.(config := InsertAll(p.config, p.sect, if useValues then Entries(s.name, s.values) else []))
  {
    hide ValuesOk, Hushed, DefaultLines, CommentLines, ValueLines, FeedPieces;
    var comments := CommentLines(s.comments);
    FeedBlank(p);
    FeedHushed(p, comments);
    FeedPiecesAppend(p, [""], comments);
    if ShowsValues(s, useValues) {
      FeedPiecesAppend(p, [""] + comments, ValueLines(s.name, s.values));
      FeedValues(p, s);
    } else if !s.hidden {
      FeedPiecesAppend(p, [""] + comments, DefaultLines(s));
      FeedHushed(p, DefaultLines(s));
    }
  }

  lemma {:induction false} InsertAllAppend(config: Config, sect: string, a: seq<Entry>, b: seq<Entry>)
    ensures InsertAll(config, sect, a + b) == InsertAll(InsertAll(config, sect, a), sect, b)
    decreases |a|
  {
    if a == [] {
      assert a + b == b;
    } else {
      assert (a + b)[1..] == a[1..] + b;
      InsertAllAppend(Insert(config, sect, a[0]), sect, a[1..], b);
    }
  }

  lemma {:induction false} FeedSettings(p: Progress, settings: seq<Setting>, useValues: bool)
    requires p.Reading? && forall s | s in settings :: SettingOk(s, useValues)
    ensures
      FeedPieces(p, SettingsLines(settings, useValues)) ==
      p.(config := InsertAll(p.config, p.sect, SettingsEntries(settings, useValues)))
    decreases |settings|
  {
    hide SettingOk, SettingLines, FeedPieces;
    if settings != [] {
      var s := settings[0];
      assert s in settings;
      var entries := if useValues then Entries(s.name, s.values) else [];
      FeedSetting(p, s, useValues);
      var q := p.(config := InsertAll(p.config, p.sect, entries));
      FeedSettings(q, settings[1..], useValues);
      FeedPiecesAppend(p, SettingLines(s, useValues), SettingsLines(settings[1..], useValues));
      InsertAllAppend(p.config, p.sect, entries, SettingsEntries(settings[1..], useValues));
    } else {
      FeedBlank(p);
    }
  }

  lemma FeedHeader(p: Progress, name: string)
    requires p.Reading? && OneLine(name)
    ensures FeedPieces(p, ["[" + name + "]"]) == p.(sect := name)
  {
    hide Classify;
    var header := "[" + name + "]";
    HeaderRoundTrip(name);
    assert forall c | c in header :: c in name || c == '[' || c == ']';
    AllPiecesOneLine([header]);
    assert [header][1..] == [];
    assert FeedAll(p, [header]) == FeedAll(Feed(p, header), []);
  }

  function Heading(d: SectionDef, visited: bool): seq<string>
  {
    (if visited then ["", ""] else []) + ["[" + d.name + "]"] + CommentLines(d.comments) + [""]
  }

  lemma FeedHeading(p: Progress, d: SectionDef, visited: bool)
    requires p.Reading? && OneLine(d.name) && Hushed(CommentLines(d.comments))
    ensures FeedPieces(p, Heading(d, visited)) == p.(sect := d.name)
  {
    hide FeedPieces, CommentLines, Hushed;
    var gap, header, comments := if visited then ["", ""] else [], ["[" + d.name + "]"], CommentLines(d.comments);
    var q := p.(sect := d.name);
    FeedBlank(p);
    FeedHeader(p, d.name);
    FeedHushed(q, comments);
    FeedBlank(q);
    FeedPiecesAppend(p, gap, header);
    FeedPiecesAppend(p, gap + header, comments);
    FeedPiecesAppend(p, gap + header + comments, [""]);
  }

  /** A section that prints nothing has nothing to say. */
  lemma {:induction false} NoLinesNoEntries(settings: seq<Setting>, useValues: bool)
    requires SettingsLines(settings, useValues) == []
    ensures SettingsEntries(settings, useValues) == []
  {
    if settings != [] {
      NoLinesNoEntries(settings[1..], useValues);
    }
  }

  lemma FeedSection(p: Progress, d: SectionDef, useValues: bool, visited: bool)
    requires p.Reading? && SectionOk(d, useValues)
    ensures
      var q := FeedPieces(p, SectionLines(d, useValues, visited));
      q.Reading? && q.config == InsertAll(p.config, d.name, SettingsEntries(d.settings, useValues))
  {
    hide SettingOk, FeedPieces, CommentLines, Hushed;
    var body := SettingsLines(d.settings, useValues);
    if body == [] {
      NoLinesNoEntries(d.settings, useValues);
      FeedBlank(p);
    } else {
      FeedHeading(p, d, visited);
      FeedSettings(p.(sect := d.name), d.settings, useValues);
      FeedPiecesAppend(p, Heading(d, visited), body);
    }
  }

  lemma {:induction false} FeedFile(p: Progress, defs: seq<SectionDef>, useValues: bool, visited: bool)
    requires p.Reading? && DefsOk(defs, useValues)
    ensures
      var q := FeedPieces(p, FileLines(defs, useValues, visited));
      q.Reading? && q.config == InsertDoc(p.config, ValueBlocks(defs, useValues))
    decreases |defs|
  {
    hide SectionOk, FeedPieces, SectionLines;
    if defs == [] {
      FeedBlank(p);
    } else {
      var d := defs[0];
      assert d in defs;
      var lines := SectionLines(d, useValues, visited);
      FeedSection(p, d, useValues, visited);
      var q := FeedPieces(p, lines);
      FeedFile(q, defs[1..], useValues, visited || lines != []);
      FeedPiecesAppend(p, lines, FileLines(defs[1..], useValues, visited || lines != []));
      var blocks := ValueBlocks(defs, useValues);
      assert blocks[1..] == ValueBlocks(defs[1..], useValues);
    }
  }

  // ------------------------------------------------------------------ the main results

  predicate DistinctNames(defs: seq<SectionDef>)
  {
    forall i, j | 0 <= i < j < |defs| :: defs[i].name != defs[j].name
  }

  lemma {:induction false} TotalElsewhere(defs: seq<SectionDef>, useValues: bool, s: string)
    requires forall d | d in defs :: d.name != s
    ensures Total(ValueBlocks(defs, useValues), s) == multiset{}
  {
    if defs != [] {
      assert defs[0] in defs;
      assert ValueBlocks(defs, useValues)[1..] == ValueBlocks(defs[1..], useValues);
      TotalElsewhere(defs[1..], useValues, s);
    }
  }

  lemma {:induction false} TotalOfSection(defs: seq<SectionDef>, useValues: bool, i: nat)
    requires DistinctNames(defs) && i < |defs|
    ensures Total(ValueBlocks(defs, useValues), defs[i].name) == multiset(SettingsEntries(defs[i].settings, useValues))
  {
    assert ValueBlocks(defs, useValues)[1..] == ValueBlocks(defs[1..], useValues);
    if i == 0 {
      TotalElsewhere(defs[1..], useValues, defs[0].name);
    } else {
      TotalOfSection(defs[1..], useValues, i - 1);
    }
  }

  /** The parsed file holds, for each section, exactly these pairs, and no other section. */
  ghost predicate Holds(config: Config, defs: seq<SectionDef>, useValues: bool)
  {
    && (forall i | 0 <= i < |defs| ::
          Of(config, defs[i].name) == multiset(SettingsEntries(defs[i].settings, useValues)))
    && (forall s | s in config :: config[s] != multiset{} && exists d :: d in defs && d.name == s)
  }

  /**
    Parsing a generated file gives back exactly the values that were set, section by section: every
    comment, default and placeholder line adds nothing.
  */
  lemma GeneratedParses(defs: seq<SectionDef>, useValues: bool)
    requires DefsOk(defs, useValues) && DistinctNames(defs)
    ensures
      var p := Parse(Unlines(FileLines(defs, useValues, false)), map[]);
      p.Reading? && Holds(p.config, defs, useValues)
  {
    hide DefsOk, FileLines, DistinctNames, FeedAll;
    var text := Unlines(FileLines(defs, useValues, false));
    LinesAreAllPieces(FileLines(defs, useValues, false));
    FeedFile(Reading("", map[]), defs, useValues, false);
    var config := Parse(text, map[]).config;
    forall i | 0 <= i < |defs|
      ensures Of(config, defs[i].name) == multiset(SettingsEntries(defs[i].settings, useValues))
    {
      InsertDocOf(map[], ValueBlocks(defs, useValues), defs[i].name);
      TotalOfSection(defs, useValues, i);
    }
    forall s | s in config
      ensures config[s] != multiset{} && exists d :: d in defs && d.name == s
    {
      InsertDocOf(map[], ValueBlocks(defs, useValues), s);
      if !exists d :: d in defs && d.name == s {
        TotalElsewhere(defs, useValues, s);
      }
    }
  }

  lemma {:induction false} EntriesHas(name: string, values: seq<string>, v: string)
    requires v in values
    ensures Entry(name, v) in Entries(name, values)
  {
    if v != values[0] {
      EntriesHas(name, values[1..], v);
    }
  }

  lemma {:induction false} SettingsEntriesHas(settings: seq<Setting>, s: Setting, v: string)
    requires s in settings && v in s.values
    ensures Entry(s.name, v) in SettingsEntries(settings, true)
  {
    if s == settings[0] {
      EntriesHas(s.name, s.values, v);
    } else {
      SettingsEntriesHas(settings[1..], s, v);
    }
  }

  /** Values that come back from a file are ones a line can carry. */
  lemma HeldValuesAreOk(config: Config, defs: seq<SectionDef>, d: SectionDef, s: Setting)
    requires ConfigOk(config) && Holds(config, defs, true) && d in defs && s in d.settings && s.values != []
    ensures ValuesOk(s)
  {
    hide EntryOk, OneLine;
    forall v | v in s.values
      ensures EntryOk(Entry(s.name, v)) && OneLine(s.name) && OneLine(v)
    {
      SettingsEntriesHas(d.settings, s, v);
      assert Entry(s.name, v) in multiset(SettingsEntries(d.settings, true));
      var i :| 0 <= i < |defs| && defs[i] == d;
      assert Entry(s.name, v) in Of(config, defs[i].name);
    }
    assert s.values[0] in s.values;
  }

  /**
    With comments and defaults in order, a generated file gives back exactly the values that were set if
    and only if each is one a line can carry.
  */
  lemma GeneratedParsesExactly(defs: seq<SectionDef>, useValues: bool)
    requires Framed(defs, useValues) && DistinctNames(defs)
    ensures
      var p := Parse(Unlines(FileLines(defs, useValues, false)), map[]);
      p.Reading? && Holds(p.config, defs, useValues) <==> AllValuesOk(defs, useValues)
  {
    hide FileLines, Parse, Holds, Hushed, DistinctNames, ValuesOk, ConfigOk, OneLine;
    var text := Unlines(FileLines(defs, useValues, false));
    if AllValuesOk(defs, useValues) {
      GeneratedParses(defs, useValues);
    }
    ParsedIsOk(text);
    var config := Parse(text, map[]).config;
    if Holds(config, defs, useValues) {
      forall d, s | d in defs && s in d.settings && ShowsValues(s, useValues)
        ensures ValuesOk(s)
      {
        HeldValuesAreOk(config, defs, d, s);
      }
    }
  }

  /** A line that changes no value: a comment, a blank or a header. */
  predicate Quiet(line: string)
  {
    Classify(line).Skip? || Classify(line).Header?
  }

  /** A text says nothing if and only if each of its lines is quiet. */
  lemma {:induction false} SaysNothingExactly(sect: string, lines: seq<string>)
    ensures
      var p := FeedAll(Reading(sect, map[]), lines);
      p.Reading? && p.config == map[] <==> forall l | l in lines :: Quiet(l)
    decreases |lines|
  {
    if lines != [] {
      hide Classify;
      var p := Feed(Reading(sect, map[]), lines[0]);
      assert lines[0] in lines && forall l | l in lines :: l == lines[0] || l in lines[1..];
      assert forall l | l in lines[1..] :: l in lines;
      if Quiet(lines[0]) {
        SaysNothingExactly(p.sect, lines[1..]);
      } else {
        SomethingStays(p, lines[1..]);
      }
    }
  }

  /** What was read, or that reading failed, stays. */
  lemma {:induction false} SomethingStays(p: Progress, lines: seq<string>)
    requires p.Failed? || p.config != map[]
    ensures var q := FeedAll(p, lines); q.Failed? || q.config != map[]
    decreases |lines|
  {
    if lines != [] {
      hide Classify;
      var q := Feed(p, lines[0]);
      assert p.Reading? && q.Reading? && q.config != p.config ==> p.sect in q.config;
      SomethingStays(q, lines[1..]);
    }
  }

  ghost predicate AllQuiet(lines: seq<string>)
  {
    forall l | l in AllPieces(lines) :: Quiet(l)
  }

  /** A text made of these lines is read as an empty configuration if and only if all their pieces are quiet. */
  lemma PrintedSaysNothingExactly(lines: seq<string>)
    ensures ParsesTo(Unlines(lines), map[]) <==> AllQuiet(lines)
  {
    hide FeedAll, Quiet;
    LinesAreAllPieces(lines);
    SaysNothingExactly("", AllPieces(lines));
  }

  /** Nothing between the line breaks of a text is a pair or malformed. */
  ghost predicate QuietText(text: string)
  {
    forall l | l in Pieces(text) :: Quiet(l)
  }

  ghost predicate QuietTexts(prefix: string, texts: seq<string>)
  {
    forall t | t in texts :: QuietText(prefix + t)
  }

  /** Only a hidden option without comments leaves no trace in a file without values. */
  predicate Printed(s: Setting)
  {
    !s.hidden || s.comments != []
  }

  ghost predicate QuietDefaults(s: Setting)
  {
    if s.defaults == [] then QuietText("#" + s.name + "=")
    else QuietTexts((if s.required then "" else "#") + s.name + "=", s.defaults)
  }

  ghost predicate QuietSetting(s: Setting)
  {
    QuietTexts("# ", s.comments) && (s.hidden || QuietDefaults(s))
  }

  /** The section's own header and comments count only if one of its options is printed. */
  ghost predicate QuietSection(d: SectionDef)
  {
    (exists s | s in d.settings :: Printed(s)) ==>
      QuietText("[" + d.name + "]") && QuietTexts("# ", d.comments) && forall s | s in d.settings :: QuietSetting(s)
  }

  lemma AllQuietNone()
    ensures AllQuiet([])
  {
  }

  lemma AllQuietAppend(a: seq<string>, b: seq<string>)
    ensures AllQuiet(a + b) <==> AllQuiet(a) && AllQuiet(b)
  {
    hide Quiet;
    AllPiecesAppend(a, b);
  }

  lemma AllQuietOne(text: string)
    ensures AllQuiet([text]) <==> QuietText(text)
  {
    hide Quiet;
    assert AllPieces([text]) == Pieces(text) + [];
  }

  lemma BlankIsQuiet()
    ensures AllQuiet([""]) && AllQuiet(["", ""])
  {
    BlankIsSkipped();
    AllPiecesOneLine([""]);
    AllPiecesOneLine(["", ""]);
  }

  lemma {:induction false} AllQuietPrefixed(prefix: string, texts: seq<string>)
    ensures AllQuiet(Prefixed(prefix, texts)) <==> QuietTexts(prefix, texts)
  {
    hide QuietText, Quiet;
    if texts != [] {
      AllQuietPrefixed(prefix, texts[1..]);
      AllQuietOne(prefix + texts[0]);
      AllQuietAppend([prefix + texts[0]], Prefixed(prefix, texts[1..]));
      assert forall t | t in texts :: t == texts[0] || t in texts[1..];
    }
  }

  lemma CommentsQuietExactly(comments: seq<string>)
    ensures AllQuiet(CommentLines(comments)) <==> QuietTexts("# ", comments)
  {
    AllQuietPrefixed("# ", comments);
  }

  lemma DefaultsQuietExactly(s: Setting)
    ensures AllQuiet(DefaultLines(s)) <==> QuietDefaults(s)
  {
    hide AllQuiet, QuietText, QuietTexts;
    if s.defaults == [] {
      AllQuietOne("#" + s.name + "=");
    } else {
      AllQuietPrefixed((if s.required then "" else "#") + s.name + "=", s.defaults);
    }
  }

  lemma SettingQuietExactly(s: Setting)
    ensures SettingLines(s, false) != [] <==> Printed(s)
    ensures AllQuiet(SettingLines(s, false)) <==> QuietSetting(s)
  {
    hide AllQuiet, QuietTexts, QuietDefaults, DefaultLines;
    BlankIsQuiet();
    CommentsQuietExactly(s.comments);
    DefaultsQuietExactly(s);
    AllQuietAppend([""], CommentLines(s.comments));
    AllQuietAppend([""] + CommentLines(s.comments), DefaultLines(s));
    AllQuietNone();
  }

  lemma {:induction false} SettingsQuietExactly(settings: seq<Setting>)
    ensures SettingsLines(settings, false) != [] <==> exists s | s in settings :: Printed(s)
    ensures AllQuiet(SettingsLines(settings, false)) <==> forall s | s in settings :: QuietSetting(s)
  {
    hide AllQuiet, QuietSetting, SettingLines, Printed;
    if settings == [] {
      AllQuietNone();
    } else {
      var s, rest := settings[0], settings[1..];
      SettingQuietExactly(s);
      SettingsQuietExactly(rest);
      AllQuietAppend(SettingLines(s, false), SettingsLines(rest, false));
      assert s in settings && forall t | t in settings :: t == s || t in rest;
      assert forall t | t in rest :: t in settings;
    }
  }

  lemma SectionQuietExactly(d: SectionDef, visited: bool)
    ensures AllQuiet(SectionLines(d, false, visited)) <==> QuietSection(d)
  {
    hide AllQuiet, QuietText, QuietTexts, QuietSetting, Printed, SettingsLines, CommentLines;
    var gap, header, comments := if visited then ["", ""] else [], ["[" + d.name + "]"], CommentLines(d.comments);
    var body := SettingsLines(d.settings, false);
    SettingsQuietExactly(d.settings);
    AllQuietNone();
    BlankIsQuiet();
    AllQuietOne("[" + d.name + "]");
    CommentsQuietExactly(d.comments);
    AllQuietAppend(gap, header);
    AllQuietAppend(gap + header, comments);
    AllQuietAppend(gap + header + comments, [""]);
    AllQuietAppend(gap + header + comments + [""], body);
  }

  lemma {:induction false} FileQuietExactly(defs: seq<SectionDef>, visited: bool)
    ensures AllQuiet(FileLines(defs, false, visited)) <==> forall d | d in defs :: QuietSection(d)
    decreases |defs|
  {
    hide AllQuiet, QuietSection, SectionLines;
    if defs == [] {
      AllQuietNone();
    } else {
      var d, rest, lines := defs[0], defs[1..], SectionLines(defs[0], false, visited);
      SectionQuietExactly(d, visited);
      FileQuietExactly(rest, visited || lines != []);
      AllQuietAppend(lines, FileLines(rest, false, visited || lines != []));
      assert d in defs && forall e | e in defs :: e == d || e in rest;
      assert forall e | e in rest :: e in defs;
    }
  }

  /**
    A file generated without values is read as an empty configuration if and only if, in every section
    with an option to print, no header, comment or shown default has a pair or a malformed line between
    its line breaks.
  */
  lemma DefaultsSayNothingExactly(defs: seq<SectionDef>)
    ensures ParsesTo(Unlines(FileLines(defs, false, false)), map[]) <==> forall d | d in defs :: QuietSection(d)
  {
    hide FileLines, ParsesTo, AllQuiet, QuietSection;
    PrintedSaysNothingExactly(FileLines(defs, false, false));
    FileQuietExactly(defs, false);
  }

  lemma {:induction false} NoValues(settings: seq<Setting>)
    ensures SettingsEntries(settings, false) == []
  {
    if settings != [] {
      NoValues(settings[1..]);
    }
  }

  /** In particular if the comments and defaults are hushed. */
  lemma DefaultsSayNothing(defs: seq<SectionDef>)
    requires DefsOk(defs, false) && DistinctNames(defs)
    ensures ParsesTo(Unlines(FileLines(defs, false, false)), map[])
  {
    hide DefsOk, FileLines, Parse;
    GeneratedParses(defs, false);
    var config := Parse(Unlines(FileLines(defs, false, false)), map[]).config;
    forall s
      ensures s !in config
    {
      if s in config {
        var i :| 0 <= i < |defs| && defs[i].name == s;
        NoValues(defs[i].settings);
      }
    }
  }

  lemma PrefixedOne(prefix: string, text: string)
    ensures Prefixed(prefix, [text]) == [prefix + text]
  {
  }

  /** How one option is laid out, shown, hidden, without a default, and with a value. */
  lemma SettingLaidOut(n: string, c: string, v: string)
    ensures SettingLines(Setting(n, [c], false, false, [v], []), false) == ["", "# " + c, "#" + n + "=" + v]
    ensures SettingLines(Setting(n, [c], false, false, [v], [v]), false) == ["", "# " + c, "#" + n + "=" + v]
    ensures SettingLines(Setting(n, [c], false, false, [], [v]), true) == ["", "# " + c, n + "=" + v]
    ensures SettingLines(Setting(n, [c], true, false, [], []), true) == ["", "# " + c, "#" + n + "="]
    ensures SettingLines(Setting(n, [c], false, true, [v], []), true) == ["", "# " + c]
    ensures SettingLines(Setting(n, [], false, true, [v], []), false) == []
  {
    PrefixedOne("# ", c);
    PrefixedOne("#" + n + "=", v);
    PrefixedOne(n + "=", v);
  }

  /** How two sections of one option each are laid out. */
  lemma FileLaidOut(n: string, c: string, s: Setting, n': string, c': string, s': Setting, useValues: bool)
    requires SettingLines(s', useValues) != []
    ensures
      var lines, lines' := SettingLines(s, useValues), SettingLines(s', useValues);
      var second := ["[" + n' + "]", "# " + c', ""] + lines';
      FileLines([SectionDef(n, [c], [s]), SectionDef(n', [c'], [s'])], useValues, false) ==
      if lines == [] then second else ["[" + n + "]", "# " + c, ""] + lines + ["", ""] + second
  {
    hide SettingLines;
    PrefixedOne("# ", c);
    PrefixedOne("# ", c');
    OneSetting(s, useValues);
    OneSetting(s', useValues);
    var d, d' := SectionDef(n, [c], [s]), SectionDef(n', [c'], [s']);
    var lines := SectionLines(d, useValues, false);
    assert [d, d'][1..] == [d'];
    OneSection(d', useValues, lines != []);
    assert FileLines([d, d'], useValues, false) == lines + SectionLines(d', useValues, lines != []);
    hide FileLines, SettingsLines;
  }

  lemma OneSection(d: SectionDef, useValues: bool, visited: bool)
    ensures FileLines([d], useValues, visited) == SectionLines(d, useValues, visited)
  {
    hide SectionLines;
    assert [d][1..] == [];
  }

  lemma OneSetting(s: Setting, useValues: bool)
    ensures SettingsLines([s], useValues) == SettingLines(s, useValues)
  {
    assert [s][1..] == [];
  }

  // ----------------------------------------------------------------- writing the text

  /** Each line with a break before it instead of after it. */
  function Broken(lines: seq<string>): string
  {
    if lines == [] then "" else "\n" + lines[0] + Broken(lines[1..])
  }

  lemma {:induction false} BrokenAppend(a: seq<string>, b: seq<string>)
    ensures Broken(a + b) == Broken(a) + Broken(b)
  {
    if a == [] {
      assert a + b == b;
    } else {
      BrokenAppend(a[1..], b);
      assert (a + b)[0] == a[0] && (a + b)[1..] == a[1..] + b;
      Regrouped("\n" + a[0], Broken(a[1..]), Broken(b));
    }
  }

  lemma {:induction false} BrokenIsUnlines(lines: seq<string>)
    ensures Broken(lines) + "\n" == Unlines([""] + lines)
  {
    assert ([""] + lines)[1..] == lines;
    if lines != [] {
      var rest := lines[1..];
      BrokenIsUnlines(rest);
      assert ([""] + rest)[1..] == rest;
      assert Unlines([""] + rest) == "" + "\n" + Unlines(rest);
      assert Broken(lines) + "\n" == "\n" + lines[0] + (Broken(rest) + "\n");
      assert Unlines(lines) == lines[0] + "\n" + Unlines(rest);
    }
  }

  method WriteEach(prefix: string, texts: seq<string>) returns (text: string)
    ensures text == Broken(Prefixed(prefix, texts))
  {
    text := "";
    var n := 0;
    assert texts[0..] == texts;
    while n < |texts|
      invariant 0 <= n <= |texts|
      invariant text + Broken(Prefixed(prefix, texts[n..])) == Broken(Prefixed(prefix, texts))
    {
      ghost var rest := Broken(Prefixed(prefix, texts[n + 1..]));
      var line := prefix + texts[n];
      assert texts[n..][1..] == texts[n + 1..];
      assert Prefixed(prefix, texts[n..])[1..] == Prefixed(prefix, texts[n + 1..]);
      assert text + ("\n" + line + rest) == text + ("\n" + line) + rest;
      text := text + ("\n" + line);
      n := n + 1;
    }
    assert text + "" == text;
  }

  method WriteSetting(s: Setting, useValues: bool) returns (text: string)
    ensures text == Unlines(SettingLines(s, useValues))
  {
    hide Prefixed, Broken, Unlines;
    ghost var comments := CommentLines(s.comments);
    text := WriteEach("# ", s.comments);
    if useValues && |s.values| > 0 {
      var values := WriteEach(s.name + "=", s.values);
      TextOf(comments, ValueLines(s.name, s.values));
      text := text + values + "\n";
    } else if !s.hidden {
      var defaults;
      if |s.defaults| > 0 {
        defaults := WriteEach((if s.required then "" else "#") + s.name + "=", s.defaults);
      } else {
        defaults := "\n" + "#" + s.name + "=";
        OneBroken("#" + s.name + "=");
      }
      TextOf(comments, DefaultLines(s));
      text := text + defaults + "\n";
    } else if |s.comments| > 0 {
      BrokenIsUnlines(comments);
      text := text + "\n";
    } else {
      NoText();
    }
  }

  lemma TextOf(a: seq<string>, b: seq<string>)
    ensures Broken(a) + Broken(b) + "\n" == Unlines([""] + a + b)
  {
    BrokenAppend(a, b);
    BrokenIsUnlines(a + b);
    assert [""] + a + b == [""] + (a + b);
  }

  lemma OneBroken(line: string)
    ensures Broken([line]) == "\n" + line
  {
  }

  lemma NoText()
    ensures Broken(Prefixed("# ", [])) == "" && Unlines([]) == ""
  {
  }

  lemma {:induction false} UnlinesEmpty(lines: seq<string>)
    ensures Unlines(lines) == "" <==> lines == []
  {
  }

  /** The file's comment lines are written with the break after them. */
  method WriteComments(comments: seq<string>) returns (text: string)
    ensures text == Unlines(CommentLines(comments))
  {
    text := "";
    var n := 0;
    assert comments[0..] == comments;
    while n < |comments|
      invariant 0 <= n <= |comments|
      invariant text + Unlines(CommentLines(comments[n..])) == Unlines(CommentLines(comments))
    {
      var line := "# " + comments[n] + "\n";
      ghost var rest := Unlines(CommentLines(comments[n + 1..]));
      assert comments[n..][1..] == comments[n + 1..];
      assert CommentLines(comments[n..])[1..] == CommentLines(comments[n + 1..]);
      assert text + (line + rest) == text + line + rest;
      text := text + line;
      n := n + 1;
    }
    assert text + "" == text;
  }

  /** The text of one section. */
  lemma SectionText(d: SectionDef, useValues: bool, visited: bool)
    ensures
      var body := Unlines(SettingsLines(d.settings, useValues));
      Unlines(SectionLines(d, useValues, visited)) ==
        if body == "" then ""
        else (if visited then "\n\n" else "") + ("[" + d.name + "]\n") + Unlines(CommentLines(d.comments)) + "\n" + body
  {
    hide CommentLines, SettingsLines;
    var lines := SettingsLines(d.settings, useValues);
    UnlinesEmpty(lines);
    UnlinesOfFew("[" + d.name + "]");
    hide Unlines;
    if lines != [] {
      var gap := if visited then ["", ""] else [];
      var header := "[" + d.name + "]";
      var comments := CommentLines(d.comments);
      UnlinesAppend(gap + [header] + comments + [""], lines);
      UnlinesAppend(gap + [header] + comments, [""]);
      UnlinesAppend(gap + [header], comments);
      UnlinesAppend(gap, [header]);
    }
  }

  /** Writing the settings one after the other. */
  lemma SettingsStep(settings: seq<Setting>, n: nat, useValues: bool, text: string)
    requires n < |settings|
    ensures
      text + Unlines(SettingsLines(settings[n..], useValues)) ==
      text + Unlines(SettingLines(settings[n], useValues)) + Unlines(SettingsLines(settings[n + 1..], useValues))
  {
    hide SettingLines, Unlines;
    assert settings[n..][1..] == settings[n + 1..];
    UnlinesAppend(SettingLines(settings[n], useValues), SettingsLines(settings[n + 1..], useValues));
  }

  /** Writing the sections one after the other. */
  lemma FileStep(defs: seq<SectionDef>, n: nat, useValues: bool, visited: bool, text: string)
    requires n < |defs|
    ensures
      var section := Unlines(SectionLines(defs[n], useValues, visited));
      text + Unlines(FileLines(defs[n..], useValues, visited)) ==
      text + section + Unlines(FileLines(defs[n + 1..], useValues, visited || section != ""))
  {
    hide SectionLines;
    var lines := SectionLines(defs[n], useValues, visited);
    UnlinesEmpty(lines);
    hide Unlines;
    assert defs[n..][1..] == defs[n + 1..];
    UnlinesAppend(lines, FileLines(defs[n + 1..], useValues, visited || lines != []));
  }

  lemma UnlinesOfFew(line: string)
    ensures Unlines([line]) == line + "\n" && Unlines([""]) == "\n" && Unlines(["", ""]) == "\n\n" && Unlines([]) == ""
  {
    assert ["", ""][1..] == [""];
    assert Unlines(["", ""]) == "" + "\n" + Unlines([""]);
  }
}
