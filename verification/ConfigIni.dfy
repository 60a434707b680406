/**
  The INI format of the configuration files: what `ConfigParser::Parse` makes of a text, and the texts
  `ConfigParser::Save` writes. A configuration maps each section to the multiset of its pairs; the
  source keeps both in unordered containers, so a saved text may list them in any order.
*/
module ConfigIni {

  datatype Entry = Entry(key: string, value: string)

  type Config = map<string, multiset<Entry>>

  /** The characters of `isspace`. */
  predicate IsSpace(c: char)
  {
    c == ' ' || '\t' <= c <= '\r'
  }

  predicate IsBreak(c: char)
  {
    c == '\n' || c == '\r'
  }

  predicate OneLine(s: string)
  {
    forall c | c in s :: !IsBreak(c)
  }

  predicate Unpadded(s: string)
  {
    s == [] || (!IsSpace(s[0]) && !IsSpace(s[|s| - 1]))
  }

  function TrimFront(s: string): string
  {
    if s != [] && IsSpace(s[0]) then TrimFront(s[1..]) else s
  }

  function TrimBack(s: string): string
  {
    if s != [] && IsSpace(s[|s| - 1]) then TrimBack(s[..|s| - 1]) else s
  }

  function Trim(s: string): string
  {
    TrimBack(TrimFront(s))
  }

  /** The place of the first `=`, or the length if there is none. */
  function KeyLength(s: string): (n: nat)
    ensures n <= |s|
  {
    if s == [] || s[0] == '=' then 0 else 1 + KeyLength(s[1..])
  }

  /** The place of the first line break, or the length if there is none. */
  function LineLength(s: string): (n: nat)
    ensures n <= |s|
  {
    if s == [] || IsBreak(s[0]) then 0 else 1 + LineLength(s[1..])
  }

  lemma {:induction false} TrimFrontIs(s: string)
    ensures var r := TrimFront(s); |r| <= |s| && r == s[|s| - |r|..] && (r == [] || !IsSpace(r[0]))
  {
    if s != [] && IsSpace(s[0]) {
      TrimFrontIs(s[1..]);
    }
  }

  lemma {:induction false} TrimBackIs(s: string)
    ensures var r := TrimBack(s); r <= s && (r == [] || !IsSpace(r[|r| - 1]))
  {
    if s != [] && IsSpace(s[|s| - 1]) {
      TrimBackIs(s[..|s| - 1]);
    }
  }

  lemma TrimIs(s: string)
    ensures Unpadded(Trim(s))
    ensures OneLine(s) ==> OneLine(Trim(s))
  {
    hide TrimFront, TrimBack, IsSpace, IsBreak;
    var t := TrimFront(s);
    TrimFrontIs(s);
    TrimBackIs(t);
    assert forall c | c in t :: c in s;
    assert forall c | c in TrimBack(t) :: c in t;
  }

  lemma UnpaddedIsTrimmed(s: string)
    requires Unpadded(s)
    ensures TrimFront(s) == TrimBack(s) == Trim(s) == s
  {
  }

  lemma {:induction false} KeyLengthIs(s: string)
    ensures var n := KeyLength(s); '=' !in s[..n] && (n < |s| ==> s[n] == '=')
  {
    if s != [] && s[0] != '=' {
      KeyLengthIs(s[1..]);
      assert s[..KeyLength(s)] == [s[0]] + s[1..][..KeyLength(s[1..])];
    }
  }

  lemma {:induction false} LineLengthIs(s: string)
    ensures var n := LineLength(s); OneLine(s[..n]) && (n < |s| ==> IsBreak(s[n]))
  {
    if s != [] && !IsBreak(s[0]) {
      LineLengthIs(s[1..]);
      assert s[..LineLength(s)] == [s[0]] + s[1..][..LineLength(s[1..])];
    }
  }

  lemma {:induction false} KeyEndsAt(s: string, n: nat)
    requires n < |s| && s[n] == '=' && '=' !in s[..n]
    ensures KeyLength(s) == n
  {
    if n > 0 {
      assert s[..n][0] == s[0] && s[1..][..n - 1] == s[..n][1..];
      KeyEndsAt(s[1..], n - 1);
    }
  }

  lemma {:induction false} LineEndsAt(s: string, n: nat)
    requires n <= |s| && OneLine(s[..n]) && (n == |s| || IsBreak(s[n]))
    ensures LineLength(s) == n
  {
    if n > 0 {
      assert s[..n][0] == s[0] && s[1..][..n - 1] == s[..n][1..];
      LineEndsAt(s[1..], n - 1);
    }
  }

  // ------------------------------------------------------------------------ reading

  datatype Line = Skip | Header(name: string) | Pair(entry: Entry) | Malformed

  function Classify(line: string): Line
  {
    var t := Trim(line);
    if t == [] || t[0] == ';' || t[0] == '#' then Skip
    else if t[0] == '[' && t[|t| - 1] == ']' then Header(t[1..|t| - 1])
    else
      var n := KeyLength(t);
      if n == |t| then Malformed
      else
        var k := TrimBack(t[..n]);
        if k == [] then Malformed else Pair(Entry(k, TrimFront(t[n + 1..])))
  }

  /** `\n` and `\r` each end a line; there is no line after a final break. */
  function Lines(data: string): seq<string>
  {
    if data == [] then []
    else
      var n := LineLength(data);
      [data[..n]] + if n == |data| then [] else Lines(data[n + 1..])
  }

  function Of(config: Config, sect: string): multiset<Entry>
  {
    if sect in config then config[sect] else multiset{}
  }

  function Insert(config: Config, sect: string, e: Entry): Config
  {
    config[sect := Of(config, sect) + multiset{e}]
  }

  /** Reading stops at the first malformed line; what was read before stays. */
  datatype Progress = Reading(sect: string, config: Config) | Failed(config: Config)

  function Feed(p: Progress, line: string): Progress
  {
    if p.Failed? then p
    else
      match Classify(line)
      case Skip => p
      case Header(name) => p.(sect := name)
      case Pair(e) => p.(config := Insert(p.config, p.sect, e))
      case Malformed => Failed(p.config)
  }

  function FeedAll(p: Progress, lines: seq<string>): Progress
    decreases |lines|
  {
    if lines == [] then p else FeedAll(Feed(p, lines[0]), lines[1..])
  }

  lemma {:induction false} FeedAllAppend(p: Progress, a: seq<string>, b: seq<string>)
    ensures FeedAll(p, a + b) == FeedAll(FeedAll(p, a), b)
    decreases |a|
  {
    if a == [] {
      assert a + b == b;
    } else {
      assert (a + b)[1..] == a[1..] + b;
      FeedAllAppend(Feed(p, a[0]), a[1..], b);
    }
  }

  function Parse(data: string, config: Config): Progress
  {
    FeedAll(Reading("", config), Lines(data))
  }

  predicate ParsesTo(text: string, config: Config)
  {
    var p := Parse(text, map[]);
    p.Reading? && p.config == config
  }

  // -------------------------------------------------------------- pairs a line can carry

  /** The pairs that a `key=value` line gives back unchanged. */
  predicate EntryOk(e: Entry)
  {
    && e.key != [] && '=' !in e.key && Unpadded(e.key) && Unpadded(e.value)
    && e.key[0] != ';' && e.key[0] != '#'
    && !(e.key[0] == '[' && e.value != [] && e.value[|e.value| - 1] == ']')
  }

  function EntryLine(e: Entry): string
  {
    e.key + "=" + e.value
  }

  lemma PrefixLacks(a: string, b: string, c: char)
    requires a <= b && c !in b
    ensures c !in a
  {
    assert forall i | 0 <= i < |a| :: a[i] == b[i];
  }

  /** Whatever the line, the pair read from it is one a line can carry. */
  lemma ReadEntriesAreOk(line: string)
    requires Classify(line).Pair?
    ensures EntryOk(Classify(line).entry)
  {
    hide TrimFront, TrimBack, Trim, KeyLength, IsSpace;
    var t := Trim(line);
    var n := KeyLength(t);
    var key, rest := t[..n], t[n + 1..];
    TrimIs(line);
    KeyLengthIs(t);
    var k, v := TrimBack(key), TrimFront(rest);
    TrimBackIs(key);
    TrimFrontIs(rest);
    assert Classify(line).entry == Entry(k, v);
    PrefixLacks(k, key, '=');
    assert k[0] == key[0] == t[0];
    assert v != [] ==> v[|v| - 1] == rest[|rest| - 1] == t[|t| - 1];
  }

  lemma ReadEntriesOneLine(line: string)
    requires Classify(line).Pair? && OneLine(line)
    ensures var e := Classify(line).entry; OneLine(e.key) && OneLine(e.value)
  {
    hide TrimFront, TrimBack, Trim, KeyLength, IsSpace, IsBreak, Unpadded;
    var t := Trim(line);
    TrimIs(line);
    var n := KeyLength(t);
    var key, rest := t[..n], t[n + 1..];
    TrimBackIs(key);
    TrimFrontIs(rest);
    assert forall c | c in key || c in rest :: c in t;
    assert forall c | c in TrimBack(key) :: c in key;
    assert forall c | c in TrimFront(rest) :: c in rest;
  }

  lemma OkEntriesAreRead(e: Entry)
    requires EntryOk(e)
    ensures Classify(EntryLine(e)) == Pair(e)
  {
    hide TrimFront, TrimBack, Trim, KeyLength;
    var line := EntryLine(e);
    var n := |e.key|;
    assert line[0] == e.key[0];
    assert line[|line| - 1] == if e.value == [] then '=' else e.value[|e.value| - 1];
    UnpaddedIsTrimmed(line);
    assert line[..n] == e.key && line[n + 1..] == e.value;
    KeyEndsAt(line, n);
    UnpaddedIsTrimmed(e.key);
    UnpaddedIsTrimmed(e.value);
    hide IsSpace;
  }

  /** Printing a pair and reading the line back gives the pair if and only if it is well formed. */
  lemma EntryRoundTripExactly(e: Entry)
    ensures Classify(EntryLine(e)) == Pair(e) <==> EntryOk(e)
  {
    if EntryOk(e) {
      OkEntriesAreRead(e);
    } else if Classify(EntryLine(e)).Pair? {
      ReadEntriesAreOk(EntryLine(e));
    }
  }

  lemma HeaderRoundTrip(name: string)
    ensures Classify("[" + name + "]") == Header(name)
  {
    var line := "[" + name + "]";
    assert line[0] == '[' && line[|line| - 1] == ']';
    assert line[1..|line| - 1] == name;
    UnpaddedIsTrimmed(line);
  }

  lemma CommentIsSkipped(rest: string)
    ensures Classify("#" + rest) == Skip
  {
    var line := "#" + rest;
    assert line[0] == '#';
    TrimBackIs(line);
  }

  lemma BlankIsSkipped()
    ensures Classify("") == Skip
  {
  }

  // ------------------------------------------------------------------------- texts

  function Unlines(lines: seq<string>): string
  {
    if lines == [] then "" else lines[0] + "\n" + Unlines(lines[1..])
  }

  lemma Regrouped(a: string, b: string, c: string)
    ensures a + (b + c) == a + b + c
  {
  }

  lemma {:induction false} UnlinesAppend(a: seq<string>, b: seq<string>)
    ensures Unlines(a + b) == Unlines(a) + Unlines(b)
  {
    if a == [] {
      assert a + b == b;
    } else {
      UnlinesAppend(a[1..], b);
      assert (a + b)[0] == a[0] && (a + b)[1..] == a[1..] + b;
      Regrouped(a[0] + "\n", Unlines(a[1..]), Unlines(b));
    }
  }

  predicate AllOneLine(lines: seq<string>)
  {
    forall l | l in lines :: OneLine(l)
  }

  lemma {:induction false} LinesOfUnlines(lines: seq<string>)
    requires AllOneLine(lines)
    ensures Lines(Unlines(lines)) == lines
  {
    if lines != [] {
      var l, rest := lines[0], Unlines(lines[1..]);
      var data := Unlines(lines);
      assert data == l + ("\n" + rest);
      var n := |l|;
      assert data[..n] == l && data[n + 1..] == rest;
      LineEndsAt(data, n);
      LinesOfUnlines(lines[1..]);
    }
  }

  lemma {:induction false} LinesAreOneLine(data: string)
    ensures AllOneLine(Lines(data))
  {
    if data != [] {
      var n := LineLength(data);
      LineLengthIs(data);
      if n < |data| {
        LinesAreOneLine(data[n + 1..]);
      }
    }
  }

  // ------------------------------------------------------------------- saved texts

  /** One section as written: a blank line, the header, one line for each pair. */
  datatype Block = Block(name: string, entries: seq<Entry>)

  function EntryLines(entries: seq<Entry>): seq<string>
  {
    if entries == [] then [] else [EntryLine(entries[0])] + EntryLines(entries[1..])
  }

  function BlockLines(b: Block): seq<string>
  {
    ["", "[" + b.name + "]"] + EntryLines(b.entries)
  }

  function DocLines(doc: seq<Block>): seq<string>
  {
    if doc == [] then [] else BlockLines(doc[0]) + DocLines(doc[1..])
  }

  function InsertAll(config: Config, sect: string, entries: seq<Entry>): Config
    decreases |entries|
  {
    if entries == [] then config else InsertAll(Insert(config, sect, entries[0]), sect, entries[1..])
  }

  function InsertDoc(config: Config, doc: seq<Block>): Config
    decreases |doc|
  {
    if doc == [] then config else InsertDoc(InsertAll(config, doc[0].name, doc[0].entries), doc[1..])
  }

  /** Everything a list of blocks says about one section. */
  function Total(doc: seq<Block>, sect: string): multiset<Entry>
  {
    if doc == [] then multiset{}
    else (if doc[0].name == sect then multiset(doc[0].entries) else multiset{}) + Total(doc[1..], sect)
  }

  lemma {:induction false} InsertAllOf(config: Config, sect: string, entries: seq<Entry>, s: string)
    ensures
      Of(InsertAll(config, sect, entries), s) ==
      Of(config, s) + (if s == sect then multiset(entries) else multiset{})
    ensures s in InsertAll(config, sect, entries) <==> s in config || (s == sect && entries != [])
    decreases |entries|
  {
    if entries != [] {
      assert entries == [entries[0]] + entries[1..];
      InsertAllOf(Insert(config, sect, entries[0]), sect, entries[1..], s);
    }
  }

  lemma {:induction false} InsertDocOf(config: Config, doc: seq<Block>, s: string)
    ensures Of(InsertDoc(config, doc), s) == Of(config, s) + Total(doc, s)
    ensures s in InsertDoc(config, doc) <==> s in config || Total(doc, s) != multiset{}
    decreases |doc|
  {
    if doc != [] {
      var b := doc[0];
      InsertAllOf(config, b.name, b.entries, s);
      if b.name == s && b.entries != [] {
        assert b.entries[0] in multiset(b.entries);
      }
      InsertDocOf(InsertAll(config, b.name, b.entries), doc[1..], s);
    }
  }

  /** No section is empty; true of everything that is read or overridden. */
  predicate Filled(config: Config)
  {
    forall s | s in config :: config[s] != multiset{}
  }

  /** The blocks list exactly this configuration, in whatever order, and none is empty. */
  ghost predicate Arranges(doc: seq<Block>, config: Config)
  {
    && (forall s :: Total(doc, s) == Of(config, s))
    && (forall b | b in doc :: b.entries != [])
  }

  lemma InsertDocArranges(doc: seq<Block>, config: Config)
    requires Filled(config) && Arranges(doc, config)
    ensures InsertDoc(map[], doc) == config
  {
    var got := InsertDoc(map[], doc);
    forall s
      ensures s in got <==> s in config
      ensures s in config ==> got[s] == config[s]
    {
      InsertDocOf(map[], doc, s);
      assert Total(doc, s) == Of(config, s);
    }
  }

  predicate EntriesOk(entries: seq<Entry>)
  {
    forall e | e in entries :: EntryOk(e)
  }

  lemma {:induction false} FeedEntries(sect: string, config: Config, entries: seq<Entry>)
    requires EntriesOk(entries)
    ensures FeedAll(Reading(sect, config), EntryLines(entries)) == Reading(sect, InsertAll(config, sect, entries))
    decreases |entries|
  {
    if entries != [] {
      OkEntriesAreRead(entries[0]);
      var p := Reading(sect, config);
      assert Feed(p, EntryLine(entries[0])) == Reading(sect, Insert(config, sect, entries[0]));
      FeedEntries(sect, Insert(config, sect, entries[0]), entries[1..]);
      assert EntryLines(entries)[1..] == EntryLines(entries[1..]);
    }
  }

  lemma FeedBlock(p: Progress, b: Block)
    requires p.Reading? && EntriesOk(b.entries)
    ensures FeedAll(p, BlockLines(b)) == Reading(b.name, InsertAll(p.config, b.name, b.entries))
  {
    hide Classify, InsertAll;
    var header := "[" + b.name + "]";
    BlankIsSkipped();
    HeaderRoundTrip(b.name);
    assert BlockLines(b)[1..] == [header] + EntryLines(b.entries);
    assert BlockLines(b)[1..][1..] == EntryLines(b.entries);
    assert Feed(Feed(p, ""), header) == Reading(b.name, p.config);
    FeedEntries(b.name, p.config, b.entries);
  }

  lemma {:induction false} FeedDoc(p: Progress, doc: seq<Block>)
    requires p.Reading? && forall b | b in doc :: EntriesOk(b.entries)
    ensures FeedAll(p, DocLines(doc)).Reading?
    ensures FeedAll(p, DocLines(doc)).config == InsertDoc(p.config, doc)
    decreases |doc|
  {
    if doc != [] {
      hide EntriesOk, BlockLines;
      assert doc[0] in doc;
      FeedBlock(p, doc[0]);
      FeedAllAppend(p, BlockLines(doc[0]), DocLines(doc[1..]));
      FeedDoc(Reading(doc[0].name, InsertAll(p.config, doc[0].name, doc[0].entries)), doc[1..]);
    }
  }

  // --------------------------------------------------------------- the round trip

  /** The configurations a text can carry. */
  ghost predicate ConfigOk(config: Config)
  {
    forall s | s in config ::
      OneLine(s) && forall e | e in config[s] :: EntryOk(e) && OneLine(e.key) && OneLine(e.value)
  }

  lemma InsertKeepsOk(config: Config, sect: string, e: Entry)
    requires ConfigOk(config) && Filled(config)
    requires OneLine(sect) && EntryOk(e) && OneLine(e.key) && OneLine(e.value)
    ensures ConfigOk(Insert(config, sect, e)) && Filled(Insert(config, sect, e))
  {
    hide EntryOk, OneLine;
    var added := Insert(config, sect, e);
    assert e in added[sect];
    assert forall x | x in added[sect] :: x == e || (sect in config && x in config[sect]);
  }

  lemma FeedKeepsOk(p: Progress, line: string)
    requires ConfigOk(p.config) && (p.Reading? ==> OneLine(p.sect)) && Filled(p.config) && OneLine(line)
    ensures var q := Feed(p, line); ConfigOk(q.config) && (q.Reading? ==> OneLine(q.sect)) && Filled(q.config)
  {
    if p.Reading? {
      match Classify(line)
      case Header(name) =>
        TrimIs(line);
        var t := Trim(line);
        assert forall c | c in name :: c in t;
      case Pair(e) =>
        ReadEntriesAreOk(line);
        ReadEntriesOneLine(line);
        hide EntryOk, Classify, ConfigOk, Filled;
        InsertKeepsOk(p.config, p.sect, e);
      case _ =>
    }
  }

  lemma {:induction false} FeedAllKeepsOk(p: Progress, lines: seq<string>)
    requires ConfigOk(p.config) && (p.Reading? ==> OneLine(p.sect)) && Filled(p.config) && AllOneLine(lines)
    ensures var q := FeedAll(p, lines); ConfigOk(q.config) && Filled(q.config)
    decreases |lines|
  {
    hide ConfigOk, Filled, Feed, OneLine;
    if lines != [] {
      FeedKeepsOk(p, lines[0]);
      FeedAllKeepsOk(Feed(p, lines[0]), lines[1..]);
    }
  }

  /** Whatever is read, from any text, is a configuration a text can carry. */
  lemma ParsedIsOk(data: string)
    ensures ConfigOk(Parse(data, map[]).config) && Filled(Parse(data, map[]).config)
  {
    LinesAreOneLine(data);
    FeedAllKeepsOk(Reading("", map[]), Lines(data));
  }

  lemma {:induction false} TotalHasAll(doc: seq<Block>, b: Block, e: Entry)
    requires b in doc && e in b.entries
    ensures e in Total(doc, b.name)
  {
    if doc[0] == b {
      assert e in multiset(b.entries);
    } else {
      TotalHasAll(doc[1..], b, e);
    }
  }

  lemma {:induction false} EntryLinesOneLine(entries: seq<Entry>)
    requires forall e | e in entries :: OneLine(e.key) && OneLine(e.value)
    ensures AllOneLine(EntryLines(entries))
  {
    if entries != [] {
      var e := entries[0];
      assert e in entries;
      assert forall c | c in EntryLine(e) :: c in e.key || c in e.value || c == '=';
      EntryLinesOneLine(entries[1..]);
    }
  }

  /** Blocks whose text reads back as intended: no line breaks, well-formed pairs. */
  ghost predicate DocOk(doc: seq<Block>)
  {
    forall b | b in doc ::
      OneLine(b.name) && EntriesOk(b.entries) && forall e | e in b.entries :: OneLine(e.key) && OneLine(e.value)
  }

  lemma {:induction false} DocLinesOneLine(doc: seq<Block>)
    requires DocOk(doc)
    ensures AllOneLine(DocLines(doc))
  {
    if doc != [] {
      var b := doc[0];
      assert b in doc;
      EntryLinesOneLine(b.entries);
      assert forall c | c in "[" + b.name + "]" :: c in b.name || c == '[' || c == ']';
      DocLinesOneLine(doc[1..]);
    }
  }

  lemma ArrangedIsOk(doc: seq<Block>, config: Config)
    requires Arranges(doc, config) && ConfigOk(config)
    ensures DocOk(doc)
  {
    forall b | b in doc
      ensures OneLine(b.name) && EntriesOk(b.entries) && forall e | e in b.entries :: OneLine(e.key) && OneLine(e.value)
    {
      hide EntryOk, OneLine;
      forall e | e in b.entries
        ensures b.name in config && e in config[b.name]
      {
        TotalHasAll(doc, b, e);
        assert Total(doc, b.name) == Of(config, b.name);
      }
      assert b.entries[0] in b.entries;
    }
  }

  lemma DocParses(doc: seq<Block>)
    requires DocOk(doc)
    ensures ParsesTo(Unlines(DocLines(doc)), InsertDoc(map[], doc))
  {
    DocLinesOneLine(doc);
    LinesOfUnlines(DocLines(doc));
    FeedDoc(Reading("", map[]), doc);
  }

  /** A text that `Save` may write: each section once or more, each time with some of its pairs. */
  ghost predicate Saved(text: string, config: Config)
  {
    exists doc :: text == Unlines(DocLines(doc)) && Arranges(doc, config)
  }

  /**
    Saving and parsing undo each other: in whatever order the overrides are written, reading the text
    back gives the same sections with the same multisets of pairs, if and only if the strings are well
    formed: names, keys and values on one line, keys not empty, without `=`, not starting a comment or
    looking like a header, and neither keys nor values padded with whitespace.
  */
  lemma SaveRoundTripExactly(text: string, config: Config)
    requires Filled(config) && Saved(text, config)
    ensures ParsesTo(text, config) <==> ConfigOk(config)
  {
    hide Total, ConfigOk, Parse, DocLines, InsertDoc;
    if ConfigOk(config) {
      var doc :| text == Unlines(DocLines(doc)) && Arranges(doc, config);
      ArrangedIsOk(doc, config);
      DocParses(doc);
      InsertDocArranges(doc, config);
    }
    ParsedIsOk(text);
  }

  /** Saving what was read from any text at all, and reading it again, changes nothing. */
  lemma ReadSaveReadIsRead(data: string, text: string)
    requires Saved(text, Parse(data, map[]).config)
    ensures ParsesTo(text, Parse(data, map[]).config)
  {
    hide ConfigOk, Parse, ParsesTo, Saved, Filled;
    ParsedIsOk(data);
    SaveRoundTripExactly(text, Parse(data, map[]).config);
  }

  /** How one pair in one section is saved. */
  lemma SavedLayout(name: string, key: string, value: string)
    ensures Unlines(DocLines([Block(name, [Entry(key, value)])])) == "\n[" + name + "]\n" + key + "=" + value + "\n"
  {
    var header, line := "[" + name + "]", key + "=" + value;
    assert EntryLines([Entry(key, value)]) == [line];
    assert DocLines([Block(name, [Entry(key, value)])]) == ["", header, line];
    assert ["", header, line][1..] == [header, line] && [header, line][1..] == [line] && [line][1..] == [];
    assert Unlines([line]) == line + "\n";
    assert Unlines([header, line]) == header + "\n" + (line + "\n");
    assert header + "\n" + (line + "\n") == header + "\n" + line + "\n";
  }
}
