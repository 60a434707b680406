/** The `ConfigParser` object, proved against the format of `ConfigIni`. */
module ConfigParser {
  import opened ConfigIni
  import opened ConfigLines

  method SplitLines(data: string) returns (lines: seq<string>)
    ensures lines == Lines(data)
  {
    hide Lines;
    lines := [];
    var itr := 0;
    assert data[0..] == data;
    while itr < |data|
      invariant 0 <= itr <= |data|
      invariant lines + Lines(data[itr..]) == Lines(data)
    {
      var beg := itr;
      itr := EndOfLine(data, beg);
      LinesStep(data, beg, itr, lines);
      lines := lines + [data[beg..itr]];
      if itr == |data| {
        return;
      }
      itr := itr + 1;
    }
    LinesEnd(data, itr, lines);
  }

  lemma LinesStep(data: string, beg: nat, itr: nat, lines: seq<string>)
    requires beg <= itr <= |data| && beg < |data| && itr - beg == LineLength(data[beg..])
    ensures
      && lines + Lines(data[beg..]) ==
         lines + [data[beg..itr]] + (if itr == |data| then [] else Lines(data[itr + 1..]))
      && (itr == |data| ==> lines + Lines(data[beg..]) == lines + [data[beg..itr]])
  {
    var rest := data[beg..];
    assert rest[..itr - beg] == data[beg..itr];
    if itr < |data| {
      assert rest[itr - beg + 1..] == data[itr + 1..];
    }
  }

  lemma LinesEnd(data: string, itr: nat, lines: seq<string>)
    requires itr == |data|
    ensures lines + Lines(data[itr..]) == lines
  {
  }

  method EndOfLine(data: string, beg: nat) returns (itr: nat)
    requires beg <= |data|
    ensures itr <= |data| && itr - beg == LineLength(data[beg..])
  {
    itr := beg;
    while itr < |data| && data[itr] != '\n' && data[itr] != '\r'
      invariant beg <= itr <= |data| && OneLine(data[beg..itr])
    {
      assert data[beg..itr + 1] == data[beg..itr] + [data[itr]];
      itr := itr + 1;
    }
    assert data[beg..][..itr - beg] == data[beg..itr];
    LineEndsAt(data[beg..], itr - beg);
  }

  method RemoveFrontSpace(s: string) returns (r: string)
    ensures r == TrimFront(s)
  {
    r := s;
    while r != [] && IsSpace(r[0])
      invariant TrimFront(r) == TrimFront(s)
    {
      r := r[1..];
    }
  }

  method RemoveBackSpace(s: string) returns (r: string)
    ensures r == TrimBack(s)
  {
    r := s;
    while r != [] && IsSpace(r[|r| - 1])
      invariant TrimBack(r) == TrimBack(s)
    {
      r := r[..|r| - 1];
    }
  }

  method FindDelimiter(s: string) returns (n: nat)
    ensures n == KeyLength(s)
  {
    n := 0;
    while n < |s| && s[n] != '='
      invariant n <= |s| && n + KeyLength(s[n..]) == KeyLength(s)
    {
      n := n + 1;
    }
  }

  method ReadLine(line: string) returns (r: Line)
    ensures r == Classify(line)
  {
    hide TrimFront, TrimBack, KeyLength, Unpadded, IsSpace;
    var t := RemoveFrontSpace(line);
    t := RemoveBackSpace(t);
    assert t == Trim(line);
    if t == [] || t[0] == ';' || t[0] == '#' {
      return Skip;
    }
    if t[0] == '[' && t[|t| - 1] == ']' {
      return Header(t[1..|t| - 1]);
    }
    var delim := FindDelimiter(t);
    if delim == |t| {
      return Malformed;
    }
    var k := RemoveBackSpace(t[..delim]);
    var v := RemoveFrontSpace(t[delim + 1..]);
    return if k == [] then Malformed else Pair(Entry(k, v));
  }

  class Parser {
    var config: Config
    var overrides: map<string, Config>

    constructor ()
      ensures config == map[] && overrides == map[]
    {
      config, overrides := map[], map[];
    }

    /** `LoadFromStr`: on a malformed line, what was read before it stays. */
    method LoadFromStr(data: string) returns (ok: bool)
      modifies this`config
      ensures config == Parse(data, old(config)).config && ok == Parse(data, old(config)).Reading?
    {
      hide Classify, Insert;
      var lines := SplitLines(data);
      var sectName := "";
      var n := 0;
      while n < |lines|
        invariant 0 <= n <= |lines|
        invariant FeedAll(Reading(sectName, config), lines[n..]) == Parse(data, old(config))
      {
        var line := ReadLine(lines[n]);
        ghost var p := Reading(sectName, config);
        assert lines[n..][1..] == lines[n + 1..];
        match line {
          case Skip =>
          case Header(name) => sectName := name;
          case Pair(e) => config := Insert(config, sectName, e);
          case Malformed =>
            FailedStays(config, lines[n + 1..]);
            return false;
        }
        assert Feed(p, lines[n]) == Reading(sectName, config);
        n := n + 1;
      }
      return true;
    }

    method AddOverride(path: string, section: string, key: string, value: string)
      modifies this`overrides
      ensures
        var before := if path in old(overrides) then old(overrides)[path] else map[];
        overrides == old(overrides)[path := Insert(before, section, Entry(key, value))]
      ensures old(AllFilled(overrides)) ==> AllFilled(overrides)
    {
      var data := if path in overrides then overrides[path] else map[];
      overrides := overrides[path := Insert(data, section, Entry(key, value))];
      assert Entry(key, value) in Of(data, section) + multiset{Entry(key, value)};
    }

    /**
      Writes one file for each overridden path, sections and pairs in an order of its own; each file
      reads back as its overrides if and only if they are well formed. The overrides are used up.
    */
    method Save() returns (files: map<string, string>)
      requires AllFilled(overrides)
      modifies this`overrides
      ensures overrides == map[] && files.Keys == old(overrides).Keys
      ensures forall path | path in files :: Saved(files[path], old(overrides)[path])
      ensures forall path | path in files ::
        ParsesTo(files[path], old(overrides)[path]) <==> ConfigOk(old(overrides)[path])
    {
      hide ParsesTo, ConfigOk, Saved;
      files := map[];
      var rest := overrides.Keys;
      while rest != {}
        invariant rest <= overrides.Keys && overrides == old(overrides)
        invariant files.Keys == overrides.Keys - rest
        invariant forall path | path in files :: Saved(files[path], overrides[path])
        invariant forall path | path in files :: ParsesTo(files[path], overrides[path]) <==> ConfigOk(overrides[path])
      {
        var path :| path in rest;
        rest := rest - {path};
        var text := Write(overrides[path]);
        SaveRoundTripExactly(text, overrides[path]);
        files := files[path := text];
      }
      overrides := map[];
    }
  }

  predicate AllFilled(overrides: map<string, Config>)
  {
    forall path | path in overrides :: Filled(overrides[path])
  }

  lemma {:induction false} TotalAppend(doc: seq<Block>, b: Block, s: string)
    ensures Total(doc + [b], s) == Total(doc, s) + if b.name == s then multiset(b.entries) else multiset{}
  {
    if doc == [] {
      assert doc + [b] == [b];
    } else {
      assert (doc + [b])[1..] == doc[1..] + [b];
      TotalAppend(doc[1..], b, s);
    }
  }

  lemma {:induction false} DocLinesAppend(doc: seq<Block>, b: Block)
    ensures DocLines(doc + [b]) == DocLines(doc) + BlockLines(b)
  {
    if doc == [] {
      assert doc + [b] == [b];
      assert DocLines([]) == [] && BlockLines(b) + [] == BlockLines(b);
    } else {
      assert (doc + [b])[1..] == doc[1..] + [b];
      DocLinesAppend(doc[1..], b);
      assert BlockLines(doc[0]) + (DocLines(doc[1..]) + BlockLines(b)) == DocLines(doc) + BlockLines(b);
    }
  }

  lemma {:induction false} EntryLinesAppend(entries: seq<Entry>, e: Entry)
    ensures EntryLines(entries + [e]) == EntryLines(entries) + [EntryLine(e)]
  {
    if entries == [] {
      assert entries + [e] == [e];
    } else {
      assert (entries + [e])[1..] == entries[1..] + [e];
      EntryLinesAppend(entries[1..], e);
    }
  }

  /** The pairs of one section, each on a line of its own. */
  method WriteEntries(values: multiset<Entry>) returns (text: string, ghost entries: seq<Entry>)
    ensures text == Unlines(EntryLines(entries)) && multiset(entries) == values
  {
    text, entries := "", [];
    var rest := values;
    while rest != multiset{}
      invariant text == Unlines(EntryLines(entries)) && multiset(entries) + rest == values
      decreases |rest|
    {
      var e :| e in rest;
      rest := rest - multiset{e};
      EntryLinesAppend(entries, e);
      UnlinesAppend(EntryLines(entries), [EntryLine(e)]);
      assert Unlines([EntryLine(e)]) == EntryLine(e) + "\n";
      entries := entries + [e];
      text := text + (e.key + "=" + e.value + "\n");
    }
  }

  /** The blocks list all sections but the remaining ones. */
  ghost predicate Lists(doc: seq<Block>, overrides: Config, rest: set<string>)
  {
    && (forall s :: Total(doc, s) == if s in rest then multiset{} else Of(overrides, s))
    && (forall b | b in doc :: b.entries != [])
  }

  method Write(overrides: Config) returns (text: string)
    requires Filled(overrides)
    ensures Saved(text, overrides)
  {
    text := "";
    ghost var doc := [];
    var rest := overrides.Keys;
    assert Lists(doc, overrides, rest);
    while rest != {}
      invariant rest <= overrides.Keys && text == Unlines(DocLines(doc))
      invariant Lists(doc, overrides, rest)
    {
      hide Lists, DocLines, Unlines, EntryLines, Filled;
      var section :| section in rest;
      var lines, entries := WriteEntries(overrides[section]);
      BlockAppended(doc, Block(section, entries));
      ListsMore(doc, Block(section, entries), overrides, rest);
      rest := rest - {section};
      doc := doc + [Block(section, entries)];
      text := text + ("\n" + "[" + section + "]" + "\n" + lines);
    }
  }

  lemma ListsMore(doc: seq<Block>, b: Block, overrides: Config, rest: set<string>)
    requires Filled(overrides) && rest <= overrides.Keys && Lists(doc, overrides, rest)
    requires b.name in rest && multiset(b.entries) == overrides[b.name]
    ensures Lists(doc + [b], overrides, rest - {b.name})
  {
    forall s
      ensures Total(doc + [b], s) == if s in rest - {b.name} then multiset{} else Of(overrides, s)
    {
      TotalAppend(doc, b, s);
    }
  }

  lemma BlockAppended(doc: seq<Block>, b: Block)
    ensures
      Unlines(DocLines(doc + [b])) ==
      Unlines(DocLines(doc)) + ("\n" + "[" + b.name + "]" + "\n" + Unlines(EntryLines(b.entries)))
  {
    BlockText(b);
    DocLinesAppend(doc, b);
    UnlinesAppend(DocLines(doc), BlockLines(b));
  }

  lemma BlockText(b: Block)
    ensures Unlines(BlockLines(b)) == "\n" + "[" + b.name + "]" + "\n" + Unlines(EntryLines(b.entries))
  {
    var header := "[" + b.name + "]";
    var rest := EntryLines(b.entries);
    assert BlockLines(b)[1..] == [header] + rest;
    assert ([header] + rest)[1..] == rest;
    assert Unlines([header] + rest) == header + "\n" + Unlines(rest);
    assert Unlines(BlockLines(b)) == "\n" + (header + "\n" + Unlines(rest));
  }
}
