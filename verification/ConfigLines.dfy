/** What the INI parser makes of any text at all: which characters count, which lines fail, and what stays then. */
module ConfigLines {
  import opened ConfigIni

  // ------------------------------------------------------------------------ characters

  /** Space, tab, line feed, vertical tab, form feed or carriage return. */
  predicate Blank(c: char)
  {
    c as int == 32 || 9 <= c as int <= 13
  }

  predicate AllBlank(s: string)
  {
    forall c | c in s :: Blank(c)
  }

  lemma {:induction false} TrimFrontDrops(s: string)
    ensures var r := TrimFront(s); |r| <= |s| && AllBlank(s[..|s| - |r|]) && r == s[|s| - |r|..]
    ensures TrimFront(s) == [] || !Blank(TrimFront(s)[0])
  {
    if s != [] && IsSpace(s[0]) {
      TrimFrontDrops(s[1..]);
      var n := |s| - |TrimFront(s)|;
      assert s[..n] == [s[0]] + s[1..][..n - 1];
    }
  }

  lemma {:induction false} TrimBackDrops(s: string)
    ensures var r := TrimBack(s); r <= s && AllBlank(s[|r|..])
    ensures TrimBack(s) == [] || !Blank(TrimBack(s)[|TrimBack(s)| - 1])
  {
    if s != [] && IsSpace(s[|s| - 1]) {
      var rest := s[..|s| - 1];
      TrimBackDrops(rest);
      var n := |TrimBack(s)|;
      assert s[n..] == rest[n..] + [s[|s| - 1]];
    }
  }

  /** Trimming drops the blanks at both ends, and nothing else. */
  lemma TrimDrops(s: string) returns (before: string, after: string)
    ensures s == before + Trim(s) + after && AllBlank(before) && AllBlank(after)
    ensures Trim(s) == [] || (!Blank(Trim(s)[0]) && !Blank(Trim(s)[|Trim(s)| - 1]))
  {
    hide TrimFront, TrimBack, Blank;
    var t := TrimFront(s);
    TrimFrontDrops(s);
    TrimBackDrops(t);
    before, after := s[..|s| - |t|], t[|Trim(s)|..];
    assert s == before + t && t == Trim(s) + after;
    assert Trim(s) != [] ==> Trim(s)[0] == t[0];
  }

  function Unix(text: string): (r: string)
    ensures |r| == |text|
  {
    seq(|text|, i requires 0 <= i < |text| => if text[i] == '\r' then '\n' else text[i])
  }

  /** Carriage returns end lines just as line feeds do. */
  lemma {:induction false} ReturnsAreBreaks(text: string)
    ensures Lines(text) == Lines(Unix(text))
    decreases |text|
  {
    if text != [] {
      var n := LineLength(text);
      SameLineLength(text);
      SameLine(text);
      if n < |text| {
        ReturnsAreBreaks(text[n + 1..]);
      }
      hide Unix, LineLength;
    }
  }

  lemma SameLine(text: string)
    ensures var n := LineLength(text); Unix(text)[..n] == text[..n]
    ensures var n := LineLength(text); n < |text| ==> Unix(text)[n + 1..] == Unix(text[n + 1..])
  {
    LineLengthIs(text);
    var n := LineLength(text);
    hide LineLength;
    forall i | 0 <= i < n
      ensures Unix(text)[i] == text[i]
    {
      assert text[i] in text[..n];
    }
  }

  lemma {:induction false} SameLineLength(text: string)
    ensures LineLength(Unix(text)) == LineLength(text)
  {
    if text != [] {
      assert Unix(text)[1..] == Unix(text[1..]);
      SameLineLength(text[1..]);
    }
  }

  /** Nothing else does. */
  lemma {:induction false} NothingElseBreaks(text: string)
    requires text != [] && '\n' !in text && '\r' !in text
    ensures Lines(text) == [text]
  {
    assert OneLine(text[..|text|]);
    LineEndsAt(text, |text|);
    assert text[..|text|] == text;
  }

  // ------------------------------------------------------------------------------ lines

  predicate LooksLikeHeader(t: string)
  {
    t != [] && t[0] == '[' && t[|t| - 1] == ']'
  }

  predicate LooksLikeComment(t: string)
  {
    t == [] || t[0] == ';' || t[0] == '#'
  }

  /** What kind a line is, by its trimmed text. */
  lemma KindExactly(line: string)
    ensures
      var t, kind := Trim(line), Classify(line);
      && (kind.Skip? <==> LooksLikeComment(t))
      && (kind.Header? <==> LooksLikeHeader(t)) && (kind.Header? ==> "[" + kind.name + "]" == t)
      && (kind.Malformed? <==> !LooksLikeComment(t) && !LooksLikeHeader(t) && ('=' !in t || t[0] == '='))
  {
    hide TrimFront, IsSpace;
    var t := Trim(line);
    TrimIs(line);
    KeyLengthIs(t);
    var n := KeyLength(t);
    if n < |t| {
      assert t[n] in t;
      KeyBlank(t, n);
    } else {
      assert t[..n] == t;
    }
    if t != [] && t[0] == '=' {
      KeyEndsAt(t, 0);
    }
    hide KeyLength, TrimBack;
  }

  /** What comes before the `=` is blank only if nothing does. */
  lemma KeyBlank(t: string, n: nat)
    requires Unpadded(t) && n < |t|
    ensures TrimBack(t[..n]) == [] <==> n == 0
  {
    TrimBackIs(t[..n]);
    if n > 0 && TrimBack(t[..n]) == [] {
      BlankToTheFront(t[..n]);
    }
  }

  lemma {:induction false} BlankToTheFront(s: string)
    requires s != [] && TrimBack(s) == []
    ensures IsSpace(s[0])
  {
    if |s| > 1 {
      BlankToTheFront(s[..|s| - 1]);
    }
  }

  /** A pair is cut at the first `=`, and blanks next to it belong to neither part. */
  lemma PairIsCut(line: string) returns (before: string, after: string)
    requires Classify(line).Pair?
    ensures
      var e := Classify(line).entry;
      && Trim(line) == e.key + before + "=" + after + e.value && AllBlank(before) && AllBlank(after)
      && '=' !in e.key + before && e.key != [] && !Blank(e.key[|e.key| - 1]) && (e.value == [] || !Blank(e.value[0]))
  {
    var t := Trim(line);
    var n := KeyLength(t);
    var e := Classify(line).entry;
    assert n < |t| && e == Entry(TrimBack(t[..n]), TrimFront(t[n + 1..])) && e.key != [];
    KeyLengthIs(t);
    hide Classify, KeyLength, Trim;
    TrimBackDrops(t[..n]);
    TrimFrontDrops(t[n + 1..]);
    hide TrimFront, TrimBack, Blank, AllBlank;
    before, after := t[..n][|e.key|..], t[n + 1..][..|t[n + 1..]| - |e.value|];
    Cut(t, n, e.key, before, after, e.value);
  }

  lemma Cut(t: string, n: nat, key: string, before: string, after: string, value: string)
    requires n < |t| && t[n] == '=' && t[..n] == key + before && t[n + 1..] == after + value
    ensures t == key + before + "=" + after + value
  {
    assert t == t[..n] + "=" + t[n + 1..];
    assert t[..n] + "=" + (after + value) == t[..n] + "=" + after + value;
  }

  // ------------------------------------------------------------------------------ texts

  predicate FirstMalformed(lines: seq<string>, n: nat)
  {
    n < |lines| && Classify(lines[n]).Malformed? && forall i | 0 <= i < n :: !Classify(lines[i]).Malformed?
  }

  lemma {:induction false} GoodLinesAreRead(p: Progress, lines: seq<string>)
    requires p.Reading? && forall i | 0 <= i < |lines| :: !Classify(lines[i]).Malformed?
    ensures FeedAll(p, lines).Reading?
    decreases |lines|
  {
    hide Classify;
    if lines != [] {
      GoodLinesAreRead(Feed(p, lines[0]), lines[1..]);
    }
  }

  lemma {:induction false} StopsAtMalformed(p: Progress, lines: seq<string>, n: nat)
    requires p.Reading? && FirstMalformed(lines, n)
    ensures FeedAll(p, lines) == Failed(FeedAll(p, lines[..n]).config) && FeedAll(p, lines[..n]).Reading?
    decreases |lines|
  {
    hide Classify;
    if n == 0 {
      FailedStays(p.config, lines[1..]);
      assert lines[..0] == [];
    } else {
      StopsAtMalformed(Feed(p, lines[0]), lines[1..], n - 1);
      assert lines[..n][1..] == lines[1..][..n - 1] && lines[..n][0] == lines[0];
    }
  }

  lemma {:induction false} FailedStays(config: Config, lines: seq<string>)
    ensures FeedAll(Failed(config), lines) == Failed(config)
  {
    if lines != [] {
      FailedStays(config, lines[1..]);
    }
  }

  lemma {:induction false} NoneMalformed(lines: seq<string>, i: nat)
    requires i < |lines| && !exists n: nat :: FirstMalformed(lines, n)
    ensures !Classify(lines[i]).Malformed?
  {
    hide Classify;
    forall j | 0 <= j < i
      ensures !Classify(lines[j]).Malformed?
    {
      NoneMalformed(lines, j);
    }
    assert !FirstMalformed(lines, i);
  }

  lemma FeedFailsExactly(p: Progress, lines: seq<string>)
    requires p.Reading?
    ensures FeedAll(p, lines).Failed? <==> exists n: nat :: FirstMalformed(lines, n)
    ensures forall n: nat | FirstMalformed(lines, n) :: FeedAll(p, lines).config == FeedAll(p, lines[..n]).config
  {
    hide Classify;
    forall n: nat | FirstMalformed(lines, n)
      ensures FeedAll(p, lines) == Failed(FeedAll(p, lines[..n]).config)
    {
      StopsAtMalformed(p, lines, n);
    }
    if !exists n: nat :: FirstMalformed(lines, n) {
      forall i | 0 <= i < |lines|
        ensures !Classify(lines[i]).Malformed?
      {
        NoneMalformed(lines, i);
      }
      GoodLinesAreRead(p, lines);
    }
  }

  /** Reading fails if and only if a line is malformed, and keeps what the lines before the first such say. */
  lemma FailsExactly(text: string, config: Config)
    ensures
      var lines, p := Lines(text), Parse(text, config);
      && (p.Failed? <==> exists n: nat :: FirstMalformed(lines, n))
      && (forall n: nat | FirstMalformed(lines, n) :: p.config == FeedAll(Reading("", config), lines[..n]).config)
  {
    hide FeedAll, Lines, FirstMalformed;
    FeedFailsExactly(Reading("", config), Lines(text));
    assert Parse(text, config) == FeedAll(Reading("", config), Lines(text));
  }
}
