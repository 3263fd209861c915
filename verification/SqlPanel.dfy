/** The query panel: the text split into lines, and each line highlighted. */
module SqlPanel {
  import opened Prelude
  import opened Numerals
  import opened SqlScan
  import opened SqlText

  function SplitLines(text: string): (lines: seq<string>)
    ensures lines != []
  {
    if text == "" then [""]
    else
      var rest := SplitLines(text[1..]);
      if text[0] == '\n' then [""] + rest else [[text[0]] + rest[0]] + rest[1..]
  }

  lemma {:induction false} SplitLine(line: string, rest: string)
    requires '\n' !in line
    ensures SplitLines(line) == [line]
    ensures SplitLines(line + ("\n" + rest)) == [line] + SplitLines(rest)
  {
    var text := line + ("\n" + rest);
    if line == "" {
      assert text == "\n" + rest && text[1..] == rest;
    } else {
      SplitLine(line[1..], rest);
      assert text[1..] == line[1..] + ("\n" + rest);
      assert [line[0]] + line[1..] == line;
    }
  }

  lemma {:induction false} SplitUndoesJoin(lines: seq<string>)
    requires lines != [] && forall l | l in lines :: '\n' !in l
    ensures SplitLines(JoinWith("\n", lines)) == lines
  {
    assert lines[0] in lines;
    if |lines| == 1 {
      SplitLine(lines[0], "");
    } else {
      SplitUndoesJoin(lines[1..]);
      SplitLine(lines[0], JoinWith("\n", lines[1..]));
      assert [lines[0]] + lines[1..] == lines;
    }
  }

  // ---- Newline-free identifiers make newline-free lines ------------------------------

  ghost predicate OneLine(q: char, ps: seq<Piece>) {
    forall p | p in ps :: '\n' !in Text(q, p)
  }

  predicate PlainTable(t: Table) {
    '\n' !in t.namespace && '\n' !in t.name
  }

  predicate PlainPair(pair: (string, string)) {
    '\n' !in pair.0 && '\n' !in pair.1
  }

  ghost predicate NewlineFree(s: Statement) {
    && PlainTable(s.root)
    && forall j | j in s.joins :: PlainTable(j.table) && forall pair | pair in j.pairs :: PlainPair(pair)
  }

  lemma {:induction false} EscapeAddsNoNewline(q: char, id: string)
    requires q != '\n' && '\n' !in id
    ensures '\n' !in Escape(q, id)
  {
    if id != "" {
      assert id[0] in id;
      EscapeAddsNoNewline(q, id[1..]);
    }
  }

  lemma {:induction false} QuotedOneLine(q: char, id: string)
    requires q != '\n' && '\n' !in id
    ensures OneLine(q, [Quoted(id)])
  {
    EscapeAddsNoNewline(q, id);
  }

  lemma {:induction false} AliasOneLine(q: char, alias: nat)
    ensures OneLine(q, [Word(Alias(alias))])
  {
    assert '\n' !in DIGITS;
  }

  lemma {:induction false} OneLineText(q: char, ps: seq<Piece>)
    requires OneLine(q, ps)
    ensures '\n' !in Print(q, ps)
  {
    if ps != [] {
      assert ps[0] in ps;
      OneLineText(q, ps[1..]);
    }
  }

  lemma {:induction false} TablesOneLine(q: char, t: Table)
    requires q != '\n' && PlainTable(t)
    ensures OneLine(q, RelationPieces(t))
  {
    QuotedOneLine(q, t.namespace);
    QuotedOneLine(q, t.name);
    assert RelationPieces(t) == [Quoted(t.namespace)] + [Space(".")] + [Quoted(t.name)];
    assert Quoted(t.namespace) in [Quoted(t.namespace)] && Quoted(t.name) in [Quoted(t.name)];
  }

  lemma {:induction false} PairOneLine(q: char, anchor: nat, alias: nat, pair: (string, string))
    requires q != '\n' && PlainPair(pair)
    ensures OneLine(q, PairPieces(anchor, alias, pair))
  {
    AliasOneLine(q, anchor);
    AliasOneLine(q, alias);
    QuotedOneLine(q, pair.0);
    QuotedOneLine(q, pair.1);
    assert Word(Alias(anchor)) in [Word(Alias(anchor))] && Word(Alias(alias)) in [Word(Alias(alias))];
    assert Quoted(pair.0) in [Quoted(pair.0)] && Quoted(pair.1) in [Quoted(pair.1)];
  }

  lemma {:induction false} OnOneLine(q: char, anchor: nat, alias: nat, pairs: seq<(string, string)>)
    requires q != '\n' && forall pair | pair in pairs :: PlainPair(pair)
    ensures OneLine(q, OnPieces(anchor, alias, pairs))
  {
    if pairs != [] {
      assert pairs[0] in pairs;
      PairOneLine(q, anchor, alias, pairs[0]);
      OnOneLine(q, anchor, alias, pairs[1..]);
      assert OneLine(q, AND_PIECES);
    }
  }

  lemma {:induction false} HeadOneLine(q: char, alias: nat, t: Table)
    requires q != '\n' && PlainTable(t)
    ensures OneLine(q, HeadPieces(alias, t))
  {
    TablesOneLine(q, t);
    AliasOneLine(q, alias);
    assert Word(Alias(alias)) in [Word(Alias(alias))];
    assert OneLine(q, AliasPieces(alias));
  }

  lemma {:induction false} JoinOneLine(q: char, alias: nat, j: JoinedTable)
    requires q != '\n' && PlainTable(j.table) && forall pair | pair in j.pairs :: PlainPair(pair)
    ensures OneLine(q, JoinPieces(alias, j))
  {
    HeadOneLine(q, alias, j.table);
    OnOneLine(q, j.anchor + 1, alias, j.pairs);
  }

  // ---- Each rendered line scans to the pieces the printer put on it ---------------------

  function LinePieces(s: Statement, k: nat): seq<Piece>
    requires k < 2 + |s.joins|
  {
    if k == 0 then [Word("SELECT"), Space(" *")]
    else if k == 1 then RootPieces(s.root)
    else JoinPieces(k, s.joins[k - 2])
  }

  lemma {:induction false} LinePrints(q: char, s: Statement, k: nat)
    requires k < 2 + |s.joins|
    ensures Print(q, LinePieces(s, k)) == Lines(q, s)[k]
  {
    if k == 0 {
      PrintTwo(q, Word("SELECT"), Space(" *"));
      assert "SELECT" + " *" == "SELECT *";
    } else if k == 1 {
      PrintRoot(q, s.root);
    } else {
      PrintJoin(q, k, s.joins[k - 2]);
    }
  }

  lemma {:induction false} LineAlternates(s: Statement, k: nat)
    requires Readable(s) && k < 2 + |s.joins|
    ensures Alternates(LinePieces(s, k))
  {
    if k == 1 {
      RootAlternates(s.root);
    } else if k > 1 {
      assert s.joins[k - 2] in s.joins;
      JoinAlternates(k, s.joins[k - 2]);
    }
  }

  lemma {:induction false} RootOneLine(q: char, t: Table)
    requires q != '\n' && PlainTable(t)
    ensures OneLine(q, RootPieces(t))
  {
    TablesOneLine(q, t);
    assert OneLine(q, [Word("FROM"), Space(" ")]) && OneLine(q, [Space(" "), Word("t1")]);
  }

  lemma {:induction false} LineIsOneLine(q: char, s: Statement, k: nat)
    requires q != '\n' && NewlineFree(s) && k < 2 + |s.joins|
    ensures '\n' !in Lines(q, s)[k]
  {
    LinePrints(q, s, k);
    if k == 1 {
      RootOneLine(q, s.root);
    } else if k > 1 {
      assert s.joins[k - 2] in s.joins;
      JoinOneLine(q, k, s.joins[k - 2]);
    }
    OneLineText(q, LinePieces(s, k));
  }

  /**
   * With newline-free identifiers the panel shows the printed lines, each split
   * back into the pieces it was printed from, and bold falls on the five words of
   * syntax alone, never inside a quoted identifier.
   */
  lemma {:induction false} PanelShowsThePieces(q: char, s: Statement)
    requires (q == ANSI || q == BACKTICK) && Readable(s) && NewlineFree(s)
    ensures |SplitLines(SqlOf(q, s))| == 2 + |s.joins|
    ensures forall k | 0 <= k < 2 + |s.joins| ::
              var line, ps := SplitLines(SqlOf(q, s))[k], LinePieces(s, k);
              && Scan(line) == Map(p => SpanOf(q, p), ps)
              && forall i | 0 <= i < |ps| :: IsKeyword(SpanOf(q, ps[i])) <==> ps[i].Word? && ps[i].word in KEYWORDS
  {
    var lines := Lines(q, s);
    forall l | l in lines ensures '\n' !in l {
      var k :| 0 <= k < |lines| && lines[k] == l;
      LineIsOneLine(q, s, k);
    }
    SplitUndoesJoin(lines);
    forall k | 0 <= k < |lines|
      ensures Scan(lines[k]) == Map(p => SpanOf(q, p), LinePieces(s, k))
      ensures forall i | 0 <= i < |LinePieces(s, k)| ::
        var p := LinePieces(s, k)[i]; IsKeyword(SpanOf(q, p)) <==> p.Word? && p.word in KEYWORDS
    {
      LinePrints(q, s, k);
      LineAlternates(s, k);
      ScanOfPrinted(q, LinePieces(s, k));
      forall i | 0 <= i < |LinePieces(s, k)|
        ensures var p := LinePieces(s, k)[i]; IsKeyword(SpanOf(q, p)) <==> p.Word? && p.word in KEYWORDS
      {
        OnlyWordsAreKeywords(q, LinePieces(s, k), i);
      }
    }
  }
}
