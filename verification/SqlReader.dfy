/** A reader of generated statements, the independent partner of the printer. */
module SqlReader {
  import opened Prelude
  import opened Numerals
  import opened SqlScan
  import opened SqlText

  function ReadId(q: char, span: Span): Option<string> {
    if span.Token? then Unquote(q, span.text) else None
  }

  function ReadAlias(span: Span): Option<nat> {
    if span.Token? && |span.text| > 1 && span.text[0] == 't' && forall c | c in span.text[1..] :: c in DIGITS
    then Some(Value(span.text[1..]))
    else None
  }

  function ReadTable(q: char, s: seq<Span>): Option<Table> {
    if |s| != 3 || s[1] != Gap(".") then None
    else
      var namespace, name := ReadId(q, s[0]), ReadId(q, s[2]);
      if namespace.None? || name.None? then None else Some(Table(namespace.value, name.value))
  }

  /** One side of an equality: the alias number and the column. */
  function ReadColumn(q: char, s: seq<Span>): Option<(nat, string)> {
    if |s| != 3 || s[1] != Gap(".") then None
    else
      var alias, column := ReadAlias(s[0]), ReadId(q, s[2]);
      if alias.None? || column.None? then None else Some((alias.value, column.value))
  }

  /** The conditions after an ON, all between `alias` and one anchor; and what follows them. */
  function ReadOn(q: char, alias: nat, s: seq<Span>): (r: Option<(nat, seq<(string, string)>, seq<Span>)>)
    ensures r.Some? ==> |r.value.2| < |s|
    decreases |s|
  {
    if |s| < 7 || s[3] != Gap(" = ") then None
    else
      var left, right := ReadColumn(q, s[..3]), ReadColumn(q, s[4..7]);
      if left.None? || right.None? || right.value.0 != alias then None
      else
        var pair := (left.value.1, right.value.1);
        if |s| >= 10 && s[7..10] == [Gap(" "), Token("AND"), Gap(" ")] then
          var more := ReadOn(q, alias, s[10..]);
          if more.None? || more.value.0 != left.value.0 then None
          else Some((left.value.0, [pair] + more.value.1, more.value.2))
        else Some((left.value.0, [pair], s[7..]))
  }

  function ReadHead(q: char, alias: nat, s: seq<Span>): Option<Table> {
    if |s| != 10 || s[..2] != [Token("JOIN"), Gap(" ")] || s[5] != Gap(" ") || ReadAlias(s[6]) != Some(alias)
       || s[7..] != [Gap(" "), Token("ON"), Gap(" ")]
    then None
    else ReadTable(q, s[2..5])
  }

  function ReadJoins(q: char, alias: nat, s: seq<Span>): Option<seq<JoinedTable>>
    decreases |s|
  {
    if s == [] then Some([])
    else if |s| < 11 || s[0] != Gap("\n") then None
    else
      var table, on := ReadHead(q, alias, s[1..11]), ReadOn(q, alias, s[11..]);
      if table.None? || on.None? || on.value.0 == 0 then None
      else
        var rest := ReadJoins(q, alias + 1, on.value.2);
        if rest.None? then None
        else Some([JoinedTable(table.value, on.value.0 - 1, on.value.1)] + rest.value)
  }

  function ReadSpans(q: char, s: seq<Span>): Option<Statement> {
    if |s| < 9 || s[..4] != [Token("SELECT"), Gap(" *\n"), Token("FROM"), Gap(" ")]
       || s[7..9] != [Gap(" "), Token("t1")]
    then None
    else
      var root, joins := ReadTable(q, s[4..7]), ReadJoins(q, 2, s[9..]);
      if root.None? || joins.None? then None else Some(Statement(root.value, joins.value))
  }

  /** What a statement's text says, read from the text and the quote character alone. */
  function ReadStatement(q: char, sql: string): Option<Statement> {
    ReadSpans(q, Scan(sql))
  }

  // ---- Reading undoes printing --------------------------------------------------

  function Spans(q: char, ps: seq<Piece>): seq<Span> {
    Map(p => SpanOf(q, p), ps)
  }

  lemma {:induction false} SpansConcat(q: char, a: seq<Piece>, b: seq<Piece>)
    ensures Spans(q, a + b) == Spans(q, a) + Spans(q, b)
  {
  }

  lemma {:induction false} ReadsAlias(alias: nat)
    ensures ReadAlias(Token(Alias(alias))) == Some(alias)
  {
    assert Alias(alias)[1..] == NatText(alias);
    ValueOfNatText(alias);
  }

  lemma {:induction false} ReadsTable(q: char, t: Table)
    ensures ReadTable(q, Spans(q, RelationPieces(t))) == Some(t)
  {
    UnquoteQuote(q, t.namespace);
    UnquoteQuote(q, t.name);
  }

  lemma {:induction false} ReadsColumn(q: char, alias: nat, column: string)
    ensures ReadColumn(q, [Token(Alias(alias)), Gap("."), Token(Quote(q, column))]) == Some((alias, column))
  {
    ReadsAlias(alias);
    UnquoteQuote(q, column);
  }

  function PairSpans(q: char, anchor: nat, alias: nat, pair: (string, string)): seq<Span> {
    [Token(Alias(anchor)), Gap("."), Token(Quote(q, pair.0)), Gap(" = ")] +
    [Token(Alias(alias)), Gap("."), Token(Quote(q, pair.1))]
  }

  const AND_SPANS := [Gap(" "), Token("AND"), Gap(" ")]

  lemma {:induction false} PairSlots(q: char, anchor: nat, alias: nat, pair: (string, string), rest: seq<Span>)
    ensures var s := PairSpans(q, anchor, alias, pair) + rest;
            && |s| >= 7 && s[3] == Gap(" = ") && s[7..] == rest
            && ReadColumn(q, s[..3]) == Some((anchor, pair.0))
            && ReadColumn(q, s[4..7]) == Some((alias, pair.1))
  {
    var s := PairSpans(q, anchor, alias, pair) + rest;
    ReadsColumn(q, anchor, pair.0);
    ReadsColumn(q, alias, pair.1);
    assert s[..3] == [Token(Alias(anchor)), Gap("."), Token(Quote(q, pair.0))];
    assert s[4..7] == [Token(Alias(alias)), Gap("."), Token(Quote(q, pair.1))];
  }

  lemma {:induction false} ReadsLastPair(q: char, anchor: nat, alias: nat, pair: (string, string), rest: seq<Span>)
    requires rest == [] || rest[0] == Gap("\n")
    ensures ReadOn(q, alias, PairSpans(q, anchor, alias, pair) + rest) == Some((anchor, [pair], rest))
  {
    PairSlots(q, anchor, alias, pair, rest);
    var s := PairSpans(q, anchor, alias, pair) + rest;
    assert |s| >= 10 ==> s[7..10][0] == rest[0];
  }

  /** One more pair before an AND, once its parts are where the reader looks for them. */
  lemma {:induction false} ReadOnMore(
    q: char, anchor: nat, alias: nat, pair: (string, string), s: seq<Span>,
    more: seq<(string, string)>, rest: seq<Span>)
    requires |s| >= 10 && s[3] == Gap(" = ") && s[7..10] == AND_SPANS
    requires ReadColumn(q, s[..3]) == Some((anchor, pair.0)) && ReadColumn(q, s[4..7]) == Some((alias, pair.1))
    requires ReadOn(q, alias, s[10..]) == Some((anchor, more, rest))
    ensures ReadOn(q, alias, s) == Some((anchor, [pair] + more, rest))
  {
  }

  lemma {:induction false} ReadsPairAndMore(
    q: char, anchor: nat, alias: nat, pair: (string, string), after: seq<Span>,
    more: seq<(string, string)>, rest: seq<Span>)
    requires ReadOn(q, alias, after) == Some((anchor, more, rest))
    ensures ReadOn(q, alias, PairSpans(q, anchor, alias, pair) + (AND_SPANS + after))
         == Some((anchor, [pair] + more, rest))
  {
    PairSlots(q, anchor, alias, pair, AND_SPANS + after);
    var s := PairSpans(q, anchor, alias, pair) + (AND_SPANS + after);
    assert s[7..10] == AND_SPANS && s[10..] == after;
    ReadOnMore(q, anchor, alias, pair, s, more, rest);
  }

  lemma {:induction false} ReadsOn(q: char, anchor: nat, alias: nat, pairs: seq<(string, string)>, rest: seq<Span>)
    requires pairs != [] && (rest == [] || rest[0] == Gap("\n"))
    ensures ReadOn(q, alias, Spans(q, OnPieces(anchor, alias, pairs)) + rest) == Some((anchor, pairs, rest))
  {
    if |pairs| == 1 {
      assert pairs == [pairs[0]];
      OneOnSpans(q, anchor, alias, pairs[0]);
      ReadsLastPair(q, anchor, alias, pairs[0], rest);
    } else {
      var after := Spans(q, OnPieces(anchor, alias, pairs[1..])) + rest;
      ReadsOn(q, anchor, alias, pairs[1..], rest);
      MoreOnSpans(q, anchor, alias, pairs, rest, after);
      ReadsPairAndMore(q, anchor, alias, pairs[0], after, pairs[1..], rest);
      assert [pairs[0]] + pairs[1..] == pairs;
    }
  }

  lemma {:induction false} OneOnSpans(q: char, anchor: nat, alias: nat, pair: (string, string))
    ensures Spans(q, OnPieces(anchor, alias, [pair])) == PairSpans(q, anchor, alias, pair)
  {
  }

  lemma {:induction false} MoreOnSpans(
    q: char, anchor: nat, alias: nat, pairs: seq<(string, string)>, rest: seq<Span>, after: seq<Span>)
    requires |pairs| > 1 && after == Spans(q, OnPieces(anchor, alias, pairs[1..])) + rest
    ensures Spans(q, OnPieces(anchor, alias, pairs)) + rest
         == PairSpans(q, anchor, alias, pairs[0]) + (AND_SPANS + after)
  {
    AndSpans(q, PairPieces(anchor, alias, pairs[0]), OnPieces(anchor, alias, pairs[1..]), rest);
    OneOnSpans(q, anchor, alias, pairs[0]);
  }

  lemma {:induction false} AndSpans(q: char, first: seq<Piece>, more: seq<Piece>, rest: seq<Span>)
    ensures Spans(q, first + (AND_PIECES + more)) + rest == Spans(q, first) + (AND_SPANS + (Spans(q, more) + rest))
  {
    SpansConcat(q, first, AND_PIECES + more);
    SpansConcat(q, AND_PIECES, more);
    assert Spans(q, AND_PIECES) == AND_SPANS;
  }

  lemma {:induction false} ReadsHead(q: char, alias: nat, t: Table)
    ensures var s := Spans(q, HeadPieces(alias, t)); |s| == 10 && ReadHead(q, alias, s) == Some(t)
  {
    var s := Spans(q, HeadPieces(alias, t));
    ReadsAlias(alias);
    ReadsTable(q, t);
    assert s[2..5] == Spans(q, RelationPieces(t));
    assert s[..2] == [Token("JOIN"), Gap(" ")] && s[5] == Gap(" ") && s[6] == Token(Alias(alias));
    assert s[7..] == [Gap(" "), Token("ON"), Gap(" ")];
  }

  lemma {:induction false} ReadsJoins(q: char, alias: nat, joins: seq<JoinedTable>)
    requires forall j | j in joins :: j.pairs != []
    ensures ReadJoins(q, alias, Spans(q, JoinsPieces(alias, joins))) == Some(joins)
    decreases |joins|
  {
    if joins == [] {
      assert Spans(q, []) == [];
    } else {
      var j := joins[0];
      assert j in joins;
      ReadsJoins(q, alias + 1, joins[1..]);
      assert JoinsPieces(alias, joins) == [Space("\n")] + (JoinPieces(alias, j) + JoinsPieces(alias + 1, joins[1..]));
      ReadsFirstJoin(q, alias, j, JoinsPieces(alias + 1, joins[1..]), joins[1..], Spans(q, JoinsPieces(alias, joins)));
      assert [j] + joins[1..] == joins;
    }
  }

  lemma {:induction false} ReadsFirstJoin(
    q: char, alias: nat, j: JoinedTable, rest: seq<Piece>, more: seq<JoinedTable>, all: seq<Span>)
    requires j.pairs != [] && (rest == [] || rest[0] == Space("\n"))
    requires ReadJoins(q, alias + 1, Spans(q, rest)) == Some(more)
    requires all == Spans(q, [Space("\n")] + (JoinPieces(alias, j) + rest))
    ensures ReadJoins(q, alias, all) == Some([j] + more)
  {
    var head, on := HeadPieces(alias, j.table), OnPieces(j.anchor + 1, alias, j.pairs);
    JoinSpans(q, head, on, rest);
    ReadsJoinSpans(q, alias, j, Spans(q, head), Spans(q, on), Spans(q, rest), more, all);
  }

  lemma {:induction false} ReadsJoinSpans(
    q: char, alias: nat, j: JoinedTable, head: seq<Span>, on: seq<Span>, rest: seq<Span>, more: seq<JoinedTable>,
    all: seq<Span>)
    requires j.pairs != [] && (rest == [] || rest[0] == Gap("\n"))
    requires head == Spans(q, HeadPieces(alias, j.table)) && on == Spans(q, OnPieces(j.anchor + 1, alias, j.pairs))
    requires ReadJoins(q, alias + 1, rest) == Some(more)
    requires all == [Gap("\n")] + (head + (on + rest))
    ensures ReadJoins(q, alias, all) == Some([j] + more)
  {
    ReadsHead(q, alias, j.table);
    ReadsOn(q, j.anchor + 1, alias, j.pairs, rest);
    ReadsJoin(q, alias, j, head, on + rest, rest, more);
  }

  lemma {:induction false} JoinSpans(q: char, head: seq<Piece>, on: seq<Piece>, rest: seq<Piece>)
    ensures Spans(q, [Space("\n")] + ((head + on) + rest))
         == [Gap("\n")] + (Spans(q, head) + (Spans(q, on) + Spans(q, rest)))
  {
    SpansConcat(q, [Space("\n")], (head + on) + rest);
    SpansConcat(q, head + on, rest);
    SpansConcat(q, head, on);
  }

  lemma {:induction false} ReadsJoin(
    q: char, alias: nat, j: JoinedTable, head: seq<Span>, tail: seq<Span>, after: seq<Span>, more: seq<JoinedTable>)
    requires |head| == 10 && ReadHead(q, alias, head) == Some(j.table)
    requires ReadOn(q, alias, tail) == Some((j.anchor + 1, j.pairs, after))
    requires ReadJoins(q, alias + 1, after) == Some(more)
    ensures ReadJoins(q, alias, [Gap("\n")] + (head + tail)) == Some([j] + more)
  {
    var s := [Gap("\n")] + (head + tail);
    JoinSlots(head, tail);
    assert |tail| > 0;
    assert JoinedTable(j.table, j.anchor + 1 - 1, j.pairs) == j;
  }

  lemma {:induction false} JoinSlots(head: seq<Span>, tail: seq<Span>)
    requires |head| == 10
    ensures var s := [Gap("\n")] + (head + tail);
            s != [] && s[0] == Gap("\n") && s[1..11] == head && s[11..] == tail
  {
  }

  lemma {:induction false} Flatten<T>(select: seq<T>, from: seq<T>, relation: seq<T>, t1: seq<T>, joins: seq<T>)
    ensures select + ((from + (relation + t1)) + joins) == (select + from) + (relation + (t1 + joins))
  {
  }

  lemma {:induction false} RootSpans(q: char, s: Statement)
    ensures Spans(q, StatementPieces(s))
         == [Token("SELECT"), Gap(" *\n"), Token("FROM"), Gap(" ")]
            + (Spans(q, RelationPieces(s.root)) + ([Gap(" "), Token("t1")] + Spans(q, JoinsPieces(2, s.joins))))
  {
    var select, from, t1 := [Word("SELECT"), Space(" *\n")], [Word("FROM"), Space(" ")], [Space(" "), Word("t1")];
    var relation, joins := RelationPieces(s.root), JoinsPieces(2, s.joins);
    Flatten(select, from, relation, t1, joins);
    RootSpansFlat(q, select + from, relation, t1, joins);
    assert Spans(q, select + from) == [Token("SELECT"), Gap(" *\n"), Token("FROM"), Gap(" ")];
    assert Spans(q, t1) == [Gap(" "), Token("t1")];
  }

  lemma {:induction false} RootSpansFlat(
    q: char, opening: seq<Piece>, relation: seq<Piece>, t1: seq<Piece>, joins: seq<Piece>)
    ensures Spans(q, opening + (relation + (t1 + joins)))
         == Spans(q, opening) + (Spans(q, relation) + (Spans(q, t1) + Spans(q, joins)))
  {
    SpansConcat(q, opening, relation + (t1 + joins));
    SpansConcat(q, relation, t1 + joins);
    SpansConcat(q, t1, joins);
  }

  lemma {:induction false} ReadsRoot(q: char, s: Statement, relation: seq<Span>, joins: seq<Span>)
    requires |relation| == 3 && ReadTable(q, relation) == Some(s.root) && ReadJoins(q, 2, joins) == Some(s.joins)
    ensures ReadSpans(q, [Token("SELECT"), Gap(" *\n"), Token("FROM"), Gap(" ")]
                         + (relation + ([Gap(" "), Token("t1")] + joins))) == Some(s)
  {
    var spans := [Token("SELECT"), Gap(" *\n"), Token("FROM"), Gap(" ")]
                 + (relation + ([Gap(" "), Token("t1")] + joins));
    assert spans[4..7] == relation && spans[9..] == joins;
    assert spans[..4] == [Token("SELECT"), Gap(" *\n"), Token("FROM"), Gap(" ")];
    assert spans[7..9] == [Gap(" "), Token("t1")];
  }

  lemma {:induction false} ReadsSpans(q: char, s: Statement)
    requires Readable(s)
    ensures ReadSpans(q, Spans(q, StatementPieces(s))) == Some(s)
  {
    ReadsTable(q, s.root);
    ReadsJoins(q, 2, s.joins);
    RootSpans(q, s);
    ReadsRoot(q, s, Spans(q, RelationPieces(s.root)), Spans(q, JoinsPieces(2, s.joins)));
  }

  /**
   * Printed SQL is uniquely readable: whatever the identifiers hold, the text
   * gives back every table, anchor and column pair.
   */
  lemma {:induction false} SqlReadsBack(q: char, s: Statement)
    requires (q == ANSI || q == BACKTICK) && Readable(s)
    ensures ReadStatement(q, SqlOf(q, s)) == Some(s)
  {
    PrintStatement(q, s);
    StatementAlternates(s);
    ScanOfPrinted(q, StatementPieces(s));
    ReadsSpans(q, s);
  }
}
