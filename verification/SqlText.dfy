/**
 * The SELECT a plan is printed as. A statement is a root table and the tables joined
 * onto it, each with the earlier table it hangs on and its column pairs; its text is
 * the lines the printer pushes, and also the concatenation of pieces, words, quoted
 * identifiers and the fixed text between them, that never run into each other. The
 * second form is the one a scanner can take apart again.
 */
module SqlText {
  import opened Prelude
  import opened Numerals
  import opened Ir
  import opened JoinPlan
  import opened SqlScan

  datatype Table = Table(namespace: string, name: string)

  /** `anchor` is the index of the table joined onto; `pairs` are anchor column, joined column. */
  datatype JoinedTable = JoinedTable(table: Table, anchor: nat, pairs: seq<(string, string)>)

  /** Everything a generated statement says. */
  datatype Statement = Statement(root: Table, joins: seq<JoinedTable>)

  ghost predicate Readable(s: Statement) {
    forall j | j in s.joins :: j.pairs != []
  }

  function TableOf(byId: map<string, Entity>, id: string): Table
    requires id in byId
  {
    Table(byId[id].namespace, byId[id].name)
  }

  function JoinedTableOf(byId: map<string, Entity>, step: JoinStep): JoinedTable
    requires step.entityId in byId && |step.on.anchor| == |step.on.joined|
  {
    JoinedTable(
      TableOf(byId, step.entityId),
      step.anchorIndex,
      seq(|step.on.anchor|, i requires 0 <= i < |step.on.anchor| => (step.on.anchor[i], step.on.joined[i])))
  }

  /** Every table of the plan is in the diagram, and every clause pairs its columns. */
  predicate Printable(byId: map<string, Entity>, included: seq<string>, steps: seq<JoinStep>) {
    && included != [] && included[0] in byId
    && forall s | s in steps :: s.entityId in byId && 0 < |s.on.anchor| == |s.on.joined|
  }

  function StatementOf(byId: map<string, Entity>, included: seq<string>, steps: seq<JoinStep>): Statement
    requires Printable(byId, included, steps)
  {
    Statement(
      TableOf(byId, included[0]),
      seq(|steps|, k requires 0 <= k < |steps| => JoinedTableOf(byId, steps[k])))
  }

  // ---- The text ----------------------------------------------------------------

  function JoinWith(separator: string, parts: seq<string>): string {
    if parts == [] then ""
    else if |parts| == 1 then parts[0]
    else parts[0] + (separator + JoinWith(separator, parts[1..]))
  }

  function Alias(n: nat): string {
    "t" + NatText(n)
  }

  function RelationText(q: char, t: Table): string {
    Quote(q, t.namespace) + "." + Quote(q, t.name)
  }

  function PairText(q: char, anchor: nat, alias: nat, pair: (string, string)): string {
    Alias(anchor) + "." + Quote(q, pair.0) + " = " + Alias(alias) + "." + Quote(q, pair.1)
  }

  function OnText(q: char, anchor: nat, alias: nat, pairs: seq<(string, string)>): string {
    JoinWith(" AND ", Map(pair => PairText(q, anchor, alias, pair), pairs))
  }

  function AliasText(alias: nat): string {
    " " + Alias(alias) + " ON "
  }

  function JoinHead(q: char, alias: nat, t: Table): string {
    "JOIN " + RelationText(q, t) + AliasText(alias)
  }

  function JoinLine(q: char, alias: nat, j: JoinedTable): string {
    JoinHead(q, alias, j.table) + OnText(q, j.anchor + 1, alias, j.pairs)
  }

  function Lines(q: char, s: Statement): (lines: seq<string>)
    ensures |lines| == 2 + |s.joins|
  {
    ["SELECT *", "FROM " + RelationText(q, s.root) + " t1"] +
    seq(|s.joins|, k requires 0 <= k < |s.joins| => JoinLine(q, k + 2, s.joins[k]))
  }

  function SqlOf(q: char, s: Statement): string {
    JoinWith("\n", Lines(q, s))
  }

  method RenderSelect(byId: map<string, Entity>, q: char, included: seq<string>, steps: seq<JoinStep>)
    returns (sql: string)
    requires Printable(byId, included, steps)
    ensures sql == SqlOf(q, StatementOf(byId, included, steps))
  {
    ghost var s := StatementOf(byId, included, steps);
    var lines := ["SELECT *", "FROM " + RelationText(q, TableOf(byId, included[0])) + " t1"];
    for position := 0 to |steps|
      invariant |lines| == 2 + position && lines == Lines(q, s)[..2 + position]
    {
      var step := steps[position];
      assert step in steps;
      var j := JoinedTableOf(byId, step);
      assert j == s.joins[position];
      lines := lines + [JoinLine(q, position + 2, j)];
    }
    assert lines == Lines(q, s);
    sql := JoinWith("\n", lines);
  }

  // ---- The text as pieces ---------------------------------------------------------

  function RelationPieces(t: Table): seq<Piece> {
    [Quoted(t.namespace), Space("."), Quoted(t.name)]
  }

  function PairPieces(anchor: nat, alias: nat, pair: (string, string)): seq<Piece> {
    [Word(Alias(anchor)), Space("."), Quoted(pair.0), Space(" = ")] +
    [Word(Alias(alias)), Space("."), Quoted(pair.1)]
  }

  const AND_PIECES := [Space(" "), Word("AND"), Space(" ")]

  function OnPieces(anchor: nat, alias: nat, pairs: seq<(string, string)>): seq<Piece> {
    if pairs == [] then []
    else if |pairs| == 1 then PairPieces(anchor, alias, pairs[0])
    else PairPieces(anchor, alias, pairs[0]) + (AND_PIECES + OnPieces(anchor, alias, pairs[1..]))
  }

  function AliasPieces(alias: nat): seq<Piece> {
    [Space(" "), Word(Alias(alias)), Space(" "), Word("ON"), Space(" ")]
  }

  function HeadPieces(alias: nat, t: Table): seq<Piece> {
    [Word("JOIN"), Space(" ")] + (RelationPieces(t) + AliasPieces(alias))
  }

  function JoinPieces(alias: nat, j: JoinedTable): seq<Piece> {
    HeadPieces(alias, j.table) + OnPieces(j.anchor + 1, alias, j.pairs)
  }

  function JoinsPieces(alias: nat, joins: seq<JoinedTable>): seq<Piece>
    decreases |joins|
  {
    if joins == [] then []
    else [Space("\n")] + (JoinPieces(alias, joins[0]) + JoinsPieces(alias + 1, joins[1..]))
  }

  function RootPieces(t: Table): seq<Piece> {
    [Word("FROM"), Space(" ")] + (RelationPieces(t) + [Space(" "), Word("t1")])
  }

  function StatementPieces(s: Statement): seq<Piece> {
    [Word("SELECT"), Space(" *\n")] + (RootPieces(s.root) + JoinsPieces(2, s.joins))
  }

  lemma {:induction false} PrintConcat(q: char, a: seq<Piece>, b: seq<Piece>)
    ensures Print(q, a + b) == Print(q, a) + Print(q, b)
  {
    if a == [] {
      assert a + b == b;
    } else {
      PrintConcat(q, a[1..], b);
      assert (a + b)[1..] == a[1..] + b;
    }
  }

  lemma {:induction false} PrintOne(q: char, p: Piece)
    ensures Print(q, [p]) == Text(q, p)
  {
    assert [p][1..] == [];
  }

  lemma {:induction false} PrintTwo(q: char, a: Piece, b: Piece)
    ensures Print(q, [a, b]) == Text(q, a) + Text(q, b)
  {
    PrintOne(q, b);
    assert [a, b][1..] == [b];
  }

  lemma {:induction false} PrintThree(q: char, a: Piece, b: Piece, c: Piece)
    ensures Print(q, [a, b, c]) == Text(q, a) + Text(q, b) + Text(q, c)
  {
    PrintTwo(q, b, c);
    assert [a, b, c][1..] == [b, c];
  }

  lemma {:induction false} PrintPair(q: char, anchor: nat, alias: nat, pair: (string, string))
    ensures Print(q, PairPieces(anchor, alias, pair)) == PairText(q, anchor, alias, pair)
  {
    var left := [Word(Alias(anchor)), Space("."), Quoted(pair.0), Space(" = ")];
    var right := [Word(Alias(alias)), Space("."), Quoted(pair.1)];
    PrintThree(q, left[0], left[1], left[2]);
    PrintOne(q, left[3]);
    assert left == [left[0], left[1], left[2]] + [left[3]];
    PrintConcat(q, [left[0], left[1], left[2]], [left[3]]);
    PrintThree(q, right[0], right[1], right[2]);
    PrintConcat(q, left, right);
  }

  lemma {:induction false} PrintOn(q: char, anchor: nat, alias: nat, pairs: seq<(string, string)>)
    ensures Print(q, OnPieces(anchor, alias, pairs)) == OnText(q, anchor, alias, pairs)
  {
    var texts := Map(pair => PairText(q, anchor, alias, pair), pairs);
    if pairs != [] {
      PrintPair(q, anchor, alias, pairs[0]);
      if |pairs| > 1 {
        PrintOn(q, anchor, alias, pairs[1..]);
        assert texts[1..] == Map(pair => PairText(q, anchor, alias, pair), pairs[1..]);
        var more := OnPieces(anchor, alias, pairs[1..]);
        PrintConcat(q, PairPieces(anchor, alias, pairs[0]), AND_PIECES + more);
        PrintConcat(q, AND_PIECES, more);
        PrintThree(q, Space(" "), Word("AND"), Space(" "));
        assert " " + "AND" + " " == " AND ";
      }
    }
  }

  lemma {:induction false} PrintRelation(q: char, t: Table)
    ensures Print(q, RelationPieces(t)) == RelationText(q, t)
  {
    PrintThree(q, Quoted(t.namespace), Space("."), Quoted(t.name));
  }

  lemma {:induction false} PrintAlias(q: char, alias: nat)
    ensures Print(q, AliasPieces(alias)) == AliasText(alias)
  {
    PrintThree(q, Space(" "), Word(Alias(alias)), Space(" "));
    PrintTwo(q, Word("ON"), Space(" "));
    PrintConcat(q, [Space(" "), Word(Alias(alias)), Space(" ")], [Word("ON"), Space(" ")]);
    assert AliasPieces(alias) == [Space(" "), Word(Alias(alias)), Space(" ")] + [Word("ON"), Space(" ")];
    assert " " + "ON" + " " == " ON ";
  }

  lemma {:induction false} PrintHead(q: char, alias: nat, t: Table)
    ensures Print(q, HeadPieces(alias, t)) == JoinHead(q, alias, t)
  {
    PrintTwo(q, Word("JOIN"), Space(" "));
    PrintRelation(q, t);
    PrintAlias(q, alias);
    PrintConcat(q, [Word("JOIN"), Space(" ")], RelationPieces(t) + AliasPieces(alias));
    PrintConcat(q, RelationPieces(t), AliasPieces(alias));
    assert "JOIN" + " " == "JOIN ";
    ConcatAssociates("JOIN ", RelationText(q, t), AliasText(alias));
  }

  lemma {:induction false} PrintJoin(q: char, alias: nat, j: JoinedTable)
    ensures Print(q, JoinPieces(alias, j)) == JoinLine(q, alias, j)
  {
    PrintHead(q, alias, j.table);
    PrintOn(q, j.anchor + 1, alias, j.pairs);
    PrintConcat(q, HeadPieces(alias, j.table), OnPieces(j.anchor + 1, alias, j.pairs));
  }

  lemma {:induction false} PrintRoot(q: char, t: Table)
    ensures Print(q, RootPieces(t)) == "FROM " + RelationText(q, t) + " t1"
  {
    PrintTwo(q, Word("FROM"), Space(" "));
    PrintRelation(q, t);
    PrintTwo(q, Space(" "), Word("t1"));
    PrintConcat(q, [Word("FROM"), Space(" ")], RelationPieces(t) + [Space(" "), Word("t1")]);
    PrintConcat(q, RelationPieces(t), [Space(" "), Word("t1")]);
    assert "FROM" + " " == "FROM " && " " + "t1" == " t1";
  }

  function JoinLines(q: char, alias: nat, joins: seq<JoinedTable>): seq<string> {
    seq(|joins|, k requires 0 <= k < |joins| => JoinLine(q, alias + k, joins[k]))
  }

  function TailText(lines: seq<string>): string {
    if lines == [] then "" else "\n" + (lines[0] + TailText(lines[1..]))
  }

  lemma {:induction false} JoinWithTail(lines: seq<string>)
    requires lines != []
    ensures JoinWith("\n", lines) == lines[0] + TailText(lines[1..])
  {
    if |lines| > 1 {
      JoinWithTail(lines[1..]);
    }
  }

  lemma {:induction false} PrintJoins(q: char, alias: nat, joins: seq<JoinedTable>)
    ensures Print(q, JoinsPieces(alias, joins)) == TailText(JoinLines(q, alias, joins))
    decreases |joins|
  {
    if joins != [] {
      var first, rest := JoinPieces(alias, joins[0]), JoinsPieces(alias + 1, joins[1..]);
      PrintJoin(q, alias, joins[0]);
      PrintJoins(q, alias + 1, joins[1..]);
      PrintOne(q, Space("\n"));
      PrintConcat(q, [Space("\n")], first + rest);
      PrintConcat(q, first, rest);
      TailOfJoinLines(q, alias, joins);
    }
  }

  lemma {:induction false} TailOfJoinLines(q: char, alias: nat, joins: seq<JoinedTable>)
    requires joins != []
    ensures TailText(JoinLines(q, alias, joins))
         == "\n" + (JoinLine(q, alias, joins[0]) + TailText(JoinLines(q, alias + 1, joins[1..])))
  {
    var lines := JoinLines(q, alias, joins);
    LaterJoinLines(q, alias, joins);
    assert lines[0] == JoinLine(q, alias, joins[0]);
    TailUnfolds(lines);
  }

  lemma {:induction false} LaterJoinLines(q: char, alias: nat, joins: seq<JoinedTable>)
    requires joins != []
    ensures JoinLines(q, alias, joins)[1..] == JoinLines(q, alias + 1, joins[1..])
  {
  }

  lemma {:induction false} TailUnfolds(lines: seq<string>)
    requires lines != []
    ensures TailText(lines) == "\n" + (lines[0] + TailText(lines[1..]))
  {
  }

  /** The pieces print exactly the text the source joins line by line. */
  lemma {:induction false} PrintStatement(q: char, s: Statement)
    ensures Print(q, StatementPieces(s)) == SqlOf(q, s)
  {
    var root, joins := RootPieces(s.root), JoinsPieces(2, s.joins);
    PrintTwo(q, Word("SELECT"), Space(" *\n"));
    PrintRoot(q, s.root);
    PrintJoins(q, 2, s.joins);
    PrintConcat(q, [Word("SELECT"), Space(" *\n")], root + joins);
    PrintConcat(q, root, joins);
    assert "SELECT" + " *\n" == "SELECT *" + "\n";
    ConcatAssociates("SELECT *", "\n", Print(q, root + joins));
    SqlOfUnfolds(q, s);
  }

  lemma {:induction false} SqlOfUnfolds(q: char, s: Statement)
    ensures SqlOf(q, s) ==
      "SELECT *" + ("\n" + (("FROM " + RelationText(q, s.root) + " t1") + TailText(JoinLines(q, 2, s.joins))))
  {
    var lines := Lines(q, s);
    JoinWithTail(lines);
    assert lines[1..][1..] == JoinLines(q, 2, s.joins);
  }

  // ---- Every statement is well spaced ------------------------------------------------

  lemma {:induction false} AlternatesConcat(a: seq<Piece>, b: seq<Piece>)
    requires Alternates(a) && Alternates(b)
    requires a != [] && b != [] ==> a[|a| - 1].Space? != b[0].Space?
    ensures Alternates(a + b)
  {
    forall i | 0 <= i < |a + b| - 1 ensures (a + b)[i].Space? != (a + b)[i + 1].Space? {
      if i < |a| - 1 {
        assert a[i].Space? != a[i + 1].Space?;
      } else if i >= |a| {
        assert b[i - |a|].Space? != b[i - |a| + 1].Space?;
      }
    }
  }

  lemma {:induction false} AliasIsWord(alias: nat)
    ensures IsWord(Alias(alias))
  {
    forall c | c in Alias(alias) ensures IsWordChar(c) {
      assert c == 't' || c in NatText(alias);
    }
  }

  lemma {:induction false} PairAlternates(anchor: nat, alias: nat, pair: (string, string))
    ensures Alternates(PairPieces(anchor, alias, pair))
  {
    AliasIsWord(anchor);
    AliasIsWord(alias);
  }

  lemma {:induction false} OnAlternates(anchor: nat, alias: nat, pairs: seq<(string, string)>)
    requires pairs != []
    ensures var ps := OnPieces(anchor, alias, pairs);
            ps != [] && Alternates(ps) && !ps[0].Space? && !ps[|ps| - 1].Space?
  {
    PairAlternates(anchor, alias, pairs[0]);
    if |pairs| > 1 {
      OnAlternates(anchor, alias, pairs[1..]);
      var rest := OnPieces(anchor, alias, pairs[1..]);
      AlternatesConcat(AND_PIECES, rest);
      AlternatesConcat(PairPieces(anchor, alias, pairs[0]), AND_PIECES + rest);
    }
  }

  lemma {:induction false} HeadAlternates(alias: nat, t: Table)
    ensures var ps := HeadPieces(alias, t); Alternates(ps) && !ps[0].Space? && ps[|ps| - 1].Space?
  {
    AliasIsWord(alias);
    AlternatesConcat(RelationPieces(t), AliasPieces(alias));
    AlternatesConcat([Word("JOIN"), Space(" ")], RelationPieces(t) + AliasPieces(alias));
  }

  lemma {:induction false} JoinAlternates(alias: nat, j: JoinedTable)
    requires j.pairs != []
    ensures var ps := JoinPieces(alias, j); ps != [] && Alternates(ps) && !ps[0].Space? && !ps[|ps| - 1].Space?
  {
    HeadAlternates(alias, j.table);
    OnAlternates(j.anchor + 1, alias, j.pairs);
    AlternatesConcat(HeadPieces(alias, j.table), OnPieces(j.anchor + 1, alias, j.pairs));
  }

  lemma {:induction false} JoinsAlternate(alias: nat, joins: seq<JoinedTable>)
    requires forall j | j in joins :: j.pairs != []
    ensures var ps := JoinsPieces(alias, joins); Alternates(ps) && (ps != [] ==> ps[0].Space?)
    decreases |joins|
  {
    if joins != [] {
      assert joins[0] in joins;
      JoinAlternates(alias, joins[0]);
      JoinsAlternate(alias + 1, joins[1..]);
      AlternatesConcat(JoinPieces(alias, joins[0]), JoinsPieces(alias + 1, joins[1..]));
      AlternatesConcat([Space("\n")], JoinPieces(alias, joins[0]) + JoinsPieces(alias + 1, joins[1..]));
    }
  }

  lemma {:induction false} RootAlternates(t: Table)
    ensures var ps := RootPieces(t); Alternates(ps) && !ps[0].Space? && !ps[|ps| - 1].Space?
  {
    AlternatesConcat(RelationPieces(t), [Space(" "), Word("t1")]);
    AlternatesConcat([Word("FROM"), Space(" ")], RelationPieces(t) + [Space(" "), Word("t1")]);
  }

  lemma {:induction false} StatementAlternates(s: Statement)
    requires Readable(s)
    ensures Alternates(StatementPieces(s))
  {
    RootAlternates(s.root);
    JoinsAlternate(2, s.joins);
    AlternatesConcat(RootPieces(s.root), JoinsPieces(2, s.joins));
    AlternatesConcat([Word("SELECT"), Space(" *\n")], RootPieces(s.root) + JoinsPieces(2, s.joins));
  }
}
