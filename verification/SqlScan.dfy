/** Quoted identifiers, and the token scanner the query panel highlights with. */
module SqlScan {
  import opened Prelude

  const ANSI := '"'
  const BACKTICK := '`'

  /** `quoterFor`, on the dialect as trimmed and lower-cased: anything unknown is ANSI. */
  function QuoteFor(dialect: string): (q: char)
    ensures q == BACKTICK <==> dialect == "databricks"
  {
    if dialect == "databricks" then BACKTICK else ANSI
  }

  function Escape(q: char, id: string): string {
    if id == "" then ""
    else (if id[0] == q then [q, q] else [id[0]]) + Escape(q, id[1..])
  }

  function Quote(q: char, id: string): string {
    [q] + Escape(q, id) + [q]
  }

  // ---- The TOKEN expression --------------------------------------------------

  predicate IsWordStart(c: char) {
    'A' <= c <= 'Z' || 'a' <= c <= 'z' || c == '_'
  }

  predicate IsDigit(c: char) {
    '0' <= c <= '9'
  }

  predicate IsWordChar(c: char) {
    IsWordStart(c) || IsDigit(c)
  }

  predicate StartsToken(c: char) {
    c == ANSI || c == BACKTICK || IsWordStart(c)
  }

  function WordLength(s: string): (n: nat)
    ensures n <= |s|
  {
    if s == "" || !IsWordChar(s[0]) then 0 else 1 + WordLength(s[1..])
  }

  /**
   * Where a quoted match that has consumed `s[..i]` ends, or 0 for no match. A
   * doubled quote is consumed as one; if the text then runs out unclosed, the
   * expression backtracks to close on the first half of the last doubled quote.
   */
  function QuotedEnd(q: char, s: string, i: nat, fallback: nat): (n: nat)
    requires i <= |s| && fallback <= i
    ensures n <= |s| && (n == 0 || n >= i || n == fallback)
    decreases |s| - i
  {
    if i == |s| then fallback
    else if s[i] != q then QuotedEnd(q, s, i + 1, fallback)
    else if i + 1 < |s| && s[i + 1] == q then QuotedEnd(q, s, i + 2, i + 1)
    else i + 1
  }

  /** The length of the token `s` starts with, or 0 when none starts here. */
  function TokenLength(s: string): (n: nat)
    ensures n <= |s|
    ensures n > 0 ==> StartsToken(s[0])
  {
    if s == "" then 0
    else if s[0] == ANSI || s[0] == BACKTICK then QuotedEnd(s[0], s, 1, 0)
    else if IsWordStart(s[0]) then WordLength(s)
    else 0
  }

  /** How much of `s` precedes the first token. */
  function GapLength(s: string): (n: nat)
    ensures n <= |s|
    ensures n == |s| || TokenLength(s[n..]) > 0
  {
    if s == "" || TokenLength(s) > 0 then
      assert s[0..] == s;
      0
    else
      var n := 1 + GapLength(s[1..]);
      assert s[n..] == s[1..][n - 1..];
      n
  }

  /** The match found is the leftmost one. */
  lemma {:induction false} NoTokenInGap(s: string, k: nat)
    requires k < GapLength(s)
    ensures TokenLength(s[k..]) == 0
  {
    if k == 0 {
      assert s[0..] == s;
    } else {
      assert s[k..] == s[1..][k - 1..];
      NoTokenInGap(s[1..], k - 1);
    }
  }

  datatype Span = Gap(text: string) | Token(text: string)

  const KEYWORDS := {"SELECT", "FROM", "JOIN", "ON", "AND"}

  /** Rendered bold. */
  predicate IsKeyword(span: Span) {
    span.Token? && (span.text == "" || (span.text[0] != ANSI && span.text[0] != BACKTICK)) && span.text in KEYWORDS
  }

  /** The spans one text is rendered as, every character in exactly one. */
  function Scan(s: string): seq<Span>
    decreases |s|
  {
    if s == "" then []
    else
      var token := TokenLength(s);
      if token > 0 then [Token(s[..token])] + Scan(s[token..])
      else
        var gap := GapLength(s);
        [Gap(s[..gap])] + Scan(s[gap..])
  }

  function TextOf(spans: seq<Span>): string {
    if spans == [] then "" else spans[0].text + TextOf(spans[1..])
  }

  /** Nothing is added, dropped or reordered, on any line at all. */
  lemma {:induction false} ScanKeepsEveryCharacter(s: string)
    ensures TextOf(Scan(s)) == s
    decreases |s|
  {
    if s != "" {
      var token := TokenLength(s);
      var n := if token > 0 then token else GapLength(s);
      assert s[0..] == s;
      ScanKeepsEveryCharacter(s[n..]);
      assert s == s[..n] + s[n..];
    }
  }

  /** `TOKEN.exec` from `lastIndex`: the leftmost match at or after it. */
  function Exec(line: string, from: nat): (m: Option<(nat, nat)>)
    requires from <= |line|
    ensures m.None? ==> from + GapLength(line[from..]) == |line|
    ensures m.Some? ==>
      && m.value.0 == from + GapLength(line[from..])
      && m.value.0 < m.value.1 == m.value.0 + TokenLength(line[m.value.0..]) <= |line|
  {
    var start := from + GapLength(line[from..]);
    if start == |line| then None
    else
      assert line[start..] == line[from..][start - from..];
      Some((start, start + TokenLength(line[start..])))
  }

  method HighlightSqlLine(line: string) returns (parts: seq<Span>)
    ensures parts == Scan(line)
    ensures TextOf(parts) == line
  {
    ghost var whole := Scan(line);
    ScanKeepsEveryCharacter(line);
    parts := [];
    var lastIndex := 0;
    assert line[0..] == line;
    var found := Exec(line, 0);
    while found.Some?
      invariant lastIndex <= |line| && found == Exec(line, lastIndex)
      invariant whole == parts + Scan(line[lastIndex..])
      decreases |line| - lastIndex
    {
      var (start, end) := found.value;
      ScanTurn(line, lastIndex, start, end, parts);
      parts := (parts + GapBetween(line, lastIndex, start)) + [Token(line[start..end])];
      lastIndex := end;
      found := Exec(line, lastIndex);
    }
    ScanTail(line, lastIndex);
    parts := parts + GapBetween(line, lastIndex, |line|);
  }

  function GapBetween(line: string, from: nat, start: nat): seq<Span>
    requires from <= start <= |line|
  {
    if start > from then [Gap(line[from..start])] else []
  }

  /** One turn of the loop: the gap `exec` skipped, then the token it found. */
  lemma {:induction false} ScanTurn(line: string, from: nat, start: nat, end: nat, done: seq<Span>)
    requires from <= start < end <= |line|
    requires start == from + GapLength(line[from..]) && end == start + TokenLength(line[start..])
    ensures done + Scan(line[from..])
         == ((done + GapBetween(line, from, start)) + [Token(line[start..end])]) + Scan(line[end..])
  {
    ScanGapBefore(line, from, start);
    ScanTokenAt(line, start, end);
    Regroup(done, GapBetween(line, from, start), Scan(line[start..]), [Token(line[start..end])], Scan(line[end..]));
  }

  lemma {:induction false} Regroup<T>(done: seq<T>, gap: seq<T>, rest: seq<T>, token: seq<T>, after: seq<T>)
    requires rest == token + after
    ensures done + (gap + rest) == ((done + gap) + token) + after
    ensures done + [] == done && [] + rest == rest
  {
  }

  /** After the last match only a gap is left. */
  lemma {:induction false} ScanTail(line: string, from: nat)
    requires from <= |line| && from + GapLength(line[from..]) == |line|
    ensures Scan(line[from..]) == GapBetween(line, from, |line|)
  {
    assert line[|line|..] == "" && Scan("") == [];
    ScanGapBefore(line, from, |line|);
  }

  lemma {:induction false} ScanTokenAt(line: string, start: nat, end: nat)
    requires start < end <= |line| && end == start + TokenLength(line[start..])
    ensures Scan(line[start..]) == [Token(line[start..end])] + Scan(line[end..])
  {
    SliceOfSlice(line, start, end);
    ScanTokenHere(line[start..], line[start..end], line[end..]);
  }

  lemma {:induction false} ScanTokenHere(here: string, token: string, rest: string)
    requires 0 < TokenLength(here) <= |here|
    requires token == here[..TokenLength(here)] && rest == here[TokenLength(here)..]
    ensures Scan(here) == [Token(token)] + Scan(rest)
  {
  }

  /** What `exec` skipped is one gap. */
  lemma {:induction false} ScanGapBefore(line: string, from: nat, start: nat)
    requires from <= start <= |line| && start == from + GapLength(line[from..])
    ensures start == from || Scan(line[from..]) == [Gap(line[from..start])] + Scan(line[start..])
  {
    if start > from {
      SliceOfSlice(line, from, start);
      ScanGapHere(line[from..], line[from..start], line[start..]);
    }
  }

  lemma {:induction false} SliceOfSlice(line: string, from: nat, start: nat)
    requires from <= start <= |line|
    ensures line[from..start] == line[from..][..start - from] && line[start..] == line[from..][start - from..]
  {
  }

  lemma {:induction false} ScanGapHere(here: string, gap: string, rest: string)
    requires 0 < GapLength(here) <= |here|
    requires gap == here[..GapLength(here)] && rest == here[GapLength(here)..]
    ensures Scan(here) == [Gap(gap)] + Scan(rest)
  {
  }

  // ---- Printed pieces scan back to themselves ----------------------------------

  datatype Piece = Word(word: string) | Quoted(id: string) | Space(text: string)

  function Text(q: char, p: Piece): string {
    match p
    case Word(word) => word
    case Quoted(id) => Quote(q, id)
    case Space(text) => text
  }

  function Print(q: char, ps: seq<Piece>): string {
    if ps == [] then "" else Text(q, ps[0]) + Print(q, ps[1..])
  }

  function SpanOf(q: char, p: Piece): Span {
    if p.Space? then Gap(p.text) else Token(Text(q, p))
  }

  predicate IsWord(word: string) {
    word != "" && IsWordStart(word[0]) && forall c | c in word :: IsWordChar(c)
  }

  predicate IsSpace(text: string) {
    text != "" && forall c | c in text :: !IsWordChar(c) && c != ANSI && c != BACKTICK
  }

  predicate PieceOk(p: Piece) {
    match p
    case Word(word) => IsWord(word)
    case Quoted(_) => true
    case Space(text) => IsSpace(text)
  }

  /** Tokens and spaces take turns, so every token is followed by a space or by the end. */
  predicate Alternates(ps: seq<Piece>) {
    && (forall p | p in ps :: PieceOk(p))
    && (forall i | 0 <= i < |ps| - 1 :: ps[i].Space? != ps[i + 1].Space?)
  }

  /** What may stand directly after a token. */
  predicate EndsToken(q: char, after: string) {
    after == "" || (!IsWordChar(after[0]) && after[0] != q)
  }

  lemma {:induction false} WordExact(word: string, after: string)
    requires forall c | c in word :: IsWordChar(c)
    requires after == "" || !IsWordChar(after[0])
    ensures WordLength(word + after) == |word|
  {
    if word == "" {
      assert word + after == after;
    } else {
      assert (word + after)[1..] == word[1..] + after;
      WordExact(word[1..], after);
    }
  }

  /** Inside a quoted identifier every quote is doubled, so the first lone one closes it. */
  lemma {:induction false} QuotedExact(q: char, s: string, i: nat, id: string, after: string, fallback: nat)
    requires fallback <= i <= |s| && s[i..] == Escape(q, id) + ([q] + after)
    requires after == "" || after[0] != q
    ensures QuotedEnd(q, s, i, fallback) == i + |Escape(q, id)| + 1
    decreases |id|
  {
    if id == "" {
      assert s[i..] == [q] + after;
      assert s[i] == s[i..][0];
      assert i + 1 < |s| ==> s[i + 1] == s[i..][1];
    } else {
      var head := if id[0] == q then [q, q] else [id[0]];
      assert Escape(q, id) == head + Escape(q, id[1..]);
      assert s[i..] == head + (Escape(q, id[1..]) + ([q] + after));
      assert s[i] == s[i..][0] && (id[0] == q ==> s[i + 1] == s[i..][1]);
      assert s[i + |head|..] == s[i..][|head|..];
      QuotedExact(q, s, i + |head|, id[1..], after, if id[0] == q then i + 1 else fallback);
    }
  }

  lemma {:induction false} TokenExact(q: char, p: Piece, after: string)
    requires q == ANSI || q == BACKTICK
    requires PieceOk(p) && !p.Space? && EndsToken(q, after)
    ensures TokenLength(Text(q, p) + after) == |Text(q, p)| > 0
  {
    match p
    case Word(word) =>
      WordExact(word, after);
    case Quoted(id) =>
      var s := Quote(q, id) + after;
      assert s[0] == q && s[1..] == Escape(q, id) + ([q] + after);
      QuotedExact(q, s, 1, id, after, 0);
  }

  lemma {:induction false} GapExact(text: string, after: string)
    requires forall c | c in text :: !StartsToken(c)
    requires after == "" || TokenLength(after) > 0
    ensures GapLength(text + after) == |text|
  {
    if text == "" {
      assert text + after == after;
    } else {
      assert text[0] in text;
      assert (text + after)[1..] == text[1..] + after;
      assert TokenLength(text + after) == 0;
      GapExact(text[1..], after);
    }
  }

  lemma {:induction false} SpaceEndsToken(q: char, ps: seq<Piece>)
    requires q == ANSI || q == BACKTICK
    requires ps == [] || (PieceOk(ps[0]) && ps[0].Space?)
    ensures EndsToken(q, Print(q, ps))
  {
    if ps != [] {
      assert ps[0].text[0] in ps[0].text;
    }
  }

  lemma {:induction false} ScanSpace(text: string, after: string)
    requires IsSpace(text) && (after == "" || TokenLength(after) > 0)
    ensures Scan(text + after) == [Gap(text)] + Scan(after)
  {
    assert text[0] in text;
    GapExact(text, after);
    assert (text + after)[|text|..] == after && (text + after)[..|text|] == text;
  }

  lemma {:induction false} ScanToken(q: char, p: Piece, after: string)
    requires q == ANSI || q == BACKTICK
    requires PieceOk(p) && !p.Space? && EndsToken(q, after)
    ensures Scan(Text(q, p) + after) == [Token(Text(q, p))] + Scan(after)
  {
    var text := Text(q, p);
    TokenExact(q, p, after);
    assert (text + after)[|text|..] == after && (text + after)[..|text|] == text;
  }

  lemma {:induction false} AlternatesTail(ps: seq<Piece>)
    requires Alternates(ps) && ps != []
    ensures PieceOk(ps[0]) && Alternates(ps[1..])
    ensures |ps| > 1 ==> ps[1..][0].Space? != ps[0].Space? && PieceOk(ps[1..][0])
  {
    assert ps[0] in ps;
    assert forall i | 0 <= i < |ps| - 1 :: ps[1..][i] == ps[i + 1] && ps[i + 1] in ps;
  }

  lemma {:induction false} PrintStartsWithToken(q: char, ps: seq<Piece>)
    requires (q == ANSI || q == BACKTICK) && Alternates(ps) && ps != [] && !ps[0].Space?
    ensures TokenLength(Print(q, ps)) > 0
  {
    AlternatesTail(ps);
    SpaceEndsToken(q, ps[1..]);
    TokenExact(q, ps[0], Print(q, ps[1..]));
  }

  /** Scanning a printed statement gives its pieces back, whatever its identifiers hold. */
  lemma {:induction false} ScanOfPrinted(q: char, ps: seq<Piece>)
    requires (q == ANSI || q == BACKTICK) && Alternates(ps)
    ensures Scan(Print(q, ps)) == Map(p => SpanOf(q, p), ps)
  {
    if ps != [] {
      var rest := ps[1..];
      AlternatesTail(ps);
      ScanOfPrinted(q, rest);
      if ps[0].Space? {
        if rest != [] {
          PrintStartsWithToken(q, rest);
        }
        ScanSpace(ps[0].text, Print(q, rest));
      } else {
        SpaceEndsToken(q, rest);
        ScanToken(q, ps[0], Print(q, rest));
      }
      FirstSpan(q, ps);
    }
  }

  lemma {:induction false} FirstSpan(q: char, ps: seq<Piece>)
    requires ps != []
    ensures Map(p => SpanOf(q, p), ps) == [SpanOf(q, ps[0])] + Map(p => SpanOf(q, p), ps[1..])
  {
  }

  /** Only printed words can come out bold: a quoted identifier never does. */
  lemma {:induction false} OnlyWordsAreKeywords(q: char, ps: seq<Piece>, k: nat)
    requires (q == ANSI || q == BACKTICK) && Alternates(ps) && k < |ps|
    ensures |Scan(Print(q, ps))| == |ps|
    ensures IsKeyword(Scan(Print(q, ps))[k]) <==> ps[k].Word? && ps[k].word in KEYWORDS
  {
    ScanOfPrinted(q, ps);
    assert PieceOk(ps[k]);
  }

  // ---- Unquoting ----------------------------------------------------------------

  function Unescape(q: char, body: string): string {
    if body == "" then ""
    else if body[0] == q && |body| > 1 && body[1] == q then [q] + Unescape(q, body[2..])
    else [body[0]] + Unescape(q, body[1..])
  }

  function Unquote(q: char, text: string): Option<string> {
    if |text| < 2 || text[0] != q then None else Some(Unescape(q, text[1..|text| - 1]))
  }

  lemma {:induction false} UnescapeEscape(q: char, id: string)
    ensures Unescape(q, Escape(q, id)) == id
  {
    if id != "" {
      UnescapeEscape(q, id[1..]);
      var rest := Escape(q, id[1..]);
      if id[0] == q {
        assert ([q, q] + rest)[2..] == rest;
      } else {
        assert ([id[0]] + rest)[1..] == rest;
      }
      assert [id[0]] + id[1..] == id;
    }
  }

  /** Either quoter loses nothing: any identifier at all is read back from its quoted form. */
  lemma {:induction false} UnquoteQuote(q: char, id: string)
    ensures Unquote(q, Quote(q, id)) == Some(id)
  {
    var text := Quote(q, id);
    assert text[1..|text| - 1] == Escape(q, id);
    UnescapeEscape(q, id);
  }
}
