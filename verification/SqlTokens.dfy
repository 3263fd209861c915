/** What the highlighter's expression matches. */
module SqlTokens {
  import opened SqlScan

  /** Any characters but the quote, or the quote twice. */
  predicate Paired(q: char, text: string) {
    || text == ""
    || (text[0] != q && Paired(q, text[1..]))
    || (|text| > 1 && text[0] == q && text[1] == q && Paired(q, text[2..]))
  }

  /** `q(?:[^q]|qq)*q`. */
  predicate IsQuoted(q: char, text: string) {
    |text| > 1 && text[0] == q && text[|text| - 1] == q && Paired(q, text[1..|text| - 1])
  }

  /** `[A-Za-z_][A-Za-z0-9_]*`. */
  predicate IsBareWord(text: string) {
    && text != "" && !('0' <= text[0] <= '9')
    && forall c | c in text :: 'A' <= c <= 'Z' || 'a' <= c <= 'z' || '0' <= c <= '9' || c == '_'
  }

  predicate IsToken(text: string) {
    IsQuoted('"', text) || IsQuoted('`', text) || IsBareWord(text)
  }

  /** A quoted match entered before `i` can end at `end`. */
  predicate EndsAt(q: char, s: string, i: nat, end: nat) {
    i < end <= |s| && s[end - 1] == q && Paired(q, s[i..end - 1])
  }

  lemma {:induction false} EndsLater(q: char, s: string, i: nat, step: nat, end: nat)
    requires i + step <= |s|
    requires (step == 1 && s[i] != q) || (step == 2 && s[i] == s[i + 1] == q)
    ensures EndsAt(q, s, i + step, end) ==> EndsAt(q, s, i, end)
    ensures EndsAt(q, s, i, end) && end > i + 1 ==> EndsAt(q, s, i + step, end)
  {
    if i + step < end <= |s| {
      var inner := s[i..end - 1];
      assert inner[step..] == s[i + step..end - 1];
    }
  }

  lemma {:induction false} LoneQuoteEnds(q: char, s: string, i: nat, end: nat)
    requires i < |s| && s[i] == q && !(i + 1 < |s| && s[i + 1] == q)
    ensures EndsAt(q, s, i, end) <==> end == i + 1
  {
    if i + 1 < end <= |s| {
      var inner := s[i..end - 1];
      assert inner[0] == q && (|inner| > 1 ==> inner[1] == s[i + 1]);
    }
  }

  /** The expression takes as much as it can and still close. */
  lemma {:induction false} QuotedEndIsLast(q: char, s: string, i: nat, fallback: nat)
    requires i <= |s| && fallback <= i
    ensures var n := QuotedEnd(q, s, i, fallback);
            && (n == fallback || EndsAt(q, s, i, n))
            && forall end: nat | EndsAt(q, s, i, end) :: end <= n
    decreases |s| - i
  {
    if i < |s| {
      if s[i] != q {
        QuotedEndIsLast(q, s, i + 1, fallback);
        forall end: nat ensures EndsAt(q, s, i, end) <==> EndsAt(q, s, i + 1, end) {
          EndsLater(q, s, i, 1, end);
        }
      } else if i + 1 < |s| && s[i + 1] == q {
        QuotedEndIsLast(q, s, i + 2, i + 1);
        forall end: nat ensures EndsAt(q, s, i, end) <==> end == i + 1 || EndsAt(q, s, i + 2, end) {
          EndsLater(q, s, i, 2, end);
          assert s[i..i] == "";
        }
      } else {
        forall end: nat ensures EndsAt(q, s, i, end) <==> end == i + 1 {
          LoneQuoteEnds(q, s, i, end);
        }
      }
    }
  }

  lemma {:induction false} QuotedIsLongest(q: char, s: string, n: nat)
    requires s != "" && s[0] == q && n == QuotedEnd(q, s, 1, 0)
    ensures n > 0 ==> IsQuoted(q, s[..n])
    ensures forall m | 0 < m <= |s| && IsQuoted(q, s[..m]) :: m <= n
  {
    QuotedEndIsLast(q, s, 1, 0);
    if n > 0 {
      assert s[..n][1..n - 1] == s[1..n - 1];
    }
    forall m | 0 < m <= |s| && IsQuoted(q, s[..m]) ensures m <= n {
      assert s[..m][1..m - 1] == s[1..m - 1];
      assert EndsAt(q, s, 1, m);
    }
  }

  lemma {:induction false} WordIsLongest(s: string, n: nat)
    requires n == WordLength(s)
    ensures forall c | c in s[..n] :: IsWordChar(c)
    ensures forall m | 0 < m <= |s| && (forall c | c in s[..m] :: IsWordChar(c)) :: m <= n
  {
    if s != "" && IsWordChar(s[0]) {
      WordIsLongest(s[1..], n - 1);
      assert s[..n] == [s[0]] + s[1..][..n - 1];
      forall m | 0 < m <= |s| && (forall c | c in s[..m] :: IsWordChar(c)) ensures m <= n {
        assert forall c | c in s[1..][..m - 1] :: c in s[..m];
      }
    } else if s != "" {
      assert forall m | 0 < m <= |s| :: s[0] in s[..m];
    }
  }

  lemma {:induction false} TokensStart(s: string, m: nat)
    requires 0 < m <= |s| && IsToken(s[..m])
    ensures s[0] == '"' ==> IsQuoted('"', s[..m])
    ensures s[0] == '`' ==> IsQuoted('`', s[..m])
    ensures s[0] != '"' && s[0] != '`' ==> IsWordStart(s[0]) && forall c | c in s[..m] :: IsWordChar(c)
  {
    assert s[..m][0] == s[0] && s[0] in s[..m];
  }

  /** Where the highlighter matches, it matches the longest token that starts there; elsewhere none does. */
  lemma {:induction false} MatchIsTheLongestToken(s: string)
    ensures TokenLength(s) > 0 ==> IsToken(s[..TokenLength(s)])
    ensures forall m | 0 < m <= |s| && IsToken(s[..m]) :: m <= TokenLength(s)
  {
    var n := TokenLength(s);
    forall m | 0 < m <= |s| && IsToken(s[..m]) ensures m <= n {
      TokensStart(s, m);
      LongestFrom(s, n, m);
    }
    if n > 0 {
      MatchIsAToken(s, n);
    }
  }

  lemma {:induction false} LongestFrom(s: string, n: nat, m: nat)
    requires 0 < m <= |s| && n == TokenLength(s)
    requires s[0] == '"' ==> IsQuoted('"', s[..m])
    requires s[0] == '`' ==> IsQuoted('`', s[..m])
    requires s[0] != '"' && s[0] != '`' ==> IsWordStart(s[0]) && forall c | c in s[..m] :: IsWordChar(c)
    ensures m <= n
  {
    if s[0] == '"' || s[0] == '`' {
      QuotedIsLongest(s[0], s, n);
    } else {
      WordIsLongest(s, n);
    }
  }

  lemma {:induction false} MatchIsAToken(s: string, n: nat)
    requires 0 < n == TokenLength(s)
    ensures IsToken(s[..n])
  {
    if s[0] == '"' || s[0] == '`' {
      QuotedIsLongest(s[0], s, n);
    } else {
      WordIsLongest(s, n);
      assert s[..n][0] == s[0];
    }
  }

  /** Exactly the five words are bold, as tokens and as written. */
  lemma {:induction false} BoldWords(span: Span)
    ensures IsKeyword(span) <==> span.Token? && span.text in {"SELECT", "FROM", "JOIN", "ON", "AND"}
  {
    if span.Token? && span.text in {"SELECT", "FROM", "JOIN", "ON", "AND"} {
      assert span.text[0] in {'S', 'F', 'J', 'O', 'A'};
    }
  }

  /** Databricks quotes with backticks, everything else as ANSI does. */
  lemma {:induction false} DialectQuotes(dialect: string)
    ensures QuoteFor(dialect) == if dialect == "databricks" then '`' else '"'
  {
  }
}
