/**
 What splitting guarantees: it composes over a top-level semicolon exactly when the
 first part ends outside quotes and comments, and its result is a normal form.
 Removing comments and trimming never make a new comment, quote or dollar tag.
 */
module SqlNormalForm {
  import opened Text
  import opened SqlLexer

  /** The text ends outside every quote and comment. */
  predicate Closed(s: string)
    decreases |s|
  {
    s == "" || (NextToken(s).closed && Closed(Rest(s)))
  }

  /** The text has neither a comment nor a top-level semicolon. */
  predicate Clean(s: string)
    decreases |s|
  {
    s == "" || (!IsComment(NextToken(s)) && NextToken(s).kind != Semicolon && Clean(Rest(s)))
  }

  // ----- reading on past the end of a text -----

  lemma {:induction false} LineSpanExtend(s: string, x: string)
    ensures LineSpan(s).closed ==> LineSpan(s + x) == LineSpan(s)
    ensures !LineSpan(s).closed && '\n' !in x ==> LineSpan(s + x) == Span(|s + x|, false)
  {
    if s == "" {
      if '\n' !in x { NoNewline(x); assert s + x == x; }
    } else {
      assert (s + x)[1..] == s[1..] + x;
      LineSpanExtend(s[1..], x);
    }
  }

  lemma {:induction false} BlockSpanExtend(s: string, x: string)
    requires x == "" || x[0] == ';'
    ensures BlockSpan(s).closed ==> BlockSpan(s + x) == BlockSpan(s)
    ensures !BlockSpan(s).closed && x == ";x" ==> BlockSpan(s + x) == Span(|s + x|, false)
  {
    if |s| >= 2 {
      assert (s + x)[1..] == s[1..] + x;
      if !(s[0] == '*' && s[1] == '/') { BlockSpanExtend(s[1..], x); }
    } else if x == ";x" {
      BlockSpanTail(s);
    }
  }

  lemma {:induction false} BlockSpanTail(s: string)
    requires |s| < 2
    ensures BlockSpan(s + ";x") == Span(|s| + 2, false)
  {
    var t := s + ";x";
    assert BlockSpan(";x") == Span(2, false) by { assert BlockSpan(";x"[1..]) == Span(1, false); }
    if |s| == 1 {
      assert t[1..] == ";x" && t[1] == ';';
    } else {
      assert t == ";x";
    }
  }

  lemma {:induction false} QuoteSpanExtend(s: string, q: char, x: string)
    requires x == "" || x[0] != q
    ensures QuoteSpan(s, q).closed ==> QuoteSpan(s + x, q) == QuoteSpan(s, q)
    ensures !QuoteSpan(s, q).closed && q !in x ==> QuoteSpan(s + x, q) == Span(|s + x|, false)
  {
    if s == "" {
      if q !in x { NoQuote(x, q); assert s + x == x; }
    } else {
      assert (s + x)[1..] == s[1..] + x;
      if s[0] != q {
        QuoteSpanExtend(s[1..], q, x);
      } else if |s| > 1 && s[1] == q {
        assert (s + x)[2..] == s[2..] + x;
        QuoteSpanExtend(s[2..], q, x);
      }
    }
  }

  lemma {:induction false} NoQuote(s: string, q: char)
    requires q !in s
    ensures QuoteSpan(s, q) == Span(|s|, false)
  {
    if s != "" {
      assert s[0] in s;
      NoQuote(s[1..], q);
    }
  }

  lemma {:induction false} DollarSpanExtend(s: string, tag: string, x: string)
    requires IsDollarTag(tag)
    ensures DollarSpan(s, tag).closed ==> DollarSpan(s + x, tag) == DollarSpan(s, tag)
    ensures !DollarSpan(s, tag).closed && x == ";x" ==> DollarSpan(s + x, tag) == Span(|s + x|, false)
  {
    if MatchesAt(s, tag, 0) {
      assert (s + x)[..|tag|] == s[..|tag|];
    } else if s == "" {
      if x == ";x" {
        assert s + x == x;
        NoTag(x, tag);
      }
    } else {
      assert (s + x)[1..] == s[1..] + x;
      DollarSpanExtend(s[1..], tag, x);
      if DollarSpan(s, tag).closed || x == ";x" {
        NoMatchExtend(s, tag, x);
      }
    }
  }

  lemma {:induction false} NoTag(x: string, tag: string)
    requires IsDollarTag(tag) && x == ";x"
    ensures DollarSpan(x, tag) == Span(2, false)
  {
    assert tag[0] != x[0];
    assert |tag| <= 2 ==> x[0..|tag|][0] == x[0];
    assert DollarSpan(x[1..], tag) == Span(1, false) by { assert DollarSpan(x[1..][1..], tag) == Span(0, false); }
  }

  /** A tag cannot match across the end of s when it does not match inside s. */
  lemma {:induction false} NoMatchExtend(s: string, tag: string, x: string)
    requires IsDollarTag(tag) && s != "" && !MatchesAt(s, tag, 0)
    requires DollarSpan(s, tag).closed || x == ";x"
    ensures !MatchesAt(s + x, tag, 0)
  {
    assert DollarSpan(s, tag).closed ==> |tag| <= |s| by { DollarBody(s, tag); }
    if |tag| <= |s| {
      MatchInside(s, tag, x);
    } else if |tag| <= |s + x| {
      assert (s + x)[0..|tag|][|s|] == ';' != tag[|s|];
    }
  }

  lemma {:induction false} MatchInside(s: string, tag: string, x: string)
    requires |tag| <= |s|
    ensures MatchesAt(s + x, tag, 0) <==> MatchesAt(s, tag, 0)
  {
    assert (s + x)[0..|tag|] == s[0..|tag|];
  }

  lemma {:induction false} TagRunExtend(s: string, x: string)
    requires x == "" || !IsTagChar(x[0])
    ensures TagRun(s + x) == TagRun(s)
  {
    if s == "" {
      assert s + x == x;
    } else {
      assert (s + x)[1..] == s[1..] + x;
      TagRunExtend(s[1..], x);
    }
  }

  lemma {:induction false} CommentExtend(a: string, x: string)
    requires a != "" && IsComment(NextToken(a)) && NextToken(a).closed && (x == "" || x[0] == ';')
    ensures NextToken(a + x) == NextToken(a)
  {
    var n := |NextToken(a).text|;
    if StartsLineComment(a) {
      LineSpanExtend(a, x);
    } else {
      assert (a + x)[2..] == a[2..] + x;
      BlockSpanExtend(a[2..], x);
    }
    assert (a + x)[..n] == a[..n];
  }

  lemma {:induction false} QuotedExtend(a: string, x: string)
    requires a != "" && (a[0] == '\'' || a[0] == '"') && NextToken(a).closed && (x == "" || x[0] == ';')
    ensures NextToken(a + x) == NextToken(a)
  {
    var n := |NextToken(a).text|;
    assert (a + x)[1..] == a[1..] + x;
    QuoteSpanExtend(a[1..], a[0], x);
    assert (a + x)[..n] == a[..n];
  }

  /** A semicolon behind a closed lexeme does not change it. */
  lemma {:induction false} NextTokenExtend(a: string, x: string)
    requires a != "" && NextToken(a).closed && (x == "" || x[0] == ';')
    ensures NextToken(a + x) == NextToken(a)
  {
    if IsComment(NextToken(a)) {
      CommentExtend(a, x);
    } else if a[0] == '$' {
      DollarTagExtend(a, x);
      if StartsDollar(a) { DollarTokenExtend(a, x); }
    } else if a[0] == '\'' || a[0] == '"' {
      QuotedExtend(a, x);
    }
    assert (a + x)[..1] == a[..1];
  }

  lemma {:induction false} DollarTagExtend(a: string, x: string)
    requires a != "" && a[0] == '$' && (x == "" || x[0] == ';')
    ensures DollarTag(a + x) == DollarTag(a)
  {
    assert (a + x)[1..] == a[1..] + x;
    TagRunExtend(a[1..], x);
    var n := TagRun(a[1..]);
    if 1 + n < |a| { assert (a + x)[..n + 2] == a[..n + 2]; }
  }

  lemma {:induction false} DollarTokenExtend(a: string, x: string)
    requires StartsDollar(a) && DollarTag(a + x) == DollarTag(a)
    ensures NextToken(a).closed ==> NextToken(a + x) == NextToken(a)
    ensures !NextToken(a).closed && x == ";x" ==> !NextToken(a + x).closed && NextToken(a + x).kind == DollarQuoted
  {
    var tag := DollarTag(a);
    DollarTagText(a);
    assert (a + x)[|tag|..] == a[|tag|..] + x;
    DollarSpanExtend(a[|tag|..], tag, x);
    var n := |tag| + DollarSpan(a[|tag|..], tag).len;
    assert (a + x)[..n] == a[..n];
  }

  lemma {:induction false} CommentSwallow(a: string)
    requires a != "" && IsComment(NextToken(a)) && !NextToken(a).closed
    ensures NextToken(a + ";x").kind == NextToken(a).kind && !NextToken(a + ";x").closed
  {
    if StartsLineComment(a) {
      LineSpanExtend(a, ";x");
    } else {
      assert (a + ";x")[2..] == a[2..] + ";x";
      BlockSpanExtend(a[2..], ";x");
    }
  }

  lemma {:induction false} QuotedSwallow(a: string)
    requires a != "" && (a[0] == '\'' || a[0] == '"') && !NextToken(a).closed
    ensures NextToken(a + ";x").kind == NextToken(a).kind && !NextToken(a + ";x").closed
  {
    var b := a + ";x";
    assert b[0] == a[0] && b[1..] == a[1..] + ";x";
    QuotedKind(a);
    QuotedKind(b);
    QuoteSpanExtend(a[1..], a[0], ";x");
  }

  lemma {:induction false} QuotedKind(s: string)
    requires s != "" && (s[0] == '\'' || s[0] == '"')
    ensures NextToken(s).kind == if s[0] == '\'' then SingleQuoted else DoubleQuoted
    ensures NextToken(s).closed == QuoteSpan(s[1..], s[0]).closed
  {
  }

  /** An unclosed lexeme swallows the semicolon. */
  lemma {:induction false} NextTokenSwallow(a: string)
    requires a != "" && !NextToken(a).closed
    ensures NextToken(a + ";x").kind == NextToken(a).kind && !NextToken(a + ";x").closed
    ensures NextToken(a).kind != Plain && NextToken(a).kind != Semicolon
  {
    if IsComment(NextToken(a)) {
      CommentSwallow(a);
    } else if a[0] == '$' {
      DollarTagExtend(a, ";x");
      DollarTokenExtend(a, ";x");
    } else {
      QuotedSwallow(a);
    }
  }

  // ----- composition -----

  lemma {:induction false} RestExtend(a: string, x: string)
    requires a != "" && NextToken(a + x) == NextToken(a)
    ensures Rest(a + x) == Rest(a) + x
  {
  }

  lemma {:induction false} SplitStep(s: string, cur: string)
    requires s != ""
    ensures SplitFrom(s, cur) ==
      if NextToken(s).kind == Semicolon then Flush(cur) + SplitFrom(Rest(s), "")
      else SplitFrom(Rest(s), cur + Render(NextToken(s)))
  {
  }

  lemma {:induction false} SplitSemicolon(x: string, b: string, cur: string)
    requires x == ";" + b
    ensures SplitFrom(x, cur) == Flush(cur) + SplitFrom(b, "")
  {
    assert NextToken(x) == Token(Semicolon, ";", true);
    assert Rest(x) == b;
    SplitStep(x, cur);
  }

  lemma {:induction false} ComposeFrom(a: string, x: string, b: string, cur: string)
    requires Closed(a) && x == ";" + b
    ensures SplitFrom(a + x, cur) == SplitFrom(a, cur) + SplitFrom(b, "")
    decreases |a|
  {
    if a == "" {
      SplitSemicolon(x, b, cur);
      assert a + x == x;
    } else {
      NextTokenExtend(a, x);
      RestExtend(a, x);
      SplitStep(a, cur);
      SplitStep(a + x, cur);
      if NextToken(a).kind == Semicolon {
        ComposeFrom(Rest(a), x, b, "");
        Associate(Flush(cur), SplitFrom(Rest(a), ""), SplitFrom(b, ""));
      } else {
        ComposeFrom(Rest(a), x, b, cur + Render(NextToken(a)));
      }
    }
  }

  lemma {:induction false} SplitX()
    ensures Split("x") == ["x"]
  {
    assert NextToken("x") == Token(Plain, "x", true) && Rest("x") == "" by { TokenX(); }
    assert SplitFrom("x", "") == SplitFrom("", "" + "x");
    assert "" + "x" == "x";
    TrimTrims("x");
  }

  lemma {:induction false} TokenX()
    ensures NextToken("x") == Token(Plain, "x", true) && Rest("x") == ""
  {
  }

  lemma {:induction false} FlushNonBlank(cur: string, k: nat)
    requires k < |cur| && !IsSpace(cur[k])
    ensures |Flush(cur)| == 1
  {
    TrimBlank(cur);
  }

  /** When a ends inside a quote or comment, what follows is not split off. */
  lemma {:induction false} SwallowFrom(a: string, cur: string)
    requires !Closed(a)
    ensures |SplitFrom(a + ";x", cur)| == |SplitFrom(a, cur)|
    decreases |a|
  {
    var x := ";x";
    var t := NextToken(a);
    if t.closed {
      NextTokenExtend(a, x);
      RestExtend(a, x);
      SwallowFrom(Rest(a), if t.kind == Semicolon then "" else cur + Render(t));
    } else {
      NextTokenSwallow(a);
      NextTokenPrefix(a);
      NextTokenPrefix(a + x);
      assert Rest(a) == "" && Rest(a + x) == "";
      SwallowLast(a, cur);
    }
  }

  lemma {:induction false} SwallowLast(a: string, cur: string)
    requires a != "" && !NextToken(a).closed && NextToken(a).text == a && NextToken(a).kind != Plain
      && NextToken(a).kind != Semicolon
    requires var t := NextToken(a + ";x"); t.kind == NextToken(a).kind && t.text == a + ";x"
    ensures |SplitFrom(a + ";x", cur)| == |SplitFrom(a, cur)|
  {
    if !IsComment(NextToken(a)) {
      assert !IsSpace(a[0]);
      assert (cur + a)[|cur|] == a[0] && (cur + (a + ";x"))[|cur|] == a[0];
      FlushNonBlank(cur + a, |cur|);
      FlushNonBlank(cur + (a + ";x"), |cur|);
    }
  }

  function WithSemicolon(a: string, b: string): string { a + ";" + b }

  lemma {:induction false} ComposesWhenClosed(a: string, b: string)
    requires Closed(a)
    ensures Split(WithSemicolon(a, b)) == Split(a) + Split(b)
  {
    assert WithSemicolon(a, b) == a + (";" + b) by { Associate(a, ";", b); }
    ComposeFrom(a, ";" + b, b, "");
  }

  lemma {:induction false} WithX(a: string)
    ensures WithSemicolon(a, "x") == a + ";x"
  {
  }

  /** Splitting a text before b splits the whole. */
  ghost predicate Composes(a: string) {
    forall b {:trigger WithSemicolon(a, b)} :: Split(WithSemicolon(a, b)) == Split(a) + Split(b)
  }

  /**
   Splitting composes over a top-level semicolon exactly when the first part ends
   outside quotes and comments.
   */
  lemma {:induction false} SplitComposes(a: string)
    ensures Closed(a) <==> Composes(a)
  {
    if Closed(a) {
      forall b ensures Split(WithSemicolon(a, b)) == Split(a) + Split(b) {
        ComposesWhenClosed(a, b);
      }
    } else {
      WithX(a);
      SwallowFrom(a, "");
      SplitX();
      assert |Split(WithSemicolon(a, "x"))| < |Split(a) + Split("x")|;
    }
  }

  // ----- the text of one statement -----

  /** Some semicolon of the text ends a statement. */
  predicate HasSemicolon(s: string)
    decreases |s|
  {
    s != "" && (NextToken(s).kind == Semicolon || HasSemicolon(Rest(s)))
  }

  /** What is kept of the text up to the first top-level semicolon. */
  function Raw(s: string): string
    decreases |s|
  {
    if s == "" || NextToken(s).kind == Semicolon then "" else Render(NextToken(s)) + Raw(Rest(s))
  }

  /** What follows the first top-level semicolon. */
  function After(s: string): (r: string)
    requires HasSemicolon(s)
    ensures |r| < |s|
    decreases |s|
  {
    if NextToken(s).kind == Semicolon then Rest(s) else After(Rest(s))
  }

  lemma {:induction false} RawStep(s: string)
    requires s != "" && NextToken(s).kind != Semicolon
    ensures Raw(s) == Render(NextToken(s)) + Raw(Rest(s))
    ensures HasSemicolon(s) == HasSemicolon(Rest(s))
    ensures HasSemicolon(s) ==> After(s) == After(Rest(s))
  {
  }

  /** The first statement, then the statements after the semicolon. */
  function FirstAndRest(s: string, first: string): seq<string> {
    Flush(first) + if HasSemicolon(s) then SplitFrom(After(s), "") else []
  }

  lemma {:induction false} SplitRaw(s: string, cur: string)
    ensures SplitFrom(s, cur) == FirstAndRest(s, cur + Raw(s))
    decreases |s|
  {
    if s == "" || NextToken(s).kind == Semicolon {
      assert cur + Raw(s) == cur;
    } else {
      var t := Render(NextToken(s));
      SplitStep(s, cur);
      RawStep(s);
      SplitRaw(Rest(s), cur + t);
      Associate(cur, t, Raw(Rest(s)));
    }
  }

  /** Kept text starts as the source does, or with the space that replaced a comment. */
  lemma {:induction false} RawHead(s: string)
    ensures Raw(s) != "" ==> s != "" && (Raw(s)[0] == s[0] || Raw(s)[0] == ' ')
    ensures s != "" && Raw(s) == "" ==> s[0] == ';'
  {
    if s != "" { NextTokenPrefix(s); }
  }

  /** Kept text that starts with tag characters and a dollar sign was so in the source. */
  lemma {:induction false} RawTag(s: string)
    requires var n := TagRun(Raw(s)); n < |Raw(s)| && Raw(s)[n] == '$'
    ensures TagRun(s) == TagRun(Raw(s)) < |s| && s[TagRun(s)] == '$'
    decreases |s|
  {
    RawHead(s);
    var t := NextToken(s);
    if IsTagChar(Raw(s)[0]) {
      assert t.text == [s[0]] && Raw(s)[1..] == Raw(Rest(s));
      assert Rest(s) == s[1..];
      RawTag(Rest(s));
    }
  }

  // ----- reading the kept text again -----

  lemma {:induction false} QuoteSpanAlone(s: string, q: char)
    requires QuoteSpan(s, q).closed
    ensures var n := QuoteSpan(s, q).len;
      0 < n && QuoteSpan(s[..n], q) == Span(n, true) && (n < |s| ==> s[n] != q)
  {
    var n := QuoteSpan(s, q).len;
    if s[0] != q {
      QuoteSpanAlone(s[1..], q);
      assert s[..n][1..] == s[1..][..n - 1];
    } else if |s| > 1 && s[1] == q {
      QuoteSpanAlone(s[2..], q);
      assert s[..n][2..] == s[2..][..n - 2];
    }
  }

  lemma {:induction false} DollarSpanAlone(s: string, tag: string)
    requires tag != "" && DollarSpan(s, tag).closed
    ensures var n := DollarSpan(s, tag).len; |tag| <= n && DollarSpan(s[..n], tag) == Span(n, true)
  {
    var n := DollarSpan(s, tag).len;
    if MatchesAt(s, tag, 0) {
      assert s[..n][..|tag|] == s[..|tag|];
    } else {
      DollarSpanAlone(s[1..], tag);
      assert s[..n][1..] == s[1..][..n - 1];
      assert s[..n][0..|tag|] == s[0..|tag|];
    }
  }

  lemma {:induction false} TagRunInside(s: string, x: string)
    requires TagRun(s) < |s|
    ensures TagRun(s + x) == TagRun(s)
  {
    assert (s + x)[1..] == s[1..] + x;
    if IsTagChar(s[0]) { TagRunInside(s[1..], x); }
  }

  lemma {:induction false} DollarTagInside(a: string, x: string)
    requires StartsDollar(a)
    ensures DollarTag(a + x) == DollarTag(a) && StartsDollar(a + x)
  {
    assert (a + x)[1..] == a[1..] + x;
    TagRunInside(a[1..], x);
    var n := TagRun(a[1..]);
    assert (a + x)[..n + 2] == a[..n + 2];
  }

  lemma {:induction false} DollarTokenOf(text: string, tag: string, body: string)
    requires IsDollarTag(tag) && StartsDollar(tag) && DollarTag(tag) == tag
    requires text == tag + body && DollarSpan(body, tag) == Span(|body|, true)
    ensures NextToken(text) == Token(DollarQuoted, text, true)
  {
    DollarTagInside(tag, body);
    assert text[|tag|..] == body && text[..|text|] == text;
  }

  lemma {:induction false} DollarTokenText(s: string)
    requires StartsDollar(s) && NextToken(s).closed
    ensures var tag := DollarTag(s);
      var n := |tag| + DollarSpan(s[|tag|..], tag).len;
      DollarSpan(s[|tag|..], tag).closed && NextToken(s) == Token(DollarQuoted, s[..n], true)
  {
  }

  lemma {:induction false} DollarTokenAlone(s: string)
    requires StartsDollar(s) && NextToken(s).closed
    ensures NextToken(NextToken(s).text) == NextToken(s)
  {
    DollarTokenText(s);
    var tag := DollarTag(s);
    var rest := s[|tag|..];
    var n := DollarSpan(rest, tag).len;
    var text := s[..|tag| + n];
    var body := rest[..n];
    assert text == tag + body by { DollarTagText(s); }
    assert DollarSpan(body, tag) == Span(n, true) by { DollarSpanAlone(rest, tag); }
    assert NextToken(text) == Token(DollarQuoted, text, true) by {
      DollarTagText(s);
      TagAlone(s);
      DollarTokenOf(text, tag, body);
    }
  }

  lemma {:induction false} TagAlone(s: string)
    requires StartsDollar(s)
    ensures StartsDollar(DollarTag(s)) && DollarTag(DollarTag(s)) == DollarTag(s)
  {
    var tag := DollarTag(s);
    DollarTagText(s);
    var n := |tag| - 2;
    TagRunEnds(tag[1..], n);
    assert tag[..n + 2] == tag;
  }

  lemma {:induction false} QuotedTokenAlone(s: string)
    requires s != "" && (s[0] == '\'' || s[0] == '"') && NextToken(s).closed
    ensures NextToken(NextToken(s).text) == NextToken(s)
  {
    QuoteSpanAlone(s[1..], s[0]);
    var n := QuoteSpan(s[1..], s[0]).len;
    var text := s[..1 + n];
    assert text[1..] == s[1..][..n];
    assert NextToken(text).text == text;
  }

  /** A closed lexeme that is kept reads the same on its own. */
  lemma {:induction false} TokenAlone(s: string)
    requires s != "" && NextToken(s).closed && !IsComment(NextToken(s))
    ensures NextToken(NextToken(s).text) == NextToken(s)
  {
    if StartsDollar(s) {
      DollarTokenAlone(s);
    } else if s[0] == '\'' || s[0] == '"' {
      QuotedTokenAlone(s);
    } else {
      var c := s[..1];
      assert NextToken(c).text == c;
    }
  }

  /** x behind a kept lexeme neither extends it nor turns it into another one. */
  predicate Stable(t: Token, x: string) {
    x == "" ||
    match t.kind
    case SingleQuoted => x[0] != '\''
    case DoubleQuoted => x[0] != '"'
    case Plain => (t.text == "-" ==> x[0] != '-') && (t.text == "/" ==> x[0] != '*') &&
      (t.text == "$" ==> DollarTag("$" + x) == "")
    case _ => true
  }

  lemma {:induction false} TokenFollow(a: string, x: string)
    requires a != "" && NextToken(a).text == a && NextToken(a).closed && !IsComment(NextToken(a))
    requires Stable(NextToken(a), x)
    ensures NextToken(a + x) == NextToken(a)
  {
    if StartsDollar(a) {
      DollarTagInside(a, x);
      DollarTokenExtend(a, x);
    } else if a[0] == '\'' || a[0] == '"' {
      assert (a + x)[1..] == a[1..] + x;
      QuoteSpanExtend(a[1..], a[0], x);
      assert (a + x)[..|a|] == a;
    } else {
      assert |a| == 1 && (a + x)[..1] == a;
      if x == "" { assert a + x == a; }
      assert a[0] == '$' ==> a == "$";
      assert a[0] == '-' ==> a == "-";
      assert a[0] == '/' ==> a == "/";
    }
  }

  lemma {:induction false} StableRaw(s: string)
    requires s != "" && NextToken(s).closed && !IsComment(NextToken(s)) && NextToken(s).kind != Semicolon
    ensures Stable(NextToken(s), Raw(Rest(s)))
  {
    var t := NextToken(s);
    var x := Rest(s);
    RawHead(x);
    NextTokenPrefix(s);
    if t.kind == SingleQuoted || t.kind == DoubleQuoted {
      QuoteSpanAlone(s[1..], s[0]);
    } else if t.kind == Plain && t.text == "$" {
      DollarRaw(s);
    }
  }

  lemma {:induction false} DollarRaw(s: string)
    requires s != "" && s[0] == '$' && DollarTag(s) == "" && !StartsLineComment(s) && !StartsBlockComment(s)
    ensures DollarTag("$" + Raw(Rest(s))) == ""
  {
    var x := Rest(s);
    assert x == s[1..];
    var y := Raw(x);
    assert ("$" + y)[1..] == y;
    var n := TagRun(y);
    if n < |y| && y[n] == '$' {
      RawTag(x);
    }
  }

  /** The kept text begins with what is kept of the first lexeme, read as the lexeme t. */
  lemma {:induction false} RawTokenIs(s: string, t: Token)
    requires s != "" && NextToken(s).kind != Semicolon
    requires NextToken(Render(NextToken(s)) + Raw(Rest(s))) == t && t.text == Render(NextToken(s))
    ensures Raw(s) != "" && NextToken(Raw(s)) == t && Rest(Raw(s)) == Raw(Rest(s))
  {
    RawStep(s);
  }

  /** Reading the kept text gives back the lexemes it was made from, comments as a space. */
  lemma {:induction false} RawToken(s: string)
    requires s != "" && NextToken(s).kind != Semicolon
    ensures var t := NextToken(s);
      Raw(s) != "" && NextToken(Raw(s)) == (if IsComment(t) then Token(Plain, " ", true) else t)
    ensures Rest(Raw(s)) == Raw(Rest(s))
  {
    var t := NextToken(s);
    var y := Raw(Rest(s));
    if IsComment(t) {
      assert (" " + y)[..1] == " ";
      RawTokenIs(s, Token(Plain, " ", true));
    } else if t.closed {
      assert NextToken(t.text) == t by { TokenAlone(s); }
      assert Stable(t, y) by { StableRaw(s); }
      TokenFollow(t.text, y);
      RawTokenIs(s, t);
    } else {
      NextTokenPrefix(s);
      assert Rest(s) == "" && t.text + y == s;
      RawTokenIs(s, t);
    }
  }

  lemma {:induction false} RawClean(s: string)
    ensures Clean(Raw(s))
    ensures HasSemicolon(s) ==> Closed(Raw(s))
    decreases |s|
  {
    if s != "" && NextToken(s).kind != Semicolon {
      RawToken(s);
      RawClean(Rest(s));
      NextTokenPrefix(s);
      RawStep(s);
    }
  }

  // ----- trimming -----

  lemma {:induction false} TrimLeftKeeps(s: string)
    requires Clean(s)
    ensures Clean(TrimLeft(s)) && (Closed(s) ==> Closed(TrimLeft(s)))
  {
    if s != "" && IsSpace(s[0]) {
      assert Rest(s) == s[1..];
      TrimLeftKeeps(s[1..]);
    }
  }

  lemma {:induction false} QuoteSpanShorter(s: string, q: char)
    requires s != "" && s[|s| - 1] != q && !QuoteSpan(s, q).closed
    ensures !QuoteSpan(s[..|s| - 1], q).closed
  {
    var r := s[..|s| - 1];
    if r != "" {
      if s[0] != q {
        assert r[1..] == s[1..][..|s| - 2];
        QuoteSpanShorter(s[1..], q);
      } else if |r| > 1 && s[1] == q {
        assert r[2..] == s[2..][..|s| - 3];
        QuoteSpanShorter(s[2..], q);
      }
    }
  }

  lemma {:induction false} DollarSpanShorter(s: string, tag: string)
    requires s != "" && tag != "" && !DollarSpan(s, tag).closed
    ensures !DollarSpan(s[..|s| - 1], tag).closed
  {
    var r := s[..|s| - 1];
    if |tag| <= |r| { assert r[..|tag|] == s[..|tag|]; }
    if r != "" {
      assert r[1..] == s[1..][..|s| - 2];
      DollarSpanShorter(s[1..], tag);
    }
  }

  lemma {:induction false} DollarTagShorter(s: string, r: string)
    requires StartsDollar(s) && |DollarTag(s)| <= |r| && r <= s
    ensures StartsDollar(r) && DollarTag(r) == DollarTag(s)
  {
    var tag := DollarTag(s);
    TagAlone(s);
    DollarTagText(s);
    assert r == tag + r[|tag|..];
    DollarTagInside(tag, r[|tag|..]);
  }

  lemma {:induction false} OpenDollarShorter(s: string, r: string)
    requires StartsDollar(s) && !NextToken(s).closed && IsSpace(s[|s| - 1]) && r == s[..|s| - 1]
    ensures r != "" && !NextToken(r).closed && NextToken(r).kind == DollarQuoted
  {
    var tag := DollarTag(s);
    DollarTagText(s);
    assert s[|tag| - 1] == tag[|tag| - 1] == '$';
    DollarTagShorter(s, r);
    assert r[|tag|..] == s[|tag|..][..|s| - |tag| - 1];
    DollarSpanShorter(s[|tag|..], tag);
  }

  lemma {:induction false} OpenQuotedShorter(s: string, r: string)
    requires s != "" && (s[0] == '\'' || s[0] == '"') && !NextToken(s).closed && IsSpace(s[|s| - 1])
      && r == s[..|s| - 1]
    ensures r != "" && !NextToken(r).closed && NextToken(r).kind == NextToken(s).kind
  {
    assert |s| > 1;
    assert r[1..] == s[1..][..|s| - 2];
    QuoteSpanShorter(s[1..], s[0]);
  }

  /** A text that is one unclosed quoted or dollar-quoted lexeme stays one without its last space. */
  lemma {:induction false} OpenShorter(s: string)
    requires s != "" && !NextToken(s).closed && !IsComment(NextToken(s)) && IsSpace(s[|s| - 1])
    ensures var r := s[..|s| - 1]; r != "" && !NextToken(r).closed && NextToken(r).kind == NextToken(s).kind
  {
    if StartsDollar(s) {
      OpenDollarShorter(s, s[..|s| - 1]);
    } else {
      OpenQuotedShorter(s, s[..|s| - 1]);
    }
  }

  lemma {:induction false} DollarEnd(rest: string, tag: string)
    requires IsDollarTag(tag) && DollarSpan(rest, tag).closed
    ensures var n := DollarSpan(rest, tag).len; 0 < n && rest[n - 1] == '$'
  {
    DollarBody(rest, tag);
    var n := DollarSpan(rest, tag).len;
    assert rest[n - |tag|..n][|tag| - 1] == rest[n - 1];
  }

  /** A closed lexeme of two or more bytes that is kept does not end in white space. */
  lemma {:induction false} ClosedEnd(s: string)
    requires s != "" && NextToken(s).closed && NextToken(s).text == s && !IsComment(NextToken(s))
      && NextToken(s).kind != Plain
    ensures !IsSpace(s[|s| - 1])
  {
    if StartsDollar(s) {
      var tag := DollarTag(s);
      DollarTagText(s);
      DollarEnd(s[|tag|..], tag);
    } else if s[0] != ';' {
      QuoteBody(s[1..], s[0]);
    }
  }

  lemma {:induction false} StableSelf(s: string)
    requires s != "" && NextToken(s).closed && !IsComment(NextToken(s))
    ensures Stable(NextToken(s), Rest(s))
  {
    var t := NextToken(s);
    NextTokenPrefix(s);
    if t.kind == SingleQuoted || t.kind == DoubleQuoted {
      QuoteSpanAlone(s[1..], s[0]);
    } else if t.kind == Plain && t.text == "$" {
      assert "$" + Rest(s) == s;
    }
  }

  lemma {:induction false} StablePrefix(t: Token, x: string, y: string)
    requires Stable(t, x) && y <= x
    ensures Stable(t, y)
  {
    if t.kind == Plain && t.text == "$" && y != "" {
      assert ("$" + y) + x[|y|..] == "$" + x;
      if StartsDollar("$" + y) { DollarTagInside("$" + y, x[|y|..]); }
    }
  }

  /** Dropping the last byte of what follows a closed lexeme leaves the lexeme. */
  lemma {:induction false} DropLastBehind(s: string)
    requires s != "" && NextToken(s).closed && !IsComment(NextToken(s)) && |NextToken(s).text| < |s|
    ensures var r := s[..|s| - 1];
      var x := Rest(s);
      r != "" && NextToken(r) == NextToken(s) && x != "" && Rest(r) == x[..|x| - 1] && x[|x| - 1] == s[|s| - 1]
  {
    var t := NextToken(s);
    var x := Rest(s);
    var y := x[..|x| - 1];
    NextTokenPrefix(s);
    assert s[..|s| - 1] == t.text + y;
    TokenAlone(s);
    StableSelf(s);
    StablePrefix(t, x, y);
    TokenFollow(t.text, y);
  }

  lemma {:induction false} DropLastOpen(s: string)
    requires Clean(s) && s != "" && !NextToken(s).closed && IsSpace(s[|s| - 1])
    ensures Clean(s[..|s| - 1]) && !Closed(s)
  {
    var r := s[..|s| - 1];
    OpenShorter(s);
    assert Rest(r) == "" by { NextTokenPrefix(r); }
  }

  lemma {:induction false} DropLastToken(s: string)
    requires Clean(s) && s != "" && NextToken(s).closed && |NextToken(s).text| == |s| && IsSpace(s[|s| - 1])
    ensures s[..|s| - 1] == ""
  {
    NextTokenPrefix(s);
    assert NextToken(s).text == s;
    if NextToken(s).kind != Plain { ClosedEnd(s); }
  }

  lemma {:induction false} DropLastKeeps(s: string)
    requires Clean(s) && s != "" && IsSpace(s[|s| - 1])
    ensures Clean(s[..|s| - 1]) && (Closed(s) ==> Closed(s[..|s| - 1]))
    decreases |s|
  {
    if !NextToken(s).closed {
      DropLastOpen(s);
    } else if |NextToken(s).text| == |s| {
      DropLastToken(s);
    } else {
      assert |Rest(s)| < |s| by { NextTokenPrefix(s); }
      DropLastBehind(s);
      DropLastKeeps(Rest(s));
    }
  }

  lemma {:induction false} TrimRightKeeps(s: string)
    requires Clean(s)
    ensures Clean(TrimRight(s)) && (Closed(s) ==> Closed(TrimRight(s)))
  {
    if s != "" && IsSpace(s[|s| - 1]) {
      DropLastKeeps(s);
      TrimRightKeeps(s[..|s| - 1]);
    }
  }

  // ----- the normal form -----

  lemma {:induction false} SplitClean(s: string, cur: string)
    requires Clean(s)
    ensures SplitFrom(s, cur) == Flush(cur + s)
    decreases |s|
  {
    if s == "" {
      assert cur + s == cur;
    } else {
      var t := NextToken(s).text;
      SplitStep(s, cur);
      NextTokenPrefix(s);
      SplitClean(Rest(s), cur + t);
      Associate(cur, t, Rest(s));
    }
  }

  /** A trimmed, non-empty text that is one statement and nothing else. */
  predicate IsStatement(st: string) {
    st != "" && Trimmed(st) && Clean(st)
  }

  /** Statements of which only the last may end inside a quote. */
  predicate NormalForm(stmts: seq<string>) {
    forall k :: 0 <= k < |stmts| ==> IsStatement(stmts[k]) && (k + 1 < |stmts| ==> Closed(stmts[k]))
  }

  lemma {:induction false} FlushRaw(s: string)
    ensures NormalForm(Flush(Raw(s)))
    ensures HasSemicolon(s) ==> forall k :: 0 <= k < |Flush(Raw(s))| ==> Closed(Flush(Raw(s))[k])
  {
    var r := Raw(s);
    RawClean(s);
    TrimLeftKeeps(r);
    TrimRightKeeps(TrimLeft(r));
    TrimTrims(r);
  }

  lemma {:induction false} SplitNormal(s: string)
    ensures NormalForm(Split(s))
    decreases |s|
  {
    SplitRaw(s, "");
    assert "" + Raw(s) == Raw(s);
    FlushRaw(s);
    if HasSemicolon(s) {
      SplitNormal(After(s));
    }
  }

  lemma {:induction false} StatementSplit(st: string)
    requires IsStatement(st)
    ensures Split(st) == [st]
  {
    SplitClean(st, "");
    TrimTrims(st);
    assert "" + st == st;
  }

  lemma {:induction false} JoinSplit(stmts: seq<string>)
    requires NormalForm(stmts)
    ensures Split(Join(stmts, ";")) == stmts
  {
    if |stmts| == 1 {
      StatementSplit(stmts[0]);
    } else if |stmts| > 1 {
      assert IsStatement(stmts[0]) && Closed(stmts[0]);
      forall k | 0 <= k < |stmts| - 1
        ensures IsStatement(stmts[1..][k]) && (k + 2 < |stmts| ==> Closed(stmts[1..][k]))
      {
        assert stmts[1..][k] == stmts[k + 1];
      }
      JoinSplit(stmts[1..]);
      ComposesWhenClosed(stmts[0], Join(stmts[1..], ";"));
      StatementSplit(stmts[0]);
      assert stmts == [stmts[0]] + stmts[1..];
    }
  }

  /** Splitting is a normal form: every statement splits to itself, and so does the whole list joined again. */
  lemma {:induction false} SplitIdempotent(s: string)
    ensures forall st :: st in Split(s) ==> st != "" && Trimmed(st) && Split(st) == [st]
    ensures Split(Join(Split(s), ";")) == Split(s)
  {
    SplitNormal(s);
    forall st | st in Split(s) ensures st != "" && Trimmed(st) && Split(st) == [st] {
      var k :| 0 <= k < |Split(s)| && Split(s)[k] == st;
      StatementSplit(st);
    }
    JoinSplit(Split(s));
  }

  /** Exactly the normal forms are results of splitting. */
  lemma {:induction false} SplitImage(stmts: seq<string>)
    ensures NormalForm(stmts) <==> exists s :: Split(s) == stmts
  {
    if NormalForm(stmts) {
      JoinSplit(stmts);
    }
    if s :| Split(s) == stmts {
      SplitNormal(s);
    }
  }
}
