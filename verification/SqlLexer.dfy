/**
 The lexical grammar behind the migration splitter: a SQL text is a sequence of
 comments, quoted strings, dollar-quoted bodies, semicolons and single other
 characters.  Bytes are modelled as chars; no decision looks above 127.
 */
module SqlLexer {
  import opened Text

  datatype Kind = LineComment | BlockComment | SingleQuoted | DoubleQuoted | DollarQuoted | Semicolon | Plain

  /** A lexeme; `closed` is false when the input ends inside it. */
  datatype Token = Token(kind: Kind, text: string, closed: bool)

  /** How much of the input a construct takes, and whether it ended properly. */
  datatype Span = Span(len: nat, closed: bool)

  /** From inside a line comment to the newline that ends it, inclusive. */
  function LineSpan(s: string): (r: Span)
    ensures r.len <= |s| && (!r.closed ==> r.len == |s|)
  {
    if s == "" then Span(0, false)
    else if s[0] == '\n' then Span(1, true)
    else
      var r := LineSpan(s[1..]);
      Span(1 + r.len, r.closed)
  }

  /** From inside a block comment to its first terminator, inclusive. */
  function BlockSpan(s: string): (r: Span)
    ensures r.len <= |s| && (!r.closed ==> r.len == |s|)
  {
    if |s| < 2 then Span(|s|, false)
    else if s[0] == '*' && s[1] == '/' then Span(2, true)
    else
      var r := BlockSpan(s[1..]);
      Span(1 + r.len, r.closed)
  }

  /** From inside a quoted string to its closing quote; a doubled quote stands for itself. */
  function QuoteSpan(s: string, q: char): (r: Span)
    ensures r.len <= |s| && (!r.closed ==> r.len == |s|)
  {
    if s == "" then Span(0, false)
    else if s[0] == q then
      if |s| > 1 && s[1] == q then
        var r := QuoteSpan(s[2..], q);
        Span(2 + r.len, r.closed)
      else Span(1, true)
    else
      var r := QuoteSpan(s[1..], q);
      Span(1 + r.len, r.closed)
  }

  /** tag occurs in s at position k */
  predicate MatchesAt(s: string, tag: string, k: nat) {
    k + |tag| <= |s| && s[k..k + |tag|] == tag
  }

  /** From inside a dollar-quoted body to the first repetition of its tag, inclusive. */
  function DollarSpan(s: string, tag: string): (r: Span)
    requires tag != ""
    ensures r.len <= |s| && (!r.closed ==> r.len == |s|)
  {
    if MatchesAt(s, tag, 0) then Span(|tag|, true)
    else if s == "" then Span(0, false)
    else
      var r := DollarSpan(s[1..], tag);
      Span(1 + r.len, r.closed)
  }

  predicate IsTagChar(c: char) {
    'A' <= c <= 'Z' || 'a' <= c <= 'z' || '0' <= c <= '9' || c == '_'
  }

  /** Length of the leading run of tag characters. */
  function TagRun(s: string): (n: nat)
    ensures n <= |s|
  {
    if s != "" && IsTagChar(s[0]) then 1 + TagRun(s[1..]) else 0
  }

  /** The dollar-quote tag `$name$` that s starts with, or "" when there is none. */
  function DollarTag(s: string): (tag: string)
    requires s != "" && s[0] == '$'
    ensures |tag| <= |s|
  {
    var n := TagRun(s[1..]);
    if 1 + n < |s| && s[1 + n] == '$' then s[..n + 2] else ""
  }

  predicate StartsLineComment(s: string) { |s| >= 2 && s[0] == '-' && s[1] == '-' }

  predicate StartsBlockComment(s: string) { |s| >= 2 && s[0] == '/' && s[1] == '*' }

  predicate StartsDollar(s: string) { s != "" && s[0] == '$' && DollarTag(s) != "" }

  /** The first lexeme of a non-empty text. */
  function NextToken(s: string): (t: Token)
    requires s != ""
    ensures 1 <= |t.text| <= |s|
  {
    if StartsLineComment(s) then
      var r := LineSpan(s);
      Token(LineComment, s[..r.len], r.closed)
    else if StartsBlockComment(s) then
      var r := BlockSpan(s[2..]);
      Token(BlockComment, s[..2 + r.len], r.closed)
    else if StartsDollar(s) then
      var tag := DollarTag(s);
      var r := DollarSpan(s[|tag|..], tag);
      Token(DollarQuoted, s[..|tag| + r.len], r.closed)
    else if s[0] == '\'' then
      var r := QuoteSpan(s[1..], '\'');
      Token(SingleQuoted, s[..1 + r.len], r.closed)
    else if s[0] == '"' then
      var r := QuoteSpan(s[1..], '"');
      Token(DoubleQuoted, s[..1 + r.len], r.closed)
    else if s[0] == ';' then
      Token(Semicolon, s[..1], true)
    else
      Token(Plain, s[..1], true)
  }

  function Rest(s: string): (r: string)
    requires s != ""
    ensures |r| < |s|
  {
    s[|NextToken(s).text|..]
  }

  /** Every lexeme of a text, in order. */
  function Lex(s: string): seq<Token> {
    if s == "" then [] else [NextToken(s)] + Lex(Rest(s))
  }

  predicate IsComment(t: Token) { t.kind == LineComment || t.kind == BlockComment }

  /** What the splitter keeps of a lexeme: a comment becomes one space. */
  function Render(t: Token): string {
    if IsComment(t) then " " else t.text
  }

  /** A finished statement: trimmed, and dropped when nothing remains. */
  function Flush(cur: string): (r: seq<string>)
    ensures |r| <= 1
  {
    if Trim(cur) == "" then [] else [Trim(cur)]
  }

  /** Split a text whose already collected statement text is `cur`. */
  function SplitFrom(s: string, cur: string): seq<string>
    decreases |s|
  {
    if s == "" then Flush(cur)
    else if NextToken(s).kind == Semicolon then Flush(cur) + SplitFrom(Rest(s), "")
    else SplitFrom(Rest(s), cur + Render(NextToken(s)))
  }

  function Split(s: string): seq<string> { SplitFrom(s, "") }

  /** Concatenated lexemes. */
  function Texts(ts: seq<Token>): string {
    if ts == [] then "" else ts[0].text + Texts(ts[1..])
  }

  /** The statements of a lexeme sequence, without looking at the text again. */
  function Group(ts: seq<Token>, cur: string): seq<string> {
    if ts == [] then Flush(cur)
    else if ts[0].kind == Semicolon then Flush(cur) + Group(ts[1..], "")
    else Group(ts[1..], cur + Render(ts[0]))
  }

  /** The lexeme is a prefix of the text, and all of it when the text ends inside it. */
  lemma {:induction false} NextTokenPrefix(s: string)
    requires s != ""
    ensures NextToken(s).text + Rest(s) == s
    ensures !NextToken(s).closed ==> NextToken(s).text == s
  {
  }

  lemma {:induction false} NoNewline(s: string)
    requires '\n' !in s
    ensures LineSpan(s) == Span(|s|, false)
  {
    if s != "" {
      assert s[0] in s;
      NoNewline(s[1..]);
    }
  }

  lemma {:induction false} LineSpanText(s: string)
    ensures var r := LineSpan(s);
      if r.closed then 0 < r.len && s[r.len - 1] == '\n' && '\n' !in s[..r.len - 1] else '\n' !in s
  {
    if s != "" && s[0] != '\n' {
      var r := LineSpan(s);
      LineSpanText(s[1..]);
      assert s == [s[0]] + s[1..];
      assert r.closed ==> s[..r.len - 1] == [s[0]] + s[1..][..r.len - 2];
    }
  }

  lemma {:induction false} BlockSpanText(s: string)
    ensures var r := BlockSpan(s);
      && (r.closed ==> 2 <= r.len && s[r.len - 2] == '*' && s[r.len - 1] == '/')
      && forall k :: 0 <= k && k + (if r.closed then 2 else 1) < r.len ==> !(s[k] == '*' && s[k + 1] == '/')
  {
    if |s| >= 2 && !(s[0] == '*' && s[1] == '/') {
      BlockSpanText(s[1..]);
      assert forall k :: 0 < k < |s| ==> s[k] == s[1..][k - 1];
    }
  }

  lemma {:induction false} TagRunEnds(s: string, n: nat)
    requires n < |s| && !IsTagChar(s[n]) && forall k :: 0 <= k < n ==> IsTagChar(s[k])
    ensures TagRun(s) == n
  {
    if n > 0 { TagRunEnds(s[1..], n - 1); }
  }

  lemma {:induction false} TagRunText(s: string)
    ensures var n := TagRun(s);
      (forall k :: 0 <= k < n ==> IsTagChar(s[k])) && (n < |s| ==> !IsTagChar(s[n]))
  {
    if s != "" && IsTagChar(s[0]) {
      TagRunText(s[1..]);
      assert forall k :: 0 < k < |s| ==> s[k] == s[1..][k - 1];
    }
  }

  lemma {:induction false} DollarTagText(s: string)
    requires StartsDollar(s)
    ensures DollarTag(s) <= s && IsDollarTag(DollarTag(s))
  {
    TagRunText(s[1..]);
  }

  /** What a lexeme of each kind looks like; only an unclosed one may lack its terminator. */
  ghost predicate WellFormed(t: Token) {
    match t.kind
    case LineComment =>
      StartsLineComment(t.text) && (t.closed <==> '\n' in t.text) &&
      (t.closed ==> '\n' !in t.text[..|t.text| - 1])
    case BlockComment =>
      StartsBlockComment(t.text) &&
      (forall k :: 2 <= k && k + 2 < |t.text| ==> !(t.text[k] == '*' && t.text[k + 1] == '/')) &&
      (t.closed <==> |t.text| >= 4 && t.text[|t.text| - 2] == '*' && t.text[|t.text| - 1] == '/')
    case SingleQuoted => IsQuoted(t.text, '\'', t.closed)
    case DoubleQuoted => IsQuoted(t.text, '"', t.closed)
    case DollarQuoted =>
      exists tag, body :: IsDollarTag(tag) && IsDollarBody(t.text, tag, body, t.closed)
    case Semicolon => t.text == ";" && t.closed
    case Plain =>
      |t.text| == 1 && t.closed && t.text[0] != '\'' && t.text[0] != '"' && t.text[0] != ';'
  }

  /** q body q, where every q inside the body is doubled. */
  ghost predicate IsQuoted(text: string, q: char, closed: bool) {
    text != "" && text[0] == q &&
    if closed then |text| >= 2 && text[|text| - 1] == q && Doubled(text[1..|text| - 1], q)
    else Doubled(text[1..], q)
  }

  ghost predicate Doubled(body: string, q: char) {
    body == "" ||
    if body[0] == q then |body| >= 2 && body[1] == q && Doubled(body[2..], q)
    else Doubled(body[1..], q)
  }

  ghost predicate IsDollarTag(tag: string) {
    |tag| >= 2 && tag[0] == '$' && tag[|tag| - 1] == '$' && forall k :: 0 < k < |tag| - 1 ==> IsTagChar(tag[k])
  }

  /** tag body tag, where tag first recurs right after the body. */
  ghost predicate IsDollarBody(text: string, tag: string, body: string, closed: bool) {
    var tail := body + if closed then tag else "";
    text == tag + tail &&
    forall k :: 0 <= k < |body| ==> !MatchesAt(tail, tag, k)
  }

  lemma {:induction false} QuoteBody(s: string, q: char)
    ensures var r := QuoteSpan(s, q);
      if r.closed then 0 < r.len && s[r.len - 1] == q && Doubled(s[..r.len - 1], q) else Doubled(s, q)
  {
    var r := QuoteSpan(s, q);
    if s == "" {
    } else if s[0] == q && !(|s| > 1 && s[1] == q) {
    } else {
      var d := if s[0] == q then 2 else 1;
      QuoteBody(s[d..], q);
      var body := if r.closed then s[..r.len - 1] else s;
      var tail := if r.closed then s[d..][..r.len - d - 1] else s[d..];
      assert body[d..] == tail;
    }
  }

  lemma {:induction false} MatchShift(s: string, tag: string, k: nat)
    requires 0 < k <= |s|
    ensures MatchesAt(s, tag, k) <==> MatchesAt(s[1..], tag, k - 1)
  {
    if k + |tag| <= |s| { assert s[1..][k - 1..k - 1 + |tag|] == s[k..k + |tag|]; }
  }

  lemma {:induction false} DollarBody(s: string, tag: string)
    requires tag != ""
    ensures var r := DollarSpan(s, tag);
      && (r.closed ==> |tag| <= r.len && MatchesAt(s, tag, r.len - |tag|))
      && forall k :: 0 <= k < r.len - (if r.closed then |tag| else 0) ==> !MatchesAt(s, tag, k)
  {
    var r := DollarSpan(s, tag);
    if !MatchesAt(s, tag, 0) && s != "" {
      DollarBody(s[1..], tag);
      if r.closed { MatchShift(s, tag, r.len - |tag|); }
      forall k | 0 < k < r.len - (if r.closed then |tag| else 0) ensures !MatchesAt(s, tag, k) {
        MatchShift(s, tag, k);
      }
    }
  }

  lemma {:induction false} LineCommentWellFormed(s: string)
    requires StartsLineComment(s)
    ensures WellFormed(NextToken(s))
  {
    var r := LineSpan(s);
    LineSpanText(s);
    assert r.closed ==> r.len > 2;
    var text := s[..r.len];
    assert r.closed ==> text[..|text| - 1] == s[..r.len - 1] && text[r.len - 1] == '\n';
  }

  lemma {:induction false} BlockCommentWellFormed(s: string)
    requires StartsBlockComment(s)
    ensures WellFormed(NextToken(s))
  {
    var r := BlockSpan(s[2..]);
    BlockSpanText(s[2..]);
    var text := s[..2 + r.len];
    assert forall k :: 2 <= k < |text| ==> text[k] == s[2..][k - 2];
  }

  lemma {:induction false} NextTokenWellFormed(s: string)
    requires s != ""
    ensures WellFormed(NextToken(s))
  {
    if StartsLineComment(s) {
      LineCommentWellFormed(s);
    } else if StartsBlockComment(s) {
      BlockCommentWellFormed(s);
    } else if StartsDollar(s) {
      DollarWellFormed(s);
    } else if s[0] == '\'' || s[0] == '"' {
      QuotedWellFormed(s, s[0]);
    }
  }

  lemma {:induction false} QuotedWellFormed(s: string, q: char)
    requires s != "" && s[0] == q
    ensures var r := QuoteSpan(s[1..], q); IsQuoted(s[..1 + r.len], q, r.closed)
  {
    var r := QuoteSpan(s[1..], q);
    QuoteBody(s[1..], q);
    var text := s[..1 + r.len];
    if r.closed {
      assert text[1..|text| - 1] == s[1..][..r.len - 1];
    } else {
      assert text == s;
    }
  }

  lemma {:induction false} DollarTailBody(rest: string, tag: string) returns (body: string)
    requires tag != ""
    ensures var r := DollarSpan(rest, tag); IsDollarBody(tag + rest[..r.len], tag, body, r.closed)
  {
    var r := DollarSpan(rest, tag);
    DollarBody(rest, tag);
    body := rest[..r.len - if r.closed then |tag| else 0];
    var tail := rest[..r.len];
    forall k | 0 <= k < |body| ensures !MatchesAt(tail, tag, k) {
      if MatchesAt(tail, tag, k) { MatchesFurther(rest, r.len, tag, k); }
    }
    assert tail == body + if r.closed then tag else "";
  }

  lemma {:induction false} MatchesFurther(s: string, n: nat, tag: string, k: nat)
    requires n <= |s| && MatchesAt(s[..n], tag, k)
    ensures MatchesAt(s, tag, k)
  {
    assert s[..n][k..k + |tag|] == s[k..k + |tag|];
  }

  lemma {:induction false} DollarWellFormed(s: string)
    requires StartsDollar(s)
    ensures NextToken(s).kind == DollarQuoted && WellFormed(NextToken(s))
  {
    var tag := DollarTag(s);
    DollarTagText(s);
    var rest := s[|tag|..];
    var r := DollarSpan(rest, tag);
    var body := DollarTailBody(rest, tag);
    var text := s[..|tag| + r.len];
    assert text == tag + rest[..r.len];
    assert IsDollarBody(text, tag, body, r.closed);
    assert NextToken(s) == Token(DollarQuoted, text, r.closed);
  }

  /** The lexemes spell the input, each is well formed, and only the last may be unclosed. */
  lemma {:induction false} LexConserves(s: string)
    ensures Texts(Lex(s)) == s
    ensures forall k :: 0 <= k < |Lex(s)| ==> WellFormed(Lex(s)[k]) && (k + 1 < |Lex(s)| ==> Lex(s)[k].closed)
  {
    if s != "" {
      var t := NextToken(s);
      NextTokenWellFormed(s);
      NextTokenPrefix(s);
      LexConserves(Rest(s));
      assert Lex(s)[1..] == Lex(Rest(s));
    }
  }

  /** Splitting loses nothing but comments and top-level semicolons: it only groups the lexemes. */
  lemma {:induction false} SplitGroups(s: string, cur: string)
    ensures SplitFrom(s, cur) == Group(Lex(s), cur)
    decreases |s|
  {
    if s != "" {
      assert Lex(s)[1..] == Lex(Rest(s));
      if NextToken(s).kind == Semicolon {
        SplitGroups(Rest(s), "");
      } else {
        SplitGroups(Rest(s), cur + Render(NextToken(s)));
      }
    }
  }
}
