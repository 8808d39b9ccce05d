/**
 Migration texts as they are written, without a scanner: comments, quotations, dollar-quoted
 bodies, semicolons and other characters, spelled one after the other.  Splitting the spelling
 gives the statements between the semicolons, and every text is such a spelling.
 */
module SqlPieces {
  import opened Text
  import opened SqlLexer

  /** What a text is made of; the `Last` forms lack their terminator and end the text. */
  datatype Piece =
    | Line(text: string) | LastLine(text: string)
    | Block(text: string) | LastBlock(text: string)
    | Quotation(quote: char, text: string) | LastQuotation(quote: char, text: string)
    | Body(name: string, text: string) | LastBody(name: string, text: string)
    | End
    | Other(c: char)

  /** Letters, digits and underscores, or nothing at all. */
  predicate IsName(name: string) {
    forall k :: 0 <= k < |name| ==>
      'a' <= name[k] <= 'z' || 'A' <= name[k] <= 'Z' || '0' <= name[k] <= '9' || name[k] == '_'
  }

  function Tag(name: string): string { "$" + (name + "$") }

  /** The text with every quote written twice. */
  function Doubling(text: string, quote: char): string {
    if text == "" then ""
    else (if text[0] == quote then [quote, quote] else [text[0]]) + Doubling(text[1..], quote)
  }

  function Spell(p: Piece): string {
    match p
    case Line(text) => "--" + (text + "\n")
    case LastLine(text) => "--" + text
    case Block(text) => "/*" + (text + "*/")
    case LastBlock(text) => "/*" + text
    case Quotation(quote, text) => [quote] + (Doubling(text, quote) + [quote])
    case LastQuotation(quote, text) => [quote] + Doubling(text, quote)
    case Body(name, text) => Tag(name) + (text + Tag(name))
    case LastBody(name, text) => Tag(name) + text
    case End => ";"
    case Other(c) => [c]
  }

  /** x does not begin at any of the first n positions of s. */
  predicate NotBefore(x: string, s: string, n: nat) {
    forall k :: 0 <= k < n && k <= |s| ==> !(x <= s[k..])
  }

  /** The piece reads as itself when `after` follows it. */
  ghost predicate Fits(p: Piece, after: string) {
    match p
    case Line(text) => '\n' !in text
    case LastLine(text) => '\n' !in text && after == ""
    case Block(text) => NotBefore("*/", text + "*/", |text|)
    case LastBlock(text) => NotBefore("*/", text, |text|) && after == ""
    case Quotation(quote, text) => (quote == '\'' || quote == '"') && !([quote] <= after)
    case LastQuotation(quote, text) => (quote == '\'' || quote == '"') && after == ""
    case Body(name, text) => IsName(name) && NotBefore(Tag(name), text + Tag(name), |text|)
    case LastBody(name, text) => IsName(name) && NotBefore(Tag(name), text, |text|) && after == ""
    case End => true
    case Other(c) =>
      && c != '\'' && c != '"' && c != ';'
      && (c == '-' ==> !("-" <= after)) && (c == '/' ==> !("*" <= after))
      && (c == '$' ==> !OpensTag(after))
  }

  ghost predicate OpensTag(after: string) { exists name :: IsName(name) && name + "$" <= after }

  function SpellAll(ps: seq<Piece>): string {
    if ps == [] then "" else Spell(ps[0]) + SpellAll(ps[1..])
  }

  ghost predicate AllFit(ps: seq<Piece>) {
    ps == [] || (Fits(ps[0], SpellAll(ps[1..])) && AllFit(ps[1..]))
  }

  /** A statement counts when it is not blank, and is trimmed. */
  function Keep(cur: string): seq<string> {
    if Blank(cur) then [] else [Trim(cur)]
  }

  predicate IsRemark(p: Piece) { p.Line? || p.LastLine? || p.Block? || p.LastBlock? }

  /** The statements of the pieces after those that spelled `cur`. */
  function Statements(ps: seq<Piece>, cur: string): seq<string> {
    if ps == [] then Keep(cur)
    else if ps[0].End? then Keep(cur) + Statements(ps[1..], "")
    else Statements(ps[1..], cur + if IsRemark(ps[0]) then " " else Spell(ps[0]))
  }

  // ----- dollar tags -----

  lemma {:induction false} NameRun(name: string, after: string)
    requires IsName(name)
    ensures TagRun(name + ("$" + after)) == |name|
  {
    var s := name + ("$" + after);
    assert forall k :: 0 <= k < |name| ==> s[k] == name[k];
    TagRunEnds(s, |name|);
  }

  /** Every well-formed tag at the start is recognised, and nothing else. */
  lemma {:induction false} DollarTagIs(name: string, after: string)
    requires IsName(name)
    ensures StartsDollar(Tag(name) + after) && DollarTag(Tag(name) + after) == Tag(name)
  {
    var s := Tag(name) + after;
    assert s[1..] == name + ("$" + after);
    NameRun(name, after);
    assert s[..|name| + 2] == Tag(name);
  }

  lemma {:induction false} DollarTagNamed(s: string) returns (name: string)
    requires StartsDollar(s)
    ensures IsName(name) && DollarTag(s) == Tag(name)
  {
    var tag := DollarTag(s);
    DollarTagText(s);
    name := tag[1..|tag| - 1];
    assert forall k :: 0 <= k < |name| ==> name[k] == tag[k + 1];
    assert tag == Tag(name);
  }

  /** A dollar quotation starts exactly where some tag does. */
  lemma {:induction false} StartsDollarExactly(s: string)
    ensures StartsDollar(s) <==> exists name :: IsName(name) && Tag(name) <= s
  {
    if StartsDollar(s) {
      var name := DollarTagNamed(s);
      DollarTagText(s);
      assert Tag(name) <= s;
    }
    if name :| IsName(name) && Tag(name) <= s {
      DollarTagIs(name, s[|Tag(name)|..]);
      assert Tag(name) + s[|Tag(name)|..] == s;
    }
  }

  // ----- spans -----

  lemma {:induction false} LineSpanAt(text: string, after: string)
    requires '\n' !in text
    ensures LineSpan(text + ("\n" + after)) == Span(|text| + 1, true)
  {
    if text == "" {
      assert text + ("\n" + after) == "\n" + after;
    } else {
      assert text[0] in text;
      assert (text + ("\n" + after))[1..] == text[1..] + ("\n" + after);
      LineSpanAt(text[1..], after);
    }
  }

  lemma {:induction false} BlockSpanAt(s: string, n: nat)
    requires n + 2 <= |s| && s[n] == '*' && s[n + 1] == '/'
    requires forall k :: 0 <= k < n ==> !(s[k] == '*' && s[k + 1] == '/')
    ensures BlockSpan(s) == Span(n + 2, true)
  {
    if n > 0 {
      assert forall k :: 0 <= k < |s| - 1 ==> s[1..][k] == s[k + 1];
      BlockSpanAt(s[1..], n - 1);
    }
  }

  lemma {:induction false} BlockSpanNone(s: string)
    requires forall k :: 0 <= k < |s| - 1 ==> !(s[k] == '*' && s[k + 1] == '/')
    ensures BlockSpan(s) == Span(|s|, false)
  {
    if |s| >= 2 {
      assert forall k :: 0 <= k < |s| - 1 ==> s[1..][k] == s[k + 1];
      BlockSpanNone(s[1..]);
    }
  }

  lemma {:induction false} QuoteSpanAt(text: string, q: char, after: string)
    requires !([q] <= after)
    ensures QuoteSpan(Doubling(text, q) + ([q] + after), q) == Span(|Doubling(text, q)| + 1, true)
  {
    var s := Doubling(text, q) + ([q] + after);
    if text == "" {
      assert s == [q] + after;
      assert |s| > 1 ==> s[1] == after[0];
    } else {
      var d := if text[0] == q then 2 else 1;
      assert s[d..] == Doubling(text[1..], q) + ([q] + after);
      QuoteSpanAt(text[1..], q, after);
    }
  }

  lemma {:induction false} QuoteSpanNone(text: string, q: char)
    ensures QuoteSpan(Doubling(text, q), q) == Span(|Doubling(text, q)|, false)
  {
    if text != "" {
      var d := if text[0] == q then 2 else 1;
      assert Doubling(text, q)[d..] == Doubling(text[1..], q);
      QuoteSpanNone(text[1..], q);
    }
  }

  lemma {:induction false} DollarSpanAt(s: string, tag: string, n: nat)
    requires tag != "" && n <= |s| && tag <= s[n..] && NotBefore(tag, s, n)
    ensures DollarSpan(s, tag) == Span(n + |tag|, true)
  {
    assert n == 0 ==> s[0..] == s && s[..|tag|] == tag;
    if n > 0 {
      assert s[0..] == s && !(tag <= s[0..]);
      assert forall k :: 0 <= k <= |s| - 1 ==> s[1..][k..] == s[k + 1..];
      DollarSpanAt(s[1..], tag, n - 1);
    }
  }

  lemma {:induction false} DollarSpanNone(s: string, tag: string)
    requires tag != "" && NotBefore(tag, s, |s|)
    ensures DollarSpan(s, tag) == Span(|s|, false)
  {
    if s != "" {
      assert s[0..] == s && !(tag <= s[0..]);
      assert forall k :: 0 <= k <= |s| - 1 ==> s[1..][k..] == s[k + 1..];
      DollarSpanNone(s[1..], tag);
    }
  }

  // ----- the first lexeme -----

  /** The scanner takes the piece, and no more, as its first lexeme. */
  ghost predicate Reads(p: Piece, after: string) {
    var s := Spell(p) + after;
    && s != "" && NextToken(s).text == Spell(p) && Rest(s) == after
    && (NextToken(s).kind == Semicolon <==> p.End?) && (IsComment(NextToken(s)) <==> IsRemark(p))
  }

  lemma {:induction false} TextReads(p: Piece, s: string, after: string, n: nat)
    requires s == Spell(p) + after && s != "" && n == |Spell(p)| && NextToken(s).text == s[..n]
    requires (NextToken(s).kind == Semicolon <==> p.End?) && (IsComment(NextToken(s)) <==> IsRemark(p))
    ensures Reads(p, after)
  {
    assert s[..n] == Spell(p) && s[n..] == after;
  }

  lemma {:induction false} LineReads(p: Piece, after: string)
    requires (p.Line? || p.LastLine?) && Fits(p, after)
    ensures Reads(p, after)
  {
    var s := Spell(p) + after;
    if p.Line? {
      assert s == ("--" + p.text) + ("\n" + after);
      LineSpanAt("--" + p.text, after);
    } else {
      assert s == "--" + p.text;
      NoNewline(s);
    }
    TextReads(p, s, after, |Spell(p)|);
  }

  lemma {:induction false} EndAt(s: string, k: nat)
    requires k <= |s|
    ensures "*/" <= s[k..] <==> k + 1 < |s| && s[k] == '*' && s[k + 1] == '/'
  {
    if k + 1 < |s| { assert s[k..][0] == s[k] && s[k..][1] == s[k + 1]; }
  }

  lemma {:induction false} BlockReads(p: Piece, after: string)
    requires p.Block? && Fits(p, after)
    ensures Reads(p, after)
  {
    var s := Spell(p) + after;
    var inner, n := p.text + "*/", |p.text|;
    assert s[2..] == inner + after;
    forall k | 0 <= k < n ensures !(s[2..][k] == '*' && s[2..][k + 1] == '/') {
      EndAt(inner, k);
    }
    BlockSpanAt(s[2..], n);
    TextReads(p, s, after, n + 4);
  }

  lemma {:induction false} LastBlockReads(p: Piece)
    requires p.LastBlock? && Fits(p, "")
    ensures Reads(p, "")
  {
    var s := Spell(p) + "";
    assert s == Spell(p) && s[2..] == p.text;
    forall k | 0 <= k < |p.text| - 1 ensures !(p.text[k] == '*' && p.text[k + 1] == '/') {
      EndAt(p.text, k);
    }
    BlockSpanNone(p.text);
    TextReads(p, s, "", |s|);
  }

  lemma {:induction false} QuotedToken(s: string, q: char, inner: string)
    requires s == [q] + inner && (q == '\'' || q == '"')
    ensures NextToken(s).text == s[..1 + QuoteSpan(inner, q).len]
    ensures NextToken(s).kind == SingleQuoted || NextToken(s).kind == DoubleQuoted
  {
    assert s[1..] == inner;
  }

  lemma {:induction false} QuotationReads(p: Piece, after: string)
    requires p.Quotation? && Fits(p, after)
    ensures Reads(p, after)
  {
    var q, doubled := p.quote, Doubling(p.text, p.quote);
    var inner := doubled + ([q] + after);
    var s := Spell(p) + after;
    assert s == [q] + inner;
    QuoteSpanAt(p.text, q, after);
    QuotedToken(s, q, inner);
    TextReads(p, s, after, |doubled| + 2);
  }

  lemma {:induction false} LastQuotationReads(p: Piece)
    requires p.LastQuotation? && Fits(p, "")
    ensures Reads(p, "")
  {
    var q, doubled := p.quote, Doubling(p.text, p.quote);
    var s := Spell(p) + "";
    assert s == [q] + doubled;
    QuoteSpanNone(p.text, q);
    QuotedToken(s, q, doubled);
    TextReads(p, s, "", |s|);
  }

  lemma {:induction false} DollarToken(s: string, name: string, rest: string)
    requires s == Tag(name) + rest && IsName(name)
    ensures s != "" && NextToken(s).text == s[..|Tag(name)| + DollarSpan(rest, Tag(name)).len]
    ensures NextToken(s).kind == DollarQuoted
  {
    DollarTagIs(name, rest);
    assert s[|Tag(name)|..] == rest;
  }

  lemma {:induction false} PrefixOf(tag: string, here: string, after: string)
    requires |tag| <= |here|
    ensures tag <= here + after <==> tag <= here
  {
    assert (here + after)[..|tag|] == here[..|tag|];
  }

  lemma {:induction false} BodySpan(text: string, tag: string, after: string)
    requires tag != "" && NotBefore(tag, text + tag, |text|)
    ensures DollarSpan(text + (tag + after), tag) == Span(|text| + |tag|, true)
  {
    var rest, n := text + (tag + after), |text|;
    assert rest[n..] == tag + after;
    forall k | 0 <= k < n ensures !(tag <= rest[k..]) {
      var here := (text + tag)[k..];
      assert rest[k..] == here + after;
      PrefixOf(tag, here, after);
    }
    DollarSpanAt(rest, tag, n);
  }

  lemma {:induction false} BodyReads(p: Piece, after: string)
    requires p.Body? && Fits(p, after)
    ensures Reads(p, after)
  {
    var tag := Tag(p.name);
    var rest := p.text + (tag + after);
    var s := Spell(p) + after;
    assert s == tag + rest by {
      Associate(tag, p.text + tag, after);
      Associate(p.text, tag, after);
    }
    BodySpan(p.text, tag, after);
    DollarToken(s, p.name, rest);
    TextReads(p, s, after, |tag| + (|p.text| + |tag|));
  }

  lemma {:induction false} LastBodyReads(p: Piece)
    requires p.LastBody? && Fits(p, "")
    ensures Reads(p, "")
  {
    var tag := Tag(p.name);
    var s := Spell(p) + "";
    assert s == tag + p.text;
    DollarSpanNone(p.text, tag);
    DollarToken(s, p.name, p.text);
    TextReads(p, s, "", |s|);
  }

  lemma {:induction false} DollarOpens(s: string)
    requires StartsDollar(s)
    ensures OpensTag(s[1..])
  {
    var name := DollarTagNamed(s);
    DollarTagText(s);
    assert Tag(name)[1..] == name + "$";
    assert s[1..][..|name| + 1] == s[..|name| + 2][1..] == name + "$";
  }

  lemma {:induction false} OtherReads(p: Piece, after: string)
    requires (p.Other? || p.End?) && Fits(p, after)
    ensures Reads(p, after)
  {
    var s := Spell(p) + after;
    assert s[1..] == after;
    if StartsDollar(s) { DollarOpens(s); }
    TextReads(p, s, after, 1);
  }

  /** A piece that fits is the first lexeme, whatever follows it. */
  lemma {:induction false} PieceReads(p: Piece, after: string)
    requires Fits(p, after)
    ensures Reads(p, after)
  {
    match p {
      case Line(_) => LineReads(p, after);
      case LastLine(_) => LineReads(p, after);
      case Block(_) => BlockReads(p, after);
      case LastBlock(_) => LastBlockReads(p);
      case Quotation(_, _) => QuotationReads(p, after);
      case LastQuotation(_, _) => LastQuotationReads(p);
      case Body(_, _) => BodyReads(p, after);
      case LastBody(_, _) => LastBodyReads(p);
      case _ => OtherReads(p, after);
    }
  }

  // ----- splitting a spelling -----

  lemma {:induction false} FlushKeeps(cur: string)
    ensures Flush(cur) == Keep(cur)
  {
    TrimBlank(cur);
  }

  /** Splitting what the pieces spell gives the statements between the semicolons: quotations and
      bodies are kept whole, comments become a space, blank statements are dropped. */
  lemma {:induction false} SplitSpelling(ps: seq<Piece>, cur: string)
    requires AllFit(ps)
    ensures SplitFrom(SpellAll(ps), cur) == Statements(ps, cur)
    decreases |ps|
  {
    FlushKeeps(cur);
    if ps != [] {
      var p, after := ps[0], SpellAll(ps[1..]);
      PieceReads(p, after);
      if p.End? {
        SplitSpelling(ps[1..], "");
      } else {
        SplitSpelling(ps[1..], cur + if IsRemark(p) then " " else Spell(p));
      }
    }
  }

  // ----- every text is a spelling -----

  /** A piece that the text starts with and that fits what follows it. */
  ghost predicate Starts(s: string, p: Piece) {
    Spell(p) <= s && Spell(p) != "" && Fits(p, s[|Spell(p)|..])
  }

  lemma {:induction false} LineStarts(s: string) returns (p: Piece)
    requires StartsLineComment(s)
    ensures Starts(s, p)
  {
    var r := LineSpan(s);
    LineSpanText(s);
    if r.closed {
      p := Line(s[2..r.len - 1]);
      assert forall k :: 0 <= k < |p.text| ==> p.text[k] == s[..r.len - 1][k + 2];
      assert Spell(p) == s[..r.len];
    } else {
      p := LastLine(s[2..]);
      assert Spell(p) == s;
    }
  }

  lemma {:induction false} NoMatchBefore(x: string, s: string, n: nat)
    requires forall k :: 0 <= k < n ==> !MatchesAt(s, x, k)
    ensures NotBefore(x, s, n)
  {
    forall k | 0 <= k < n && k <= |s| ensures !(x <= s[k..]) {
      if x <= s[k..] {
        assert s[k..k + |x|] == s[k..][..|x|];
        assert MatchesAt(s, x, k);
      }
    }
  }

  lemma {:induction false} PrefixGrows(x: string, a: string, b: string)
    ensures x <= a ==> x <= a + b
  {
  }

  lemma {:induction false} NotBeforeCut(x: string, s: string, m: nat, n: nat)
    requires NotBefore(x, s, n) && n <= m <= |s|
    ensures NotBefore(x, s[..m], n)
  {
    forall k | 0 <= k < n ensures !(x <= s[..m][k..]) {
      assert s[k..] == s[..m][k..] + s[m..];
      PrefixGrows(x, s[..m][k..], s[m..]);
    }
  }

  lemma {:induction false} NoEndBefore(s: string, n: nat)
    requires forall k :: 0 <= k < n && k + 1 < |s| ==> !(s[k] == '*' && s[k + 1] == '/')
    ensures NotBefore("*/", s, n)
  {
    forall k | 0 <= k < n && k <= |s| ensures !("*/" <= s[k..]) {
      EndAt(s, k);
    }
  }

  lemma {:induction false} ClosedBlockStarts(s: string, inner: string) returns (p: Piece)
    requires s == "/*" + inner && BlockSpan(inner).closed
    ensures Starts(s, p)
  {
    var n := BlockSpan(inner).len;
    BlockSpanText(inner);
    NoEndBefore(inner, n - 2);
    NotBeforeCut("*/", inner, n, n - 2);
    p := Block(inner[..n - 2]);
    assert p.text + "*/" == inner[..n];
    assert Spell(p) == s[..n + 2];
  }

  lemma {:induction false} BlockStarts(s: string) returns (p: Piece)
    requires StartsBlockComment(s)
    ensures Starts(s, p)
  {
    var inner := s[2..];
    assert s == "/*" + inner;
    if BlockSpan(inner).closed {
      p := ClosedBlockStarts(s, inner);
    } else {
      BlockSpanText(inner);
      NoEndBefore(inner, |inner|);
      p := LastBlock(inner);
    }
  }

  /** What stands between quotes is some text with its quotes doubled. */
  lemma {:induction false} Undouble(body: string, q: char) returns (text: string)
    requires Doubled(body, q)
    ensures Doubling(text, q) == body
  {
    if body == "" {
      text := "";
    } else {
      var d := if body[0] == q then 2 else 1;
      var rest := Undouble(body[d..], q);
      text := [body[0]] + rest;
      assert text[1..] == rest;
    }
  }

  lemma {:induction false} ClosedQuotationStarts(s: string, q: char, inner: string) returns (p: Piece)
    requires s == [q] + inner && (q == '\'' || q == '"') && QuoteSpan(inner, q).closed
    ensures Starts(s, p)
  {
    var n := QuoteSpan(inner, q).len;
    QuoteBody(inner, q);
    QuoteSpanAfter(inner, q);
    var text := Undouble(inner[..n - 1], q);
    p := Quotation(q, text);
    assert inner[..n - 1] + [q] == inner[..n];
    assert Spell(p) == s[..n + 1] && s[n + 1..] == inner[n..];
  }

  lemma {:induction false} QuotationStarts(s: string) returns (p: Piece)
    requires s != "" && (s[0] == '\'' || s[0] == '"')
    ensures Starts(s, p)
  {
    var q, inner := s[0], s[1..];
    assert s == [q] + inner;
    if QuoteSpan(inner, q).closed {
      p := ClosedQuotationStarts(s, q, inner);
    } else {
      QuoteBody(inner, q);
      var text := Undouble(inner, q);
      p := LastQuotation(q, text);
    }
  }

  lemma {:induction false} QuoteSpanAfter(s: string, q: char)
    requires QuoteSpan(s, q).closed
    ensures var n := QuoteSpan(s, q).len; !([q] <= s[n..])
  {
    if s[0] != q {
      QuoteSpanAfter(s[1..], q);
    } else if |s| > 1 && s[1] == q {
      QuoteSpanAfter(s[2..], q);
    }
  }

  lemma {:induction false} ClosedBodyStarts(s: string, name: string, inner: string) returns (p: Piece)
    requires IsName(name) && s == Tag(name) + inner && DollarSpan(inner, Tag(name)).closed
    ensures Starts(s, p)
  {
    var tag := Tag(name);
    var m := DollarSpan(inner, tag).len;
    DollarBody(inner, tag);
    var n := m - |tag|;
    NoMatchBefore(tag, inner, n);
    NotBeforeCut(tag, inner, m, n);
    p := Body(name, inner[..n]);
    assert inner[n..n + |tag|] == tag;
    assert p.text + tag == inner[..m];
    CutAfter(tag, inner, m);
  }

  lemma {:induction false} CutAfter(a: string, b: string, m: nat)
    requires m <= |b|
    ensures a + b[..m] <= a + b && (a + b)[|a| + m..] == b[m..]
  {
    assert b == b[..m] + b[m..];
    Associate(a, b[..m], b[m..]);
  }

  lemma {:induction false} BodyStarts(s: string) returns (p: Piece)
    requires StartsDollar(s)
    ensures Starts(s, p)
  {
    var name := DollarTagNamed(s);
    var tag := Tag(name);
    DollarTagText(s);
    var inner := s[|tag|..];
    assert s == tag + inner;
    if DollarSpan(inner, tag).closed {
      p := ClosedBodyStarts(s, name, inner);
    } else {
      DollarBody(inner, tag);
      NoMatchBefore(tag, inner, |inner|);
      p := LastBody(name, inner);
    }
  }

  lemma {:induction false} OtherStarts(s: string) returns (p: Piece)
    requires s != "" && !StartsLineComment(s) && !StartsBlockComment(s) && !StartsDollar(s)
    requires s[0] != '\'' && s[0] != '"'
    ensures Starts(s, p)
  {
    p := if s[0] == ';' then End else Other(s[0]);
    assert Spell(p) == s[..1];
    if s[0] == '$' && OpensTag(s[1..]) {
      var name :| IsName(name) && name + "$" <= s[1..];
      assert Tag(name) <= s by { assert s[..|name| + 2] == [s[0]] + s[1..][..|name| + 1]; }
      StartsDollarExactly(s);
    }
  }

  lemma {:induction false} FirstPiece(s: string) returns (p: Piece)
    requires s != ""
    ensures Starts(s, p)
  {
    if StartsLineComment(s) {
      p := LineStarts(s);
    } else if StartsBlockComment(s) {
      p := BlockStarts(s);
    } else if StartsDollar(s) {
      p := BodyStarts(s);
    } else if s[0] == '\'' || s[0] == '"' {
      p := QuotationStarts(s);
    } else {
      p := OtherStarts(s);
    }
  }

  /** Every text is spelled by pieces that fit. */
  lemma {:induction false} EveryTextIsSpelled(s: string) returns (ps: seq<Piece>)
    ensures AllFit(ps) && SpellAll(ps) == s
    decreases |s|
  {
    if s == "" {
      ps := [];
    } else {
      var p := FirstPiece(s);
      var after := s[|Spell(p)|..];
      var rest := EveryTextIsSpelled(after);
      ps := [p] + rest;
      assert ps[1..] == rest;
      assert Spell(p) + after == s;
    }
  }
}
