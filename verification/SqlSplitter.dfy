/**
 The migration tool's statement splitter: one index moved over the text, two
 quote flags, a dollar tag and an output buffer, proved to produce exactly the
 statements of the lexical grammar.
 */
module SqlSplitter {
  import opened Text
  import opened SqlLexer

  /** Index of the newline that ends the comment, or the length of the text. */
  method SkipLineComment(sqlText: string, start: nat) returns (end: nat)
    requires start <= |sqlText|
    ensures var r := LineSpan(sqlText[start..]); end == start + r.len - if r.closed then 1 else 0
  {
    end := start;
    while end < |sqlText| && sqlText[end] != '\n'
      invariant start <= end <= |sqlText|
      invariant '\n' !in sqlText[start..end]
    {
      end := end + 1;
    }
    var tail := sqlText[start..];
    assert sqlText[start..end] == tail[..end - start];
    if end == |sqlText| {
      assert tail == sqlText[start..end];
      NoNewline(tail);
    } else {
      assert tail[end - start] == '\n';
      FirstNewline(tail, end - start);
    }
  }

  lemma {:induction false} FirstNewline(s: string, n: nat)
    requires n < |s| && s[n] == '\n' && '\n' !in s[..n]
    ensures LineSpan(s) == Span(n + 1, true)
  {
    if n > 0 {
      assert s[0] == s[..n][0];
      assert s[1..][..n - 1] == s[..n][1..];
      FirstNewline(s[1..], n - 1);
    }
  }

  /** Index of the last byte of the comment, or the length of the text. */
  method SkipBlockComment(sqlText: string, start: nat) returns (last: nat)
    requires start + 2 <= |sqlText|
    ensures var r := BlockSpan(sqlText[start + 2..]);
      last == if r.closed then start + 1 + r.len else |sqlText|
  {
    var end := start + 2;
    while end + 1 < |sqlText| && !(sqlText[end] == '*' && sqlText[end + 1] == '/')
      invariant start + 2 <= end <= |sqlText|
      invariant BlockSpan(sqlText[start + 2..]) ==
        var r := BlockSpan(sqlText[end..]); Span(end - start - 2 + r.len, r.closed)
    {
      assert sqlText[end..][1..] == sqlText[end + 1..];
      end := end + 1;
    }
    last := if end + 1 < |sqlText| then end + 1 else |sqlText|;
  }

  /** Reads the dollar tag at the start of a text that begins with a dollar sign. */
  method DollarQuote(sqlText: string) returns (tag: string, ok: bool)
    requires sqlText != "" && sqlText[0] == '$'
    ensures tag == DollarTag(sqlText) && (ok <==> tag != "")
  {
    var end := 1;
    while end < |sqlText| && sqlText[end] != '$'
      invariant 1 <= end <= |sqlText|
      invariant forall k :: 1 <= k < end ==> sqlText[k] != '$'
    {
      end := end + 1;
    }
    if end == |sqlText| {
      return "", false;
    }
    for k := 1 to end
      invariant forall j :: 1 <= j < k ==> IsTagChar(sqlText[j])
    {
      if !IsTagChar(sqlText[k]) {
        TagRunEnds(sqlText[1..], k - 1);
        return "", false;
      }
    }
    TagRunEnds(sqlText[1..], end - 1);
    return sqlText[..end + 1], true;
  }

  /** At most one quoting mode is active. */
  predicate OneMode(inSingle: bool, inDouble: bool, tag: string) {
    !(inSingle && inDouble) && (tag != "" ==> !inSingle && !inDouble)
  }

  /** The text to read and the statement text collected, at some point of the scan. */
  datatype Point = Point(rest: string, cur: string)

  /** Where the scan is once the quoted string it is inside has ended. */
  function AfterQuote(s: string, q: char, cur: string): Point {
    if s == "" then Point("", cur)
    else if s[0] != q then AfterQuote(s[1..], q, cur + [s[0]])
    else if |s| > 1 && s[1] == q then AfterQuote(s[2..], q, cur + [q] + [q])
    else Point(s[1..], cur + [q])
  }

  /** Where the scan is once the dollar-quoted body it is inside has ended. */
  function AfterDollar(s: string, tag: string, cur: string): Point
    requires tag != ""
  {
    if MatchesAt(s, tag, 0) then Point(s[|tag|..], cur + tag)
    else if s == "" then Point("", cur)
    else AfterDollar(s[1..], tag, cur + [s[0]])
  }

  lemma {:induction false} Slices(s: string, d: nat, n: nat, cur: string)
    requires d <= n <= |s|
    ensures s[d..][n - d..] == s[n..] && (cur + s[..d]) + s[d..][..n - d] == cur + s[..n]
  {
  }

  lemma {:induction false} AfterQuoteSpan(s: string, q: char, cur: string)
    ensures var n := QuoteSpan(s, q).len; AfterQuote(s, q, cur) == Point(s[n..], cur + s[..n])
  {
    var n := QuoteSpan(s, q).len;
    if s == "" {
    } else if s[0] != q {
      AfterQuoteSpan(s[1..], q, cur + [s[0]]);
      assert s[..1] == [s[0]];
      Slices(s, 1, n, cur);
    } else if |s| > 1 && s[1] == q {
      AfterQuoteSpan(s[2..], q, cur + [q] + [q]);
      assert cur + [q] + [q] == cur + s[..2];
      Slices(s, 2, n, cur);
    } else {
      assert s[..1] == [q];
    }
  }

  lemma {:induction false} AfterDollarSpan(s: string, tag: string, cur: string)
    requires tag != ""
    ensures var n := DollarSpan(s, tag).len; AfterDollar(s, tag, cur) == Point(s[n..], cur + s[..n])
  {
    var n := DollarSpan(s, tag).len;
    if MatchesAt(s, tag, 0) {
      assert s[..n] == tag;
    } else if s != "" {
      AfterDollarSpan(s[1..], tag, cur + [s[0]]);
      assert s[..1] == [s[0]];
      Slices(s, 1, n, cur);
    }
  }

  /** What the scan is inside of. */
  datatype Mode = Top | Quoted(q: char) | Dollar(tag: string)

  /** The mode the scanner's two flags and its tag stand for. */
  ghost function ModeOf(inSingle: bool, inDouble: bool, tag: string): Mode {
    if tag != "" then Dollar(tag)
    else if inSingle then Quoted('\'')
    else if inDouble then Quoted('"')
    else Top
  }

  /** Where the next lexeme starts. */
  ghost function Settle(mode: Mode, s: string, cur: string): Point {
    match mode
    case Top => Point(s, cur)
    case Quoted(q) => AfterQuote(s, q, cur)
    case Dollar(tag) => if tag == "" then Point(s, cur) else AfterDollar(s, tag, cur)
  }

  function SplitAt(p: Point): seq<string> { SplitFrom(p.rest, p.cur) }

  /** No comment and no dollar quote starts here. */
  predicate StartsPlainly(s: string) {
    !StartsLineComment(s) && !StartsBlockComment(s) && !StartsDollar(s)
  }

  /** The statements still to come when the text is left to read from index i in the given mode. */
  ghost function Todo(mode: Mode, text: string, i: nat, cur: string): seq<string>
    requires i <= |text|
  {
    SplitAt(Settle(mode, text[i..], cur))
  }

  /** The statements still to come, by mode, index and collected statement text. */
  type Remaining = (Mode, int, string) -> seq<string>

  /**
   f is what is still to do, without showing how that is defined: the scanner's
   loop only ever uses the step lemmas below.
   */
  ghost predicate Summarises(f: Remaining, text: string) {
    forall mode, i, cur {:trigger Todo(mode, text, i, cur)} ::
      0 <= i <= |text| ==> f(mode, i, cur) == Todo(mode, text, i, cur)
  }

  lemma {:induction false} Summary(text: string) returns (f: Remaining)
    ensures Summarises(f, text)
  {
    f := (mode, i, cur) => if 0 <= i <= |text| then Todo(mode, text, i, cur) else [];
  }

  lemma {:induction false} SummaryStart(f: Remaining, text: string)
    requires Summarises(f, text)
    ensures f(Top, 0, "") == Split(text)
  {
    assert text[0..] == text;
    assert f(Top, 0, "") == Todo(Top, text, 0, "");
  }

  lemma {:induction false} SummaryEnd(f: Remaining, text: string, mode: Mode, cur: string)
    requires Summarises(f, text)
    ensures f(mode, |text|, cur) == Flush(cur)
  {
    assert text[|text|..] == "";
    assert f(mode, |text|, cur) == Todo(mode, text, |text|, cur);
  }

  lemma {:induction false} QuoteText(s: string)
    requires s != "" && (s[0] == '\'' || s[0] == '"')
    ensures var t := NextToken(s);
      t.text == s[..1 + QuoteSpan(s[1..], s[0]).len] && !IsComment(t) && t.kind != Semicolon
  {
  }

  lemma {:induction false} KeepToken(s: string, m: nat, cur: string)
    requires s != "" && !IsComment(NextToken(s)) && NextToken(s).kind != Semicolon
    requires m <= |s| && NextToken(s).text == s[..m]
    ensures SplitFrom(s, cur) == SplitAt(Point(s[m..], cur + s[..m]))
  {
  }

  lemma {:induction false} AfterOpenQuote(s: string, q: char, cur: string)
    requires s != "" && s[0] == q
    ensures var n := 1 + QuoteSpan(s[1..], q).len;
      n <= |s| && AfterQuote(s[1..], q, cur + [q]) == Point(s[n..], cur + s[..n])
  {
    var n := QuoteSpan(s[1..], q).len;
    AfterQuoteSpan(s[1..], q, cur + [q]);
    assert s[1..][n..] == s[1 + n..];
    assert cur + [q] + s[1..][..n] == cur + s[..1 + n];
  }

  lemma {:induction false} OpenQuote(s: string, cur: string)
    requires s != "" && (s[0] == '\'' || s[0] == '"')
    ensures SplitFrom(s, cur) == SplitAt(AfterQuote(s[1..], s[0], cur + [s[0]]))
  {
    AfterOpenQuote(s, s[0], cur);
    assert NextToken(s).text == s[..1 + QuoteSpan(s[1..], s[0]).len] by { QuoteText(s); }
    assert !IsComment(NextToken(s)) && NextToken(s).kind != Semicolon by { QuoteText(s); }
    KeepToken(s, 1 + QuoteSpan(s[1..], s[0]).len, cur);
  }

  lemma {:induction false} DollarText(s: string)
    requires StartsDollar(s)
    ensures var t := NextToken(s);
      var tag := DollarTag(s);
      t.text == s[..|tag| + DollarSpan(s[|tag|..], tag).len] && !IsComment(t) && t.kind != Semicolon
  {
  }

  lemma {:induction false} AfterOpenDollar(s: string, tag: string, cur: string)
    requires tag != "" && tag <= s
    ensures var n := |tag| + DollarSpan(s[|tag|..], tag).len;
      n <= |s| && AfterDollar(s[|tag|..], tag, cur + tag) == Point(s[n..], cur + s[..n])
  {
    var n := DollarSpan(s[|tag|..], tag).len;
    AfterDollarSpan(s[|tag|..], tag, cur + tag);
    assert s[|tag|..][n..] == s[|tag| + n..];
    assert cur + tag + s[|tag|..][..n] == cur + s[..|tag| + n];
  }

  lemma {:induction false} OpenDollar(s: string, cur: string)
    requires StartsDollar(s)
    ensures var tag := DollarTag(s); SplitFrom(s, cur) == SplitAt(AfterDollar(s[|tag|..], tag, cur + tag))
  {
    var tag := DollarTag(s);
    var n := |tag| + DollarSpan(s[|tag|..], tag).len;
    assert AfterDollar(s[|tag|..], tag, cur + tag) == Point(s[n..], cur + s[..n]) by {
      DollarTagText(s);
      AfterOpenDollar(s, tag, cur);
    }
    DollarText(s);
    KeepToken(s, n, cur);
  }

  lemma {:induction false} Advance(s: string, i: nat, d: nat)
    requires i + d <= |s|
    ensures s[i..][d..] == s[i + d..]
  {
  }

  // One lemma per kind of scan step: what is still to do does not change.

  /** A dollar tag opens a body. */
  lemma {:induction false} EnterDollar(f: Remaining, tag: string, text: string, i: nat, cur: string)
    requires Summarises(f, text) && i < |text| && StartsDollar(text[i..]) && tag == DollarTag(text[i..])
    ensures f(Top, i, cur) == f(Dollar(tag), i + |tag|, cur + tag)
  {
    assert Todo(Top, text, i, cur) == SplitFrom(text[i..], cur);
    OpenDollar(text[i..], cur);
    assert text[i..][|tag|..] == text[i + |tag|..] by { Advance(text, i, |tag|); }
    assert Todo(Dollar(tag), text, i + |tag|, cur + tag) == SplitAt(AfterDollar(text[i + |tag|..], tag, cur + tag));
  }

  /** The tag recurs and closes the body. */
  lemma {:induction false} LeaveDollar(f: Remaining, tag: string, text: string, i: nat, cur: string)
    requires Summarises(f, text) && i <= |text| && tag != "" && MatchesAt(text[i..], tag, 0)
    ensures f(Dollar(tag), i, cur) == f(Top, i + |tag|, cur + tag)
  {
    Advance(text, i, |tag|);
    assert Todo(Dollar(tag), text, i, cur) == Todo(Top, text, i + |tag|, cur + tag);
  }

  /** One byte that neither opens nor closes anything. */
  lemma {:induction false} KeepByte(f: Remaining, mode: Mode, text: string, i: nat, cur: string)
    requires Summarises(f, text) && i < |text|
    requires match mode
      case Top => NextToken(text[i..]).kind == Plain
      case Quoted(q) => text[i] != q
      case Dollar(tag) => tag != "" && !MatchesAt(text[i..], tag, 0)
    ensures f(mode, i, cur) == f(mode, i + 1, cur + [text[i]])
  {
    var s := text[i..];
    Advance(text, i, 1);
    if mode == Top {
      assert NextToken(s).text == s[..1] == [s[0]];
    }
    assert Todo(mode, text, i, cur) == Todo(mode, text, i + 1, cur + [text[i]]);
  }

  /** A comment becomes one space. */
  lemma {:induction false} DropComment(f: Remaining, text: string, i: nat, cur: string)
    requires Summarises(f, text) && i < |text| && IsComment(NextToken(text[i..]))
    ensures var n := |NextToken(text[i..]).text|; f(Top, i, cur) == f(Top, i + n, cur + " ")
  {
    var n := |NextToken(text[i..]).text|;
    Advance(text, i, n);
    assert Todo(Top, text, i, cur) == Todo(Top, text, i + n, cur + " ");
  }

  /** A quote that opens a string, closes it, or is doubled inside it. */
  lemma {:induction false} ReadQuote(f: Remaining, inQuote: bool, q: char, text: string, i: nat, cur: string)
    requires Summarises(f, text) && i < |text| && text[i] == q && (q == '\'' || q == '"')
    ensures f(if inQuote then Quoted(q) else Top, i, cur) ==
      if !inQuote then f(Quoted(q), i + 1, cur + [q])
      else if i + 1 < |text| && text[i + 1] == q then f(Quoted(q), i + 2, cur + [q] + [q])
      else f(Top, i + 1, cur + [q])
  {
    Advance(text, i, 1);
    if !inQuote {
      OpenQuote(text[i..], cur);
      assert Todo(Top, text, i, cur) == Todo(Quoted(q), text, i + 1, cur + [q]);
    } else if i + 1 < |text| && text[i + 1] == q {
      Advance(text, i, 2);
      assert Todo(Quoted(q), text, i, cur) == Todo(Quoted(q), text, i + 2, cur + [q] + [q]);
    } else {
      assert Todo(Quoted(q), text, i, cur) == Todo(Top, text, i + 1, cur + [q]);
    }
  }

  lemma {:induction false} EndStatement(f: Remaining, text: string, i: nat, cur: string)
    requires Summarises(f, text) && i < |text| && text[i] == ';'
    ensures f(Top, i, cur) == Flush(cur) + f(Top, i + 1, "")
  {
    Advance(text, i, 1);
    assert Todo(Top, text, i, cur) == Flush(cur) + Todo(Top, text, i + 1, "");
  }

  /** The scanner at the start of a comment: where it goes on. */
  method SkipComment(ghost f: Remaining, sqlText: string, i: nat, ghost current: string)
    returns (last: nat)
    requires Summarises(f, sqlText) && i < |sqlText|
    requires StartsLineComment(sqlText[i..]) || StartsBlockComment(sqlText[i..])
    ensures i <= last
    ensures var next := if last < |sqlText| then last + 1 else |sqlText|;
      f(Top, i, current) == f(Top, next, current + " ")
  {
    DropComment(f, sqlText, i, current);
    if sqlText[i] == '-' {
      last := SkipLineComment(sqlText, i);
    } else {
      assert sqlText[i..][2..] == sqlText[i + 2..];
      last := SkipBlockComment(sqlText, i);
    }
  }

  /** The scanner inside a dollar-quoted body: the closing tag, or one byte of the body. */
  method ReadDollar(ghost f: Remaining, sqlText: string, i: nat, tag: string, current: string)
    returns (next: nat, dollarQuoteTag: string, cur: string)
    requires Summarises(f, sqlText) && i < |sqlText| && tag != ""
    ensures i < next <= |sqlText|
    ensures f(Dollar(tag), i, current) == f(ModeOf(false, false, dollarQuoteTag), next, cur)
  {
    if MatchesAt(sqlText[i..], tag, 0) {
      LeaveDollar(f, tag, sqlText, i, current);
      cur := current + tag;
      next := i + |tag|;
      dollarQuoteTag := "";
    } else {
      KeepByte(f, Dollar(tag), sqlText, i, current);
      cur := current + [sqlText[i]];
      next := i + 1;
      dollarQuoteTag := tag;
    }
  }

  /**
   The scanner's byte switch outside comments and dollar quotes: keeps the byte (and
   the second byte of a doubled quote) and flips the quote flags, or reports that a
   top-level semicolon ends the statement.
   */
  method ReadByte(ghost f: Remaining, sqlText: string, i: nat, single: bool, double: bool, current: string)
    returns (last: nat, inSingle: bool, inDouble: bool, cur: string, ended: bool)
    requires Summarises(f, sqlText)
    requires i < |sqlText| && !(single && double)
    requires !single && !double ==> StartsPlainly(sqlText[i..])
    ensures i <= last < |sqlText| && !(inSingle && inDouble)
    ensures ended <==> sqlText[i] == ';' && !single && !double
    ensures ended ==> last == i && !inSingle && !inDouble && cur == current
    ensures !ended ==> f(ModeOf(single, double, ""), i, current) == f(ModeOf(inSingle, inDouble, ""), last + 1, cur)
  {
    last, inSingle, inDouble, cur, ended := i, single, double, current, false;
    match sqlText[i] {
      case '\'' =>
        cur := cur + [sqlText[i]];
        if double {
          KeepByte(f, Quoted('"'), sqlText, i, current);
        } else {
          ReadQuote(f, single, '\'', sqlText, i, current);
        }
        if inSingle && i + 1 < |sqlText| && sqlText[i + 1] == '\'' {
          last := i + 1;
          cur := cur + [sqlText[last]];
        } else if !inDouble {
          inSingle := !inSingle;
        }
      case '"' =>
        cur := cur + [sqlText[i]];
        if single {
          KeepByte(f, Quoted('\''), sqlText, i, current);
        } else {
          ReadQuote(f, double, '"', sqlText, i, current);
        }
        if inDouble && i + 1 < |sqlText| && sqlText[i + 1] == '"' {
          last := i + 1;
          cur := cur + [sqlText[last]];
        } else if !inSingle {
          inDouble := !inDouble;
        }
      case ';' =>
        if single || double {
          KeepByte(f, ModeOf(single, double, ""), sqlText, i, current);
          cur := cur + [sqlText[i]];
        } else {
          ended := true;
        }
      case _ =>
        KeepByte(f, ModeOf(single, double, ""), sqlText, i, current);
        cur := cur + [sqlText[i]];
    }
  }

  /**
   Splits a migration file into statements, as splitSQLStatements does.  The loop
   keeps that the statements found so far, followed by what the rest of the text
   gives in the current mode, are the statements of the whole text.
   */
  method SplitSQLStatements(sqlText: string) returns (statements: seq<string>)
    ensures statements == Split(sqlText)
  {
    ghost var f := Summary(sqlText);
    statements := [];
    var current := "";
    var inSingleQuote, inDoubleQuote := false, false;
    var dollarQuoteTag := "";
    var i := 0;
    while i < |sqlText|
      invariant 0 <= i <= |sqlText|
      invariant OneMode(inSingleQuote, inDoubleQuote, dollarQuoteTag)
      invariant statements + f(ModeOf(inSingleQuote, inDoubleQuote, dollarQuoteTag), i, current) == f(Top, 0, "")
    {
      var top := !inSingleQuote && !inDoubleQuote && dollarQuoteTag == "";
      if top && (StartsLineComment(sqlText[i..]) || StartsBlockComment(sqlText[i..])) {
        var last := SkipComment(f, sqlText, i, current);
        current := current + " ";
        i := if last < |sqlText| then last + 1 else |sqlText|;
        continue;
      }
      if top && sqlText[i] == '$' {
        var tag, ok := DollarQuote(sqlText[i..]);
        if ok {
          EnterDollar(f, tag, sqlText, i, current);
          dollarQuoteTag := tag;
          current := current + tag;
          i := i + |tag|;
          continue;
        }
      }
      if dollarQuoteTag != "" {
        i, dollarQuoteTag, current := ReadDollar(f, sqlText, i, dollarQuoteTag, current);
        continue;
      }
      assert top ==> StartsPlainly(sqlText[i..]);
      var ended;
      i, inSingleQuote, inDoubleQuote, current, ended := ReadByte(f, sqlText, i, inSingleQuote, inDoubleQuote, current);
      if ended {
        EndStatement(f, sqlText, i, current);
        Associate(statements, Flush(current), f(Top, i + 1, ""));
        assert statements + [] == statements;
        var statement := Trim(current);
        if statement != "" {
          statements := statements + [statement];
        }
        current := "";
      }
      i := i + 1;
    }
    SummaryStart(f, sqlText);
    SummaryEnd(f, sqlText, ModeOf(inSingleQuote, inDoubleQuote, dollarQuoteTag), current);
    var statement := Trim(current);
    if statement != "" {
      statements := statements + [statement];
    }
  }
}
