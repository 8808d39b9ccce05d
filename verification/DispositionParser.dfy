/** The client's parser of Content-Disposition, and what it makes of the headers that the server prints. */
module DispositionParser {
  import opened Common
  import opened Text
  import opened Percent

  // ---- splitting at semicolons outside quotes ----

  function Prepend(s: string, pieces: seq<string>): (r: seq<string>)
    requires pieces != []
    ensures |r| == |pieces|
  {
    [s + pieces[0]] + pieces[1..]
  }

  /** The pieces between semicolons outside quotes; a backslash inside quotes protects one character. */
  function Pieces(s: string, quoted: bool, escaped: bool): (pieces: seq<string>)
    ensures pieces != []
  {
    if s == "" then [""]
    else if escaped then Prepend([s[0]], Pieces(s[1..], quoted, false))
    else if s[0] == '\\' && quoted then Prepend([s[0]], Pieces(s[1..], quoted, true))
    else if s[0] == '"' then Prepend([s[0]], Pieces(s[1..], !quoted, false))
    else if s[0] == ';' && !quoted then [""] + Pieces(s[1..], false, false)
    else Prepend([s[0]], Pieces(s[1..], quoted, false))
  }

  /** Nothing is lost or moved: the pieces, with their semicolons back, are the header. */
  lemma {:induction false} PiecesConserve(s: string, quoted: bool, escaped: bool)
    ensures Join(Pieces(s, quoted, escaped), ";") == s
  {
    if s != "" {
      if escaped {
        PiecesConserve(s[1..], quoted, false);
        JoinPrepend(s[0], Pieces(s[1..], quoted, false));
      } else if s[0] == '\\' && quoted {
        PiecesConserve(s[1..], quoted, true);
        JoinPrepend(s[0], Pieces(s[1..], quoted, true));
      } else if s[0] == '"' {
        PiecesConserve(s[1..], !quoted, false);
        JoinPrepend(s[0], Pieces(s[1..], !quoted, false));
      } else if s[0] == ';' && !quoted {
        PiecesConserve(s[1..], false, false);
        assert ([""] + Pieces(s[1..], false, false))[1..] == Pieces(s[1..], false, false);
      } else {
        PiecesConserve(s[1..], quoted, false);
        JoinPrepend(s[0], Pieces(s[1..], quoted, false));
      }
    }
  }

  lemma {:induction false} JoinPrepend(c: char, pieces: seq<string>)
    requires pieces != []
    ensures Join(Prepend([c], pieces), ";") == [c] + Join(pieces, ";")
  {
  }

  function TrimAll(pieces: seq<string>): (r: seq<string>)
    ensures |r| == |pieces|
  {
    if pieces == [] then [] else [Trim(pieces[0])] + TrimAll(pieces[1..])
  }

  lemma {:induction false} PrependNext(current: string, c: char, pieces: seq<string>)
    requires pieces != []
    ensures Prepend(current, Prepend([c], pieces)) == Prepend(current + [c], pieces)
  {
    assert current + ([c] + pieces[0]) == (current + [c]) + pieces[0];
  }

  lemma {:induction false} PrependNothing(pieces: seq<string>)
    requires pieces != []
    ensures Prepend("", pieces) == pieces
  {
    assert "" + pieces[0] == pieces[0];
  }

  /** What the loop still has to deliver. */
  function Left(current: string, s: string, quoted: bool, escaped: bool): seq<string> {
    TrimAll(Prepend(current, Pieces(s, quoted, escaped)))
  }

  lemma {:induction false} LeftCut(current: string, rest: string)
    ensures Left(current, [';'] + rest, false, false) == [Trim(current)] + Left("", rest, false, false)
  {
    assert ([';'] + rest)[1..] == rest;
    var p := Pieces(rest, false, false);
    assert Pieces([';'] + rest, false, false) == [""] + p;
    assert ([""] + p)[1..] == p;
    assert current + "" == current;
    assert Prepend(current, [""] + p) == [current] + p;
    assert ([current] + p)[1..] == p;
    PrependNothing(p);
  }

  lemma {:induction false} LeftEnd(current: string, quoted: bool, escaped: bool)
    ensures Left(current, "", quoted, escaped) == [Trim(current)]
  {
    assert current + "" == current;
    assert Prepend(current, [""]) == [current];
  }

  lemma {:induction false} LeftNext(current: string, c: char, rest: string, quoted: bool, escaped: bool)
    requires escaped || c != ';' || quoted
    ensures Left(current, [c] + rest, quoted, escaped) ==
      if escaped then Left(current + [c], rest, quoted, false)
      else if c == '\\' && quoted then Left(current + [c], rest, quoted, true)
      else Left(current + [c], rest, if c == '"' then !quoted else quoted, false)
  {
    var s := [c] + rest;
    assert s[1..] == rest && s[0] == c;
    if escaped {
      PrependNext(current, c, Pieces(rest, quoted, false));
    } else if c == '\\' && quoted {
      PrependNext(current, c, Pieces(rest, quoted, true));
    } else {
      PrependNext(current, c, Pieces(rest, if c == '"' then !quoted else quoted, false));
    }
  }

  method SplitHeaderParameters(value: string) returns (parts: seq<string>)
    ensures parts == TrimAll(Pieces(value, false, false))
  {
    parts := [];
    var current, quoted, escaped := "", false, false;
    PrependNothing(Pieces(value, false, false));
    assert value[0..] == value;
    for i := 0 to |value|
      invariant parts + Left(current, value[i..], quoted, escaped) == TrimAll(Pieces(value, false, false))
      invariant escaped ==> quoted
    {
      var c := value[i];
      assert value[i..] == [c] + value[i + 1..];
      if escaped {
        LeftNext(current, c, value[i + 1..], quoted, escaped);
        current := current + [c];
        escaped := false;
      } else if c == '\\' && quoted {
        LeftNext(current, c, value[i + 1..], quoted, escaped);
        current := current + [c];
        escaped := true;
      } else {
        if c == '"' {
          LeftNext(current, c, value[i + 1..], quoted, escaped);
          quoted := !quoted;
          current := current + [c];
        } else if c == ';' && !quoted {
          LeftCut(current, value[i + 1..]);
          Associate(parts, [Trim(current)], Left("", value[i + 1..], false, false));
          parts := parts + [Trim(current)];
          current := "";
        } else {
          LeftNext(current, c, value[i + 1..], quoted, escaped);
          current := current + [c];
        }
      }
    }
    LeftEnd(current, quoted, escaped);
    assert value[|value|..] == "";
    parts := parts + [Trim(current)];
  }

  // ---- quotes ----

  /** Text with every backslash that has a successor taken as protecting it. */
  function Unprotected(s: string): string {
    if s == "" then ""
    else if s[0] == '\\' && |s| > 1 then [s[1]] + Unprotected(s[2..])
    else [s[0]] + Unprotected(s[1..])
  }

  function Unquoted(value: string): string {
    if value == "" || value[0] != '"' || value[|value| - 1] != '"' then value
    else if |value| == 1 then ""
    else Unprotected(value[1..|value| - 1])
  }

  lemma {:induction false} UnprotectedNext(s: string, i: nat)
    requires i < |s|
    ensures Unprotected(s[i..]) ==
      if s[i] == '\\' && i + 1 < |s| then [s[i + 1]] + Unprotected(s[i + 2..]) else [s[i]] + Unprotected(s[i + 1..])
  {
    var t := s[i..];
    assert t[0] == s[i] && t[1..] == s[i + 1..];
    if i + 1 < |s| { assert t[1] == s[i + 1] && t[2..] == s[i + 2..]; }
  }

  method UnquoteHeaderValue(value: string) returns (result: string)
    ensures result == Unquoted(value)
  {
    if value == "" || value[0] != '"' || value[|value| - 1] != '"' {
      return value;
    }
    result := "";
    if |value| == 1 {
      return;
    }
    ghost var inner := value[1..|value| - 1];
    assert inner[0..] == inner;
    var index := 1;
    while index < |value| - 1
      invariant 1 <= index <= |value| - 1
      invariant result + Unprotected(inner[index - 1..]) == Unprotected(inner)
    {
      assert inner[index - 1] == value[index];
      UnprotectedNext(inner, index - 1);
      if value[index] == '\\' && index + 1 < |value| - 1 {
        index := index + 1;
        assert inner[index - 1] == value[index];
      }
      result := result + [value[index]];
      index := index + 1;
    }
    assert inner[index - 1..] == "";
  }

  // ---- parameters ----

  function Lower(c: char): char {
    if 'A' <= c <= 'Z' then (c as int + 32) as char else c
  }

  function LowerAll(s: string): (r: string)
    ensures |r| == |s|
  {
    if s == "" then "" else [Lower(s[0])] + LowerAll(s[1..])
  }

  /** Position of the first c, or the length. */
  function IndexOf(s: string, c: char): (n: nat)
    ensures n <= |s| && (n < |s| ==> s[n] == c)
  {
    if s == "" || s[0] == c then 0 else 1 + IndexOf(s[1..], c)
  }

  /** Enters one `key=value` part; parts without `=` or without a key enter nothing. */
  function Enter(params: map<string, string>, part: string): map<string, string> {
    var separator := IndexOf(part, '=');
    if separator == |part| then params
    else
      var key := LowerAll(Trim(part[..separator]));
      if key == "" then params else params[key := Unquoted(Trim(part[separator + 1..]))]
  }

  function EnterAll(params: map<string, string>, parts: seq<string>): map<string, string>
    decreases |parts|
  {
    if parts == [] then params else EnterAll(Enter(params, parts[0]), parts[1..])
  }

  function Params(disposition: string): map<string, string> {
    EnterAll(map[], TrimAll(Pieces(disposition, false, false))[1..])
  }

  method ContentDispositionParams(disposition: string) returns (params: map<string, string>)
    ensures params == Params(disposition)
  {
    params := map[];
    var parts := SplitHeaderParameters(disposition);
    parts := parts[1..];
    for i := 0 to |parts|
      invariant EnterAll(params, parts[i..]) == EnterAll(map[], parts)
    {
      var part := parts[i];
      assert parts[i..][0] == part && parts[i..][1..] == parts[i + 1..];
      var separator := IndexOf(part, '=');
      if separator == |part| {
        continue;
      }
      var key := LowerAll(Trim(part[..separator]));
      var value := Trim(part[separator + 1..]);
      if key != "" {
        var unquoted := UnquoteHeaderValue(value);
        params := params[key := unquoted];
      }
    }
    assert parts[|parts|..] == [];
  }

  // ---- the file name ----

  predicate LineEnd(c: char) { c == '\n' || c == '\r' || c == '\U{2028}' || c == '\U{2029}' }

  predicate OneLine(s: string) { forall k :: 0 <= k < |s| ==> !LineEnd(s[k]) }

  /** Decoding, with the empty text where the decoder throws. */
  function SafeDecode(value: string): string {
    if DecodeComponent(value).Some? then DecodeComponent(value).value else ""
  }

  /** What of charset'language'text is to be decoded; anything else is escaped text as a whole, and
      a charset other than UTF-8 leaves nothing. */
  function ExtendedText(value: string): Option<string> {
    var first := IndexOf(value, '\'');
    if first == |value| then Some(value)
    else
      var tail := value[first + 1..];
      var second := IndexOf(tail, '\'');
      if second == |tail| || !OneLine(tail[second + 1..]) then Some(value)
      else if first > 0 && LowerAll(value[..first]) != "utf-8" then None
      else Some(tail[second + 1..])
  }

  function DecodeExtended(value: string): string {
    match ExtendedText(value)
    case None => ""
    case Some(text) => SafeDecode(text)
  }

  function Get(params: map<string, string>, key: string): string {
    if key in params then params[key] else ""
  }

  /** A missing header is the empty text. */
  function FilenameFrom(disposition: string): string {
    if disposition == "" then ""
    else
      var params := Params(disposition);
      var extended := Get(params, "filename*");
      if extended != "" && DecodeExtended(extended) != "" then DecodeExtended(extended)
      else Get(params, "filename")
  }

  // ---- splitting a printed header ----

  predicate Has(s: string, c: char) { exists k :: 0 <= k < |s| && s[k] == c }

  /** Outside quotes a text without semicolons and quotes stays in one piece. */
  lemma {:induction false} PlainPiece(s: string, rest: string)
    requires !Has(s, ';') && !Has(s, '"')
    ensures Pieces(s + rest, false, false) == Prepend(s, Pieces(rest, false, false))
  {
    if s == "" {
      assert s + rest == rest;
      PrependNothing(Pieces(rest, false, false));
    } else {
      HasTail(s, ';');
      HasTail(s, '"');
      PlainPiece(s[1..], rest);
      assert s[0] != ';' && s[0] != '"';
      assert (s + rest)[1..] == s[1..] + rest;
      PrependTail(s, Pieces(rest, false, false));
    }
  }

  lemma {:induction false} HasTail(s: string, c: char)
    requires s != "" && !Has(s, c)
    ensures s[0] != c && !Has(s[1..], c)
  {
    assert forall k :: 0 <= k < |s| - 1 ==> s[1..][k] == s[k + 1];
  }

  lemma {:induction false} PrependTail(s: string, pieces: seq<string>)
    requires s != "" && pieces != []
    ensures Prepend([s[0]], Prepend(s[1..], pieces)) == Prepend(s, pieces)
  {
    assert [s[0]] + (s[1..] + pieces[0]) == s + pieces[0];
  }

  /** So does, inside quotes, a text without quotes and backslashes. */
  lemma {:induction false} QuotedPiece(s: string, rest: string)
    requires !Has(s, '\\') && !Has(s, '"')
    ensures Pieces(s + rest, true, false) == Prepend(s, Pieces(rest, true, false))
  {
    if s == "" {
      assert s + rest == rest;
      PrependNothing(Pieces(rest, true, false));
    } else {
      HasTail(s, '\\');
      HasTail(s, '"');
      QuotedPiece(s[1..], rest);
      assert (s + rest)[1..] == s[1..] + rest;
      PrependTail(s, Pieces(rest, true, false));
    }
  }

  lemma {:induction false} QuotePiece(rest: string, quoted: bool)
    ensures Pieces("\"" + rest, quoted, false) == Prepend("\"", Pieces(rest, !quoted, false))
  {
    assert ("\"" + rest)[1..] == rest;
  }

  lemma {:induction false} SemicolonPiece(rest: string)
    ensures Pieces(";" + rest, false, false) == [""] + Pieces(rest, false, false)
  {
    assert (";" + rest)[1..] == rest;
  }

  /** A closed quotation is part of one piece. */
  lemma {:induction false} QuotationPiece(f: string, rest: string)
    requires !Has(f, '\\') && !Has(f, '"')
    ensures Pieces("\"" + (f + ("\"" + rest)), false, false) == Prepend("\"" + (f + "\""), Pieces(rest, false, false))
  {
    QuotePiece(f + ("\"" + rest), false);
    QuotedPiece(f, "\"" + rest);
    QuotePiece(rest, true);
    var p := Pieces(rest, false, false);
    assert "\"" + (f + ("\"" + p[0])) == ("\"" + (f + "\"")) + p[0];
  }

  const FILENAME_PART := " filename="
  const EXTENDED_PART := " filename*=UTF-8''"

  lemma {:induction false} PartsPlain()
    ensures !Has("attachment", ';') && !Has("attachment", '"')
    ensures !Has(FILENAME_PART, ';') && !Has(FILENAME_PART, '"')
    ensures !Has(EXTENDED_PART, ';') && !Has(EXTENDED_PART, '"')
  {
  }

  lemma {:induction false} LastPiece(e: string)
    requires !Has(e, ';') && !Has(e, '"')
    ensures Pieces(EXTENDED_PART + e, false, false) == [EXTENDED_PART + e]
  {
    PartsPlain();
    PlainPiece(EXTENDED_PART, e);
    assert e + "" == e;
    PlainPiece(e, "");
    assert Pieces("", false, false) == [""];
    assert Prepend(e, [""]) == [e];
  }

  /** A printed header has three pieces. */
  lemma {:induction false} HeaderPieces(f: string, e: string)
    requires !Has(f, '\\') && !Has(f, '"') && !Has(e, ';') && !Has(e, '"')
    ensures var header :=
        "attachment" + (";" + (FILENAME_PART + ("\"" + (f + ("\"" + (";" + (EXTENDED_PART + e)))))));
      Pieces(header, false, false)
         == ["attachment", FILENAME_PART + ("\"" + (f + "\"")), EXTENDED_PART + e]
  {
    PartsPlain();
    LastPiece(e);
    var tail := ";" + (EXTENDED_PART + e);
    SemicolonPiece(EXTENDED_PART + e);
    QuotationPiece(f, tail);
    PlainPiece(FILENAME_PART, "\"" + (f + ("\"" + tail)));
    SemicolonPiece(FILENAME_PART + ("\"" + (f + ("\"" + tail))));
    PlainPiece("attachment", ";" + (FILENAME_PART + ("\"" + (f + ("\"" + tail)))));
    var quoted := "\"" + (f + "\"");
    assert quoted + "" == quoted;
    assert FILENAME_PART + (quoted + "") == FILENAME_PART + quoted;
    assert "attachment" + "" == "attachment";
  }
}
