/** Content-Disposition headers as they are written: a type and parameters between semicolons, with any
    white space, names in any case, and values as they are or between quotes. */
module HeaderTexts {
  import opened Common
  import opened DispositionParser
  import opened Percent
  import opened Text

  /** `pads` is the white space before and after the name, and before and after the value. */
  datatype Param =
    | Param(name: string, value: string, quoted: bool, pads: seq<string>)
    | Junk(text: string)   // not a name and a value

  /** Text between quotes, each quote and backslash protected by a backslash. */
  function Protect(text: string): string {
    if text == "" then ""
    else (if text[0] == '"' || text[0] == '\\' then ['\\', text[0]] else [text[0]]) + Protect(text[1..])
  }

  function ValueText(p: Param): string
    requires p.Param?
  {
    if p.quoted then "\"" + (Protect(p.value) + "\"") else p.value
  }

  function ParamText(p: Param): string
    requires p.Param? ==> |p.pads| == 4
  {
    match p
    case Param(name, _, _, pads) =>
      (pads[0] + (name + pads[1])) + ("=" + (pads[2] + (ValueText(p) + pads[3])))
    case Junk(text) => text
  }

  predicate Without(s: string, c: char) { forall k :: 0 <= k < |s| ==> s[k] != c }

  predicate Quiet(s: string) { Without(s, ';') && Without(s, '"') }

  predicate Fits(p: Param) {
    match p
    case Param(name, value, quoted, pads) =>
      && |pads| == 4 && (forall k :: 0 <= k < 4 ==> Blank(pads[k]))
      && name != "" && Trimmed(name) && Quiet(name) && Without(name, '=')
      && (quoted || (Trimmed(value) && Quiet(value)))
    case Junk(text) =>
      Quiet(text) && (Without(text, '=') || exists k :: 0 <= k < |text| && text[k] == '=' && Blank(text[..k]))
  }

  predicate AllFit(ps: seq<Param>) { forall k :: 0 <= k < |ps| ==> Fits(ps[k]) }

  function ParamTexts(ps: seq<Param>): string
    requires AllFit(ps)
  {
    if ps == [] then "" else ";" + (ParamText(ps[0]) + ParamTexts(ps[1..]))
  }

  function Small(c: char): char { if 'A' <= c <= 'Z' then (c as int - 'A' as int + 'a' as int) as char else c }

  function SmallAll(s: string): string { seq(|s|, k requires 0 <= k < |s| => Small(s[k])) }

  /** What the parameters say: names in small letters, the last of each counts. */
  function Meaning(ps: seq<Param>): map<string, string> {
    if ps == [] then map[]
    else
      var before, p := Meaning(ps[..|ps| - 1]), ps[|ps| - 1];
      if p.Junk? then before else before[SmallAll(p.name) := p.value]
  }

  // ----- pieces -----

  lemma {:induction false} BlankQuiet(s: string)
    requires Blank(s)
    ensures Quiet(s) && Without(s, '=')
  {
  }

  lemma {:induction false} QuietPiece(s: string, rest: string)
    requires Quiet(s)
    ensures Pieces(s + rest, false, false) == Prepend(s, Pieces(rest, false, false))
  {
    PlainPiece(s, rest);
  }

  lemma {:induction false} ProtectedPiece(text: string, rest: string)
    ensures Pieces(Protect(text) + rest, true, false) == Prepend(Protect(text), Pieces(rest, true, false))
  {
    if text == "" {
      assert Protect(text) + rest == rest;
      PrependNothing(Pieces(rest, true, false));
    } else {
      var head := if text[0] == '"' || text[0] == '\\' then ['\\', text[0]] else [text[0]];
      var tail := Protect(text[1..]);
      var more := Pieces(rest, true, false);
      ProtectedPiece(text[1..], rest);
      assert Protect(text) == head + tail;
      Associate(head, tail, rest);
      HeadPiece(head, text[0], tail + rest);
      Associate(head, tail, more[0]);
    }
  }

  lemma {:induction false} HeadPiece(head: string, c: char, rest: string)
    requires head == if c == '"' || c == '\\' then ['\\', c] else [c]
    ensures Pieces(head + rest, true, false) == Prepend(head, Pieces(rest, true, false))
  {
    var s := head + rest;
    var p := Pieces(rest, true, false);
    if c == '"' || c == '\\' {
      assert s[1..] == [c] + rest && s[1..][1..] == rest;
      assert Pieces(s[1..], true, true) == Prepend([c], p);
      assert ['\\'] + ([c] + p[0]) == head + p[0];
    } else {
      assert s[1..] == rest;
    }
  }

  lemma {:induction false} QuotedValuePiece(text: string, rest: string)
    ensures var v := "\"" + (Protect(text) + "\"");
      Pieces(v + rest, false, false) == Prepend(v, Pieces(rest, false, false))
  {
    var v := "\"" + (Protect(text) + "\"");
    var p := Pieces(rest, false, false);
    assert v + rest == "\"" + (Protect(text) + ("\"" + rest));
    QuotePiece(Protect(text) + ("\"" + rest), false);
    ProtectedPiece(text, "\"" + rest);
    QuotePiece(rest, true);
    assert "\"" + (Protect(text) + ("\"" + p[0])) == v + p[0];
  }

  /** Outside quotes the text is one piece with what follows it. */
  ghost predicate OnePiece(a: string) {
    forall rest {:trigger Prepend(a, Pieces(rest, false, false))} ::
      Pieces(a + rest, false, false) == Prepend(a, Pieces(rest, false, false))
  }

  lemma {:induction false} QuietOne(a: string)
    requires Quiet(a)
    ensures OnePiece(a)
  {
    forall rest ensures Pieces(a + rest, false, false) == Prepend(a, Pieces(rest, false, false)) {
      QuietPiece(a, rest);
    }
  }

  lemma {:induction false} JoinOne(a: string, b: string)
    requires OnePiece(a) && OnePiece(b)
    ensures OnePiece(a + b)
  {
    forall rest ensures Pieces((a + b) + rest, false, false) == Prepend(a + b, Pieces(rest, false, false)) {
      JoinPieces(a, b, rest);
    }
  }

  lemma {:induction false} JoinPieces(a: string, b: string, rest: string)
    requires OnePiece(a) && OnePiece(b)
    ensures Pieces((a + b) + rest, false, false) == Prepend(a + b, Pieces(rest, false, false))
  {
    var p := Pieces(rest, false, false);
    assert Pieces(b + rest, false, false) == Prepend(b, p);
    assert Pieces(a + (b + rest), false, false) == Prepend(a, Pieces(b + rest, false, false));
    Associate(a, b, rest);
    assert a + (b + p[0]) == (a + b) + p[0] by { Associate(a, b, p[0]); }
  }

  lemma {:induction false} ValueOne(p: Param)
    requires Fits(p) && p.Param?
    ensures OnePiece(ValueText(p))
  {
    if p.quoted {
      var v := ValueText(p);
      forall rest ensures Pieces(v + rest, false, false) == Prepend(v, Pieces(rest, false, false)) {
        QuotedValuePiece(p.value, rest);
      }
    } else {
      QuietOne(p.value);
    }
  }

  lemma {:induction false} NameOne(p: Param)
    requires Fits(p) && p.Param?
    ensures OnePiece(p.pads[0] + (p.name + p.pads[1])) && OnePiece(p.pads[2]) && OnePiece(p.pads[3])
  {
    forall k | 0 <= k < 4 ensures Quiet(p.pads[k]) { BlankQuiet(p.pads[k]); }
    QuietOne(p.pads[0] + (p.name + p.pads[1]));
    QuietOne(p.pads[2]);
    QuietOne(p.pads[3]);
  }

  /** A parameter is one piece. */
  lemma {:induction false} ParamOne(p: Param)
    requires Fits(p)
    ensures OnePiece(ParamText(p))
  {
    if p.Junk? {
      QuietOne(p.text);
    } else {
      NameOne(p);
      ValueOne(p);
      QuietOne("=");
      JoinOne(ValueText(p), p.pads[3]);
      JoinOne(p.pads[2], ValueText(p) + p.pads[3]);
      JoinOne("=", p.pads[2] + (ValueText(p) + p.pads[3]));
      JoinOne(p.pads[0] + (p.name + p.pads[1]), "=" + (p.pads[2] + (ValueText(p) + p.pads[3])));
    }
  }

  lemma {:induction false} ParamPiece(p: Param, rest: string)
    requires Fits(p)
    ensures Pieces(ParamText(p) + rest, false, false) == Prepend(ParamText(p), Pieces(rest, false, false))
  {
    ParamOne(p);
    assert OnePiece(ParamText(p));
    var pieces := Prepend(ParamText(p), Pieces(rest, false, false));
  }

  function Texts(ps: seq<Param>): (r: seq<string>)
    requires AllFit(ps)
    ensures |r| == |ps|
  {
    if ps == [] then [] else [ParamText(ps[0])] + Texts(ps[1..])
  }

  /** A header has its type and each parameter as a piece. */
  lemma {:induction false} HeaderTextPieces(kind: string, ps: seq<Param>)
    requires Quiet(kind) && AllFit(ps)
    ensures Pieces(kind + ParamTexts(ps), false, false) == [kind] + Texts(ps)
    decreases |ps|
  {
    if ps == [] {
      QuietPiece(kind, "");
      assert Pieces("", false, false) == [""] && kind + "" == kind;
      assert Prepend(kind, [""]) == [kind];
    } else {
      assert AllFit(ps[1..]) by { assert forall k :: 0 <= k < |ps| - 1 ==> ps[1..][k] == ps[k + 1]; }
      var after := ParamText(ps[0]) + ParamTexts(ps[1..]);
      QuietPiece(kind, ";" + after);
      SemicolonPiece(after);
      HeaderTextsFrom(ps);
      assert kind + "" == kind;
    }
  }

  lemma {:induction false} HeaderTextsFrom(ps: seq<Param>)
    requires AllFit(ps) && ps != []
    ensures AllFit(ps[1..]) && Pieces(ParamText(ps[0]) + ParamTexts(ps[1..]), false, false) == Texts(ps)
    decreases |ps|
  {
    var p, more := ps[0], ps[1..];
    assert AllFit(more) by { assert forall k :: 0 <= k < |ps| - 1 ==> more[k] == ps[k + 1]; }
    ParamPiece(p, ParamTexts(more));
    if more == [] {
      assert Pieces("", false, false) == [""];
      assert ParamText(p) + "" == ParamText(p);
    } else {
      HeaderTextsFrom(more);
      SemicolonPiece(ParamText(more[0]) + ParamTexts(more[1..]));
      assert ParamText(p) + "" == ParamText(p);
      assert ([""] + Texts(more))[1..] == Texts(more);
    }
  }

  // ----- entering a parameter -----

  lemma {:induction false} IndexAt(s: string, c: char, n: nat)
    requires n < |s| && s[n] == c && forall k :: 0 <= k < n ==> s[k] != c
    ensures IndexOf(s, c) == n
  {
    if n > 0 {
      assert forall k :: 0 <= k < |s| - 1 ==> s[1..][k] == s[k + 1];
      IndexAt(s[1..], c, n - 1);
    }
  }

  lemma {:induction false} IndexNone(s: string, c: char)
    requires Without(s, c)
    ensures IndexOf(s, c) == |s|
  {
    if s != "" {
      assert forall k :: 0 <= k < |s| - 1 ==> s[1..][k] == s[k + 1];
      IndexNone(s[1..], c);
    }
  }

  lemma {:induction false} SmallLetters(s: string)
    ensures LowerAll(s) == SmallAll(s)
  {
    if s != "" {
      SmallLetters(s[1..]);
      assert Lower(s[0]) == Small(s[0]);
      assert SmallAll(s) == [Small(s[0])] + SmallAll(s[1..]);
    }
  }

  lemma {:induction false} ProtectUnprotected(text: string)
    ensures Unprotected(Protect(text)) == text
  {
    if text != "" {
      var tail := Protect(text[1..]);
      ProtectUnprotected(text[1..]);
      if text[0] == '"' || text[0] == '\\' {
        assert Protect(text)[2..] == tail;
      } else {
        assert Protect(text)[1..] == tail;
      }
      assert [text[0]] + text[1..] == text;
    }
  }

  lemma {:induction false} ValueMeans(p: Param)
    requires Fits(p) && p.Param?
    ensures Unquoted(ValueText(p)) == p.value && Trimmed(ValueText(p))
  {
    if p.quoted {
      var v := ValueText(p);
      assert v[1..|v| - 1] == Protect(p.value);
      ProtectUnprotected(p.value);
    }
  }

  lemma {:induction false} TrimPadded(before: string, s: string, after: string)
    requires Blank(before) && Blank(after) && Trimmed(s)
    ensures Trim(before + (s + after)) == s
  {
    if s == "" {
      assert Blank(before + (s + after));
      TrimBlank(before + (s + after));
    } else {
      TrimPads(before, s, after);
    }
  }

  /** A piece splits at its first equals sign. */
  lemma {:induction false} EnterAt(params: map<string, string>, front: string, back: string)
    requires Without(front, '=')
    ensures var key := LowerAll(Trim(front));
      Enter(params, front + ("=" + back)) == if key == "" then params else params[key := Unquoted(Trim(back))]
  {
    var part := front + ("=" + back);
    IndexAt(part, '=', |front|);
    assert part[..|front|] == front && part[|front| + 1..] == back;
  }

  lemma {:induction false} EnterNone(params: map<string, string>, part: string)
    requires Without(part, '=')
    ensures Enter(params, part) == params
  {
    IndexNone(part, '=');
  }

  lemma {:induction false} WithoutJoin(a: string, b: string, c: char)
    requires Without(a, c) && Without(b, c)
    ensures Without(a + b, c)
  {
  }

  /** A piece without white space around it enters as one with. */
  lemma {:induction false} EnterTrimmed(params: map<string, string>, part: string)
    ensures Enter(params, Trim(part)) == Enter(params, part)
  {
    var before, after := TrimMeansBlank(part);
    var t := Trim(part);
    var n := IndexOf(t, '=');
    IndexFirst(t, '=');
    BlankQuiet(before);
    BlankQuiet(after);
    if n == |t| {
      WithoutJoin(t, after, '=');
      WithoutJoin(before, t + after, '=');
      EnterNone(params, t);
      EnterNone(params, part);
    } else {
      var front, back := t[..n], t[n + 1..];
      assert t == front + ("=" + back);
      SplitPadded(before, front, back, after);
      WithoutJoin(before, front, '=');
      EnterAt(params, front, back);
      EnterAt(params, before + front, back + after);
      TrimFront(before, front);
      TrimBack(back, after);
    }
  }

  lemma {:induction false} SplitPadded(before: string, front: string, back: string, after: string)
    ensures before + ((front + ("=" + back)) + after) == (before + front) + ("=" + (back + after))
  {
    Associate(front, "=" + back, after);
    Associate("=", back, after);
    Associate(before, front, "=" + (back + after));
  }

  lemma {:induction false} IndexFirst(s: string, c: char)
    ensures forall k :: 0 <= k < IndexOf(s, c) ==> s[k] != c
  {
    if s != "" && s[0] != c {
      IndexFirst(s[1..], c);
      assert forall k :: 0 < k < |s| ==> s[k] == s[1..][k - 1];
    }
  }

  lemma {:induction false} TrimMeansBlank(s: string) returns (before: string, after: string)
    ensures s == before + (Trim(s) + after) && Blank(before) && Blank(after)
  {
    var l := TrimLeft(s);
    TrimLeftSuffix(s);
    TrimRightPrefix(l);
    before, after := s[..|s| - |l|], l[|Trim(s)|..];
    assert l == Trim(s) + after && s == before + l;
  }

  lemma {:induction false} TrimFront(before: string, s: string)
    requires Blank(before)
    ensures Trim(before + s) == Trim(s)
  {
    TrimLeftPad(before, s);
  }

  lemma {:induction false} TrimBack(s: string, after: string)
    requires Blank(after)
    ensures Trim(s + after) == Trim(s)
  {
    if Blank(s) {
      assert Blank(s + after);
      TrimBlank(s);
      TrimBlank(s + after);
    } else {
      TrimLeftAfter(s, after);
      TrimRightPad(TrimLeft(s), after);
    }
  }

  lemma {:induction false} TrimLeftAfter(s: string, after: string)
    requires !Blank(s)
    ensures TrimLeft(s + after) == TrimLeft(s) + after
  {
    if s != "" && IsSpace(s[0]) {
      assert (s + after)[1..] == s[1..] + after;
      BlankCons(s);
      TrimLeftAfter(s[1..], after);
    }
  }

  lemma {:induction false} BlankCons(s: string)
    requires s != ""
    ensures Blank(s) <==> IsSpace(s[0]) && Blank(s[1..])
  {
    assert forall k :: 0 < k < |s| ==> s[k] == s[1..][k - 1];
    assert forall k :: 0 <= k < |s| - 1 ==> s[1..][k] == s[k + 1];
  }

  lemma {:induction false} ParamEnters(params: map<string, string>, p: Param)
    requires Fits(p) && p.Param?
    ensures Enter(params, ParamText(p)) == params[SmallAll(p.name) := p.value]
  {
    var front := p.pads[0] + (p.name + p.pads[1]);
    var back := p.pads[2] + (ValueText(p) + p.pads[3]);
    assert Without(front, '=') by { BlankQuiet(p.pads[0]); BlankQuiet(p.pads[1]); }
    EnterAt(params, front, back);
    ValueMeans(p);
    TrimPadded(p.pads[0], p.name, p.pads[1]);
    TrimPadded(p.pads[2], ValueText(p), p.pads[3]);
    SmallLetters(p.name);
  }

  lemma {:induction false} JunkEnters(params: map<string, string>, p: Param)
    requires Fits(p) && p.Junk?
    ensures Enter(params, ParamText(p)) == params
  {
    var s := p.text;
    IndexFirst(s, '=');
    if Without(s, '=') {
      IndexNone(s, '=');
    } else {
      var k :| 0 <= k < |s| && s[k] == '=' && Blank(s[..k]);
      var n := IndexOf(s, '=');
      assert n <= k;
      assert Blank(s[..n]) by { assert forall j :: 0 <= j < n ==> s[..n][j] == s[..k][j]; }
      TrimBlank(s[..n]);
    }
  }

  lemma {:induction false} EnterAllNext(params: map<string, string>, parts: seq<string>, part: string)
    ensures EnterAll(params, parts + [part]) == Enter(EnterAll(params, parts), part)
    decreases |parts|
  {
    if parts == [] {
      assert [part][1..] == [];
      assert EnterAll(Enter(params, part), []) == Enter(params, part);
    } else {
      assert (parts + [part])[1..] == parts[1..] + [part];
      EnterAllNext(Enter(params, parts[0]), parts[1..], part);
    }
  }

  lemma {:induction false} TrimAllNext(pieces: seq<string>, piece: string)
    ensures TrimAll(pieces + [piece]) == TrimAll(pieces) + [Trim(piece)]
  {
    if pieces == [] {
      assert TrimAll([piece][1..]) == [];
    } else {
      assert (pieces + [piece])[1..] == pieces[1..] + [piece];
      TrimAllNext(pieces[1..], piece);
    }
  }

  lemma {:induction false} TextsNext(ps: seq<Param>)
    requires AllFit(ps) && ps != []
    ensures AllFit(ps[..|ps| - 1])
    ensures Texts(ps) == Texts(ps[..|ps| - 1]) + [ParamText(ps[|ps| - 1])]
  {
    if |ps| > 1 {
      assert AllFit(ps[1..]) by { assert forall k :: 0 <= k < |ps| - 1 ==> ps[1..][k] == ps[k + 1]; }
      TextsNext(ps[1..]);
      assert ps[1..][..|ps| - 2] == ps[..|ps| - 1][1..];
    } else {
      assert ps[1..] == [] && Texts([]) == [];
    }
  }

  lemma {:induction false} AllEnter(ps: seq<Param>)
    requires AllFit(ps)
    ensures EnterAll(map[], TrimAll(Texts(ps))) == Meaning(ps)
  {
    if ps != [] {
      var init, p := ps[..|ps| - 1], ps[|ps| - 1];
      TextsNext(ps);
      AllEnter(init);
      TrimAllNext(Texts(init), ParamText(p));
      EnterAllNext(map[], TrimAll(Texts(init)), Trim(ParamText(p)));
      EnterTrimmed(Meaning(init), ParamText(p));
      if p.Param? { ParamEnters(Meaning(init), p); } else { JunkEnters(Meaning(init), p); }
    }
  }

  /** What the client reads of a header are its parameters, whatever white space, quotes and protected
      characters they are written with; what is no parameter is passed over. */
  lemma {:induction false} ParamsMean(kind: string, ps: seq<Param>)
    requires Quiet(kind) && AllFit(ps)
    ensures Params(kind + ParamTexts(ps)) == Meaning(ps)
  {
    HeaderTextPieces(kind, ps);
    assert TrimAll([kind] + Texts(ps))[1..] == TrimAll(Texts(ps)) by { assert ([kind] + Texts(ps))[1..] == Texts(ps); }
    AllEnter(ps);
  }

  // ----- the file name -----

  /** charset'language'text on one line, or a text that is not of that form. */
  ghost predicate Tagged(value: string, charset: string, language: string, text: string) {
    && value == charset + ("'" + (language + ("'" + text)))
    && Without(charset, '\'') && Without(language, '\'')
    && forall k :: 0 <= k < |text| ==> text[k] !in "\n\r\U{2028}\U{2029}"
  }

  ghost predicate IsTagged(value: string) {
    exists charset, language, text :: Tagged(value, charset, language, text)
  }

  /** What decodes gives its text; what does not gives nothing. */
  predicate Decodes(escaped: string, text: string) {
    text == if DecodeComponent(escaped).Some? then DecodeComponent(escaped).value else ""
  }

  /** The value of an extended parameter: in UTF-8 what it escapes, in another charset nothing; without
      charset and language all of it. */
  ghost predicate Extended(value: string, name: string) {
    && (forall charset, language, text :: Tagged(value, charset, language, text) ==>
          if charset == "" || SmallAll(charset) == "utf-8" then Decodes(text, name) else name == "")
    && (!IsTagged(value) ==> Decodes(value, name))
  }

  lemma {:induction false} TaggedText(value: string, charset: string, language: string, text: string)
    requires Tagged(value, charset, language, text)
    ensures ExtendedText(value) == if charset != "" && SmallAll(charset) != "utf-8" then None else Some(text)
  {
    var tail := language + ("'" + text);
    IndexAt(value, '\'', |charset|);
    assert value[..|charset|] == charset && value[|charset| + 1..] == tail;
    IndexAt(tail, '\'', |language|);
    assert tail[|language| + 1..] == text;
    assert OneLine(text);
    SmallLetters(charset);
  }

  lemma {:induction false} CutAt(s: string, c: char)
    requires IndexOf(s, c) < |s|
    ensures var n := IndexOf(s, c); s == s[..n] + ([c] + s[n + 1..]) && Without(s[..n], c)
  {
    IndexFirst(s, c);
  }

  lemma {:induction false} TaggedAt(value: string, charset: string, language: string, text: string)
    requires value == charset + ("'" + (language + ("'" + text))) && OneLine(text)
    requires Without(charset, '\'') && Without(language, '\'')
    ensures IsTagged(value)
  {
    forall k | 0 <= k < |text| ensures text[k] !in "\n\r\U{2028}\U{2029}" { assert !LineEnd(text[k]); }
    assert Tagged(value, charset, language, text);
  }

  lemma {:induction false} UntaggedText(value: string)
    requires !IsTagged(value)
    ensures ExtendedText(value) == Some(value)
  {
    var first := IndexOf(value, '\'');
    if first < |value| {
      var tail := value[first + 1..];
      var second := IndexOf(tail, '\'');
      CutAt(value, '\'');
      if second < |tail| && OneLine(tail[second + 1..]) {
        CutAt(tail, '\'');
        TaggedAt(value, value[..first], tail[..second], tail[second + 1..]);
      }
    }
  }

  /** The client takes the extended name when it decodes to one, and else the plain one, or none. */
  lemma {:induction false} NameMeans(kind: string, ps: seq<Param>) returns (extended: string)
    requires Quiet(kind) && AllFit(ps) && kind + ParamTexts(ps) != ""
    ensures var m := Meaning(ps);
      && (if "filename*" in m && m["filename*"] != "" then Extended(m["filename*"], extended) else extended == "")
      && FilenameFrom(kind + ParamTexts(ps))
           == if extended != "" then extended else if "filename" in m then m["filename"] else ""
  {
    var m := Meaning(ps);
    ParamsMean(kind, ps);
    extended := "";
    if "filename*" in m && m["filename*"] != "" {
      var value := m["filename*"];
      extended := DecodeExtended(value);
      ExtendedMeans(value);
    }
  }

  lemma {:induction false} ExtendedMeans(value: string)
    ensures Extended(value, DecodeExtended(value))
  {
    forall charset, language, text | Tagged(value, charset, language, text)
      ensures var name := DecodeExtended(value);
        if charset == "" || SmallAll(charset) == "utf-8" then Decodes(text, name) else name == ""
    {
      TaggedText(value, charset, language, text);
    }
    if !IsTagged(value) { UntaggedText(value); }
  }

  /** A missing header names nothing. */
  lemma {:induction false} NoHeader()
    ensures FilenameFrom("") == ""
  {
  }
}
