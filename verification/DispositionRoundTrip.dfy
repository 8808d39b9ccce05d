/** The client reads from a printed header the name it was printed for. */
module DispositionRoundTrip {
  import opened Common
  import opened Text
  import opened Percent
  import opened ContentDisposition
  import opened DispositionParser

  // ---- small readings ----

  lemma {:induction false} TrimFront(x: string)
    requires x != "" && Trimmed(x)
    ensures Trim(" " + x) == x
  {
    assert (" " + x)[1..] == x;
    TrimLeftSuffix(x);
    assert TrimLeft(" " + x) == x;
    TrimRightPrefix(x);
  }

  lemma {:induction false} IndexOfAt(a: string, c: char, rest: string)
    requires !Has(a, c)
    ensures IndexOf(a + ([c] + rest), c) == |a|
  {
    var s := a + ([c] + rest);
    if a == "" {
      assert s[0] == c;
    } else {
      HasTail(a, c);
      assert s[1..] == a[1..] + ([c] + rest);
      IndexOfAt(a[1..], c, rest);
    }
  }

  lemma {:induction false} LowerKept(s: string)
    requires forall k :: 0 <= k < |s| ==> !('A' <= s[k] <= 'Z')
    ensures LowerAll(s) == s
  {
    if s != "" { LowerKept(s[1..]); }
  }

  lemma {:induction false} UnprotectedKept(s: string)
    requires !Has(s, '\\')
    ensures Unprotected(s) == s
  {
    if s != "" {
      HasTail(s, '\\');
      UnprotectedKept(s[1..]);
    }
  }

  lemma {:induction false} UnquotedOf(f: string)
    requires !Has(f, '\\')
    ensures Unquoted("\"" + (f + "\"")) == f
  {
    var q := "\"" + (f + "\"");
    assert q[0] == '"' && q[|q| - 1] == '"';
    assert q[1..|q| - 1] == f;
    UnprotectedKept(f);
  }

  /** Texts that need no care anywhere in a header. */
  predicate Quiet(s: string) {
    forall k :: 0 <= k < |s| ==> SegmentChar(s[k])
  }

  lemma {:induction false} QuietHas(s: string)
    requires Quiet(s)
    ensures !Has(s, ';') && !Has(s, '"') && !Has(s, '\\') && !Has(s, '\'') && OneLine(s) && Trimmed(s)
  {
    if s != "" { assert SegmentChar(s[0]) && SegmentChar(s[|s| - 1]); }
  }

  lemma {:induction false} EscapedQuiet(s: string)
    ensures Quiet(PathEscape(s))
  {
    PathEscapeSafe(s);
    var e := PathEscape(s);
    forall k | 0 <= k < |e| ensures SegmentChar(e[k]) { assert e[k] in e; }
  }

  // ---- the two parameters ----

  /** One part with a lower-case key enters its unquoted value. */
  lemma {:induction false} EnterPart(params: map<string, string>, key: string, value: string)
    requires key != "" && Trimmed(key) && Trimmed(value) && !Has(key, '=')
    requires forall k :: 0 <= k < |key| ==> !('A' <= key[k] <= 'Z')
    ensures Enter(params, key + ("=" + value)) == params[key := Unquoted(value)]
  {
    IndexOfAt(key, '=', value);
    var part := key + ("=" + value);
    assert part[..|key|] == key && part[|key| + 1..] == value;
    TrimTrims(key);
    TrimTrims(value);
    LowerKept(key);
  }

  lemma {:induction false} TrimmedQuotation(f: string)
    ensures Trimmed("\"" + (f + "\""))
  {
  }

  const EXTENDED_START := "UTF-8''"

  lemma {:induction false} TrimmedExtended(e: string)
    requires Trimmed(e)
    ensures Trimmed(EXTENDED_START + e) && Unquoted(EXTENDED_START + e) == EXTENDED_START + e
  {
    if e == "" { assert EXTENDED_START + e == EXTENDED_START; }
  }

  lemma {:induction false} FirstPart(f: string)
    requires !Has(f, '\\')
    ensures Trim(FILENAME_PART + ("\"" + (f + "\""))) == "filename" + ("=" + ("\"" + (f + "\"")))
    ensures Enter(map[], "filename" + ("=" + ("\"" + (f + "\"")))) == map["filename" := f]
  {
    var q := "\"" + (f + "\"");
    TrimmedQuotation(f);
    assert FILENAME_PART + q == " " + ("filename" + ("=" + q));
    TrimFront("filename" + ("=" + q));
    EnterPart(map[], "filename", q);
    UnquotedOf(f);
  }

  lemma {:induction false} SecondPart(params: map<string, string>, e: string)
    requires Trimmed(e)
    ensures Trim(EXTENDED_PART + e) == "filename*" + ("=" + (EXTENDED_START + e))
    ensures Enter(params, "filename*" + ("=" + (EXTENDED_START + e))) == params["filename*" := EXTENDED_START + e]
  {
    var v := EXTENDED_START + e;
    TrimmedExtended(e);
    assert EXTENDED_PART + e == " " + ("filename*" + ("=" + v));
    TrimFront("filename*" + ("=" + v));
    EnterPart(params, "filename*", v);
  }

  lemma {:induction false} EnterTwo(p: string, q: string)
    ensures EnterAll(map[], [p, q]) == Enter(Enter(map[], p), q)
  {
    var params := Enter(map[], p);
    assert [p, q][1..] == [q] && [q][1..] == [];
    assert EnterAll(params, [q]) == EnterAll(Enter(params, q), []);
  }

  lemma {:induction false} TrimThree(a: string, b: string, c: string)
    ensures TrimAll([a, b, c])[1..] == [Trim(b), Trim(c)]
  {
    assert [a, b, c][1..] == [b, c] && [b, c][1..] == [c] && [c][1..] == [];
    assert TrimAll([c]) == [Trim(c)] + TrimAll([]);
    assert TrimAll([b, c]) == [Trim(b)] + TrimAll([c]);
  }

  /** Both parameters arrive, the fallback as it was printed. */
  lemma {:induction false} ParamsOf(filename: string)
    ensures Params(Disposition(filename))
         == map["filename" := Fallback(filename), "filename*" := EXTENDED_START + PathEscape(filename)]
  {
    var f, e := Fallback(filename), PathEscape(filename);
    FallbackSafe(filename);
    QuietHas(f);
    EscapedQuiet(filename);
    QuietHas(e);
    HeaderPieces(f, e);
    TrimThree("attachment", FILENAME_PART + ("\"" + (f + "\"")), EXTENDED_PART + e);
    FirstPart(f);
    SecondPart(map["filename" := f], e);
    EnterTwo("filename" + ("=" + ("\"" + (f + "\""))), "filename*" + ("=" + (EXTENDED_START + e)));
  }

  lemma {:induction false} ExtendedTextAt(charset: string, e: string)
    requires charset != "" && !Has(charset, '\'') && LowerAll(charset) == "utf-8" && OneLine(e)
    ensures ExtendedText(charset + ("'" + ("'" + e))) == Some(e)
  {
    var value, tail := charset + ("'" + ("'" + e)), "'" + e;
    IndexOfAt(charset, '\'', tail);
    assert value[|charset| + 1..] == tail && value[..|charset|] == charset;
    assert IndexOf(tail, '\'') == 0 && tail[1..] == e;
  }

  lemma {:induction false} ExtendedTextOf(e: string)
    requires OneLine(e)
    ensures ExtendedText(EXTENDED_START + e) == Some(e)
  {
    assert EXTENDED_START + e == "UTF-8" + ("'" + ("'" + e));
    ExtendedTextAt("UTF-8", e);
  }

  /** For every name but the empty one, the client returns exactly the name the header was printed
      for; for the empty one, the fallback "download". */
  lemma {:induction false} FilenameArrives(filename: string)
    ensures FilenameFrom(Disposition(filename)) == if filename == "" then "download" else filename
  {
    ParamsOf(filename);
    EscapedQuiet(filename);
    QuietHas(PathEscape(filename));
    ExtendedTextOf(PathEscape(filename));
    EscapeDecodes(filename);
    if filename == "" {
      assert Masked("") == "";
    }
  }

  /** A client that only knows `filename` gets the fallback, which is a safe name. */
  lemma {:induction false} FallbackArrives(filename: string)
    ensures Get(Params(Disposition(filename)), "filename") == Fallback(filename)
    ensures SafeName(Get(Params(Disposition(filename)), "filename"))
  {
    ParamsOf(filename);
    FallbackSafe(filename);
  }
}
