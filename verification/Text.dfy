/** String helpers shared by the models: ASCII white space, trimming, joining, decimal numbers. */
module Text {

  /** The ASCII part of what Go's strings.TrimSpace removes. */
  predicate IsSpace(c: char) {
    c == ' ' || c == '\t' || c == '\n' || c == '\r' || c == '\U{000B}' || c == '\U{000C}'
  }

  function TrimLeft(s: string): (r: string)
    ensures |r| <= |s|
  {
    if s != "" && IsSpace(s[0]) then TrimLeft(s[1..]) else s
  }

  function TrimRight(s: string): (r: string)
    ensures |r| <= |s|
  {
    if s != "" && IsSpace(s[|s| - 1]) then TrimRight(s[..|s| - 1]) else s
  }

  predicate Trimmed(s: string) {
    s != "" ==> !IsSpace(s[0]) && !IsSpace(s[|s| - 1])
  }

  /** strings.TrimSpace on ASCII white space */
  function Trim(s: string): (r: string)
    ensures |r| <= |s|
  {
    TrimRight(TrimLeft(s))
  }

  lemma {:induction false} TrimLeftSuffix(s: string)
    ensures var l := TrimLeft(s);
      && l == s[|s| - |l|..] && Blank(s[..|s| - |l|])
      && (l != "" ==> !IsSpace(l[0]))
  {
    if s != "" && IsSpace(s[0]) {
      TrimLeftSuffix(s[1..]);
      var n := |s| - |TrimLeft(s)|;
      assert forall k :: 0 < k < |s| ==> s[k] == s[1..][k - 1];
      assert forall k :: 0 < k < n ==> s[..n][k] == s[1..][..n - 1][k - 1];
    }
  }

  lemma {:induction false} TrimRightPrefix(s: string)
    ensures var r := TrimRight(s);
      && r == s[..|r|] && Blank(s[|r|..])
      && (r != "" ==> !IsSpace(r[|r| - 1]))
  {
    if s != "" && IsSpace(s[|s| - 1]) {
      TrimRightPrefix(s[..|s| - 1]);
      var n := |TrimRight(s)|;
      assert forall k :: 0 <= k < |s| - 1 - n ==> s[n..][k] == s[..|s| - 1][n..][k];
    }
  }

  /** Trimming leaves a trimmed text, and leaves trimmed text alone. */
  lemma {:induction false} TrimTrims(s: string)
    ensures Trimmed(Trim(s))
    ensures Trimmed(s) ==> Trim(s) == s
  {
    TrimLeftSuffix(s);
    TrimRightPrefix(TrimLeft(s));
  }

  predicate Blank(s: string) {
    forall k :: 0 <= k < |s| ==> IsSpace(s[k])
  }

  lemma {:induction false} TrimLeftBlank(s: string)
    ensures TrimLeft(s) == "" <==> Blank(s)
  {
    if s != "" && IsSpace(s[0]) {
      TrimLeftBlank(s[1..]);
      if Blank(s[1..]) {
        forall k | 0 <= k < |s| ensures IsSpace(s[k]) {
          if k > 0 { assert s[k] == s[1..][k - 1]; }
        }
      } else {
        var k :| 0 <= k < |s[1..]| && !IsSpace(s[1..][k]);
        assert s[k + 1] == s[1..][k];
      }
    }
  }

  lemma {:induction false} TrimRightBlank(s: string)
    ensures TrimRight(s) == "" <==> Blank(s)
  {
    if s != "" && IsSpace(s[|s| - 1]) {
      TrimRightBlank(s[..|s| - 1]);
      if !Blank(s) {
        var k :| 0 <= k < |s| && !IsSpace(s[k]);
        assert s[..|s| - 1][k] == s[k];
      }
    }
  }

  /** Only blank text trims to nothing. */
  lemma {:induction false} TrimBlank(s: string)
    ensures Trim(s) == "" <==> Blank(s)
  {
    TrimLeftBlank(s);
    TrimLeftSuffix(s);
    TrimRightBlank(TrimLeft(s));
    var l := TrimLeft(s);
    if l != "" {
      assert !IsSpace(l[0]) && !Blank(l);
    }
  }

  lemma {:induction false} TrimLeftPad(before: string, s: string)
    requires Blank(before)
    ensures TrimLeft(before + s) == TrimLeft(s)
  {
    if before == "" {
      assert before + s == s;
    } else {
      assert (before + s)[1..] == before[1..] + s;
      TrimLeftPad(before[1..], s);
    }
  }

  lemma {:induction false} TrimRightPad(s: string, after: string)
    requires Blank(after)
    ensures TrimRight(s + after) == TrimRight(s)
  {
    if after == "" {
      assert s + after == s;
    } else {
      var init := after[..|after| - 1];
      assert (s + after)[..|s + after| - 1] == s + init;
      TrimRightPad(s, init);
    }
  }

  /** Trimming removes exactly the white space around a text. */
  lemma {:induction false} TrimPads(before: string, s: string, after: string)
    requires Blank(before) && Blank(after) && Trimmed(s) && s != ""
    ensures Trim(before + (s + after)) == s
  {
    TrimLeftPad(before, s + after);
    assert (s + after)[0] == s[0];
    TrimRightPad(s, after);
  }

  /** What trimming removes are spaces, tabs and line ends, and none is left at either end. */
  lemma {:induction false} TrimMeans(s: string) returns (before: string, after: string)
    ensures s == before + (Trim(s) + after)
    ensures forall c :: c in before + after ==> c in " \t\n\r\U{000B}\U{000C}"
    ensures Trim(s) != "" ==> Trim(s)[0] !in " \t\n\r\U{000B}\U{000C}"
    ensures Trim(s) != "" ==> Trim(s)[|Trim(s)| - 1] !in " \t\n\r\U{000B}\U{000C}"
  {
    var l := TrimLeft(s);
    TrimLeftSuffix(s);
    TrimRightPrefix(l);
    before, after := s[..|s| - |l|], l[|Trim(s)|..];
    assert l == Trim(s) + after && s == before + l;
    forall c | c in before + after ensures IsSpace(c) {
      if c in before {
        var k :| 0 <= k < |before| && before[k] == c;
      } else {
        var k :| 0 <= k < |after| && after[k] == c;
      }
    }
    TrimTrims(s);
  }

  /** strings.Join */
  function Join(parts: seq<string>, sep: string): string {
    if parts == [] then ""
    else if |parts| == 1 then parts[0]
    else parts[0] + sep + Join(parts[1..], sep)
  }

  /** Index of the last dot, or -1. */
  function LastDot(name: string): (i: int)
    ensures -1 <= i < |name| && (i >= 0 ==> name[i] == '.')
    ensures forall k :: i < k < |name| ==> name[k] != '.'
  {
    if name == "" then -1
    else if name[|name| - 1] == '.' then |name| - 1
    else LastDot(name[..|name| - 1])
  }

  predicate NoRepeats(vs: seq<string>) {
    forall j, k :: 0 <= j < k < |vs| ==> vs[j] != vs[k]
  }

  lemma {:induction false} Associate<T>(a: seq<T>, b: seq<T>, c: seq<T>)
    ensures (a + b) + c == a + (b + c)
  {
  }
}
