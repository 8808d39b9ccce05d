/** The Content-Disposition header of an export: an ASCII fallback name next to the escaped name. */
module ContentDisposition {
  import opened Percent
  import opened Text

  predicate Allowed(c: char) {
    IsAlphanumeric(c) || c == '.' || c == '_' || c == '-'
  }

  predicate AllAllowed(s: string) {
    forall k :: 0 <= k < |s| ==> Allowed(s[k])
  }

  function Mask(c: char): char { if Allowed(c) then c else '_' }

  /** A name with every other character replaced by an underscore. */
  function Masked(s: string): string {
    seq(|s|, k requires 0 <= k < |s| => Mask(s[k]))
  }

  /** The name without its extension; a leading dot belongs to the name. */
  function Stem(s: string): string {
    if LastDot(s) > 0 then s[..LastDot(s)] else s
  }

  predicate HasAlphanumeric(s: string) {
    exists k :: 0 <= k < |s| && IsAlphanumeric(s[k])
  }

  /** A last dot inside the name and the letters and digits after it. */
  function Extension(s: string): string {
    var dot := LastDot(s);
    if dot <= 0 || dot == |s| - 1 then ""
    else if forall k :: dot <= k < |s| ==> s[k] == '.' || IsAlphanumeric(s[k]) then s[dot..]
    else ""
  }

  predicate IsLead(c: char) { c == '.' || c == '_' || c == '-' }

  function TrimLead(s: string): string {
    if s != "" && IsLead(s[0]) then TrimLead(s[1..]) else s
  }

  const DOWNLOAD := "download"

  function FallbackOf(masked: string): string {
    if masked == "" || !HasAlphanumeric(Stem(masked)) then
      (if Extension(masked) != "" then DOWNLOAD + Extension(masked) else DOWNLOAD)
    else if TrimLead(masked) == "" then DOWNLOAD
    else TrimLead(masked)
  }

  function Fallback(filename: string): string { FallbackOf(Trim(Masked(filename))) }

  method MaskName(filename: string) returns (masked: string)
    ensures masked == Masked(filename)
  {
    masked := "";
    for i := 0 to |filename|
      invariant masked == Masked(filename[..i])
    {
      assert filename[..i + 1] == filename[..i] + [filename[i]];
      if Allowed(filename[i]) {
        masked := masked + [filename[i]];
      } else {
        masked := masked + "_";
      }
    }
    assert filename[..|filename|] == filename;
  }

  method StemHasAlphanumeric(filename: string) returns (has: bool)
    ensures has == HasAlphanumeric(Stem(filename))
  {
    var stem := filename;
    var dot := LastDot(filename);
    if dot > 0 {
      stem := filename[..dot];
    }
    for i := 0 to |stem|
      invariant forall k :: 0 <= k < i ==> !IsAlphanumeric(stem[k])
    {
      if IsAlphanumeric(stem[i]) {
        return true;
      }
    }
    return false;
  }

  method FilenameExtension(filename: string) returns (extension: string)
    ensures extension == Extension(filename)
  {
    var dot := LastDot(filename);
    if dot <= 0 || dot == |filename| - 1 {
      return "";
    }
    extension := filename[dot..];
    for i := 0 to |extension|
      invariant forall k :: 0 <= k < i ==> extension[k] == '.' || IsAlphanumeric(extension[k])
    {
      if extension[i] != '.' && !IsAlphanumeric(extension[i]) {
        assert filename[dot + i] == extension[i];
        return "";
      }
    }
    assert forall k :: dot <= k < |filename| ==> filename[k] == extension[k - dot];
  }

  method AsciiFilenameFallback(filename: string) returns (fallback: string)
    ensures fallback == Fallback(filename)
  {
    fallback := MaskName(filename);
    fallback := Trim(fallback);
    var named := StemHasAlphanumeric(fallback);
    if fallback == "" || !named {
      var extension := FilenameExtension(fallback);
      if extension != "" {
        return DOWNLOAD + extension;
      }
      return DOWNLOAD;
    }
    fallback := TrimLead(fallback);
    if fallback == "" {
      return DOWNLOAD;
    }
  }

  // ---- what the fallback promises ----

  lemma {:induction false} TrimLeadSuffix(s: string)
    ensures var r := TrimLead(s);
      |r| <= |s| && r == s[|s| - |r|..] && (r != "" ==> !IsLead(r[0]))
    ensures forall k :: 0 <= k < |s| - |TrimLead(s)| ==> IsLead(s[k])
  {
    if s != "" && IsLead(s[0]) {
      TrimLeadSuffix(s[1..]);
      assert forall k :: 1 <= k < |s| ==> s[k] == s[1..][k - 1];
    }
  }

  predicate SafeName(s: string) {
    s != "" && AllAllowed(s) && !IsLead(s[0])
  }

  lemma {:induction false} FallbackOfSafe(masked: string)
    requires AllAllowed(masked)
    ensures SafeName(FallbackOf(masked))
  {
    var e := Extension(masked);
    assert AllAllowed(DOWNLOAD) && DOWNLOAD[0] == 'd';
    if masked == "" || !HasAlphanumeric(Stem(masked)) {
      assert AllAllowed(DOWNLOAD + e);
    } else {
      TrimLeadSuffix(masked);
    }
  }

  /** For every name the fallback is a non-empty name over letters, digits, `.`, `_` and `-`, and
      begins with a letter or digit. */
  lemma {:induction false} FallbackSafe(filename: string)
    ensures SafeName(Fallback(filename))
  {
    FallbackOfSafe(Masked(filename));
  }

  /** A name that already is such a name, with a letter or digit before its extension, is kept. */
  lemma {:induction false} FallbackKeeps(filename: string)
    requires SafeName(filename) && HasAlphanumeric(Stem(filename))
    ensures Fallback(filename) == filename
  {
    assert Masked(filename) == filename;
  }

  predicate LetterOrDigit(c: char) { 'a' <= c <= 'z' || 'A' <= c <= 'Z' || '0' <= c <= '9' }

  /** The name ends in a dot inside it and what follows; or it has no dot inside it, and the ending is empty. */
  predicate SplitsAt(name: string, main: string, ending: string) {
    && name == main + ending
    && if ending == "" then forall k :: 0 < k < |name| ==> name[k] != '.'
       else main != "" && ending[0] == '.' && forall k :: 0 < k < |ending| ==> ending[k] != '.'
  }

  lemma {:induction false} SplitName(name: string) returns (main: string, ending: string)
    ensures SplitsAt(name, main, ending)
  {
    var dot := LastDot(name);
    if dot > 0 {
      main, ending := name[..dot], name[dot..];
    } else {
      main, ending := name, "";
    }
  }

  predicate HasLetter(main: string) { exists k :: 0 <= k < |main| && LetterOrDigit(main[k]) }

  /** A dot and letters or digits. */
  predicate PlainEnding(ending: string) {
    |ending| > 1 && forall k :: 0 < k < |ending| ==> LetterOrDigit(ending[k])
  }

  /** The name without its first n characters, everything but letters, digits and `._-` underlined. */
  predicate Underlined(name: string, n: nat, r: string) {
    && n <= |name| && |r| == |name| - n
    && forall k :: n <= k < |name| ==> r[k - n] == if LetterOrDigit(name[k]) || name[k] in "._-" then name[k] else '_'
  }

  lemma {:induction false} DotOf(m: string, at: nat)
    requires at > 0 ==> at < |m| && m[at] == '.'
    requires forall k :: at < k < |m| ==> m[k] != '.'
    ensures if at > 0 then LastDot(m) == at else LastDot(m) <= 0
  {
  }

  /** Masking neither makes dots nor takes them away. */
  lemma {:induction false} MaskedDot(name: string, main: string, ending: string)
    requires SplitsAt(name, main, ending)
    ensures if ending == "" then LastDot(Masked(name)) <= 0 else LastDot(Masked(name)) == |main| > 0
  {
    var m := Masked(name);
    assert forall k :: 0 <= k < |ending| ==> name[|main| + k] == ending[k];
    if ending == "" {
      DotOf(m, 0);
    } else {
      forall k | |main| < k < |m| ensures m[k] != '.' { assert name[k] == ending[k - |main|]; }
      DotOf(m, |main|);
    }
  }

  lemma {:induction false} MaskedMain(name: string, main: string, ending: string)
    requires SplitsAt(name, main, ending)
    ensures HasAlphanumeric(Stem(Masked(name))) <==> HasLetter(main)
  {
    MaskedDot(name, main, ending);
    var m := Masked(name)[..|main|];
    assert Stem(Masked(name)) == m;
    assert forall k :: 0 <= k < |main| ==> name[k] == main[k];
    forall k | 0 <= k < |main| ensures IsAlphanumeric(m[k]) <==> LetterOrDigit(main[k]) {
    }
  }

  lemma {:induction false} MaskedEnding(name: string, main: string, ending: string)
    requires SplitsAt(name, main, ending)
    ensures Extension(Masked(name)) == if PlainEnding(ending) then ending else ""
  {
    MaskedDot(name, main, ending);
    var m := Masked(name);
    forall k | 0 <= k < |ending| ensures m[|main| + k] == Mask(ending[k]) { assert name[|main| + k] == ending[k]; }
    if PlainEnding(ending) {
      assert m[|main|..] == ending;
    } else if |ending| > 1 {
      var k :| 0 < k < |ending| && !LetterOrDigit(ending[k]);
      assert !(m[|main| + k] == '.' || IsAlphanumeric(m[|main| + k]));
    }
  }

  lemma {:induction false} MaskedTail(name: string, n: nat)
    requires n <= |name|
    ensures Underlined(name, n, Masked(name)[n..])
  {
    forall k | n <= k < |name|
      ensures Masked(name)[k] == if LetterOrDigit(name[k]) || name[k] in "._-" then name[k] else '_'
    {
      assert name[k] in "._-" <==> name[k] == '.' || name[k] == '_' || name[k] == '-';
    }
  }

  lemma {:induction false} LedUnnamed(name: string, n: nat)
    requires n <= |name| && forall k :: 0 <= k < n ==> IsLead(Masked(name)[k])
    ensures forall k :: 0 <= k < n ==> !LetterOrDigit(name[k])
  {
    forall k | 0 <= k < n ensures !LetterOrDigit(name[k]) {
      assert Masked(name)[k] == Mask(name[k]) && IsLead(Mask(name[k]));
    }
  }

  lemma {:induction false} NamedFallback(name: string, main: string, ending: string) returns (n: nat)
    requires SplitsAt(name, main, ending) && HasLetter(main)
    ensures Underlined(name, n, Fallback(name)) && forall k :: 0 <= k < n ==> !LetterOrDigit(name[k])
  {
    var m := Masked(name);
    MaskedMain(name, main, ending);
    assert Trim(m) == m by { TrimTrims(m); }
    TrimLeadSuffix(m);
    n := |m| - |TrimLead(m)|;
    LedUnnamed(name, n);
    MaskedTail(name, n);
    var k :| 0 <= k < |main| && LetterOrDigit(main[k]);
    assert name[k] == main[k];
    assert Fallback(name) == m[n..];
  }

  /** Exactly what the fallback is: with a letter or digit before the ending, the name underlined, less
      what is no letter or digit at its beginning; without one, "download", with a plain ending. */
  lemma {:induction false} FallbackExactly(name: string, main: string, ending: string) returns (n: nat)
    requires SplitsAt(name, main, ending)
    ensures HasLetter(main) ==>
      && Underlined(name, n, Fallback(name)) && (forall k :: 0 <= k < n ==> !LetterOrDigit(name[k]))
      && Fallback(name) != "" && LetterOrDigit(Fallback(name)[0])
    ensures !HasLetter(main) ==> Fallback(name) == "download" + if PlainEnding(ending) then ending else ""
  {
    n := 0;
    if HasLetter(main) {
      n := NamedFallback(name, main, ending);
      FallbackLeads(name);
    } else {
      UnnamedFallback(name, main, ending);
    }
  }

  lemma {:induction false} FallbackLeads(name: string)
    ensures Fallback(name) != "" && LetterOrDigit(Fallback(name)[0])
  {
    FallbackSafe(name);
    assert Allowed(Fallback(name)[0]) && !IsLead(Fallback(name)[0]);
  }

  lemma {:induction false} UnnamedFallback(name: string, main: string, ending: string)
    requires SplitsAt(name, main, ending) && !HasLetter(main)
    ensures Fallback(name) == "download" + if PlainEnding(ending) then ending else ""
  {
    var m := Masked(name);
    MaskedMain(name, main, ending);
    MaskedEnding(name, main, ending);
    assert Trim(m) == m by { TrimTrims(m); }
    assert Fallback(name) == FallbackOf(m);
    assert DOWNLOAD + "" == DOWNLOAD;
  }

  // ---- the header ----

  /** The fallback needs no escapes between the quotes. */
  function Disposition(filename: string): string {
    "attachment" + (";" + (" filename=" + ("\"" + (Fallback(filename) + ("\"" +
      (";" + (" filename*=UTF-8''" + PathEscape(filename))))))))
  }
}
