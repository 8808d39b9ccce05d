/** Percent-encoded texts as they are written: characters that stand for themselves, and characters
    whose UTF-8 octets are written as a percent sign and two hexadecimal digits, in either case. */
module PercentTexts {
  import opened Common
  import opened Percent

  datatype Unit = Raw(c: char) | Coded(c: char, text: string)

  predicate IsHex(c: char, n: nat) {
    n < 16 && (c == "0123456789ABCDEF"[n] || c == "0123456789abcdef"[n])
  }

  /** A percent sign and two hexadecimal digits for each octet. */
  predicate Codes(text: string, bs: seq<byte>) {
    if bs == [] then text == ""
    else
      && |text| >= 3 && text[0] == '%' && IsHex(text[1], bs[0] / 16) && IsHex(text[2], bs[0] % 16)
      && Codes(text[3..], bs[1..])
  }

  predicate Fits(u: Unit) {
    match u
    case Raw(c) => c != '%'
    case Coded(c, text) => Codes(text, Utf8(c))
  }

  function Text(u: Unit): string { if u.Raw? then [u.c] else u.text }

  predicate AllFit(us: seq<Unit>) { forall k :: 0 <= k < |us| ==> Fits(us[k]) }

  function TextOf(us: seq<Unit>): string { if us == [] then "" else Text(us[0]) + TextOf(us[1..]) }

  function Chars(us: seq<Unit>): string { if us == [] then "" else [us[0].c] + Chars(us[1..]) }

  lemma {:induction false} HexMeans(c: char, n: nat)
    ensures HexValue(c) == Some(n) <==> IsHex(c, n)
  {
    if n < 10 {
      assert "0123456789ABCDEF"[n] as int == '0' as int + n && "0123456789abcdef"[n] as int == '0' as int + n;
    } else if n < 16 {
      assert "0123456789ABCDEF"[n] as int == 'A' as int + n - 10 && "0123456789abcdef"[n] as int == 'a' as int + n - 10;
    }
  }

  lemma {:induction false} TwoOctets(c: char, a: int, b: int)
    requires 0 <= b < 64 && c as int == a * 64 + b && 0x80 <= c as int && a < 32
    ensures Utf8(c) == [0xC0 + a, 0x80 + b]
  {
  }

  lemma {:induction false} ThreeOctets(c: char, a: int, b: int, d: int)
    requires 0 <= b < 64 && 0 <= d < 64 && c as int == a * 4096 + b * 64 + d && 0x800 <= c as int && a < 16
    ensures Utf8(c) == [0xE0 + a, 0x80 + b, 0x80 + d]
  {
    assert c as int / 64 == a * 64 + b;
  }

  lemma {:induction false} FourOctets(c: char, a: int, b: int, d: int, e: int)
    requires 0 <= b < 64 && 0 <= d < 64 && 0 <= e < 64 && 0x10000 <= c as int && a < 8
    requires c as int == a * 262144 + b * 4096 + d * 64 + e
    ensures Utf8(c) == [0xF0 + a, 0x80 + b, 0x80 + d, 0x80 + e]
  {
    assert c as int / 64 == a * 4096 + b * 64 + d;
    assert c as int / 4096 == a * 64 + b;
  }

  /** The octets that spell a character are its UTF-8 form, and no others. */
  lemma {:induction false} Utf8Exactly(bs: seq<byte>, c: char)
    ensures Character(bs) == Some(c) <==> bs == Utf8(c)
  {
    Utf8Spells(c);
    if Character(bs) == Some(c) {
      if |bs| == 1 {
        assert Point(bs) == bs[0] as int;
      } else if |bs| == 2 {
        TwoOctets(c, bs[0] - 0xC0, bs[1] - 0x80);
      } else if |bs| == 3 {
        ThreeOctets(c, bs[0] - 0xE0, bs[1] - 0x80, bs[2] - 0x80);
      } else {
        FourOctets(c, bs[0] - 0xF0, bs[1] - 0x80, bs[2] - 0x80, bs[3] - 0x80);
      }
    }
  }

  lemma {:induction false} OctetMeans(s: string, b: byte)
    ensures Octet(s) == Some(b) <==>
      |s| >= 3 && s[0] == '%' && IsHex(s[1], b / 16) && IsHex(s[2], b % 16)
  {
    if |s| >= 3 && s[0] == '%' {
      HexMeans(s[1], b / 16);
      HexMeans(s[2], b % 16);
      if HexValue(s[1]).Some? && HexValue(s[2]).Some? { HexPair(HexValue(s[1]).value, HexValue(s[2]).value, b); }
    }
  }

  lemma {:induction false} HexPair(x: nat, y: nat, b: byte)
    requires x < 16 && y < 16
    ensures 16 * x + y == b as int <==> x == b / 16 && y == b % 16
  {
  }

  lemma {:induction false} CodesLength(text: string, bs: seq<byte>)
    requires Codes(text, bs)
    ensures |text| == 3 * |bs|
  {
    if bs != [] { CodesLength(text[3..], bs[1..]); }
  }

  /** Escapes in a row are read as the octets that they code. */
  lemma {:induction false} CodesRun(text: string, bs: seq<byte>, rest: string)
    requires Codes(text, bs)
    ensures Run(text + rest, |bs|) == Some(bs) && (text + rest)[|text|..] == rest
  {
    if bs != [] {
      var s := text + rest;
      OctetMeans(s, bs[0]);
      assert s[3..] == text[3..] + rest;
      CodesRun(text[3..], bs[1..], rest);
      assert [bs[0]] + bs[1..] == bs;
    }
  }

  lemma {:induction false} RunCodes(s: string, n: nat)
    requires Run(s, n).Some?
    ensures |Run(s, n).value| == n && 3 * n <= |s| && Codes(s[..3 * n], Run(s, n).value)
  {
    RunLength(s, n);
    if n > 0 {
      OctetMeans(s, Octet(s).value);
      RunCodes(s[3..], n - 1);
      assert s[..3 * n][3..] == s[3..][..3 * (n - 1)];
    }
  }

  lemma {:induction false} UnitDecodes(u: Unit, rest: string)
    requires Fits(u)
    ensures DecodeComponent(Text(u) + rest) == Then(u.c, DecodeComponent(rest))
  {
    var s := Text(u) + rest;
    if u.Raw? {
      assert s[1..] == rest;
    } else {
      var bs := Utf8(u.c);
      Utf8Exactly(bs, u.c);
      Utf8Spells(u.c);
      CodesRun(u.text, bs, rest);
      CodesLength(u.text, bs);
      assert s[0] == '%' && s[1] == u.text[1] && s[2] == u.text[2];
      OctetMeans(s, bs[0]);
    }
  }

  lemma {:induction false} UnitsDecode(us: seq<Unit>)
    requires AllFit(us)
    ensures DecodeComponent(TextOf(us)) == Some(Chars(us))
  {
    if us != [] {
      assert Fits(us[0]) && forall k :: 0 <= k < |us[1..]| ==> us[1..][k] == us[k + 1];
      UnitsDecode(us[1..]);
      UnitDecodes(us[0], TextOf(us[1..]));
    }
  }

  lemma {:induction false} FirstUnit(s: string) returns (u: Unit)
    requires s != "" && DecodeComponent(s).Some?
    ensures Fits(u) && Text(u) != "" && Text(u) <= s
    ensures DecodeComponent(s) == Then(u.c, DecodeComponent(s[|Text(u)|..]))
  {
    if s[0] != '%' {
      u := Raw(s[0]);
    } else {
      var n := Octets(Octet(s).value);
      RunCodes(s, n);
      var bs := Run(s, n).value;
      var c := Character(bs).value;
      Utf8Exactly(bs, c);
      u := Coded(c, s[..3 * n]);
    }
  }

  lemma {:induction false} DecodedUnits(s: string) returns (us: seq<Unit>)
    requires DecodeComponent(s).Some?
    ensures AllFit(us) && TextOf(us) == s && Some(Chars(us)) == DecodeComponent(s)
    decreases |s|
  {
    if s == "" {
      us := [];
    } else {
      var u := FirstUnit(s);
      var after := s[|Text(u)|..];
      assert s == Text(u) + after;
      var rest := DecodedUnits(after);
      us := [u] + rest;
      UnitsCons(u, rest);
    }
  }

  lemma {:induction false} UnitsCons(u: Unit, rest: seq<Unit>)
    ensures var us := [u] + rest;
      && TextOf(us) == Text(u) + TextOf(rest) && Chars(us) == [u.c] + Chars(rest)
      && (Fits(u) && AllFit(rest) ==> AllFit(us))
  {
    assert ([u] + rest)[1..] == rest;
  }

  /** Decoding gives a text exactly when units spell the one and stand for the other. */
  lemma {:induction false} DecodesExactly(s: string, t: string)
    ensures DecodeComponent(s) == Some(t) <==> exists us :: AllFit(us) && TextOf(us) == s && Chars(us) == t
  {
    if DecodeComponent(s) == Some(t) { var us := DecodedUnits(s); }
    if us :| AllFit(us) && TextOf(us) == s && Chars(us) == t { UnitsDecode(us); }
  }

  /** What a path segment writes as it is. */
  predicate Literal(c: char) {
    'a' <= c <= 'z' || 'A' <= c <= 'Z' || '0' <= c <= '9'
    || c == '-' || c == '_' || c == '.' || c == '~' || c == '$' || c == '&' || c == '+' || c == ':' || c == '='
      || c == '@'
  }

  /** Octets with upper-case digits. */
  function Upper(bs: seq<byte>): string {
    if bs == [] then "" else ['%', "0123456789ABCDEF"[bs[0] / 16], "0123456789ABCDEF"[bs[0] % 16]] + Upper(bs[1..])
  }

  function Segment(s: string): string {
    if s == "" then "" else (if Literal(s[0]) then [s[0]] else Upper(Utf8(s[0]))) + Segment(s[1..])
  }

  lemma {:induction false} UpperEscapes(bs: seq<byte>)
    requires forall k :: 0 <= k < |bs| ==> bs[k] >= 0x80
    ensures EscapeBytes(bs) == Upper(bs)
  {
    if bs != [] { UpperEscapes(bs[1..]); }
  }

  lemma {:induction false} CharacterEscapes(c: char)
    ensures EscapeBytes(Utf8(c)) == if Literal(c) then [c] else Upper(Utf8(c))
  {
    if c as int < 0x80 {
      var bs := Utf8(c);
      assert bs == [c as int] && EscapeBytes(bs[1..]) == "" && Upper(bs[1..]) == "";
    } else {
      UpperEscapes(Utf8(c));
    }
  }

  /** Escaping writes each character of a path segment as it is, and the octets of every other one. */
  lemma {:induction false} EscapesExactly(s: string)
    ensures PathEscape(s) == Segment(s)
  {
    if s != "" {
      CharacterEscapes(s[0]);
      EscapesExactly(s[1..]);
    }
  }
}
