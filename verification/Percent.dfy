/** UTF-8 and percent-encoding: Go's path escaping and JavaScript's decodeURIComponent. */
module Percent {
  import opened Common

  type byte = b: int | 0 <= b < 256

  // ---- UTF-8 ----

  /** The UTF-8 form of a character. */
  function Utf8(c: char): seq<byte> {
    var n := c as int;
    if n < 0x80 then [n]
    else if n < 0x800 then [0xC0 + n / 64, 0x80 + n % 64]
    else if n < 0x10000 then [0xE0 + n / 4096, 0x80 + n / 64 % 64, 0x80 + n % 64]
    else [0xF0 + n / 262144, 0x80 + n / 4096 % 64, 0x80 + n / 64 % 64, 0x80 + n % 64]
  }

  /** How many octets a leading octet announces; 0 for octets that cannot lead. */
  function Octets(b: byte): nat {
    if b < 0x80 then 1
    else if 0xC0 <= b < 0xE0 then 2
    else if 0xE0 <= b < 0xF0 then 3
    else if 0xF0 <= b < 0xF8 then 4
    else 0
  }

  predicate IsContinuation(b: byte) { 0x80 <= b < 0xC0 }

  /** The number that octets carry. */
  function Point(bs: seq<byte>): int {
    if |bs| == 1 then bs[0]
    else if |bs| == 2 then (bs[0] as int - 0xC0) * 64 + (bs[1] as int - 0x80)
    else if |bs| == 3 then (bs[0] as int - 0xE0) * 4096 + (bs[1] as int - 0x80) * 64 + (bs[2] as int - 0x80)
    else if |bs| == 4 then
      (bs[0] as int - 0xF0) * 262144 + (bs[1] as int - 0x80) * 4096 + (bs[2] as int - 0x80) * 64 + (bs[3] as int - 0x80)
    else 0
  }

  /** The least number that needs so many octets. */
  function Least(octets: nat): int {
    if octets == 1 then 0 else if octets == 2 then 0x80 else if octets == 3 then 0x800 else 0x10000
  }

  predicate Continued(bs: seq<byte>) {
    forall k :: 0 < k < |bs| ==> IsContinuation(bs[k])
  }

  /** The character that octets spell, if they are its shortest UTF-8 form. */
  function Character(bs: seq<byte>): Option<char> {
    if bs == [] || |bs| != Octets(bs[0]) || !Continued(bs) then None
    else
      var n := Point(bs);
      if n < Least(|bs|) || n < 0 || 0xD800 <= n < 0xE000 || 0x10FFFF < n then None else Some(n as char)
  }

  lemma {:induction false} ThreeDigits(n: nat)
    ensures n == n / 4096 * 4096 + n / 64 % 64 * 64 + n % 64
  {
    assert n / 64 / 64 == n / 4096;
  }

  lemma {:induction false} FourDigits(n: nat)
    ensures n == n / 262144 * 262144 + n / 4096 % 64 * 4096 + n / 64 % 64 * 64 + n % 64
  {
    ThreeDigits(n);
    assert n / 4096 / 64 == n / 262144;
  }

  lemma {:induction false} Utf8Points(c: char)
    ensures Point(Utf8(c)) == c as int && Least(|Utf8(c)|) <= c as int
  {
    if 0x800 <= c as int < 0x10000 {
      ThreeDigits(c as int);
    } else if 0x10000 <= c as int {
      FourDigits(c as int);
    }
  }

  lemma {:induction false} Utf8Shape(c: char)
    ensures Utf8(c) != [] && |Utf8(c)| == Octets(Utf8(c)[0]) && Continued(Utf8(c))
  {
  }

  /** Every character's octets spell it. */
  lemma {:induction false} Utf8Spells(c: char)
    ensures Utf8(c) != [] && |Utf8(c)| == Octets(Utf8(c)[0]) && Character(Utf8(c)) == Some(c)
  {
    Utf8Points(c);
    Utf8Shape(c);
  }

  // ---- escaping ----

  function HexDigit(n: nat): char
    requires n < 16
  {
    "0123456789ABCDEF"[n]
  }

  function HexValue(c: char): (v: Option<nat>)
    ensures v.Some? ==> v.value < 16
  {
    if '0' <= c <= '9' then Some(c as int - '0' as int)
    else if 'A' <= c <= 'F' then Some(c as int - 'A' as int + 10)
    else if 'a' <= c <= 'f' then Some(c as int - 'a' as int + 10)
    else None
  }

  predicate IsAlphanumeric(c: char) {
    '0' <= c <= '9' || 'A' <= c <= 'Z' || 'a' <= c <= 'z'
  }

  /** What stays as it is in a path segment. */
  predicate Unescaped(c: char) {
    IsAlphanumeric(c) || c in "-_.~$&+:=@"
  }

  function EscapeByte(b: byte): string {
    if b < 0x80 && Unescaped(b as char) then [b as char] else ['%', HexDigit(b / 16), HexDigit(b % 16)]
  }

  function EscapeBytes(bs: seq<byte>): string {
    if bs == [] then "" else EscapeByte(bs[0]) + EscapeBytes(bs[1..])
  }

  /** url.PathEscape of a text. */
  function PathEscape(s: string): string {
    if s == "" then "" else EscapeBytes(Utf8(s[0])) + PathEscape(s[1..])
  }

  // ---- decoding ----

  /** The octet of an escape at the beginning of a text. */
  function Octet(s: string): Option<byte> {
    if |s| < 3 || s[0] != '%' then None
    else if HexValue(s[1]).None? || HexValue(s[2]).None? then None
    else Some(16 * HexValue(s[1]).value + HexValue(s[2]).value)
  }

  /** The octets of `n` escapes in a row. */
  function Run(s: string, n: nat): Option<seq<byte>> {
    if n == 0 then Some([])
    else
      match Octet(s)
      case None => None
      case Some(b) =>
        match Run(s[3..], n - 1)
        case None => None
        case Some(bs) => Some([b] + bs)
  }

  lemma {:induction false} RunLength(s: string, n: nat)
    ensures Run(s, n).Some? ==> |Run(s, n).value| == n && 3 * n <= |s|
  {
    if n > 0 && Octet(s).Some? { RunLength(s[3..], n - 1); }
  }

  /** decodeURIComponent; None where it throws. */
  function DecodeComponent(s: string): Option<string>
    decreases |s|
  {
    if s == "" then Some("")
    else if s[0] != '%' then Then(s[0], DecodeComponent(s[1..]))
    else
      match Octet(s)
      case None => None
      case Some(b) =>
        var n := Octets(b);
        RunLength(s, n);
        if n == 0 || Run(s, n).None? then None
        else
          match Character(Run(s, n).value)
          case None => None
          case Some(c) => Then(c, DecodeComponent(s[3 * n..]))
  }

  function Then(c: char, rest: Option<string>): Option<string> {
    if rest.Some? then Some([c] + rest.value) else None
  }

  // ---- the round trip ----

  lemma {:induction false} OctetOf(b: byte, rest: string)
    requires b >= 0x80 || !Unescaped(b as char)
    ensures var s := EscapeByte(b) + rest; s != "" && s[0] == '%' && Octet(s) == Some(b) && s[3..] == rest
  {
    HexReads(b / 16);
    HexReads(b % 16);
    var s := EscapeByte(b) + rest;
    assert s[0] == '%' && s[1] == HexDigit(b / 16) && s[2] == HexDigit(b % 16);
  }

  lemma {:induction false} HexReads(n: nat)
    requires n < 16
    ensures HexValue(HexDigit(n)) == Some(n)
  {
  }

  predicate AllEscaped(bs: seq<byte>) {
    forall k :: 0 <= k < |bs| ==> bs[k] >= 0x80 || !Unescaped(bs[k] as char)
  }

  lemma {:induction false} RunOf(bs: seq<byte>, rest: string)
    requires AllEscaped(bs)
    ensures Run(EscapeBytes(bs) + rest, |bs|) == Some(bs)
    ensures |EscapeBytes(bs)| == 3 * |bs|
  {
    if bs != [] {
      RunOf(bs[1..], rest);
      OctetOf(bs[0], EscapeBytes(bs[1..]) + rest);
      EscapeHead(bs, rest);
      assert bs == [bs[0]] + bs[1..];
    }
  }

  lemma {:induction false} LiteralDecodes(c: char, rest: string)
    requires c as int < 0x80 && Unescaped(c)
    ensures DecodeComponent(EscapeBytes(Utf8(c)) + rest) == Then(c, DecodeComponent(rest))
  {
    assert Utf8(c) == [c as int];
    assert EscapeBytes(Utf8(c)[1..]) == "";
    var s := EscapeBytes(Utf8(c)) + rest;
    assert s == [c] + rest;
    assert s[1..] == rest;
  }

  lemma {:induction false} EscapedDecodes(c: char, rest: string)
    requires !(c as int < 0x80 && Unescaped(c))
    ensures DecodeComponent(EscapeBytes(Utf8(c)) + rest) == Then(c, DecodeComponent(rest))
  {
    var bs := Utf8(c);
    assert AllEscaped(bs);
    Utf8Spells(c);
    RunOf(bs, rest);
    var s := EscapeBytes(bs) + rest;
    FirstOctet(bs, rest);
    assert s[3 * |bs|..] == rest;
  }

  lemma {:induction false} EscapeHead(bs: seq<byte>, rest: string)
    requires bs != []
    ensures EscapeBytes(bs) + rest == EscapeByte(bs[0]) + (EscapeBytes(bs[1..]) + rest)
  {
  }

  lemma {:induction false} FirstOctet(bs: seq<byte>, rest: string)
    requires bs != [] && AllEscaped(bs)
    ensures var s := EscapeBytes(bs) + rest; s != "" && s[0] == '%' && Octet(s) == Some(bs[0])
  {
    EscapeHead(bs, rest);
    OctetOf(bs[0], EscapeBytes(bs[1..]) + rest);
  }

  lemma {:induction false} CharacterDecodes(c: char, rest: string)
    ensures DecodeComponent(EscapeBytes(Utf8(c)) + rest) == Then(c, DecodeComponent(rest))
  {
    if c as int < 0x80 && Unescaped(c) {
      LiteralDecodes(c, rest);
    } else {
      EscapedDecodes(c, rest);
    }
  }

  /** Decoding an escaped text gives the text, for every text. */
  lemma {:induction false} EscapeDecodes(s: string)
    ensures DecodeComponent(PathEscape(s)) == Some(s)
  {
    if s != "" {
      var rest := PathEscape(s[1..]);
      EscapeDecodes(s[1..]);
      CharacterDecodes(s[0], rest);
      assert PathEscape(s) == EscapeBytes(Utf8(s[0])) + rest;
      assert s == [s[0]] + s[1..];
    }
  }

  /** Escaped texts consist of unescaped characters, percent signs and hexadecimal digits. */
  predicate SegmentChar(c: char) { Unescaped(c) || c == '%' }

  lemma {:induction false} EscapeBytesSafe(bs: seq<byte>)
    ensures forall c :: c in EscapeBytes(bs) ==> SegmentChar(c)
  {
    if bs != [] { EscapeBytesSafe(bs[1..]); }
  }

  lemma {:induction false} PathEscapeSafe(s: string)
    ensures forall c :: c in PathEscape(s) ==> SegmentChar(c)
    ensures s != "" ==> PathEscape(s) != ""
  {
    if s != "" {
      PathEscapeSafe(s[1..]);
      EscapeBytesSafe(Utf8(s[0]));
    }
  }
}
