/**
 * Access tokens are UUIDs: 32 hexadecimal digits. The server hands them out
 * in the hyphenated lower-case form (8-4-4-4-12) and reads back that form,
 * the 32-digit simple form or the `urn:uuid:` URN form.
 */
module Uuid {
  import opened Wrappers

  type HexDigit = x: nat | x < 16

  type Uuid = d: seq<HexDigit> | |d| == 32 witness seq(32, _ => 0)

  predicate IsHexChar(c: char) {
    ('0' <= c <= '9') || ('a' <= c <= 'f') || ('A' <= c <= 'F')
  }

  function HexValue(c: char): HexDigit
    requires IsHexChar(c)
  {
    if '0' <= c <= '9' then (c as int - '0' as int)
    else if 'a' <= c <= 'f' then (c as int - 'a' as int + 10)
    else (c as int - 'A' as int + 10)
  }

  /** The lower-case digit for a value, which HexValue reads back. */
  function HexChar(d: HexDigit): (c: char)
    ensures IsHexChar(c) && HexValue(c) == d
  {
    if d < 10 then ('0' as int + d) as char else ('a' as int + d - 10) as char
  }

  function HexText(ds: seq<HexDigit>): (s: string)
    ensures |s| == |ds| && forall i :: 0 <= i < |s| ==> IsHexChar(s[i]) && HexValue(s[i]) == ds[i]
  {
    seq(|ds|, i requires 0 <= i < |ds| => HexChar(ds[i]))
  }

  function HexDigits(s: string): (ds: seq<HexDigit>)
    requires forall i :: 0 <= i < |s| ==> IsHexChar(s[i])
    ensures |ds| == |s|
  {
    seq(|s|, i requires 0 <= i < |s| => HexValue(s[i]))
  }

  /** The hyphenated form, `Uuid::to_hyphenated`: 36 characters. */
  function Hyphenated(u: Uuid): (s: string)
    ensures |s| == 36
    ensures s[8] == '-' && s[13] == '-' && s[18] == '-' && s[23] == '-'
    ensures forall i :: 0 <= i < |s| ==> IsHexChar(s[i]) || s[i] == '-'
  {
    HexText(u[..8]) + "-" + HexText(u[8..12]) + "-" + HexText(u[12..16]) + "-"
      + HexText(u[16..20]) + "-" + HexText(u[20..])
  }

  predicate AllHex(s: string) {
    forall i :: 0 <= i < |s| ==> IsHexChar(s[i])
  }

  /** The hyphenated form with its four hyphens taken out. */
  function Unhyphenate(s: string): string
    requires |s| == 36
  {
    s[..8] + s[9..13] + s[14..18] + s[19..23] + s[24..]
  }

  /** The hyphenated form: hyphens exactly at 8, 13, 18 and 23, hexadecimal digits elsewhere. */
  function FromHyphenated(s: string): (r: Option<Uuid>)
    requires |s| == 36
  {
    if s[8] == '-' && s[13] == '-' && s[18] == '-' && s[23] == '-' && AllHex(Unhyphenate(s)) then
      Some(HexDigits(Unhyphenate(s)))
    else None
  }

  /**
   * Parsing a UUID: the simple form of 32 digits, the hyphenated form of 36
   * characters, or the URN form, `urn:uuid:` before a hyphenated form.
   */
  function Parse(s: string): (r: Option<Uuid>)
    ensures r.Some? ==> |s| == 32 || |s| == 36 || |s| == 45
    ensures |s| == 32 ==> (r.Some? <==> AllHex(s)) && (AllHex(s) ==> r == Some(HexDigits(s)))
    ensures |s| == 36 ==> r == FromHyphenated(s)
    ensures |s| == 45 ==> r == (if s[..9] == "urn:uuid:" then FromHyphenated(s[9..]) else None)
  {
    if |s| == 32 && AllHex(s) then Some(HexDigits(s))
    else if |s| == 36 then FromHyphenated(s)
    else if |s| == 45 && s[..9] == "urn:uuid:" then FromHyphenated(s[9..])
    else None
  }

  /** Reading back the token the server hands out gives the same token. */
  lemma ParseHyphenated(u: Uuid)
    ensures Parse(Hyphenated(u)) == Some(u)
  {
    FromHyphenatedText(u);
  }

  lemma FromHyphenatedText(u: Uuid)
    ensures FromHyphenated(Hyphenated(u)) == Some(u)
  {
    var s := Hyphenated(u);
    var t := Unhyphenate(s);
    assert s[..8] == HexText(u[..8]);
    assert s[9..13] == HexText(u[8..12]);
    assert s[14..18] == HexText(u[12..16]);
    assert s[19..23] == HexText(u[16..20]);
    assert s[24..] == HexText(u[20..]);
    assert t == HexText(u);
    assert HexDigits(t) == u;
  }

  /** The URN form of a token reads back as the same token. */
  lemma ParseUrn(u: Uuid)
    ensures Parse("urn:uuid:" + Hyphenated(u)) == Some(u)
  {
    var s := "urn:uuid:" + Hyphenated(u);
    assert s[..9] == "urn:uuid:" && s[9..] == Hyphenated(u);
    FromHyphenatedText(u);
  }

  /** The hyphenated form determines the token. */
  lemma HyphenatedInjective(u: Uuid, v: Uuid)
    requires Hyphenated(u) == Hyphenated(v)
    ensures u == v
  {
    ParseHyphenated(u);
    ParseHyphenated(v);
  }
}
