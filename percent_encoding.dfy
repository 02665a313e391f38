/**
 * Percent-encoding of a path segment (section 2.1 of RFC 3986) as `utf8_percent_encode`
 * performs it: each character is written as its UTF-8 bytes, and a byte is replaced by
 * `%` and two upper-case hexadecimal digits when it is not ASCII or belongs to the encode set.
 */
module PercentEncoding {

  /**
   * `COMPLETE_ENCODE_SET`: the url crate's user-info set (C0 controls, DEL, space and
   * `"#<>`?{}/:;=@[\]^|`) together with `+`, `-` and `&`.
   */
  predicate InCompleteEncodeSet(c: char) {
    || (c as int) < 0x20 || (c as int) == 0x7F
    || c == ' ' || c == '"' || c == '#' || c == '<' || c == '>'
    || c == '`' || c == '?' || c == '{' || c == '}'
    || c == '/' || c == ':' || c == ';' || c == '=' || c == '@'
    || c == '[' || c == '\\' || c == ']' || c == '^' || c == '|'
    || c == '+' || c == '-' || c == '&'
  }

  /** Characters that are copied to the output unchanged. */
  predicate IsPlain(c: char) {
    (c as int) < 0x80 && !InCompleteEncodeSet(c)
  }

  predicate IsHexDigit(c: char) {
    ('0' <= c <= '9') || ('A' <= c <= 'F')
  }

  /** The UTF-8 encoding of one Unicode scalar value. */
  function Utf8(c: char): (bytes: seq<int>)
    ensures 1 <= |bytes| <= 4
    ensures forall i :: 0 <= i < |bytes| ==> 0 <= bytes[i] < 256
    ensures |bytes| == 1 <==> (c as int) < 0x80
  {
    var cp := c as int;
    if cp < 0x80 then [cp]
    else if cp < 0x800 then [0xC0 + cp / 0x40, 0x80 + cp % 0x40]
    else if cp < 0x1_0000 then [0xE0 + cp / 0x1000, 0x80 + (cp / 0x40) % 0x40, 0x80 + cp % 0x40]
    else [0xF0 + cp / 0x4_0000, 0x80 + (cp / 0x1000) % 0x40, 0x80 + (cp / 0x40) % 0x40, 0x80 + cp % 0x40]
  }

  function PercentByte(b: int): (s: string)
    requires 0 <= b < 256
    ensures |s| == 3 && s[0] == '%' && IsHexDigit(s[1]) && IsHexDigit(s[2])
  {
    ['%', "0123456789ABCDEF"[b / 16], "0123456789ABCDEF"[b % 16]]
  }

  function PercentBytes(bytes: seq<int>): (s: string)
    requires forall i :: 0 <= i < |bytes| ==> 0 <= bytes[i] < 256
    ensures |s| == 3 * |bytes|
    ensures forall i :: 0 <= i < |s| ==> s[i] == '%' || IsHexDigit(s[i])
  {
    if bytes == [] then [] else PercentByte(bytes[0]) + PercentBytes(bytes[1..])
  }

  function EncodeChar(c: char): (s: string)
    ensures IsPlain(c) ==> s == [c]
    ensures !IsPlain(c) ==> |s| >= 3 && forall i :: 0 <= i < |s| ==> s[i] == '%' || IsHexDigit(s[i])
  {
    if IsPlain(c) then [c] else PercentBytes(Utf8(c))
  }

  /** `utf8_percent_encode(s, COMPLETE_ENCODE_SET)`. */
  function Encode(s: string): string {
    if s == [] then [] else EncodeChar(s[0]) + Encode(s[1..])
  }

  /** Every output character is plain, `%` or an upper-case hexadecimal digit. */
  lemma {:induction false} EncodeAlphabet(s: string)
    ensures forall i :: 0 <= i < |Encode(s)| ==> IsPlain(Encode(s)[i]) || Encode(s)[i] == '%' || IsHexDigit(Encode(s)[i])
  {
    if s != [] {
      EncodeAlphabet(s[1..]);
    }
  }

  /** No character of the encode set survives encoding: in particular `/`, `?` and `&`. */
  lemma EncodeAvoidsSet(s: string, c: char)
    requires InCompleteEncodeSet(c)
    ensures c !in Encode(s)
  {
    EncodeAlphabet(s);
  }

  /** Encoding never shortens, and keeps the length exactly when every character is plain. */
  lemma {:induction false} EncodeLength(s: string)
    ensures |Encode(s)| >= |s|
    ensures |Encode(s)| == |s| <==> forall i :: 0 <= i < |s| ==> IsPlain(s[i])
  {
    if s != [] {
      EncodeLength(s[1..]);
      if IsPlain(s[0]) {
        assert forall i :: 0 < i < |s| ==> s[i] == s[1..][i - 1];
      }
    }
  }

  /** Encoding leaves a string unchanged exactly when it needs no escaping. */
  lemma {:induction false} EncodeIdentity(s: string)
    ensures Encode(s) == s <==> forall i :: 0 <= i < |s| ==> IsPlain(s[i])
  {
    EncodeLength(s);
    if forall i :: 0 <= i < |s| ==> IsPlain(s[i]) {
      if s != [] {
        assert forall i :: 0 <= i < |s[1..]| ==> IsPlain(s[1..][i]) by {
          forall i | 0 <= i < |s[1..]| ensures IsPlain(s[1..][i]) { assert s[1..][i] == s[i + 1]; }
        }
        EncodeIdentity(s[1..]);
        assert [s[0]] + s[1..] == s;
      }
    }
  }
}
