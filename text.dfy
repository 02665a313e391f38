/**
 * String helpers the client relies on: decimal rendering of integers (as `format!("{}", n)`),
 * `bool::from_str`, and the splitting a server applies to a URI (at the first `?`, then at `&`).
 */
module Text {
  import opened Wrappers

  predicate IsDigit(c: char) {
    '0' <= c <= '9'
  }

  function DigitChar(d: nat): (c: char)
    requires d < 10
    ensures IsDigit(c) && (c as int) - ('0' as int) == d
  {
    "0123456789"[d]
  }

  /** Decimal rendering of a natural number, without sign or leading zeros. */
  function NatToString(n: nat): (s: string)
    ensures |s| > 0
    ensures forall i :: 0 <= i < |s| ==> IsDigit(s[i])
    ensures n < 10 <==> |s| == 1
  {
    if n < 10 then [DigitChar(n)] else NatToString(n / 10) + [DigitChar(n % 10)]
  }

  /** Value of a non-empty string of decimal digits; `None` for anything else. */
  function ParseDecimal(s: string): Option<nat>
  {
    if s == [] || exists i :: 0 <= i < |s| && !IsDigit(s[i]) then None
    else Some(DigitsValue(s))
  }

  function DigitsValue(s: string): nat
    requires forall i :: 0 <= i < |s| ==> IsDigit(s[i])
  {
    if s == [] then 0
    else DigitsValue(s[..|s| - 1]) * 10 + DigitValue(s[|s| - 1])
  }

  function DigitValue(c: char): (d: nat)
    requires IsDigit(c)
    ensures d < 10
  {
    (c as int) - ('0' as int)
  }

  /** Reading back the decimal rendering of `n` gives `n`. */
  lemma {:induction false} ParseNatToString(n: nat)
    ensures ParseDecimal(NatToString(n)) == Some(n)
  {
    var s := NatToString(n);
    if n < 10 {
      assert DigitsValue(s) == DigitsValue([]) * 10 + DigitValue(s[0]);
    } else {
      ParseNatToString(n / 10);
      assert s[..|s| - 1] == NatToString(n / 10);
      assert DigitValue(s[|s| - 1]) == n % 10;
    }
  }

  /** Rust's `bool::from_str`: exactly `"true"` or `"false"`. */
  function ParseBool(s: string): (r: Option<bool>)
    ensures r.Some? ==> s == (if r.value then "true" else "false")
    ensures s == "true" || s == "false" ==> r.Some?
  {
    if s == "true" then Some(true) else if s == "false" then Some(false) else None
  }

  /** Splits `s` at every occurrence of `sep`, as `str::split` does. */
  function SplitOn(s: string, sep: char): (pieces: seq<string>)
    ensures |pieces| > 0
  {
    if s == [] then [""]
    else
      var rest := SplitOn(s[1..], sep);
      if s[0] == sep then [""] + rest else [[s[0]] + rest[0]] + rest[1..]
  }

  lemma {:induction false} SplitOnNoSep(a: string, sep: char)
    requires sep !in a
    ensures SplitOn(a, sep) == [a]
  {
    if a != [] {
      assert sep !in a[1..] by {
        forall i | 0 <= i < |a[1..]| ensures a[1..][i] != sep { assert a[1..][i] == a[i + 1]; }
      }
      SplitOnNoSep(a[1..], sep);
      assert [a[0]] + a[1..] == a;
    }
  }

  lemma {:induction false} SplitOnAt(a: string, sep: char, b: string)
    requires sep !in a
    ensures SplitOn(a + [sep] + b, sep) == [a] + SplitOn(b, sep)
  {
    if a == [] {
      assert a + [sep] + b == [sep] + b;
      assert ([sep] + b)[1..] == b;
    } else {
      assert sep !in a[1..] by {
        forall i | 0 <= i < |a[1..]| ensures a[1..][i] != sep { assert a[1..][i] == a[i + 1]; }
      }
      SplitOnAt(a[1..], sep, b);
      assert (a + [sep] + b)[1..] == a[1..] + [sep] + b;
      assert [a[0]] + a[1..] == a;
    }
  }

  /** Splits a URI at its first `?` into the part before it and the query after it, if any. */
  function SplitQuery(uri: string): (parts: (string, Option<string>))
    ensures '?' !in parts.0
  {
    if uri == [] then ("", None)
    else if uri[0] == '?' then ("", Some(uri[1..]))
    else
      var rest := SplitQuery(uri[1..]);
      ([uri[0]] + rest.0, rest.1)
  }

  lemma {:induction false} SplitQueryNone(a: string)
    requires '?' !in a
    ensures SplitQuery(a) == (a, None)
  {
    if a != [] {
      assert '?' !in a[1..] by {
        forall i | 0 <= i < |a[1..]| ensures a[1..][i] != '?' { assert a[1..][i] == a[i + 1]; }
      }
      SplitQueryNone(a[1..]);
      assert [a[0]] + a[1..] == a;
    }
  }

  lemma {:induction false} SplitQueryAt(a: string, b: string)
    requires '?' !in a
    ensures SplitQuery(a + "?" + b) == (a, Some(b))
  {
    if a == [] {
      assert a + "?" + b == "?" + b;
      assert ("?" + b)[1..] == b;
    } else {
      assert '?' !in a[1..] by {
        forall i | 0 <= i < |a[1..]| ensures a[1..][i] != '?' { assert a[1..][i] == a[i + 1]; }
      }
      SplitQueryAt(a[1..], b);
      assert (a + "?" + b)[1..] == a[1..] + "?" + b;
      assert [a[0]] + a[1..] == a;
    }
  }
}
