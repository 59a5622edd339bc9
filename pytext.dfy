/**
 * The text handling `config.load` relies on: `str.upper()` on setting names and
 * `int(value)` on setting values, restricted to ASCII text.
 */
module PyText {
  import opened Wrappers

  predicate IsDigit(c: char) { '0' <= c <= '9' }

  /** The characters `int()` skips around the digits: tab, line feed, vertical tab, form feed, carriage return and space. */
  predicate IsSpace(c: char) { 9 <= c as int <= 13 || c == ' ' }

  function UpperChar(c: char): char
  {
    if 'a' <= c <= 'z' then (c as int - 32) as char else c
  }

  /** `str.upper()` on ASCII: lower-case letters become upper-case, nothing else changes. */
  function Upper(s: string): (r: string)
    ensures |r| == |s|
    ensures forall i :: 0 <= i < |s| ==> !('a' <= r[i] <= 'z')
    ensures forall i :: 0 <= i < |s| && 'a' <= s[i] <= 'z' ==> r[i] == (s[i] as int - 32) as char
    ensures forall i :: 0 <= i < |s| && !('a' <= s[i] <= 'z') ==> r[i] == s[i]
  {
    seq(|s|, i requires 0 <= i < |s| => UpperChar(s[i]))
  }

  /** Upper-casing twice is upper-casing once. */
  lemma UpperIdempotent(s: string)
    ensures Upper(Upper(s)) == Upper(s)
  {
  }

  function TrimStart(s: string): (r: string)
    ensures |r| <= |s| && r == s[|s| - |r|..]
    ensures forall i :: 0 <= i < |s| - |r| ==> IsSpace(s[i])
    ensures |r| > 0 ==> !IsSpace(r[0])
  {
    if |s| > 0 && IsSpace(s[0]) then TrimStart(s[1..]) else s
  }

  function TrimEnd(s: string): (r: string)
    ensures |r| <= |s| && r == s[..|r|]
    ensures forall i :: |r| <= i < |s| ==> IsSpace(s[i])
    ensures |r| > 0 ==> !IsSpace(r[|r| - 1])
  {
    if |s| > 0 && IsSpace(s[|s| - 1]) then TrimEnd(s[..|s| - 1]) else s
  }

  /** The white space `int()` skips, removed from both ends. */
  function Strip(s: string): string
  {
    TrimEnd(TrimStart(s))
  }

  /**
   * The digit part of an integer literal as `int()` accepts it: digits, with
   * single underscores allowed between two digits.
   */
  predicate IsDigitGroup(s: string)
  {
    && |s| > 0
    && IsDigit(s[0]) && IsDigit(s[|s| - 1])
    && (forall i :: 0 <= i < |s| ==> IsDigit(s[i]) || s[i] == '_')
    && (forall i :: 0 <= i < |s| - 1 ==> s[i] == '_' ==> s[i + 1] != '_')
  }

  function DigitValue(c: char): nat
    requires IsDigit(c)
  {
    c as int - '0' as int
  }

  /** The number a group of digits denotes, underscores ignored. */
  function Value(s: string): nat
    requires forall i :: 0 <= i < |s| ==> IsDigit(s[i]) || s[i] == '_'
  {
    if s == [] then 0
    else if s[|s| - 1] == '_' then Value(s[..|s| - 1])
    else Value(s[..|s| - 1]) * 10 + DigitValue(s[|s| - 1])
  }

  /**
   * `int(s)` for a string: surrounding white space, an optional sign and a
   * digit group; `None` where Python raises `ValueError`.
   */
  function ParseInt(s: string): (r: Option<int>)
    ensures r.Some? ==> IntegerShaped(Strip(s))
    ensures r.Some? && r.value < 0 ==> Strip(s)[0] == '-'
  {
    ParseStripped(Strip(s))
  }

  /**
   * What every text `int()` accepts looks like once stripped: an optional sign,
   * then digits and underscores, ending in a digit, with every underscore
   * between two digits.
   */
  predicate IntegerShaped(t: string)
  {
    && |t| > 0
    && (IsDigit(t[0]) || t[0] == '-' || t[0] == '+')
    && IsDigit(t[|t| - 1])
    && (forall i :: 0 < i < |t| ==> IsDigit(t[i]) || t[i] == '_')
    && forall i :: 0 <= i < |t| && t[i] == '_' ==>
         0 < i < |t| - 1 && IsDigit(t[i - 1]) && IsDigit(t[i + 1])
  }

  /** `int()` once the white space around the text is gone. */
  function ParseStripped(t: string): (r: Option<int>)
    ensures r.Some? ==> IntegerShaped(t)
    ensures r.Some? && r.value < 0 ==> t[0] == '-'
  {
    if |t| > 0 && (t[0] == '-' || t[0] == '+') then
      if IsDigitGroup(t[1..]) then
        var v: int := Value(t[1..]);
        Some(if t[0] == '-' then -v else v)
      else None
    else if IsDigitGroup(t) then Some(Value(t))
    else None
  }

  function Digit(d: nat): (c: char)
    requires d < 10
    ensures IsDigit(c) && DigitValue(c) == d
  {
    ('0' as int + d) as char
  }

  /** Decimal notation of a natural number, without leading zeros. */
  function ShowNat(n: nat): (s: string)
    ensures |s| > 0
    ensures forall i :: 0 <= i < |s| ==> IsDigit(s[i])
  {
    if n < 10 then [Digit(n)] else ShowNat(n / 10) + [Digit(n % 10)]
  }

  /** `str(n)` for an integer. */
  function Show(n: int): string
  {
    if n < 0 then "-" + ShowNat(-n) else ShowNat(n)
  }

  lemma {:induction false} ValueShowNat(n: nat)
    ensures Value(ShowNat(n)) == n
  {
    if n >= 10 {
      var p := ShowNat(n / 10);
      var s := p + [Digit(n % 10)];
      assert s[..|s| - 1] == p;
      ValueShowNat(n / 10);
    }
  }

  /** Text that neither starts nor ends with white space is left as it is by `Strip`. */
  lemma StripUnchanged(s: string)
    requires |s| > 0 && !IsSpace(s[0]) && !IsSpace(s[|s| - 1])
    ensures Strip(s) == s
  {
    assert TrimStart(s) == s;
  }

  lemma ParseSameStripped(s: string, t: string)
    requires Strip(s) == Strip(t)
    ensures ParseInt(s) == ParseInt(t)
  {
  }

  /** A digit group is read as the number it denotes. */
  lemma ParseDigits(t: string)
    requires IsDigitGroup(t)
    ensures ParseInt(t) == Some(Value(t))
  {
    StripUnchanged(t);
  }

  /** A sign before a digit group is honoured, as in `int("-7")` and `int("+7")`. */
  lemma ParseSignedDigits(sign: char, t: string)
    requires sign == '-' || sign == '+'
    requires IsDigitGroup(t)
    ensures ParseInt([sign] + t) == Some(if sign == '-' then -(Value(t) as int) else Value(t))
  {
    var s := [sign] + t;
    assert Strip(s) == s by {
      assert s[0] == sign && s[|s| - 1] == t[|t| - 1];
      StripUnchanged(s);
    }
    SignedStripped(sign, t);
  }

  /** The signed case of `int()` on text already stripped. */
  lemma SignedStripped(sign: char, t: string)
    requires sign == '-' || sign == '+'
    requires IsDigitGroup(t)
    ensures ParseStripped([sign] + t) == Some(if sign == '-' then -(Value(t) as int) else Value(t))
  {
    var s := [sign] + t;
    assert s[0] == sign && s[1..] == t;
  }

  /** Leading white space before text that does not start with it is all `Strip` removes at the front. */
  lemma {:induction false} TrimStartPrefix(a: string, u: string)
    requires forall i :: 0 <= i < |a| ==> IsSpace(a[i])
    requires |u| > 0 && !IsSpace(u[0])
    ensures TrimStart(a + u) == u
  {
    if a != [] {
      assert (a + u)[1..] == a[1..] + u;
      TrimStartPrefix(a[1..], u);
    } else {
      assert a + u == u;
    }
  }

  /** Trailing white space after text that does not end with it is all `Strip` removes at the back. */
  lemma {:induction false} TrimEndSuffix(u: string, b: string)
    requires forall i :: 0 <= i < |b| ==> IsSpace(b[i])
    requires |u| > 0 && !IsSpace(u[|u| - 1])
    ensures TrimEnd(u + b) == u
  {
    if b != [] {
      assert (u + b)[..|u + b| - 1] == u + b[..|b| - 1];
      TrimEndSuffix(u, b[..|b| - 1]);
    } else {
      assert u + b == u;
    }
  }

  /** `Strip` removes the white space around text that has none at its ends, and nothing else. */
  lemma StripPadded(a: string, t: string, b: string)
    requires forall i :: 0 <= i < |a| ==> IsSpace(a[i])
    requires forall i :: 0 <= i < |b| ==> IsSpace(b[i])
    requires |t| > 0 && !IsSpace(t[0]) && !IsSpace(t[|t| - 1])
    ensures Strip(a + t + b) == t
  {
    assert a + t + b == a + (t + b);
    TrimStartPrefix(a, t + b);
    TrimEndSuffix(t, b);
  }

  /** White space around a digit group, any amount on either side, does not change the number read. */
  lemma ParsePadded(a: string, t: string, b: string)
    requires forall i :: 0 <= i < |a| ==> IsSpace(a[i])
    requires forall i :: 0 <= i < |b| ==> IsSpace(b[i])
    requires IsDigitGroup(t)
    ensures ParseInt(a + t + b) == Some(Value(t))
  {
    StripPadded(a, t, b);
    StripUnchanged(t);
    ParseSameStripped(a + t + b, t);
    ParseDigits(t);
  }

  /** A sign before a digit group, with white space around both, is read as in `int("  -5 ")`. */
  lemma ParseSignedPadded(a: string, sign: char, t: string, b: string)
    requires forall i :: 0 <= i < |a| ==> IsSpace(a[i])
    requires forall i :: 0 <= i < |b| ==> IsSpace(b[i])
    requires sign == '-' || sign == '+'
    requires IsDigitGroup(t)
    ensures ParseInt(a + ([sign] + t) + b) == Some(if sign == '-' then -(Value(t) as int) else Value(t))
  {
    var u := [sign] + t;
    assert u[0] == sign && u[|u| - 1] == t[|t| - 1];
    StripPadded(a, u, b);
    StripUnchanged(u);
    ParseSameStripped(a + u + b, u);
    ParseSignedDigits(sign, t);
  }

  /** `int(str(n)) == n`: the parser reads back every integer in the decimal form `Show` prints. */
  lemma ParseShow(n: int)
    ensures ParseInt(Show(n)) == Some(n)
  {
    var d := ShowNat(if n < 0 then -n else n);
    assert IsDigitGroup(d);
    ValueShowNat(if n < 0 then -n else n);
    if n < 0 {
      assert Show(n) == ['-'] + d;
      ParseSignedDigits('-', d);
    } else {
      ParseDigits(d);
    }
  }

  /** Underscores between digits are accepted, as in `int("1_000")`. */
  lemma ParseUnderscore()
    ensures ParseInt("1_000") == Some(1000)
  {
    assert IsDigitGroup("1_000") by { }
    assert Value("1_000") == 1000 by {
      assert "1_000"[..4] == "1_00" && "1_00"[..3] == "1_0";
      assert "1_0"[..2] == "1_" && "1_"[..1] == "1" && "1"[..0] == "";
    }
    ParseDigits("1_000");
  }

  /**
   * A value holding a character that is neither white space, a digit, an
   * underscore nor a sign is not an integer: `"4.5"`, `"0x10"`, `"on"`.
   */
  lemma ParseRejectsForeign(s: string, i: nat)
    requires i < |s|
    requires !IsSpace(s[i]) && !IsDigit(s[i]) && s[i] !in "_+-"
    ensures ParseInt(s) == None
  {
    assert s[i] != '_' && s[i] != '+' && s[i] != '-';
    var u := TrimStart(s);
    var k := |s| - |u|;
    assert k <= i;
    var t := TrimEnd(u);
    var j := i - k;
    assert j < |t| && t[j] == s[i];
    if t[0] == '-' || t[0] == '+' {
      assert 1 <= j && t[1..][j - 1] == s[i];
      assert !IsDigitGroup(t[1..]);
    } else {
      assert !IsDigitGroup(t);
    }
    assert ParseStripped(t) == None;
  }

  /** A value that is empty or all white space is not an integer. */
  lemma ParseRejectsBlank(s: string)
    requires forall i :: 0 <= i < |s| ==> IsSpace(s[i])
    ensures ParseInt(s) == None
  {
    assert TrimStart(s) == [];
  }
}
