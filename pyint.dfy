/**
 * The two Python built-in conversions that `Downloader.get_artifact` applies to the
 * `Content-Length` header: `int(value)`, which turns the header text into the expected
 * size, and `float(size)`, which the progress computation needs before the chunk loop.
 *
 * Header values arrive as Latin-1 text, so the character classes below are the ones
 * `int()` uses within Latin-1.
 */
module PyInt {

  datatype Option<T> = None | Some(value: T)

  /** The characters `int()` skips before and after the numeral. */
  predicate IsSpace(c: char) {
    ('\t' <= c <= '\r') || c == ' ' || c == '\U{85}' || c == '\U{A0}'
  }

  predicate IsDigit(c: char) {
    '0' <= c <= '9'
  }

  predicate IsSign(c: char) {
    c == '+' || c == '-'
  }

  predicate AllSpaces(s: string) {
    forall i :: 0 <= i < |s| ==> IsSpace(s[i])
  }

  function DigitValue(c: char): (d: nat)
    requires IsDigit(c)
    ensures d < 10
  {
    (c as int) - ('0' as int)
  }

  function DigitChar(d: nat): (c: char)
    requires d < 10
    ensures IsDigit(c) && DigitValue(c) == d
  {
    (('0' as int) + d) as char
  }

  /** `s` without its leading whitespace. */
  function TrimStart(s: string): (t: string)
    ensures |t| <= |s| && t == s[|s| - |t|..]
    ensures forall i :: 0 <= i < |s| - |t| ==> IsSpace(s[i])
    ensures t == [] || !IsSpace(t[0])
  {
    if s != [] && IsSpace(s[0]) then TrimStart(s[1..]) else s
  }

  /** `s` without its trailing whitespace. */
  function TrimEnd(s: string): (t: string)
    ensures |t| <= |s| && t == s[..|t|]
    ensures forall i :: |t| <= i < |s| ==> IsSpace(s[i])
    ensures t == [] || !IsSpace(t[|t| - 1])
  {
    if s != [] && IsSpace(s[|s| - 1]) then TrimEnd(s[..|s| - 1]) else s
  }

  function Strip(s: string): string {
    TrimEnd(TrimStart(s))
  }

  /**
   * Decimal digits in which an underscore may stand only between two digits
   * (the grouping `int()` accepts since PEP 515): the run starts and ends with a
   * digit and no two underscores are adjacent. Leading zeros are allowed.
   */
  predicate IsGroupedDigits(t: string) {
    && t != []
    && DigitsOrUnderscores(t)
    && IsDigit(t[0])
    && IsDigit(t[|t| - 1])
    && forall i, j :: 0 <= i < |t| && 0 <= j < |t| && j == i + 1 ==> IsDigit(t[i]) || IsDigit(t[j])
  }

  predicate DigitsOrUnderscores(t: string) {
    forall i :: 0 <= i < |t| ==> IsDigit(t[i]) || t[i] == '_'
  }

  /** The number a run of digits and underscores denotes; underscores carry no value. */
  function Value(t: string): nat
    requires DigitsOrUnderscores(t)
  {
    if t == [] then 0
    else if t[|t| - 1] == '_' then Value(t[..|t| - 1])
    else 10 * Value(t[..|t| - 1]) + DigitValue(t[|t| - 1])
  }

  /** A numeral with its whitespace already stripped: an optional sign, then grouped digits. */
  function ParseNumeral(t: string): Option<int> {
    if t != [] && IsSign(t[0]) then
      var body := t[1..];
      if IsGroupedDigits(body) then Some(if t[0] == '-' then -(Value(body) as int) else Value(body)) else None
    else if IsGroupedDigits(t) then Some(Value(t))
    else None
  }

  /**
   * `int(s)` for a string `s` with base 10: surrounding whitespace, then an optional
   * sign, then grouped digits; anything else is a ValueError, here `None`.
   */
  function ParseInt(s: string): (r: Option<int>)
    ensures r.Some? ==> var t := Strip(s);
      && t != [] && (IsSign(t[0]) || IsDigit(t[0])) && IsDigit(t[|t| - 1])
      && (r.value < 0 ==> t[0] == '-')
  {
    ParseNumeral(Strip(s))
  }

  /** `str(n)` for a non-negative integer: decimal digits with no leading zero. */
  function ShowNat(n: nat): (s: string)
    ensures s != [] && forall i :: 0 <= i < |s| ==> IsDigit(s[i])
    ensures |s| > 1 ==> s[0] != '0'
  {
    if n < 10 then [DigitChar(n)] else ShowNat(n / 10) + [DigitChar(n % 10)]
  }

  /** `str(n)`: how a server renders a size in the Content-Length header. */
  function Show(n: int): string {
    if n < 0 then "-" + ShowNat(-n) else ShowNat(n)
  }

  /**
   * 2^1024 - 2^970: the least magnitude that rounds past the largest finite double,
   * so `float(n)` raises OverflowError exactly when |n| reaches it.
   */
  const FloatOverflowBound: int := 0xfffffffffffffc00000000000000000000000000000000000000000000000000000000000000000000000000000000000000000000000000000000000000000000000000000000000000000000000000000000000000000000000000000000000000000000000000000000000000000000000000000000000000000000000000

  /** 2^1024 - 2^971: the largest finite double. */
  const MaxDouble: int := 0xfffffffffffff800000000000000000000000000000000000000000000000000000000000000000000000000000000000000000000000000000000000000000000000000000000000000000000000000000000000000000000000000000000000000000000000000000000000000000000000000000000000000000000000000

  /** `float(n)` succeeds: every integer up to the largest finite double in magnitude converts. */
  predicate FloatConvertible(n: int): (b: bool)
    ensures -MaxDouble <= n <= MaxDouble ==> b
  {
    -FloatOverflowBound < n < FloatOverflowBound
  }

  lemma {:induction false} ValueOfShowNat(n: nat)
    ensures IsGroupedDigits(ShowNat(n))
    ensures Value(ShowNat(n)) == n
  {
    var s := ShowNat(n);
    if n >= 10 {
      ValueOfShowNat(n / 10);
      assert s[..|s| - 1] == ShowNat(n / 10);
    }
  }

  /** `int(str(n)) == n`: the header a server writes for size n parses back to n. */
  lemma {:induction false} ParseShow(n: int)
    ensures ParseInt(Show(n)) == Some(n)
  {
    if n >= 0 {
      ParseDigits(ShowNat(n));
      ValueOfShowNat(n);
    } else {
      var digits := ShowNat(-n);
      ValueOfShowNat(-n);
      StripTight("-" + digits);
      ParseNegative(digits);
    }
  }

  lemma ParseNegative(digits: string)
    requires IsGroupedDigits(digits)
    ensures ParseNumeral("-" + digits) == Some(0 - Value(digits))
  {
    assert ("-" + digits)[1..] == digits;
  }

  lemma {:induction false} TrimStartSpaces(pre: string, s: string)
    requires AllSpaces(pre)
    requires s == [] || !IsSpace(s[0])
    ensures TrimStart(pre + s) == s
  {
    if pre != [] {
      assert (pre + s)[1..] == pre[1..] + s;
      TrimStartSpaces(pre[1..], s);
    }
  }

  lemma {:induction false} TrimEndSpaces(s: string, post: string)
    requires AllSpaces(post)
    requires s == [] || !IsSpace(s[|s| - 1])
    ensures TrimEnd(s + post) == s
  {
    if post != [] {
      var last := |post| - 1;
      assert (s + post)[..|s + post| - 1] == s + post[..last];
      TrimEndSpaces(s, post[..last]);
    }
  }

  /** Whitespace around the numeral does not change what `int()` returns. */
  lemma {:induction false} ParsePadded(pre: string, s: string, post: string)
    requires AllSpaces(pre) && AllSpaces(post)
    requires s != [] && !IsSpace(s[0]) && !IsSpace(s[|s| - 1])
    ensures ParseInt(pre + s + post) == ParseInt(s)
  {
    assert pre + s + post == pre + (s + post);
    TrimStartSpaces(pre, s + post);
    TrimEndSpaces(s, post);
    StripTight(s);
  }

  /** A blank header value (empty or whitespace only) is a ValueError. */
  lemma {:induction false} ParseBlank(s: string)
    requires AllSpaces(s)
    ensures ParseInt(s) == None
  {
    TrimStartSpaces(s, []);
    assert s + [] == s;
  }

  /** A run of plain digits is read as its decimal value. */
  lemma ParseDigits(t: string)
    requires t != [] && forall i :: 0 <= i < |t| ==> IsDigit(t[i])
    ensures DigitsOrUnderscores(t)
    ensures ParseInt(t) == Some(Value(t))
  {
    StripTight(t);
    assert IsGroupedDigits(t);
  }

  lemma StripTight(t: string)
    requires t != [] && !IsSpace(t[0]) && !IsSpace(t[|t| - 1])
    ensures Strip(t) == t
  {
    assert TrimStart(t) == t;
  }

  /** `k` zero digits. */
  function Zeros(k: nat): (z: string)
    ensures |z| == k && forall i :: 0 <= i < k ==> z[i] == '0'
  {
    if k == 0 then "" else "0" + Zeros(k - 1)
  }

  /** Leading zeros are accepted and ignored: `int("00…0" + str(n)) == n` for n >= 0 and any number of zeros. */
  lemma {:induction false} ParseLeadingZeros(k: nat, n: nat)
    ensures ParseInt(Zeros(k) + ShowNat(n)) == Some(n)
  {
    var digits := ShowNat(n);
    var s := Zeros(k) + digits;
    ValueOfShowNat(n);
    ValueOfZeros(k, digits);
    assert forall i :: 0 <= i < |s| ==> IsDigit(s[i]) by {
      forall i | 0 <= i < |s| ensures IsDigit(s[i]) {
        if i >= k { assert s[i] == digits[i - k]; }
      }
    }
    ParseDigits(s);
  }

  lemma {:induction false} ValueOfZeros(k: nat, t: string)
    requires DigitsOrUnderscores(t)
    ensures DigitsOrUnderscores(Zeros(k) + t)
    ensures Value(Zeros(k) + t) == Value(t)
  {
    if k > 0 {
      ValueOfZeros(k - 1, t);
      assert Zeros(k) + t == "0" + (Zeros(k - 1) + t);
      ValueOfPrefixedZero(Zeros(k - 1) + t);
    } else {
      assert Zeros(k) + t == t;
    }
  }

  lemma {:induction false} ValueOfPrefixedZero(t: string)
    requires DigitsOrUnderscores(t)
    ensures DigitsOrUnderscores("0" + t)
    ensures Value("0" + t) == Value(t)
  {
    if t != [] {
      var last := |t| - 1;
      assert ("0" + t)[..|t|] == "0" + t[..last];
      ValueOfPrefixedZero(t[..last]);
    }
  }
}
