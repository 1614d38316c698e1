/** Python's `int()` applied to a string, and its inverse `str()` on ints.
    `int()` strips surrounding whitespace, accepts one optional sign, then
    decimal digits in which single underscores may separate digits; anything
    else raises `ValueError`, modelled as `None`. Leading zeros are allowed
    in base 10. Only ASCII whitespace and ASCII digits are modelled. */
module PyInt {
  import opened Values

  predicate IsDigit(c: char) {
    '0' <= c <= '9'
  }

  function DigitValue(c: char): nat
    requires IsDigit(c)
  {
    c as int - '0' as int
  }

  function DigitChar(d: nat): (c: char)
    requires d < 10
    ensures IsDigit(c) && DigitValue(c) == d
  {
    ('0' as int + d) as char
  }

  /** The ASCII characters `int()` strips, those `str.isspace()` accepts:
      space, tab, newline, vertical tab, form feed, return, and the four
      information separators 0x1C to 0x1F. */
  predicate IsSpace(c: char) {
    || c == ' ' || c == '\t' || c == '\n' || c == '\r' || c == 11 as char || c == 12 as char
    || 28 <= c as int <= 31
  }

  function TrimStart(s: string): (r: string)
    ensures |r| <= |s| && r == s[|s| - |r|..]
    ensures |r| > 0 ==> !IsSpace(r[0])
  {
    if |s| > 0 && IsSpace(s[0]) then TrimStart(s[1..]) else s
  }

  function TrimEnd(s: string): (r: string)
    ensures |r| <= |s| && r == s[..|r|]
    ensures |r| > 0 ==> !IsSpace(r[|r| - 1])
  {
    if |s| > 0 && IsSpace(s[|s| - 1]) then TrimEnd(s[..|s| - 1]) else s
  }

  /** `s.strip()` */
  function Strip(s: string): string {
    TrimEnd(TrimStart(s))
  }

  predicate DigitsOrUnderscores(s: string) {
    forall i :: 0 <= i < |s| ==> IsDigit(s[i]) || s[i] == '_'
  }

  /** Digits with single underscores between them: `1_000`, `007`, never `_1`, `1_` or `1__0`. */
  predicate DigitGroups(s: string) {
    && |s| > 0
    && IsDigit(s[0])
    && DigitsOrUnderscores(s)
    && forall i :: 0 <= i < |s| && s[i] == '_' ==> i + 1 < |s| && IsDigit(s[i + 1])
  }

  /** The value of a digit string, underscores ignored. */
  function DigitsValue(s: string): nat
    requires DigitsOrUnderscores(s)
  {
    if |s| == 0 then 0
    else if s[|s| - 1] == '_' then DigitsValue(s[..|s| - 1])
    else 10 * DigitsValue(s[..|s| - 1]) + DigitValue(s[|s| - 1])
  }

  /** `int()` after stripping: an optional sign, then digit groups. */
  function ParseStripped(t: string): Option<int> {
    if |t| > 0 && (t[0] == '+' || t[0] == '-') then
      if DigitGroups(t[1..]) then
        Some(if t[0] == '-' then 0 - DigitsValue(t[1..]) as int else DigitsValue(t[1..]))
      else None
    else if DigitGroups(t) then Some(DigitsValue(t))
    else None
  }

  /** Python's `int(s)`; `None` where it raises. */
  function ParseInt(s: string): Option<int> {
    ParseStripped(Strip(s))
  }

  /** Python's `str(n)` for a non-negative int: no leading zeros. */
  function FormatNat(n: nat): (r: string)
    ensures |r| > 0
    ensures forall i :: 0 <= i < |r| ==> IsDigit(r[i])
  {
    if n < 10 then [DigitChar(n)] else FormatNat(n / 10) + [DigitChar(n % 10)]
  }

  /** Python's `str(n)` for any int. */
  function FormatInt(n: int): (r: string)
    ensures |r| > 0 && IsDigit(r[|r| - 1])
    ensures r[0] == '-' || IsDigit(r[0])
    ensures forall i :: 0 < i < |r| ==> IsDigit(r[i])
  {
    if n < 0 then "-" + FormatNat(-n) else FormatNat(n)
  }

  lemma {:induction false} DigitsValueOfFormat(n: nat)
    ensures DigitsValue(FormatNat(n)) == n
  {
    if n >= 10 {
      var s := FormatNat(n);
      assert s[..|s| - 1] == FormatNat(n / 10);
      DigitsValueOfFormat(n / 10);
    }
  }

  lemma FormatNatIsDigitGroups(n: nat)
    ensures DigitGroups(FormatNat(n))
  {
  }

  lemma StripFormat(n: int)
    ensures ParseInt(FormatInt(n)) == ParseStripped(FormatInt(n))
  {
    var s := FormatInt(n);
    assert !IsSpace(s[0]);
    assert TrimStart(s) == s;
    assert !IsSpace(s[|s| - 1]);
    assert TrimEnd(s) == s;
  }

  lemma ParseFormatNat(n: nat)
    ensures ParseStripped(FormatInt(n)) == Some(n)
  {
    var s := FormatNat(n);
    assert IsDigit(s[0]);
    FormatNatIsDigitGroups(n);
    DigitsValueOfFormat(n);
  }

  lemma ParseFormatNegative(n: int)
    requires n < 0
    ensures ParseStripped(FormatInt(n)) == Some(n)
  {
    var s := FormatInt(n);
    assert s[0] == '-';
    assert s[1..] == FormatNat(-n);
    FormatNatIsDigitGroups(-n);
    DigitsValueOfFormat(-n);
  }

  /** `int(str(n)) == n` for every int. */
  lemma ParseFormatRoundTrip(n: int)
    ensures ParseInt(FormatInt(n)) == Some(n)
  {
    StripFormat(n);
    if n < 0 {
      ParseFormatNegative(n);
    } else {
      ParseFormatNat(n);
    }
  }

  /** Two digits read as a two-digit number, leading zero allowed. */
  lemma ParseTwoDigits(s: string)
    requires |s| == 2 && IsDigit(s[0]) && IsDigit(s[1])
    ensures ParseInt(s) == Some(10 * DigitValue(s[0]) + DigitValue(s[1]))
  {
    assert !IsSpace(s[0]) && !IsSpace(s[|s| - 1]);
    assert Strip(s) == s;
    assert DigitsOrUnderscores(s) by {
      forall i | 0 <= i < |s| ensures IsDigit(s[i]) || s[i] == '_' {
        assert i == 0 || i == 1;
      }
    }
    assert DigitGroups(s);
    assert s[0] != '+' && s[0] != '-';
    var h := s[..1];
    assert DigitsValue(h) == DigitValue(s[0]) by {
      assert h[..0] == [];
    }
  }

  /** A string without any digit is never an int. */
  lemma DigitlessIsNotInt(s: string)
    requires forall i :: 0 <= i < |s| ==> !IsDigit(s[i])
    ensures ParseInt(s) == None
  {
    var a := TrimStart(s);
    var t := Strip(s);
    assert t == a[..|t|];
    assert forall i :: 0 <= i < |t| ==> t[i] == s[|s| - |a| + i];
    assert |t| > 0 ==> !IsDigit(t[0]);
    assert |t| > 1 ==> !IsDigit(t[1]);
  }

  lemma {:induction false} TrimStartAppendSpace(s: string, c: char)
    requires IsSpace(c)
    ensures TrimStart(s) == "" ==> TrimStart(s + [c]) == ""
    ensures TrimStart(s) != "" ==> TrimStart(s + [c]) == TrimStart(s) + [c]
  {
    if |s| > 0 {
      assert (s + [c])[1..] == s[1..] + [c];
      if IsSpace(s[0]) {
        TrimStartAppendSpace(s[1..], c);
      }
    } else {
      assert (s + [c])[1..] == [];
    }
  }

  predicate AllSpace(s: string) {
    forall i :: 0 <= i < |s| ==> IsSpace(s[i])
  }

  lemma {:induction false} TrimStartSpaces(p: string, x: string)
    requires AllSpace(p)
    ensures TrimStart(p + x) == TrimStart(x)
  {
    if |p| == 0 {
      assert p + x == x;
    } else {
      assert (p + x)[0] == p[0];
      assert (p + x)[1..] == p[1..] + x;
      TrimStartSpaces(p[1..], x);
    }
  }

  lemma {:induction false} TrimStartAppendSpaces(s: string, q: string)
    requires AllSpace(q)
    ensures TrimStart(s) == "" ==> TrimStart(s + q) == ""
    ensures TrimStart(s) != "" ==> TrimStart(s + q) == TrimStart(s) + q
    decreases |q|
  {
    if |q| == 0 {
      assert s + q == s;
    } else {
      var q', c := q[..|q| - 1], q[|q| - 1];
      assert AllSpace(q') && IsSpace(c);
      assert s + q == (s + q') + [c];
      TrimStartAppendSpaces(s, q');
      TrimStartAppendSpace(s + q', c);
      var a := TrimStart(s);
      if a != "" {
        assert TrimStart(s + q') == a + q';
        assert a + q' + [c] == a + q;
      }
    }
  }

  lemma {:induction false} TrimEndSpaces(x: string, q: string)
    requires AllSpace(q)
    ensures TrimEnd(x + q) == TrimEnd(x)
    decreases |q|
  {
    if |q| == 0 {
      assert x + q == x;
    } else {
      var xq := x + q;
      assert xq[|xq| - 1] == q[|q| - 1];
      assert xq[..|xq| - 1] == x + q[..|q| - 1];
      TrimEndSpaces(x, q[..|q| - 1]);
    }
  }

  /** Surrounding whitespace, however much, never changes what `int()` returns. */
  lemma ParseIntIgnoresPadding(p: string, s: string, q: string)
    requires AllSpace(p) && AllSpace(q)
    ensures ParseInt(p + s + q) == ParseInt(s)
  {
    assert p + s + q == p + (s + q);
    TrimStartSpaces(p, s + q);
    TrimStartAppendSpaces(s, q);
    if TrimStart(s) != "" {
      TrimEndSpaces(TrimStart(s), q);
    }
  }

  /** Inserts a ',' before every complete group of three trailing digits. */
  function Group(d: string): (r: string)
    ensures forall i :: 0 <= i < |r| ==> r[i] == ',' || r[i] in d
    decreases |d|
  {
    if |d| <= 3 then d else Group(d[..|d| - 3]) + "," + d[|d| - 3..]
  }

  /** Python's `f"{n:,}"` for a non-negative int: `str(n)` with thousands
      separators. */
  function FormatGrouped(n: nat): (r: string)
    ensures |r| > 0
    ensures forall i :: 0 <= i < |r| ==> r[i] == ',' || IsDigit(r[i])
    ensures DropCommas(r) == FormatNat(n)
    ensures r[0] != ','
    ensures forall i :: 0 <= i < |r| ==> (r[i] == ',' <==> (|r| - i) % 4 == 0)
  {
    var d := FormatNat(n);
    assert forall c :: c in d ==> IsDigit(c);
    assert ',' !in d;
    DropCommasOfGroup(d);
    GroupCommaPositions(d);
    Group(d)
  }

  /** The separators of `Group(d)` sit exactly every fourth place counting
      from the end: each is followed by three digits. */
  lemma {:induction false} GroupCommaPositions(d: string)
    requires ',' !in d
    ensures |d| > 0 ==> |Group(d)| % 4 != 0
    ensures forall i :: 0 <= i < |Group(d)| ==> (Group(d)[i] == ',' <==> (|Group(d)| - i) % 4 == 0)
    decreases |d|
  {
    if |d| <= 3 {
      assert Group(d) == d;
    } else {
      var h, t := d[..|d| - 3], d[|d| - 3..];
      assert ',' !in h && ',' !in t;
      GroupCommaPositions(h);
      CommaPositionsStep(Group(h), t, Group(d));
    }
  }

  /** Appending `,` and three digits keeps the separators every fourth place from the end. */
  lemma CommaPositionsStep(g: string, t: string, r: string)
    requires r == g + "," + t && |t| == 3 && ',' !in t
    requires forall i :: 0 <= i < |g| ==> (g[i] == ',' <==> (|g| - i) % 4 == 0)
    ensures |r| % 4 == |g| % 4
    ensures forall i :: 0 <= i < |r| ==> (r[i] == ',' <==> (|r| - i) % 4 == 0)
  {
    forall i | 0 <= i < |r|
      ensures r[i] == ',' <==> (|r| - i) % 4 == 0
    {
      if i < |g| {
        assert r[i] == g[i];
        assert |r| - i == (|g| - i) + 4;
      } else if i > |g| {
        assert r[i] == t[i - |g| - 1];
      }
    }
  }

  function DropCommas(s: string): string {
    if |s| == 0 then "" else (if s[0] == ',' then "" else [s[0]]) + DropCommas(s[1..])
  }

  lemma {:induction false} DropCommasAppend(s: string, t: string)
    ensures DropCommas(s + t) == DropCommas(s) + DropCommas(t)
  {
    if |s| == 0 {
      assert s + t == t;
    } else {
      assert (s + t)[0] == s[0];
      assert (s + t)[1..] == s[1..] + t;
      DropCommasAppend(s[1..], t);
    }
  }

  lemma {:induction false} DropCommasOfGroup(d: string)
    requires ',' !in d
    ensures DropCommas(Group(d)) == d
    decreases |d|
  {
    if |d| <= 3 {
      NoCommaKept(d);
    } else {
      var h, t := d[..|d| - 3], d[|d| - 3..];
      assert d == h + t;
      DropCommasOfGroup(h);
      NoCommaKept(t);
      DropCommasAppend(Group(h), ",");
      DropCommasAppend(Group(h) + ",", t);
    }
  }

  lemma {:induction false} NoCommaKept(s: string)
    requires ',' !in s
    ensures DropCommas(s) == s
  {
    if |s| > 0 {
      assert s == [s[0]] + s[1..];
      NoCommaKept(s[1..]);
    }
  }

}
