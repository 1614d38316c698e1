/** `parse_season` of `load_dim_season`: a season name is either `a/b`
    (two-digit years, pivot at 50) or a single year `Y`; the season ends the
    year after it starts. Any failure inside the parser is caught and gives
    `(None, None)`, modelled as `None`. */
module SeasonName {
  import opened Values
  import opened PyInt

  datatype Years = Years(start: int, end: int)

  /** The start year for a first part `y`: `y >= 50` means 19yy, otherwise 20yy. */
  function PivotYear(y: int): int {
    if y >= 50 then 1900 + y else 2000 + y
  }

  /** The text before the first `/` (all of `s` when there is none): Python's `s.split('/')[0]`. */
  function Field(s: string): (r: string)
    ensures '/' !in r
    ensures |r| <= |s| && r == s[..|r|]
    ensures '/' in s ==> |r| < |s| && s[|r|] == '/'
    ensures '/' !in s ==> r == s
  {
    if |s| == 0 || s[0] == '/' then "" else [s[0]] + Field(s[1..])
  }

  /** The text after the first `/`. */
  function Rest(s: string): string
    requires '/' in s
  {
    s[|Field(s)| + 1..]
  }

  /** The season of a two-part name, given what `int()` made of its first
      two parts; the second part only has to parse. */
  function FromParts(first: Option<int>, second: Option<int>): (r: Option<Years>)
    ensures r.Some? <==> first.Some? && second.Some?
    ensures r.Some? ==> r.value == Years(PivotYear(first.value), PivotYear(first.value) + 1)
  {
    if first.Some? && second.Some? then Some(Years(PivotYear(first.value), PivotYear(first.value) + 1)) else None
  }

  function ParseSeason(s: string): (r: Option<Years>)
    ensures r.Some? ==> r.value.end == r.value.start + 1
  {
    if '/' in s then
      // parts[0] and parts[1] of s.split('/'); later parts are ignored
      FromParts(ParseInt(Field(s)), ParseInt(Field(Rest(s))))
    else
      match ParseInt(s)
      case Some(y) => Some(Years(y, y + 1))
      case None => None
  }

  lemma NoSlashInFormat(n: int)
    ensures '/' !in FormatInt(n)
  {
    var s := FormatInt(n);
    assert forall i :: 0 <= i < |s| ==> s[i] == '-' || IsDigit(s[i]);
  }

  lemma SplitJoined(p: string, x: string)
    requires '/' !in p
    ensures '/' in p + "/" + x
    ensures Field(p + "/" + x) == p
    ensures Rest(p + "/" + x) == x
  {
    var s := p + "/" + x;
    assert s[|p|] == '/';
    assert s[..|p|] == p;
  }

  lemma TwoParsedParts(p: string, x: string, y1: int)
    requires '/' !in p
    requires ParseInt(p) == Some(y1) && ParseInt(Field(x)).Some?
    ensures ParseSeason(p + "/" + x) == Some(Years(PivotYear(y1), PivotYear(y1) + 1))
  {
    var s := p + "/" + x;
    SplitJoined(p, x);
    assert '/' in s;
    assert ParseSeason(s) == FromParts(ParseInt(Field(s)), ParseInt(Field(Rest(s))));
    assert Field(s) == p && Rest(s) == x;
    var second := ParseInt(Field(x));
    assert ParseSeason(s) == FromParts(Some(y1), second);
    FromParsedParts(y1, second);
  }

  lemma FromParsedParts(y1: int, second: Option<int>)
    requires second.Some?
    ensures FromParts(Some(y1), second) == Some(Years(PivotYear(y1), PivotYear(y1) + 1))
  {
  }

  /** `"a/b"` starts in the pivoted year of `a` and ends a year later;
      `b` only has to parse. */
  lemma TwoPartSeason(a: int, b: int)
    ensures ParseSeason(FormatInt(a) + "/" + FormatInt(b)) == Some(Years(PivotYear(a), PivotYear(a) + 1))
  {
    NoSlashInFormat(a);
    NoSlashInFormat(b);
    ParseFormatRoundTrip(a);
    ParseFormatRoundTrip(b);
    assert Field(FormatInt(b)) == FormatInt(b);
    TwoParsedParts(FormatInt(a), FormatInt(b), a);
  }

  /** `"Y"` is the season from year Y to year Y+1. */
  lemma SingleYearSeason(y: int)
    ensures ParseSeason(FormatInt(y)) == Some(Years(y, y + 1))
  {
    NoSlashInFormat(y);
    ParseFormatRoundTrip(y);
  }

  /** A first or second part that `int()` rejects makes the whole name unparsed. */
  lemma BadPartUnparsed(p: string, x: string)
    requires '/' !in p
    requires ParseInt(p) == None || ParseInt(Field(x)) == None
    ensures ParseSeason(p + "/" + x) == None
  {
    SplitJoined(p, x);
  }

  /** A name without `/` that `int()` rejects is unparsed. */
  lemma BadYearUnparsed(s: string)
    requires '/' !in s && ParseInt(s) == None
    ensures ParseSeason(s) == None
  {
  }

  /** A name like "24/25": two digits, `/`, two digits. */
  predicate TwoDigitName(s: string) {
    |s| == 5 && IsDigit(s[0]) && IsDigit(s[1]) && s[2] == '/' && IsDigit(s[3]) && IsDigit(s[4])
  }

  lemma TwoDigitFields(s: string)
    requires TwoDigitName(s)
    ensures '/' in s
    ensures Field(s) == s[..2]
    ensures Rest(s) == s[3..] && Field(s[3..]) == s[3..]
  {
    assert s[2] == '/';
    var f := Field(s);
    assert s[|f|] == '/';
    assert '/' !in s[3..] by {
      forall i | 0 <= i < 2 ensures s[3..][i] != '/' {
        assert s[3..][i] == s[3 + i];
      }
    }
  }

  lemma TwoDigitFirstPart(s: string, y: int)
    requires TwoDigitName(s)
    requires y == 10 * DigitValue(s[0]) + DigitValue(s[1])
    ensures ParseInt(Field(s)) == Some(y)
  {
    TwoDigitFields(s);
    TwoDigitPrefix(s, y);
    ParsedField(Field(s), s[..2], y);
  }

  lemma TwoDigitPrefix(s: string, y: int)
    requires TwoDigitName(s)
    requires y == 10 * DigitValue(s[0]) + DigitValue(s[1])
    ensures ParseInt(s[..2]) == Some(y)
  {
    var f := s[..2];
    assert f[0] == s[0] && f[1] == s[1];
    ParseTwoDigits(f);
  }

  lemma ParsedField(x: string, f: string, y: int)
    requires x == f && ParseInt(f) == Some(y)
    ensures ParseInt(x) == Some(y)
  {
  }

  lemma TwoDigitSecondPart(s: string)
    requires TwoDigitName(s)
    ensures '/' in s && ParseInt(Field(Rest(s))).Some?
  {
    TwoDigitFields(s);
    ParseTwoDigits(s[3..]);
  }

  lemma ParsedPartsSeason(s: string, y: int)
    requires '/' in s
    requires ParseInt(Field(s)) == Some(y) && ParseInt(Field(Rest(s))).Some?
    ensures ParseSeason(s) == Some(Years(PivotYear(y), PivotYear(y) + 1))
  {
    FromParsedParts(y, ParseInt(Field(Rest(s))));
  }

  /** The start year of a two-digit name is the pivoted value `y` of its first two digits. */
  lemma TwoDigitNameYears(s: string, y: int)
    requires TwoDigitName(s)
    requires y == 10 * DigitValue(s[0]) + DigitValue(s[1])
    ensures ParseSeason(s) == Some(Years(PivotYear(y), PivotYear(y) + 1))
  {
    TwoDigitFirstPart(s, y);
    TwoDigitSecondPart(s);
    ParsedPartsSeason(s, y);
  }

  /** The pivot applies to any first part, so a four-digit first part is
      pivoted too: `"2024/25"` starts in year 3924. */
  lemma FourDigitFirstPart()
    ensures ParseSeason(FormatInt(2024) + "/" + FormatInt(25)) == Some(Years(3924, 3925))
  {
    TwoPartSeason(2024, 25);
  }
}
