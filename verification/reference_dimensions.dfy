/** The reference-dimension loaders of `load_dimensions.py`: agent, team,
    competition and season are upserts keyed by their natural key; injury
    type is an insert-if-absent on the (category, severity) pair. A loader
    that meets a database error returns `Err`; since each loader commits only
    at its end, an `Err` leaves its table as it was. */
module ReferenceDimensions {
  import opened Values
  import opened Text
  import opened PyInt
  import opened Tables
  import opened DimensionSource
  import SeasonName
  import opened InjuryCategory

  // ---------------------------------------------------------------- dim_agent

  /** `dw.dim_agent`: `agent_id` -> `agent_name`. */
  type AgentTable = Table<string, Option<string>>

  /** The agent query: `(player_agent_id, player_agent_name)` of every profile
      whose agent id is not NULL. */
  function AgentRows(profiles: seq<ProfileRow>): (r: seq<(string, Option<string>)>)
    ensures forall x :: x in r <==> exists p :: p in profiles && p.agentId == Some(x.0) && p.agentName == x.1
  {
    if |profiles| == 0 then []
    else
      var p := profiles[|profiles| - 1];
      assert profiles == profiles[..|profiles| - 1] + [p];
      AgentRows(profiles[..|profiles| - 1]) + (if p.agentId.Some? then [(p.agentId.value, p.agentName)] else [])
  }

  /** The non-NULL agent ids of the profiles. */
  function AgentIds(profiles: seq<ProfileRow>): set<string> {
    set p | p in profiles && p.agentId.Some? :: p.agentId.value
  }

  lemma AgentKeys(profiles: seq<ProfileRow>)
    ensures KeysOf(AgentRows(profiles)) == AgentIds(profiles)
  {
    var src := AgentRows(profiles);
    forall k | k in AgentIds(profiles)
      ensures k in KeysOf(src)
    {
      var p :| p in profiles && p.agentId == Some(k);
      assert (k, p.agentName) in src;
      var i :| 0 <= i < |src| && src[i] == (k, p.agentName);
    }
    forall k | k in KeysOf(src)
      ensures k in AgentIds(profiles)
    {
      var i :| 0 <= i < |src| && src[i].0 == k;
      assert src[i] in src;
    }
  }

  /** `load_dim_agent`: upsert every extracted agent. */
  function LoadAgents(t: AgentTable, profiles: seq<ProfileRow>): (r: AgentTable)
    ensures r.rows.Keys == t.rows.Keys + AgentIds(profiles)
    ensures forall k :: k in AgentIds(profiles) ==>
              exists p :: p in profiles && p.agentId == Some(k) && p.agentName == r.rows[k].attrs
    ensures forall k :: k in t.rows && k !in AgentIds(profiles) ==> r.rows[k] == t.rows[k]
    ensures forall k :: k in t.rows ==> r.rows[k].sk == t.rows[k].sk
    ensures Valid(t) ==> Valid(r)
  {
    var src := AgentRows(profiles);
    AgentKeys(profiles);
    var r := UpsertAll(t, src);
    assert forall k :: k in AgentIds(profiles) ==> (k, LastFor(src, k)) in src;
    r
  }

  /** An agent whose profiles all give one name ends up with that name. */
  lemma AgentNameFromConsistentSource(t: AgentTable, profiles: seq<ProfileRow>, k: string, name: Option<string>)
    requires k in AgentIds(profiles)
    requires forall p :: p in profiles && p.agentId == Some(k) ==> p.agentName == name
    ensures LoadAgents(t, profiles).rows[k].attrs == name
  {
    var src := AgentRows(profiles);
    AgentKeys(profiles);
    forall i | 0 <= i < |src| && src[i].0 == k
      ensures src[i].1 == name
    {
      assert src[i] in src;
    }
    AgreeingRowsDecide(t, src, k, name);
  }

  // ------------------------------------------------------- tier / division

  /** PostgreSQL's largest `INTEGER`. */
  const IntMax: int := 2147483647

  /** The longest run of digits at the start of `s`. */
  function DigitPrefix(s: string): (r: string)
    ensures |r| <= |s| && r == s[..|r|]
    ensures forall i :: 0 <= i < |r| ==> IsDigit(r[i])
    ensures |r| < |s| ==> !IsDigit(s[|r|])
  {
    if |s| > 0 && IsDigit(s[0]) then [s[0]] + DigitPrefix(s[1..]) else ""
  }

  /** `SUBSTRING(s FROM '[0-9]+')`: the first maximal run of digits, empty when there is none. */
  function FirstDigitRun(s: string): (r: string)
    ensures forall i :: 0 <= i < |r| ==> IsDigit(r[i])
  {
    if |s| == 0 then ""
    else if IsDigit(s[0]) then DigitPrefix(s)
    else FirstDigitRun(s[1..])
  }

  /** `COALESCE(CAST(SUBSTRING(club_division FROM '[0-9]+') AS INTEGER), 99)`:
      no division or no digits gives 99; a number beyond `INTEGER` range makes
      the query fail. */
  function DivisionLevel(division: Option<string>): (r: Result<int, string>)
    ensures r.Ok? ==> 0 <= r.value <= IntMax
    ensures division.None? ==> r == Ok(99)
  {
    match division
    case None => Ok(99)
    case Some(d) =>
      var run := FirstDigitRun(d);
      if run == "" then Ok(99)
      else if DigitsValue(run) > IntMax then Err("integer out of range")
      else Ok(DigitsValue(run))
  }

  lemma {:induction false} FirstRunSkipsText(p: string, x: string)
    requires forall i :: 0 <= i < |p| ==> !IsDigit(p[i])
    ensures FirstDigitRun(p + x) == FirstDigitRun(x)
  {
    if |p| > 0 {
      assert (p + x)[0] == p[0] && !IsDigit(p[0]);
      assert (p + x)[1..] == p[1..] + x;
      FirstRunSkipsText(p[1..], x);
    } else {
      assert p + x == x;
    }
  }

  lemma {:induction false} DigitPrefixStops(d: string, q: string)
    requires forall i :: 0 <= i < |d| ==> IsDigit(d[i])
    requires |q| > 0 ==> !IsDigit(q[0])
    ensures DigitPrefix(d + q) == d
  {
    if |d| > 0 {
      assert (d + q)[1..] == d[1..] + q;
      DigitPrefixStops(d[1..], q);
    } else {
      assert d + q == q;
    }
  }

  /** A division text `p n q` (text without digits, a number, text not starting
      with a digit) has level `n`, or fails when `n` exceeds `INTEGER`. */
  lemma DivisionLevelOfNumber(p: string, n: nat, q: string)
    requires forall i :: 0 <= i < |p| ==> !IsDigit(p[i])
    requires |q| > 0 ==> !IsDigit(q[0])
    ensures n <= IntMax ==> DivisionLevel(Some(p + FormatNat(n) + q)) == Ok(n)
    ensures n > IntMax ==> DivisionLevel(Some(p + FormatNat(n) + q)).Err?
  {
    assert p + FormatNat(n) + q == p + (FormatNat(n) + q);
    FirstRunSkipsText(p, FormatNat(n) + q);
    DigitPrefixStops(FormatNat(n), q);
    DigitsValueOfFormat(n);
  }

  /** A division text without digits has level 99. */
  lemma DivisionWithoutDigits(d: string)
    requires forall i :: 0 <= i < |d| ==> !IsDigit(d[i])
    ensures DivisionLevel(Some(d)) == Ok(99)
  {
    FirstRunSkipsText(d, "");
    assert d + "" == d;
  }

  // ---------------------------------------------------------- dim_competition

  /** The character `competition_name.str.lower().str.replace(' ', '_')` makes
      of `c`: a space becomes `_`, a capital its lower-case letter. */
  function SlugChar(c: char): char {
    if c == ' ' then '_' else LowerChar(c)
  }

  /** `competition_name.str.lower().str.replace(' ', '_')` */
  function CompetitionId(name: string): (r: string)
    ensures |r| == |name|
    ensures forall i :: 0 <= i < |r| ==> r[i] == SlugChar(name[i])
    ensures ' ' !in r
    ensures forall i :: 0 <= i < |r| ==> !IsUpper(r[i])
  {
    var l := Lower(name);
    seq(|l|, i requires 0 <= i < |l| => if l[i] == ' ' then '_' else l[i])
  }

  /** Slugging a slug changes nothing. */
  lemma CompetitionIdIdempotent(name: string)
    ensures CompetitionId(CompetitionId(name)) == CompetitionId(name)
  {
  }

  /** Two names share an id exactly when they agree character by character
      up to letter case and up to a space standing where the other has `_`:
      "Premier League", "premier league" and "premier_league" merge into one
      competition. */
  lemma CompetitionIdMerges(a: string, b: string)
    ensures CompetitionId(a) == CompetitionId(b) <==>
              |a| == |b| && forall i :: 0 <= i < |a| ==> SlugChar(a[i]) == SlugChar(b[i])
  {
    if CompetitionId(a) == CompetitionId(b) {
      forall i | 0 <= i < |a| ensures SlugChar(a[i]) == SlugChar(b[i]) {
        assert CompetitionId(a)[i] == CompetitionId(b)[i];
      }
    }
  }

  datatype CompetitionAttrs = CompetitionAttrs(name: string, country: Option<string>, tierLevel: int)

  /** `dw.dim_competition`: `competition_id` -> attributes. */
  type CompetitionTable = Table<string, CompetitionAttrs>

  /** The competition query's rows (competition name not NULL), keyed by the slug. */
  function CompetitionRows(rows: seq<TeamDetailsRow>): (r: Result<seq<(string, CompetitionAttrs)>, string>)
    ensures r.Ok? ==> forall x :: x in r.value <==>
              exists row :: row in rows && row.competitionName.Some? && DivisionLevel(row.clubDivision).Ok?
                && x == (CompetitionId(row.competitionName.value),
                         CompetitionAttrs(row.competitionName.value, row.countryName, DivisionLevel(row.clubDivision).value))
    ensures r.Err? <==> exists row :: row in rows && row.competitionName.Some? && DivisionLevel(row.clubDivision).Err?
  {
    if |rows| == 0 then Ok([])
    else
      var row := rows[|rows| - 1];
      assert rows == rows[..|rows| - 1] + [row];
      match CompetitionRows(rows[..|rows| - 1])
      case Err(e) => Err(e)
      case Ok(prefix) =>
        if row.competitionName.None? then Ok(prefix)
        else
          match DivisionLevel(row.clubDivision)
          case Err(e) => Err(e)
          case Ok(tier) =>
            var name := row.competitionName.value;
            Ok(prefix + [(CompetitionId(name), CompetitionAttrs(name, row.countryName, tier))])
  }

  /** `load_dim_competition` */
  function LoadCompetitions(t: CompetitionTable, rows: seq<TeamDetailsRow>): (r: Result<CompetitionTable, string>)
    ensures r.Ok? ==> r.value.rows.Keys == t.rows.Keys + CompetitionIds(rows)
    ensures r.Ok? ==> forall k :: k in t.rows && k !in CompetitionIds(rows) ==> r.value.rows[k] == t.rows[k]
    ensures r.Ok? ==> forall k :: k in CompetitionIds(rows) ==>
              exists row :: row in rows && row.competitionName.Some? && DivisionLevel(row.clubDivision).Ok?
                && (k, r.value.rows[k].attrs)
                   == (CompetitionId(row.competitionName.value),
                       CompetitionAttrs(row.competitionName.value, row.countryName, DivisionLevel(row.clubDivision).value))
    ensures r.Err? <==> exists row :: row in rows && row.competitionName.Some? && DivisionLevel(row.clubDivision).Err?
  {
    match CompetitionRows(rows)
    case Err(e) => Err(e)
    case Ok(src) =>
      CompetitionKeys(rows, src);
      var r := UpsertAll(t, src);
      assert forall k :: k in KeysOf(src) ==> (k, LastFor(src, k)) in src;
      Ok(r)
  }

  /** The ids of the competitions named in the rows. */
  function CompetitionIds(rows: seq<TeamDetailsRow>): set<string> {
    set row | row in rows && row.competitionName.Some? :: CompetitionId(row.competitionName.value)
  }

  lemma CompetitionKeys(rows: seq<TeamDetailsRow>, src: seq<(string, CompetitionAttrs)>)
    requires CompetitionRows(rows) == Ok(src)
    ensures KeysOf(src) == CompetitionIds(rows)
  {
    forall k | k in CompetitionIds(rows)
      ensures k in KeysOf(src)
    {
      var row :| row in rows && row.competitionName.Some? && k == CompetitionId(row.competitionName.value);
      assert DivisionLevel(row.clubDivision).Ok?;
      var x := (k, CompetitionAttrs(row.competitionName.value, row.countryName, DivisionLevel(row.clubDivision).value));
      assert x in src;
      var i :| 0 <= i < |src| && src[i] == x;
    }
    forall k | k in KeysOf(src)
      ensures k in CompetitionIds(rows)
    {
      var i :| 0 <= i < |src| && src[i].0 == k;
      assert src[i] in src;
    }
  }

  // ---------------------------------------------------------------- dim_team

  datatype TeamAttrs = TeamAttrs(name: Option<string>, country: string, primaryCompetitionId: string, divisionLevel: int)

  /** `dw.dim_team`: `team_nk` -> attributes. */
  type TeamTable = Table<string, TeamAttrs>

  /** What goes into a team's `primary_competition_id`. `ByName` is what
      `load_dim_team` stores: the competition name as the query returns it.
      `ById` is the competition's id, the key of `dim_competition`. */
  datatype Reference = ByName | ById

  function Referenced(how: Reference, name: string): string {
    match how
    case ByName => name
    case ById => CompetitionId(name)
  }

  /** The competition a team row refers to, `COALESCE(competition_name, 'Unknown')`. */
  function CompetitionNameOf(row: TeamDetailsRow): string {
    row.competitionName.GetOr("Unknown")
  }

  /** The team query's columns for one row with a club id, given what is
      stored as its primary competition. */
  function TeamEntry(row: TeamDetailsRow, primaryCompetition: string, tier: int): (string, TeamAttrs)
    requires row.clubId.Some?
  {
    (FormatInt(row.clubId.value), TeamAttrs(row.clubName, row.countryName.GetOr("Unknown"), primaryCompetition, tier))
  }

  /** The team query's rows (club id not NULL), with the competition
      reference made as `how` says. */
  function TeamRows(rows: seq<TeamDetailsRow>, how: Reference): (r: Result<seq<(string, TeamAttrs)>, string>)
    ensures r.Ok? ==> forall x :: x in r.value <==>
              exists row :: row in rows && row.clubId.Some? && DivisionLevel(row.clubDivision).Ok?
                && x == TeamEntry(row, Referenced(how, CompetitionNameOf(row)), DivisionLevel(row.clubDivision).value)
    ensures r.Err? <==> exists row :: row in rows && row.clubId.Some? && DivisionLevel(row.clubDivision).Err?
  {
    if |rows| == 0 then Ok([])
    else
      var row := rows[|rows| - 1];
      assert rows == rows[..|rows| - 1] + [row];
      match TeamRows(rows[..|rows| - 1], how)
      case Err(e) => Err(e)
      case Ok(prefix) =>
        if row.clubId.None? then Ok(prefix)
        else
          match DivisionLevel(row.clubDivision)
          case Err(e) => Err(e)
          case Ok(tier) => Ok(prefix + [TeamEntry(row, Referenced(how, CompetitionNameOf(row)), tier)])
  }

  function TeamIds(rows: seq<TeamDetailsRow>): set<string> {
    set row | row in rows && row.clubId.Some? :: FormatInt(row.clubId.value)
  }

  /** `load_dim_team`; `ByName` is the code as written. Every team key's
      whole record is the query's row for some source row with that club id. */
  function LoadTeams(t: TeamTable, rows: seq<TeamDetailsRow>, how: Reference): (r: Result<TeamTable, string>)
    ensures r.Ok? ==> r.value.rows.Keys == t.rows.Keys + TeamIds(rows)
    ensures r.Ok? ==> forall k :: k in t.rows && k !in TeamIds(rows) ==> r.value.rows[k] == t.rows[k]
    ensures r.Ok? ==> forall k :: k in TeamIds(rows) ==>
              exists row :: row in rows && row.clubId.Some? && DivisionLevel(row.clubDivision).Ok?
                && (k, r.value.rows[k].attrs)
                   == TeamEntry(row, Referenced(how, CompetitionNameOf(row)), DivisionLevel(row.clubDivision).value)
    ensures r.Err? <==> exists row :: row in rows && row.clubId.Some? && DivisionLevel(row.clubDivision).Err?
  {
    match TeamRows(rows, how)
    case Err(e) => Err(e)
    case Ok(src) =>
      TeamKeys(rows, how, src);
      TeamAttrsTraced(rows, how, src);
      Ok(UpsertAll(t, src))
  }

  /** The record kept for a team key is the query's row for a source row
      with that club id. */
  lemma TeamAttrsTraced(rows: seq<TeamDetailsRow>, how: Reference, src: seq<(string, TeamAttrs)>)
    requires TeamRows(rows, how) == Ok(src)
    ensures forall k :: k in KeysOf(src) ==>
              exists row :: row in rows && row.clubId.Some? && DivisionLevel(row.clubDivision).Ok?
                && (k, LastFor(src, k))
                   == TeamEntry(row, Referenced(how, CompetitionNameOf(row)), DivisionLevel(row.clubDivision).value)
  {
    forall k | k in KeysOf(src)
      ensures exists row :: row in rows && row.clubId.Some? && DivisionLevel(row.clubDivision).Ok?
                && (k, LastFor(src, k))
                   == TeamEntry(row, Referenced(how, CompetitionNameOf(row)), DivisionLevel(row.clubDivision).value)
    {
      assert (k, LastFor(src, k)) in src;
    }
  }

  lemma TeamKeys(rows: seq<TeamDetailsRow>, how: Reference, src: seq<(string, TeamAttrs)>)
    requires TeamRows(rows, how) == Ok(src)
    ensures KeysOf(src) == TeamIds(rows)
  {
    forall k | k in TeamIds(rows)
      ensures k in KeysOf(src)
    {
      var row :| row in rows && row.clubId.Some? && k == FormatInt(row.clubId.value);
      var x := TeamEntry(row, Referenced(how, CompetitionNameOf(row)), DivisionLevel(row.clubDivision).value);
      assert x in src;
      var i :| 0 <= i < |src| && src[i] == x;
    }
    forall k | k in KeysOf(src)
      ensures k in TeamIds(rows)
    {
      var i :| 0 <= i < |src| && src[i].0 == k;
      assert src[i] in src;
    }
  }

  /** As written, a team of "Premier League" refers to competition
      "Premier League", while the competition loaded from the same row is
      keyed "premier_league": the reference does not resolve. */
  lemma TeamCompetitionAsWrittenDangles()
    ensures var rows := [TeamDetailsRow(Some(1), Some("Arsenal"), Some("England"), Some("Premier League"), None)];
            && TeamRows(rows, ByName).Ok?
            && CompetitionRows(rows).Ok?
            && |TeamRows(rows, ByName).value| == 1
            && TeamRows(rows, ByName).value[0].1.primaryCompetitionId !in KeysOf(CompetitionRows(rows).value)
  {
    var rows := [TeamDetailsRow(Some(1), Some("Arsenal"), Some("England"), Some("Premier League"), None)];
    assert rows[..0] == [];
    var slug := CompetitionId("Premier League");
    assert slug[0] == 'p';
    var src := CompetitionRows(rows).value;
    assert src == [(slug, CompetitionAttrs("Premier League", Some("England"), 99))];
    assert src[0].0 == slug;
    assert KeysOf(src) == {slug} by {
      forall k | k in KeysOf(src) ensures k == slug {
        var i :| 0 <= i < |src| && src[i].0 == k;
      }
    }
    var team := TeamRows(rows, ByName).value;
    assert team == [TeamEntry(rows[0], "Premier League", 99)];
    assert "Premier League"[0] == 'P';
  }

  /** As written, a team whose source row names its competition refers to a
      competition loaded from the same rows exactly when that name is
      already its own id: a capital letter or a space in the name leaves the
      reference dangling. */
  lemma ByNameResolvesOnlySlugs(tt: TeamTable, rows: seq<TeamDetailsRow>)
    requires LoadTeams(tt, rows, ByName).Ok?
    ensures forall k :: k in TeamIds(rows) ==>
              var ref := LoadTeams(tt, rows, ByName).value.rows[k].attrs.primaryCompetitionId;
              exists row :: row in rows && row.clubId.Some? && k == FormatInt(row.clubId.value)
                && ref == CompetitionNameOf(row)
                && (row.competitionName.Some? ==> (ref in CompetitionIds(rows) <==> CompetitionId(ref) == ref))
  {
    forall k | k in TeamIds(rows)
      ensures var ref := LoadTeams(tt, rows, ByName).value.rows[k].attrs.primaryCompetitionId;
              exists row :: row in rows && row.clubId.Some? && k == FormatInt(row.clubId.value)
                && ref == CompetitionNameOf(row)
                && (row.competitionName.Some? ==> (ref in CompetitionIds(rows) <==> CompetitionId(ref) == ref))
    {
      var ref := LoadTeams(tt, rows, ByName).value.rows[k].attrs.primaryCompetitionId;
      var row :| row in rows && row.clubId.Some? && DivisionLevel(row.clubDivision).Ok?
                 && (k, LoadTeams(tt, rows, ByName).value.rows[k].attrs)
                    == TeamEntry(row, Referenced(ByName, CompetitionNameOf(row)), DivisionLevel(row.clubDivision).value);
      assert ref == CompetitionNameOf(row);
      if ref in CompetitionIds(rows) {
        var other :| other in rows && other.competitionName.Some? && ref == CompetitionId(other.competitionName.value);
        CompetitionIdIdempotent(other.competitionName.value);
      }
      if row.competitionName.Some? && CompetitionId(ref) == ref {
        assert CompetitionId(row.competitionName.value) in CompetitionIds(rows);
      }
    }
  }

  /** With references by id, every team loaded from the rows refers to a
      competition loaded from the same rows, or to the id of "Unknown" when
      its competition name was NULL. */
  lemma TeamCompetitionResolves(tt: TeamTable, ct: CompetitionTable, rows: seq<TeamDetailsRow>)
    requires LoadTeams(tt, rows, ById).Ok? && LoadCompetitions(ct, rows).Ok?
    ensures forall k :: k in TeamIds(rows) ==>
              var ref := LoadTeams(tt, rows, ById).value.rows[k].attrs.primaryCompetitionId;
              ref in LoadCompetitions(ct, rows).value.rows || ref == CompetitionId("Unknown")
  {
    forall k | k in TeamIds(rows)
      ensures var ref := LoadTeams(tt, rows, ById).value.rows[k].attrs.primaryCompetitionId;
              ref in LoadCompetitions(ct, rows).value.rows || ref == CompetitionId("Unknown")
    {
      var row :| row in rows && row.clubId.Some? && DivisionLevel(row.clubDivision).Ok?
                 && (k, LoadTeams(tt, rows, ById).value.rows[k].attrs)
                    == TeamEntry(row, Referenced(ById, CompetitionNameOf(row)), DivisionLevel(row.clubDivision).value);
      if row.competitionName.Some? {
        assert CompetitionId(row.competitionName.value) in CompetitionIds(rows);
      }
    }
  }

  // -------------------------------------------------------------- dim_season

  datatype SeasonAttrs = SeasonAttrs(startYear: Option<int>, endYear: Option<int>, isCurrent: bool)

  /** `dw.dim_season`: `season_name` -> attributes. */
  type SeasonTable = Table<string, SeasonAttrs>

  /** pandas refuses to assign the two year columns from the result of
      `apply` on an empty frame. */
  const EmptyFrameAssignment: string := "Columns must be same length as key"

  /** The parsed years of a season name, NULL when it does not parse. */
  function SeasonYears(name: string): (Option<int>, Option<int>) {
    match SeasonName.ParseSeason(name)
    case Some(y) => (Some(y.start), Some(y.end))
    case None => (None, None)
  }

  /** One upsert row per season name, the season named `current` marked current. */
  function SeasonRows(names: seq<string>, current: string): (r: seq<(string, SeasonAttrs)>)
    ensures |r| == |names|
    ensures forall i :: 0 <= i < |names| ==> r[i].0 == names[i]
  {
    seq(|names|, i requires 0 <= i < |names| =>
      (names[i], SeasonAttrs(SeasonYears(names[i]).0, SeasonYears(names[i]).1, names[i] == current)))
  }

  lemma SeasonRowsKeys(names: seq<string>, current: string)
    ensures KeysOf(SeasonRows(names, current)) == set n | n in names
  {
    var src := SeasonRows(names, current);
    forall n | n in names ensures n in KeysOf(src) {
      var i :| 0 <= i < |names| && names[i] == n;
      assert src[i].0 == n;
    }
  }

  lemma SeasonRowsLast(names: seq<string>, current: string, n: string)
    requires n in names
    ensures n in KeysOf(SeasonRows(names, current))
    ensures LastFor(SeasonRows(names, current), n) == SeasonAttrs(SeasonYears(n).0, SeasonYears(n).1, n == current)
  {
    SeasonRowsKeys(names, current);
    var src := SeasonRows(names, current);
    var a := LastFor(src, n);
    var i :| 0 <= i < |src| && src[i] == (n, a) && forall j :: i < j < |src| ==> src[j].0 != n;
    assert names[i] == n;
  }

  /** The upserts of `load_dim_season` once the current season is chosen. */
  function MarkSeasons(t: SeasonTable, names: seq<string>, current: string): (r: SeasonTable)
    ensures r.rows.Keys == t.rows.Keys + (set n | n in names)
    ensures forall n :: n in names ==> (r.rows[n].attrs.isCurrent <==> n == current)
    ensures forall n :: n in names ==>
              (r.rows[n].attrs.startYear, r.rows[n].attrs.endYear) == SeasonYears(n)
    ensures forall k :: k in t.rows && k !in names ==> r.rows[k] == t.rows[k]
  {
    var src := SeasonRows(names, current);
    SeasonRowsKeys(names, current);
    var r := UpsertAll(t, src);
    assert forall n :: n in names ==> r.rows[n].attrs == LastFor(src, n);
    forall n | n in names
      ensures r.rows[n].attrs == SeasonAttrs(SeasonYears(n).0, SeasonYears(n).1, n == current)
    {
      SeasonRowsLast(names, current, n);
    }
    r
  }

  /** `load_dim_season`: the first name of the query's result is the current
      season; an empty result fails at the column assignment. */
  function LoadSeasons(t: SeasonTable, names: seq<string>): (r: Result<SeasonTable, string>)
    ensures r.Err? <==> |names| == 0
    ensures r.Ok? ==> r.value.rows.Keys == t.rows.Keys + (set n | n in names)
    ensures r.Ok? ==> forall n :: n in names ==> (r.value.rows[n].attrs.isCurrent <==> n == names[0])
    ensures r.Ok? ==> forall n :: n in names ==>
              (r.value.rows[n].attrs.startYear, r.value.rows[n].attrs.endYear) == SeasonYears(n)
    ensures r.Ok? ==> forall k :: k in t.rows && k !in names ==> r.value.rows[k] == t.rows[k]
  {
    if |names| == 0 then Err(EmptyFrameAssignment) else Ok(MarkSeasons(t, names, names[0]))
  }

  /** When every stored season reappears in a non-empty query result, exactly
      one season of the table is current afterwards: the first of the result. */
  lemma ExactlyOneCurrentSeason(t: SeasonTable, names: seq<string>)
    requires |names| > 0
    requires forall k :: k in t.rows ==> k in names
    ensures LoadSeasons(t, names).Ok?
    ensures var r := LoadSeasons(t, names).value;
            (set k | k in r.rows && r.rows[k].attrs.isCurrent) == {names[0]}
  {
    CurrentIsOnly(t, LoadSeasons(t, names).value, names, names[0]);
  }

  lemma CurrentIsOnly(t: SeasonTable, r: SeasonTable, names: seq<string>, current: string)
    requires current in names
    requires forall k :: k in t.rows ==> k in names
    requires r.rows.Keys == t.rows.Keys + (set n | n in names)
    requires forall n :: n in names ==> (r.rows[n].attrs.isCurrent <==> n == current)
    ensures (set k | k in r.rows && r.rows[k].attrs.isCurrent) == {current}
  {
    var marked := set k | k in r.rows && r.rows[k].attrs.isCurrent;
    forall k | k in marked ensures k == current {
      assert k in names;
    }
    assert current in marked;
  }

  /** `a < b` in the database's ordering of text, taken as character order. */
  predicate TextBefore(a: string, b: string)
    decreases |a|
  {
    if |a| == 0 then |b| > 0
    else |b| > 0 && (a[0] < b[0] || (a[0] == b[0] && TextBefore(a[1..], b[1..])))
  }

  /** The order of `ORDER BY season_name DESC`. */
  predicate TextDescending(names: seq<string>) {
    forall i, j :: 0 <= i < j < |names| ==> !TextBefore(names[i], names[j])
  }

  /** Two-digit season names sort as text, so any season of the 1900s
      ("99/00") is listed before any of the 2000s ("24/25") and is marked
      current although it starts earlier. */
  lemma SeasonOrderAsWrittenPicksOldest(t: SeasonTable, older: string, newer: string)
    requires SeasonName.TwoDigitName(older) && SeasonName.TwoDigitName(newer)
    requires older[0] >= '5' && newer[0] <= '4'
    ensures var names := [older, newer];
            && TextDescending(names)
            && StartYear(older).Some? && StartYear(newer).Some?
            && StartYear(older).value < StartYear(newer).value
            && LoadSeasons(t, names).Ok?
            && LoadSeasons(t, names).value.rows[older].attrs.isCurrent
            && !LoadSeasons(t, names).value.rows[newer].attrs.isCurrent
  {
    var names := [older, newer];
    assert !TextBefore(older, newer);
    var y1, y2 := 10 * DigitValue(older[0]) + DigitValue(older[1]), 10 * DigitValue(newer[0]) + DigitValue(newer[1]);
    assert 5 <= DigitValue(older[0]) <= 9 && DigitValue(older[1]) <= 9;
    assert DigitValue(newer[0]) <= 4 && DigitValue(newer[1]) <= 9;
    SeasonName.TwoDigitNameYears(older, y1);
    SeasonName.TwoDigitNameYears(newer, y2);
    PivotedStarts(older, newer, y1, y2);
    FirstMarkedCurrent(t, older, newer);
  }

  lemma FirstMarkedCurrent(t: SeasonTable, first: string, second: string)
    requires first != second
    ensures LoadSeasons(t, [first, second]).Ok?
    ensures LoadSeasons(t, [first, second]).value.rows[first].attrs.isCurrent
    ensures !LoadSeasons(t, [first, second]).value.rows[second].attrs.isCurrent
  {
    assert second in [first, second];
  }

  lemma PivotedStarts(older: string, newer: string, y1: int, y2: int)
    requires 50 <= y1 < 100 && 0 <= y2 < 50
    requires SeasonName.ParseSeason(older) == Some(SeasonName.Years(SeasonName.PivotYear(y1), SeasonName.PivotYear(y1) + 1))
    requires SeasonName.ParseSeason(newer) == Some(SeasonName.Years(SeasonName.PivotYear(y2), SeasonName.PivotYear(y2) + 1))
    ensures StartYear(older).Some? && StartYear(newer).Some?
    ensures StartYear(older).value < StartYear(newer).value
  {
    StartOfParsed(older, SeasonName.PivotYear(y1));
    StartOfParsed(newer, SeasonName.PivotYear(y2));
  }

  lemma StartOfParsed(s: string, y: int)
    requires SeasonName.ParseSeason(s) == Some(SeasonName.Years(y, y + 1))
    ensures StartYear(s) == Some(y)
  {
  }

  /** The name whose `key` is the greatest, the earlier name on a tie; a
      name without a key is chosen only when no name has one. */
  function Latest(names: seq<string>, key: string -> Option<int>): (r: string)
    requires |names| > 0
    ensures r in names
    ensures forall n :: n in names && key(n).Some? ==> key(r).Some? && key(n).value <= key(r).value
  {
    if |names| == 1 then names[0]
    else
      var rest := Latest(names[1..], key);
      assert forall n :: n in names ==> n == names[0] || n in names[1..];
      if key(names[0]).Some? && (key(rest).None? || key(rest).value <= key(names[0]).value) then names[0] else rest
  }

  function StartYear(name: string): Option<int> {
    SeasonYears(name).0
  }

  /** `load_dim_season` with the current season chosen by parsed start year
      ("24/25 or latest"): the current season is one whose start year no
      other season exceeds. */
  function LoadSeasonsIntended(t: SeasonTable, names: seq<string>): (r: Result<SeasonTable, string>)
    ensures r.Err? <==> |names| == 0
    ensures r.Ok? ==> r.value.rows.Keys == t.rows.Keys + (set n | n in names)
    ensures r.Ok? ==> CurrentIsLatest(r.value, names)
    ensures r.Ok? ==> forall n :: n in names ==>
              (r.value.rows[n].attrs.startYear, r.value.rows[n].attrs.endYear) == SeasonYears(n)
    ensures r.Ok? ==> forall k :: k in t.rows && k !in names ==> r.value.rows[k] == t.rows[k]
  {
    if |names| == 0 then Err(EmptyFrameAssignment)
    else
      var latest := Latest(names, StartYear);
      var r := MarkSeasons(t, names, latest);
      LatestMarked(r, names, latest, StartYear);
      Ok(r)
  }

  /** Exactly one of `names` is current in `r`, and no season of `names`
      starts later than it. */
  predicate CurrentIsLatest(r: SeasonTable, names: seq<string>)
    requires forall n :: n in names ==> n in r.rows
  {
    && (exists c :: c in names && forall n :: n in names ==> (r.rows[n].attrs.isCurrent <==> n == c))
    && forall c, n :: c in names && n in names && r.rows[c].attrs.isCurrent && r.rows[n].attrs.startYear.Some? ==>
         r.rows[c].attrs.startYear.Some? && r.rows[n].attrs.startYear.value <= r.rows[c].attrs.startYear.value
  }

  lemma LatestMarked(r: SeasonTable, names: seq<string>, latest: string, key: string -> Option<int>)
    requires latest in names
    requires forall n :: n in names ==> n in r.rows && r.rows[n].attrs.startYear == key(n)
    requires forall n :: n in names ==> (r.rows[n].attrs.isCurrent <==> n == latest)
    requires forall n :: n in names && key(n).Some? ==> key(latest).Some? && key(n).value <= key(latest).value
    ensures CurrentIsLatest(r, names)
  {
  }

  // --------------------------------------------------------- dim_injury_type

  datatype InjuryTypeRow = InjuryTypeRow(sk: nat, category: Category, severity: Severity)

  /** `dw.dim_injury_type`, in insertion order. It has no unique constraint;
      the loader checks for the pair before inserting. */
  datatype InjuryTypeTable = InjuryTypeTable(rows: seq<InjuryTypeRow>, nextSk: nat)

  function PairOf(row: InjuryTypeRow): (Category, Severity) {
    (row.category, row.severity)
  }

  predicate HasPair(t: InjuryTypeTable, p: (Category, Severity)) {
    exists i :: 0 <= i < |t.rows| && PairOf(t.rows[i]) == p
  }

  ghost predicate NoDuplicatePairs(t: InjuryTypeTable) {
    forall i, j :: 0 <= i < j < |t.rows| ==> PairOf(t.rows[i]) != PairOf(t.rows[j])
  }

  /** `drop_duplicates()`: the first occurrence of each pair, in order. */
  function DropDuplicates(ps: seq<(Category, Severity)>): (r: seq<(Category, Severity)>)
    ensures forall p :: p in r <==> p in ps
    ensures forall i, j :: 0 <= i < j < |r| ==> r[i] != r[j]
  {
    if |ps| == 0 then []
    else
      var prefix := DropDuplicates(ps[..|ps| - 1]);
      var p := ps[|ps| - 1];
      assert ps == ps[..|ps| - 1] + [p];
      if p in prefix then prefix else prefix + [p]
  }

  /** Check for the pair; insert it when absent. */
  function InsertIfAbsent(t: InjuryTypeTable, p: (Category, Severity)): (r: InjuryTypeTable)
    ensures HasPair(r, p)
    ensures HasPair(t, p) ==> r == t
    ensures !HasPair(t, p) ==> r.rows == t.rows + [InjuryTypeRow(t.nextSk, p.0, p.1)]
  {
    if HasPair(t, p) then t
    else
      var r := InjuryTypeTable(t.rows + [InjuryTypeRow(t.nextSk, p.0, p.1)], t.nextSk + 1);
      assert PairOf(r.rows[|t.rows|]) == p;
      r
  }

  function InsertAllIfAbsent(t: InjuryTypeTable, ps: seq<(Category, Severity)>): (r: InjuryTypeTable)
    ensures |t.rows| <= |r.rows| && r.rows[..|t.rows|] == t.rows
    ensures forall p :: p in ps ==> HasPair(r, p)
    ensures forall i :: |t.rows| <= i < |r.rows| ==> PairOf(r.rows[i]) in ps
    ensures forall p :: HasPair(r, p) ==> HasPair(t, p) || p in ps
    ensures NoDuplicatePairs(t) ==> NoDuplicatePairs(r)
    ensures (forall p :: p in ps ==> HasPair(t, p)) ==> r == t
  {
    if |ps| == 0 then t
    else
      var u := InsertAllIfAbsent(t, ps[..|ps| - 1]);
      var p := ps[|ps| - 1];
      assert ps == ps[..|ps| - 1] + [p];
      var r := InsertIfAbsent(u, p);
      assert forall q :: HasPair(u, q) ==> HasPair(r, q) by {
        forall q | HasPair(u, q) ensures HasPair(r, q) {
          var i :| 0 <= i < |u.rows| && PairOf(u.rows[i]) == q;
          assert r.rows[i] == u.rows[i];
        }
      }
      forall q | HasPair(r, q) ensures HasPair(u, q) || q == p {
        var i :| 0 <= i < |r.rows| && PairOf(r.rows[i]) == q;
        if i < |u.rows| { assert r.rows[i] == u.rows[i]; }
      }
      r
  }

  /** The (category, severity) pair of every extracted injury reason. */
  function InjuryPairs(reasons: seq<Option<string>>): (r: seq<(Category, Severity)>)
    ensures |r| == |reasons|
    ensures forall i :: 0 <= i < |reasons| ==> r[i] == Categorize(reasons[i])
  {
    seq(|reasons|, i requires 0 <= i < |reasons| => Categorize(reasons[i]))
  }

  /** The inserts of `load_dim_injury_type` for a non-empty query result. */
  function InsertInjuryTypes(t: InjuryTypeTable, reasons: seq<Option<string>>): (r: InjuryTypeTable)
    ensures |t.rows| <= |r.rows| && r.rows[..|t.rows|] == t.rows
    ensures forall i :: 0 <= i < |reasons| ==> HasPair(r, Categorize(reasons[i]))
    ensures forall i :: |t.rows| <= i < |r.rows| ==> PairOf(r.rows[i]) in InjuryPairs(reasons)
    ensures NoDuplicatePairs(t) ==> NoDuplicatePairs(r)
  {
    var pairs := InjuryPairs(reasons);
    var unique := DropDuplicates(pairs);
    var r := InsertAllIfAbsent(t, unique);
    forall i | 0 <= i < |reasons| ensures HasPair(r, Categorize(reasons[i])) {
      assert pairs[i] in pairs;
      assert pairs[i] in unique;
    }
    r
  }

  /** `load_dim_injury_type`: every extracted reason's pair is present
      afterwards, rows are only appended, and no pair is stored twice. An
      empty result fails at the column assignment. */
  function LoadInjuryTypes(t: InjuryTypeTable, reasons: seq<Option<string>>): (r: Result<InjuryTypeTable, string>)
    ensures r.Err? <==> |reasons| == 0
    ensures r.Ok? ==> |t.rows| <= |r.value.rows| && r.value.rows[..|t.rows|] == t.rows
    ensures r.Ok? ==> forall i :: 0 <= i < |reasons| ==> HasPair(r.value, Categorize(reasons[i]))
    ensures r.Ok? ==> forall i :: |t.rows| <= i < |r.value.rows| ==> PairOf(r.value.rows[i]) in InjuryPairs(reasons)
    ensures r.Ok? ==> NoDuplicatePairs(t) ==> NoDuplicatePairs(r.value)
  {
    if |reasons| == 0 then Err(EmptyFrameAssignment) else Ok(InsertInjuryTypes(t, reasons))
  }

  /** A second run of the injury-type load adds nothing. */
  lemma InjuryTypesRerunAddsNothing(t: InjuryTypeTable, reasons: seq<Option<string>>)
    requires LoadInjuryTypes(t, reasons).Ok?
    ensures LoadInjuryTypes(LoadInjuryTypes(t, reasons).value, reasons) == LoadInjuryTypes(t, reasons)
  {
    var u := LoadInjuryTypes(t, reasons).value;
    var pairs := InjuryPairs(reasons);
    forall p | p in DropDuplicates(pairs) ensures HasPair(u, p) {
      assert p in pairs;
      var i :| 0 <= i < |pairs| && pairs[i] == p;
    }
  }
}
