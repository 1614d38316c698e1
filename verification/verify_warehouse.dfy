/** `verify_warehouse.py`: the verdicts the verification report prints.
    Row counts are given as a function from table name to `COUNT(*)`; the
    player dimension is given as its rows. */
module VerifyWarehouse {
  import opened Values
  import opened PyInt
  import opened Tables
  import opened ReferenceDimensions
  import opened PlayerDimension
  import Autoload

  /** The dimension tables listed by `check_dimensions` and summed by
      `generate_summary_report`. */
  const DimensionTables: seq<string> := [
    "dim_date", "dim_agent", "dim_team", "dim_competition",
    "dim_season", "dim_injury_type", "dim_transfer_type", "dim_player"]

  /** The fact tables listed by `check_facts` and summed by
      `generate_summary_report`, with their descriptions. */
  const FactTables: seq<(string, string)> := [
    ("fact_player_performance", "Player Performance Fact"),
    ("fact_market_value", "Market Value Fact"),
    ("fact_transfer", "Transfer Fact"),
    ("fact_injury", "Injury Fact"),
    ("fact_national_performance", "National Performance Fact"),
    ("fact_teammate_relationship", "Teammate Relationship Fact"),
    ("fact_player_season_summary", "Player Season Summary Fact")]

  // ---------------------------------------------------------------- facts

  /** A line of the fact table report: description, table, count, status. */
  datatype FactLine = FactLine(description: string, table: string, countText: string, status: string)

  /** `check_facts`. */
  function CheckFacts(count: string -> nat): (r: seq<FactLine>)
    ensures |r| == |FactTables|
    ensures forall i :: 0 <= i < |r| ==>
              && r[i].table == FactTables[i].0
              && r[i].description == FactTables[i].1
              && DropCommas(r[i].countText) == FormatNat(count(FactTables[i].0))
              && (r[i].status == "[OK]" <==> count(FactTables[i].0) > 0)
              && (r[i].status == "[EMPTY]" <==> count(FactTables[i].0) == 0)
  {
    seq(|FactTables|, i requires 0 <= i < |FactTables| =>
      var n := count(FactTables[i].0);
      FactLine(FactTables[i].1, FactTables[i].0, FormatGrouped(n), if n > 0 then "[OK]" else "[EMPTY]"))
  }

  // --------------------------------------------------------- data quality

  /** Number of rows of `rows` satisfying `p`. */
  function CountWhere(rows: seq<PlayerVersion>, p: PlayerVersion -> bool): (n: nat)
    ensures n <= |rows|
    ensures n == 0 <==> forall i :: 0 <= i < |rows| ==> !p(rows[i])
  {
    if |rows| == 0 then 0
    else CountWhere(rows[..|rows| - 1], p) + (if p(rows[|rows| - 1]) then 1 else 0)
  }

  /** `is_current = TRUE AND agent_sk IS NULL`. */
  predicate CurrentWithoutAgent(v: PlayerVersion) {
    v.isCurrent && v.agentSk.None?
  }

  /** The current versions carrying the natural key `nk`. */
  function CurrentCount(rows: seq<PlayerVersion>, nk: string): nat {
    if |rows| == 0 then 0
    else CurrentCount(rows[..|rows| - 1], nk) + (if rows[|rows| - 1].isCurrent && rows[|rows| - 1].playerNk == nk then 1 else 0)
  }

  /** The natural keys of the current versions. */
  function CurrentKeys(rows: seq<PlayerVersion>): set<string> {
    set i | 0 <= i < |rows| && rows[i].isCurrent :: rows[i].playerNk
  }

  /** The groups that survive `GROUP BY player_nk HAVING COUNT(*) > 1` over
      the current versions. */
  function DuplicateCurrentKeys(rows: seq<PlayerVersion>): set<string> {
    set nk | nk in CurrentKeys(rows) && CurrentCount(rows, nk) > 1
  }

  /** The groups of a running group count that hold more than one row. */
  function Crowded(groups: map<string, nat>): set<string> {
    set k | k in groups && groups[k] > 1
  }

  lemma CurrentCountSnoc(rows: seq<PlayerVersion>, v: PlayerVersion, nk: string)
    ensures CurrentCount(rows + [v], nk) == CurrentCount(rows, nk) + (if v.isCurrent && v.playerNk == nk then 1 else 0)
  {
    assert (rows + [v])[..|rows|] == rows;
  }

  lemma CurrentKeysSnoc(rows: seq<PlayerVersion>, v: PlayerVersion)
    ensures CurrentKeys(rows + [v]) == CurrentKeys(rows) + (if v.isCurrent then {v.playerNk} else {})
  {
    var s := rows + [v];
    forall k | k in CurrentKeys(rows) ensures k in CurrentKeys(s) {
      var i :| 0 <= i < |rows| && rows[i].isCurrent && rows[i].playerNk == k;
      assert s[i] == rows[i];
    }
    if v.isCurrent {
      assert s[|rows|] == v;
    }
  }

  /** Tallying one more version adds a crowded group exactly when it
      brings a group from one row to two. */
  lemma TallyCrowded(groups: map<string, nat>, v: PlayerVersion)
    requires forall g :: g in groups ==> groups[g] > 0
    ensures |Crowded(Tally(groups, v))| ==
            |Crowded(groups)| + (if v.isCurrent && v.playerNk in groups && groups[v.playerNk] == 1 then 1 else 0)
  {
    if v.isCurrent {
      var k := v.playerNk;
      var c := if k in groups then groups[k] else 0;
      assert Crowded(Tally(groups, v)) == if c == 1 then Crowded(groups) + {k} else Crowded(groups);
      if c == 1 {
        assert k !in Crowded(groups);
      }
    }
  }

  /** `groups` holds, for every natural key with a current version in
      `rows`, how many current versions carry it. */
  ghost predicate Tallies(rows: seq<PlayerVersion>, groups: map<string, nat>) {
    && groups.Keys == CurrentKeys(rows)
    && (forall k :: k in groups ==> groups[k] > 0)
    && (forall k :: CurrentCount(rows, k) == if k in groups then groups[k] else 0)
  }

  /** Adds one version to a running group count. */
  function Tally(groups: map<string, nat>, v: PlayerVersion): map<string, nat> {
    if !v.isCurrent then groups
    else groups[v.playerNk := (if v.playerNk in groups then groups[v.playerNk] else 0) + 1]
  }

  lemma TallyStep(rows: seq<PlayerVersion>, groups: map<string, nat>, v: PlayerVersion)
    requires Tallies(rows, groups)
    ensures Tallies(rows + [v], Tally(groups, v))
  {
    var next := Tally(groups, v);
    CurrentKeysSnoc(rows, v);
    assert next.Keys == groups.Keys + (if v.isCurrent then {v.playerNk} else {});
    forall k ensures CurrentCount(rows + [v], k) == if k in next then next[k] else 0 {
      CurrentCountSnoc(rows, v, k);
    }
  }

  lemma TalliedDuplicates(rows: seq<PlayerVersion>, groups: map<string, nat>)
    requires Tallies(rows, groups)
    ensures Crowded(groups) == DuplicateCurrentKeys(rows)
  {
  }

  /** The duplicate-current-player figure of `check_data_quality`,
      computed the way the query does: one count per natural key over the
      current versions, then the number of keys counted more than once. */
  method CountDuplicateCurrent(rows: seq<PlayerVersion>) returns (n: nat)
    ensures n == |DuplicateCurrentKeys(rows)|
  {
    var groups: map<string, nat> := map[];
    n := 0;
    var i := 0;
    while i < |rows|
      invariant 0 <= i <= |rows|
      invariant Tallies(rows[..i], groups)
      invariant n == |Crowded(groups)|
    {
      var v := rows[i];
      if v.isCurrent && v.playerNk in groups && groups[v.playerNk] == 1 {
        n := n + 1;
      }
      TallyCrowded(groups, v);
      TallyStep(rows[..i], groups, v);
      assert rows[..i + 1] == rows[..i] + [v];
      groups := Tally(groups, v);
      i := i + 1;
    }
    assert rows[..|rows|] == rows;
    TalliedDuplicates(rows, groups);
  }

  /** The inputs of `check_data_quality` other than the player rows: the
      `dim_date` range as printed, and the names of the seasons flagged
      current in the order the query returns them. */
  datatype QualityInputs = QualityInputs(minDate: string, maxDate: string, currentSeasons: seq<string>)

  datatype CheckLine = CheckLine(check: string, result: string, status: string)

  /** The four lines of `check_data_quality`, given the current-season
      names in the order the query lists them. */
  function CheckDataQuality(rows: seq<PlayerVersion>, inputs: QualityInputs): (lines: seq<CheckLine>)
    ensures |lines| == 4
    ensures lines[0].check == "Players without Agent"
    ensures DropCommas(lines[0].result) == FormatNat(CountWhere(rows, CurrentWithoutAgent))
    ensures lines[0].status == "INFO" <==> exists i :: 0 <= i < |rows| && CurrentWithoutAgent(rows[i])
    ensures lines[0].status == "OK" <==> forall i :: 0 <= i < |rows| ==> !CurrentWithoutAgent(rows[i])
    ensures lines[1].check == "Duplicate Current Players"
    ensures DropCommas(lines[1].result) == FormatNat(|DuplicateCurrentKeys(rows)|)
    ensures lines[1].status == "ERROR" <==> DuplicateCurrentKeys(rows) != {}
    ensures lines[1].status == "OK" <==> DuplicateCurrentKeys(rows) == {}
    ensures lines[2] == CheckLine("Date Range Coverage", inputs.minDate + " to " + inputs.maxDate, "OK")
    ensures lines[3].check == "Current Season"
    ensures |inputs.currentSeasons| > 0 ==> lines[3].result == inputs.currentSeasons[0] && lines[3].status == "OK"
    ensures |inputs.currentSeasons| == 0 ==> lines[3].result == "NONE" && lines[3].status == "WARNING"
  {
    var nullAgents := CountWhere(rows, CurrentWithoutAgent);
    var dups := |DuplicateCurrentKeys(rows)|;
    var seasonLine :=
      if |inputs.currentSeasons| > 0 then CheckLine("Current Season", inputs.currentSeasons[0], "OK")
      else CheckLine("Current Season", "NONE", "WARNING");
    [CheckLine("Players without Agent", FormatGrouped(nullAgents), if nullAgents > 0 then "INFO" else "OK"),
     CheckLine("Duplicate Current Players", FormatGrouped(dups), if dups > 0 then "ERROR" else "OK"),
     CheckLine("Date Range Coverage", inputs.minDate + " to " + inputs.maxDate, "OK"),
     seasonLine]
  }

  // ---------------------------------------------------------------- joins

  /** `check_joins` runs its sample join only when
      `fact_player_performance` has rows; otherwise it prints a notice and
      returns. */
  function JoinTestsRun(count: string -> nat): (r: bool)
    ensures r <==> CheckFacts(count)[0].status == "[OK]"
  {
    count("fact_player_performance") != 0
  }

  /** A passing quality validation in the orchestrator implies the join
      tests run: it already demands performance rows. */
  lemma QualityPassRunsJoins(c: Autoload.QualityCounts, count: string -> nat)
    requires count("fact_player_performance") == c.performances
    requires Autoload.ValidateDataQuality(Some(c))
    ensures JoinTestsRun(count)
  {
  }

  // -------------------------------------------------------------- summary

  /** The sum of `count` over `tables`. */
  function SumCounts(tables: seq<string>, count: string -> nat): nat {
    if |tables| == 0 then 0 else SumCounts(tables[..|tables| - 1], count) + count(tables[|tables| - 1])
  }

  lemma {:induction false} SumCountsAppend(a: seq<string>, b: seq<string>, count: string -> nat)
    ensures SumCounts(a + b, count) == SumCounts(a, count) + SumCounts(b, count)
    decreases |b|
  {
    if |b| > 0 {
      assert (a + b)[..|a + b| - 1] == a + b[..|b| - 1];
      SumCountsAppend(a, b[..|b| - 1], count);
    } else {
      assert a + b == a;
    }
  }

  lemma {:induction false} SumCountsZero(tables: seq<string>, count: string -> nat)
    ensures SumCounts(tables, count) == 0 <==> forall i :: 0 <= i < |tables| ==> count(tables[i]) == 0
  {
    if |tables| > 0 {
      SumCountsZero(tables[..|tables| - 1], count);
    }
  }

  /** The fact table names, in report order. */
  function FactNames(): (r: seq<string>)
    ensures |r| == |FactTables|
    ensures forall i :: 0 <= i < |r| ==> r[i] == FactTables[i].0
  {
    seq(|FactTables|, i requires 0 <= i < |FactTables| => FactTables[i].0)
  }

  /** The three totals of `generate_summary_report`. */
  datatype Summary = Summary(dimensionRows: nat, factRows: nat, warehouseRows: nat)

  /** `generate_summary_report` without the two size figures. */
  function SummaryReport(count: string -> nat): (r: Summary)
    ensures r.warehouseRows == r.dimensionRows + r.factRows
    ensures r.warehouseRows == SumCounts(DimensionTables + FactNames(), count)
    ensures r.factRows == 0 <==> forall i :: 0 <= i < |CheckFacts(count)| ==> CheckFacts(count)[i].status == "[EMPTY]"
  {
    var dims := SumCounts(DimensionTables, count);
    var facts := SumCounts(FactNames(), count);
    SumCountsAppend(DimensionTables, FactNames(), count);
    NoFactRowsIffAllEmpty(count);
    Summary(dims, facts, dims + facts)
  }

  lemma NoFactRowsIffAllEmpty(count: string -> nat)
    ensures SumCounts(FactNames(), count) == 0 <==>
            forall i :: 0 <= i < |CheckFacts(count)| ==> CheckFacts(count)[i].status == "[EMPTY]"
  {
    var names := FactNames();
    var lines := CheckFacts(count);
    SumCountsZero(names, count);
    assert forall i :: 0 <= i < |lines| ==> (lines[i].status == "[EMPTY]" <==> count(names[i]) == 0);
  }

  // ------------------------------------------ checks against the loaders

  lemma {:induction false} CurrentCountCountsIndex(rows: seq<PlayerVersion>, a: nat, nk: string)
    requires a < |rows| && rows[a].isCurrent && rows[a].playerNk == nk
    ensures CurrentCount(rows, nk) >= 1 + CurrentCount(rows[..a], nk)
    decreases |rows|
  {
    var last := |rows| - 1;
    if a < last {
      assert rows[..last][..a] == rows[..a];
      CurrentCountCountsIndex(rows[..last], a, nk);
    } else {
      assert rows[..last] == rows[..a];
    }
  }

  lemma TwoCurrentVersionsDuplicate(rows: seq<PlayerVersion>, a: nat, b: nat)
    requires a < b < |rows|
    requires rows[a].isCurrent && rows[b].isCurrent && rows[a].playerNk == rows[b].playerNk
    ensures rows[a].playerNk in DuplicateCurrentKeys(rows)
  {
    var nk := rows[a].playerNk;
    CurrentCountCountsIndex(rows, b, nk);
    assert rows[..b][a] == rows[a];
    CurrentCountCountsIndex(rows[..b], a, nk);
    assert rows[a].playerNk in CurrentKeys(rows);
  }

  lemma {:induction false} UniqueCurrentVersion(rows: seq<PlayerVersion>, nk: string)
    requires forall i, j :: 0 <= i < j < |rows| && rows[i].isCurrent && rows[j].isCurrent ==>
               rows[i].playerNk != nk || rows[j].playerNk != nk
    ensures CurrentCount(rows, nk) <= 1
    ensures CurrentCount(rows, nk) == 0 <==> forall i :: 0 <= i < |rows| ==> !rows[i].isCurrent || rows[i].playerNk != nk
  {
    if |rows| > 0 {
      var last := |rows| - 1;
      UniqueCurrentVersion(rows[..last], nk);
    }
  }

  /** Loading the same profiles twice, as the append-only player loader does,
      leaves two current versions of every loaded player, so the
      "Duplicate Current Players" check reports an error. */
  lemma RerunReportsDuplicates(t0: PlayerTable, t1: PlayerTable, t2: PlayerTable, profiles: seq<DimensionSource.ProfileRow>,
                               agents1: AgentTable, agents2: AgentTable, day1: Date, day2: Date,
                               digest: string -> string, rejected1: set<nat>, rejected2: set<nat>)
    requires LoadPlayers(t0, profiles, agents1, day1, digest, rejected1) == Ok(t1)
    requires LoadPlayers(t1, profiles, agents2, day2, digest, rejected2) == Ok(t2)
    ensures forall i :: 0 <= i < |Extract(profiles)| ==> Extract(profiles)[i].playerId.value in DuplicateCurrentKeys(t2.rows)
  {
    var ex := Extract(profiles);
    forall i | 0 <= i < |ex|
      ensures ex[i].playerId.value in DuplicateCurrentKeys(t2.rows)
    {
      var a, b := |t0.rows| + i, |t1.rows| + i;
      LoadedVersion(t0, profiles, agents1, day1, digest, rejected1, t1, i);
      LoadedVersion(t1, profiles, agents2, day2, digest, rejected2, t2, i);
      assert t2.rows[a] == t2.rows[..|t1.rows|][a] == t1.rows[a];
      TwoCurrentVersionsDuplicate(t2.rows, a, b);
    }
  }

  lemma NoDuplicatesAfterAppend(before: seq<PlayerVersion>, added: seq<PlayerVersion>)
    requires forall v :: v in before ==> !v.isCurrent
    requires forall i, j :: 0 <= i < j < |added| ==> added[i].playerNk != added[j].playerNk
    ensures DuplicateCurrentKeys(before + added) == {}
  {
    var rows := before + added;
    var base := |before|;
    forall i | 0 <= i < base ensures !rows[i].isCurrent {
      assert rows[i] == before[i];
      assert before[i] in before;
    }
    forall nk | nk in CurrentKeys(rows) ensures CurrentCount(rows, nk) <= 1 {
      forall i, j | 0 <= i < j < |rows| && rows[i].isCurrent && rows[j].isCurrent
        ensures rows[i].playerNk != nk || rows[j].playerNk != nk
      {
        assert rows[i] == added[i - base] && rows[j] == added[j - base];
      }
      UniqueCurrentVersion(rows, nk);
    }
  }

  /** A single load of profiles with distinct player ids into a dimension
      with no current versions leaves no duplicate current players. */
  lemma FirstLoadHasNoDuplicates(t0: PlayerTable, t1: PlayerTable, profiles: seq<DimensionSource.ProfileRow>,
                                 agents: AgentTable, today: Date, digest: string -> string, rejected: set<nat>)
    requires forall v :: v in t0.rows ==> !v.isCurrent
    requires forall i, j :: 0 <= i < j < |Extract(profiles)| ==>
               Extract(profiles)[i].playerId != Extract(profiles)[j].playerId
    requires LoadPlayers(t0, profiles, agents, today, digest, rejected) == Ok(t1)
    ensures DuplicateCurrentKeys(t1.rows) == {}
  {
    var ex := Extract(profiles);
    var base := |t0.rows|;
    var added := t1.rows[base..];
    forall k | 0 <= k < |added| ensures added[k].playerNk == ex[k].playerId.value {
      LoadedVersion(t0, profiles, agents, today, digest, rejected, t1, k);
      assert added[k] == t1.rows[base + k];
    }
    if |ex| > 0 {
      LoadedVersion(t0, profiles, agents, today, digest, rejected, t1, 0);
    }
    assert |t1.rows| == base + |ex| && t1.rows[..base] == t0.rows;
    assert t1.rows == t0.rows + added;
    forall i, j | 0 <= i < j < |added| ensures added[i].playerNk != added[j].playerNk {
      assert ex[i].playerId != ex[j].playerId;
    }
    NoDuplicatesAfterAppend(t0.rows, added);
  }

  /** After the season load, the "Current Season" check finds the first
      season name of the source, whichever order the database lists the
      current seasons in. */
  lemma CurrentSeasonAfterLoad(t: SeasonTable, names: seq<string>, listing: seq<string>)
    requires |names| > 0
    requires forall k :: k in t.rows ==> k in names
    requires var r := LoadSeasons(t, names).value;
             (set s | s in listing) == (set k | k in r.rows && r.rows[k].attrs.isCurrent)
    ensures |listing| > 0 && listing[0] == names[0]
  {
    ExactlyOneCurrentSeason(t, names);
    var listed := set s | s in listing;
    assert listed == {names[0]};
    assert names[0] in listed;
    assert listing[0] in listed;
  }
}
