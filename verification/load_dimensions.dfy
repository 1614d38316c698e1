/** `main` of `load_dimensions.py`: the six dimension loads in dependency
    order (agent, team, competition, season, injury type, player). Each load
    commits at its end, so a load that fails leaves the earlier loads
    committed; its exception ends the script and the later loads never run. */
module LoadDimensions {
  import opened Values
  import opened Tables
  import opened DimensionSource
  import opened ReferenceDimensions
  import opened PlayerDimension

  /** The dimension tables of the `dw` schema that the script writes. */
  datatype Warehouse = Warehouse(
    agents: AgentTable,
    teams: TeamTable,
    competitions: CompetitionTable,
    seasons: SeasonTable,
    injuryTypes: InjuryTypeTable,
    players: PlayerTable)

  datatype Failure =
    | TeamLoadFailed(message: string)
    | CompetitionLoadFailed(message: string)
    | SeasonLoadFailed(message: string)
    | InjuryTypeLoadFailed(message: string)
    | PlayerLoadFailed(error: LoadError)

  datatype RunResult = RunResult(warehouse: Warehouse, failure: Option<Failure>)

  /** The script as written: teams refer to competitions by name. Every table
      holds its own load's result when that load and all before it
      succeeded, and is untouched otherwise; the failure reported is that of
      the first load that failed. */
  function Main(w: Warehouse, src: SourceDb, today: Date, digest: string -> string, rejected: set<nat>): (r: RunResult)
    ensures r.warehouse.agents == LoadAgents(w.agents, src.profiles)
    ensures var teams := LoadTeams(w.teams, src.teamDetails, ByName);
            && r.warehouse.teams == (if teams.Ok? then teams.value else w.teams)
            && (teams.Err? ==> r.failure == Some(TeamLoadFailed(teams.error)))
    ensures var reached := LoadTeams(w.teams, src.teamDetails, ByName).Ok?;
            var competitions := LoadCompetitions(w.competitions, src.teamDetails);
            && r.warehouse.competitions == (if reached && competitions.Ok? then competitions.value else w.competitions)
            && (reached && competitions.Err? ==> r.failure == Some(CompetitionLoadFailed(competitions.error)))
    ensures var reached := LoadTeams(w.teams, src.teamDetails, ByName).Ok?
                           && LoadCompetitions(w.competitions, src.teamDetails).Ok?;
            var seasons := LoadSeasons(w.seasons, src.seasonNames);
            && r.warehouse.seasons == (if reached && seasons.Ok? then seasons.value else w.seasons)
            && (reached && seasons.Err? ==> r.failure == Some(SeasonLoadFailed(seasons.error)))
    ensures var reached := LoadTeams(w.teams, src.teamDetails, ByName).Ok?
                           && LoadCompetitions(w.competitions, src.teamDetails).Ok?
                           && LoadSeasons(w.seasons, src.seasonNames).Ok?;
            var injuryTypes := LoadInjuryTypes(w.injuryTypes, src.injuryReasons);
            && r.warehouse.injuryTypes == (if reached && injuryTypes.Ok? then injuryTypes.value else w.injuryTypes)
            && (reached && injuryTypes.Err? ==> r.failure == Some(InjuryTypeLoadFailed(injuryTypes.error)))
    ensures var reached := LoadTeams(w.teams, src.teamDetails, ByName).Ok?
                           && LoadCompetitions(w.competitions, src.teamDetails).Ok?
                           && LoadSeasons(w.seasons, src.seasonNames).Ok?
                           && LoadInjuryTypes(w.injuryTypes, src.injuryReasons).Ok?;
            var players := LoadPlayers(w.players, src.profiles, r.warehouse.agents, today, digest, rejected);
            && r.warehouse.players == (if reached && players.Ok? then players.value else w.players)
            && (reached && players.Err? ==> r.failure == Some(PlayerLoadFailed(players.error)))
            && (r.failure.None? <==> reached && players.Ok?)
  {
    var agents := LoadAgents(w.agents, src.profiles);
    var w1 := w.(agents := agents);
    match LoadTeams(w.teams, src.teamDetails, ByName)
    case Err(e) => RunResult(w1, Some(TeamLoadFailed(e)))
    case Ok(teams) =>
      var w2 := w1.(teams := teams);
      match LoadCompetitions(w.competitions, src.teamDetails)
      case Err(e) => RunResult(w2, Some(CompetitionLoadFailed(e)))
      case Ok(competitions) =>
        var w3 := w2.(competitions := competitions);
        match LoadSeasons(w.seasons, src.seasonNames)
        case Err(e) => RunResult(w3, Some(SeasonLoadFailed(e)))
        case Ok(seasons) =>
          var w4 := w3.(seasons := seasons);
          match LoadInjuryTypes(w.injuryTypes, src.injuryReasons)
          case Err(e) => RunResult(w4, Some(InjuryTypeLoadFailed(e)))
          case Ok(injuryTypes) =>
            var w5 := w4.(injuryTypes := injuryTypes);
            match LoadPlayers(w.players, src.profiles, agents, today, digest, rejected)
            case Err(e) => RunResult(w5, Some(PlayerLoadFailed(e)))
            case Ok(players) => RunResult(w5.(players := players), None)
  }

  /** Because agents load first, every player whose profile names an agent
      gets that agent's surrogate key: no new version has a NULL `agent_sk`
      unless its profile's agent id is NULL. */
  lemma PlayersResolveFreshAgents(w: Warehouse, src: SourceDb, today: Date, digest: string -> string, rejected: set<nat>)
    requires Main(w, src, today, digest, rejected).failure.None?
    ensures var r := Main(w, src, today, digest, rejected);
            var ex := PlayerDimension.Extract(src.profiles);
            forall i :: 0 <= i < |ex| ==>
              (r.warehouse.players.rows[|w.players.rows| + i].agentSk.Some? <==> ex[i].agentId.Some?)
  {
    var r := Main(w, src, today, digest, rejected);
    ExtractedAgentsKnown(w.agents, src.profiles);
    LoadedResolveAgents(w.players, src.profiles, r.warehouse.agents, today, digest, rejected, r.warehouse.players);
  }

  /** Every agent id named by an extracted profile is a key of `agents`. */
  predicate AgentsKnown(ex: seq<ProfileRow>, agents: AgentTable) {
    forall i :: 0 <= i < |ex| && ex[i].agentId.Some? ==> ex[i].agentId.value in agents.rows
  }

  lemma LoadedResolveAgents(t: PlayerTable, profiles: seq<ProfileRow>, agents: AgentTable,
                            today: Date, digest: string -> string, rejected: set<nat>, loaded: PlayerTable)
    requires LoadPlayers(t, profiles, agents, today, digest, rejected) == Ok(loaded)
    requires AgentsKnown(PlayerDimension.Extract(profiles), agents)
    ensures var ex := PlayerDimension.Extract(profiles);
            forall i :: 0 <= i < |ex| ==> (loaded.rows[|t.rows| + i].agentSk.Some? <==> ex[i].agentId.Some?)
  {
    var ex := PlayerDimension.Extract(profiles);
    forall i | 0 <= i < |ex|
      ensures loaded.rows[|t.rows| + i].agentSk.Some? <==> ex[i].agentId.Some?
    {
      LoadedVersion(t, profiles, agents, today, digest, rejected, loaded, i);
      KnownAgentResolves(ex[i], agents, today, digest, t.nextSk + i);
    }
  }

  /** A profile whose agent, if any, is known gets an agent key iff it names an agent. */
  lemma KnownAgentResolves(p: ProfileRow, agents: AgentTable, today: Date, digest: string -> string, sk: nat)
    requires Loadable(p)
    requires p.agentId.Some? ==> p.agentId.value in agents.rows
    ensures NewVersion(p, agents, today, digest, sk).agentSk.Some? <==> p.agentId.Some?
  {
  }

  lemma ExtractedAgentsKnown(t: AgentTable, profiles: seq<ProfileRow>)
    ensures AgentsKnown(PlayerDimension.Extract(profiles), LoadAgents(t, profiles))
  {
    var ex := PlayerDimension.Extract(profiles);
    forall i | 0 <= i < |ex| && ex[i].agentId.Some?
      ensures ex[i].agentId.value in LoadAgents(t, profiles).rows
    {
      assert ex[i] in profiles;
      assert ex[i].agentId.value in AgentIds(profiles);
    }
  }

  /** Running the script a second time on unchanged source leaves every
      reference dimension as the first run left it, while the player
      dimension receives every extracted profile once more; the second run
      succeeds whenever none of its player inserts is rejected. */
  lemma SecondRunChangesOnlyPlayers(w: Warehouse, src: SourceDb, day1: Date, day2: Date, digest: string -> string,
                                    rejected1: set<nat>, rejected2: set<nat>)
    requires Main(w, src, day1, digest, rejected1).failure.None?
    requires forall i :: 0 <= i < |PlayerDimension.Extract(src.profiles)| ==> i !in rejected2
    ensures var r1 := Main(w, src, day1, digest, rejected1).warehouse;
            var r2 := Main(r1, src, day2, digest, rejected2);
            && r2.failure.None?
            && r2.warehouse == r1.(players := r2.warehouse.players)
            && |r2.warehouse.players.rows| == |r1.players.rows| + |PlayerDimension.Extract(src.profiles)|
  {
    var r1 := Main(w, src, day1, digest, rejected1).warehouse;
    ReferenceLoadsSettle(w, src, r1);
    var r2 := Main(r1, src, day2, digest, rejected2);
    assert LoadPlayers(r1.players, src.profiles, r1.agents, day2, digest, rejected2).Ok?;
  }

  /** Each reference load, applied to the tables a successful run produced,
      gives those tables back. */
  lemma ReferenceLoadsSettle(w: Warehouse, src: SourceDb, r1: Warehouse)
    requires LoadTeams(w.teams, src.teamDetails, ByName).Ok?
    requires LoadCompetitions(w.competitions, src.teamDetails).Ok?
    requires LoadSeasons(w.seasons, src.seasonNames).Ok?
    requires LoadInjuryTypes(w.injuryTypes, src.injuryReasons).Ok?
    requires r1.agents == LoadAgents(w.agents, src.profiles)
    requires r1.teams == LoadTeams(w.teams, src.teamDetails, ByName).value
    requires r1.competitions == LoadCompetitions(w.competitions, src.teamDetails).value
    requires r1.seasons == LoadSeasons(w.seasons, src.seasonNames).value
    requires r1.injuryTypes == LoadInjuryTypes(w.injuryTypes, src.injuryReasons).value
    ensures LoadAgents(r1.agents, src.profiles) == r1.agents
    ensures LoadTeams(r1.teams, src.teamDetails, ByName) == Ok(r1.teams)
    ensures LoadCompetitions(r1.competitions, src.teamDetails) == Ok(r1.competitions)
    ensures LoadSeasons(r1.seasons, src.seasonNames) == Ok(r1.seasons)
    ensures LoadInjuryTypes(r1.injuryTypes, src.injuryReasons) == Ok(r1.injuryTypes)
  {
    UpsertAllIdempotent(w.agents, AgentRows(src.profiles));
    UpsertAllIdempotent(w.teams, TeamRows(src.teamDetails, ByName).value);
    UpsertAllIdempotent(w.competitions, CompetitionRows(src.teamDetails).value);
    var names := src.seasonNames;
    UpsertAllIdempotent(w.seasons, SeasonRows(names, names[0]));
    InjuryTypesRerunAddsNothing(w.injuryTypes, src.injuryReasons);
  }
}
