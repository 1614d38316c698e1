/** Rows of the source relational tables read by the dimension loaders. Every
    column may be NULL. Values are carried as the text the loaders pass on. */
module DimensionSource {
  import opened Values

  /** A row of `player_profiles`. */
  datatype ProfileRow = ProfileRow(
    playerId: Option<string>,
    playerName: Option<string>,
    position: Option<string>,
    dateOfBirth: Option<string>,
    height: Option<string>,
    foot: Option<string>,
    currentClubId: Option<string>,
    currentClubName: Option<string>,
    countryOfBirth: Option<string>,
    citizenship: Option<string>,
    contractExpires: Option<string>,
    agentId: Option<string>,
    agentName: Option<string>)

  /** A row of `team_details`. */
  datatype TeamDetailsRow = TeamDetailsRow(
    clubId: Option<int>,
    clubName: Option<string>,
    countryName: Option<string>,
    competitionName: Option<string>,
    clubDivision: Option<string>)

  /** The source database as the dimension loaders query it. `profiles` and
      `teamDetails` are the rows of `player_profiles` and `team_details` in
      storage order; the agent, player, team and competition loaders derive
      their query rows from them in that order, not in their queries' `ORDER
      BY` order. `seasonNames` is the result of the season query (distinct
      non-NULL `season_name` values of `player_performances` in descending
      TEXT order, so "99/00" comes before "24/25"; see
      `ReferenceDimensions.TextDescending`) and `injuryReasons` the
      `injury_reason` column of the injury query in its frequency order. */
  datatype SourceDb = SourceDb(
    profiles: seq<ProfileRow>,
    teamDetails: seq<TeamDetailsRow>,
    seasonNames: seq<string>,
    injuryReasons: seq<Option<string>>)
}
