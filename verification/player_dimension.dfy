/** `load_dim_player`, as the code behaves: every extracted profile is
    appended as a new current version (`valid_from` = the run date,
    `valid_to` = NULL, `is_current` = TRUE) with its fingerprint; nothing is
    compared with the rows already stored and no version is ever closed. A
    row the database rejects re-raises, so the load commits nothing. */
module PlayerDimension {
  import opened Values
  import opened PyInt
  import opened Tables
  import opened DimensionSource
  import Fingerprint
  import ReferenceDimensions

  /** The run date, `datetime.now().date()`. */
  datatype Date = Date(year: int, month: int, day: int)

  /** A row of `dw.dim_player`. */
  datatype PlayerVersion = PlayerVersion(
    sk: nat,
    playerNk: string,
    name: string,
    position: Option<string>,
    dateOfBirth: Option<string>,
    height: Option<string>,
    foot: Option<string>,
    currentClubNk: Option<string>,
    currentClubName: Option<string>,
    countryOfBirth: Option<string>,
    citizenship: Option<string>,
    contractExpires: Option<string>,
    agentSk: Option<nat>,
    validFrom: Date,
    validTo: Option<Date>,
    isCurrent: bool,
    sourceRowHash: string)

  /** `dw.dim_player` in insertion order, with its surrogate-key counter. */
  datatype PlayerTable = PlayerTable(rows: seq<PlayerVersion>, nextSk: nat)

  /** The player query keeps profiles with a player id and a player name. */
  predicate Loadable(p: ProfileRow) {
    p.playerId.Some? && p.playerName.Some?
  }

  /** The player query's rows, in the storage order of `player_profiles` (its `ORDER BY p.player_id` is not modelled). */
  function Extract(profiles: seq<ProfileRow>): (r: seq<ProfileRow>)
    ensures forall p :: p in r <==> p in profiles && Loadable(p)
    ensures forall i :: 0 <= i < |r| ==> Loadable(r[i])
    ensures |r| <= |profiles|
  {
    if |profiles| == 0 then []
    else
      var p := profiles[|profiles| - 1];
      assert profiles == profiles[..|profiles| - 1] + [p];
      Extract(profiles[..|profiles| - 1]) + (if Loadable(p) then [p] else [])
  }

  /** `LEFT JOIN dw.dim_agent a ON p.player_agent_id = a.agent_id`: the
      agent's surrogate key, NULL when the id is NULL or unknown. */
  function AgentSk(agents: ReferenceDimensions.AgentTable, agentId: Option<string>): Option<nat> {
    if agentId.Some? && agentId.value in agents.rows then Some(agents.rows[agentId.value].sk) else None
  }

  /** The fingerprinted attributes: name, position, club id, contract end, agent key. */
  function HashArgs(p: ProfileRow, agentSk: Option<nat>): seq<Option<string>> {
    [p.playerName, p.position, p.currentClubId, p.contractExpires,
     match agentSk case Some(k) => Some(FormatInt(k)) case None => None]
  }

  /** The row inserted for one extracted profile: a current version from
      today, open-ended, carrying the profile's columns; its agent key is
      that of the profile's agent when the agent is in the agent dimension
      and NULL otherwise; its fingerprint covers the hashed attributes with
      that agent key. */
  function NewVersion(p: ProfileRow, agents: ReferenceDimensions.AgentTable, today: Date,
                      digest: string -> string, sk: nat): (v: PlayerVersion)
    requires Loadable(p)
    ensures v.sk == sk && v.playerNk == p.playerId.value && v.name == p.playerName.value
    ensures (v.position, v.dateOfBirth, v.height, v.foot, v.currentClubNk, v.currentClubName)
            == (p.position, p.dateOfBirth, p.height, p.foot, p.currentClubId, p.currentClubName)
    ensures (v.countryOfBirth, v.citizenship, v.contractExpires) == (p.countryOfBirth, p.citizenship, p.contractExpires)
    ensures v.isCurrent && v.validTo == None && v.validFrom == today
    ensures v.agentSk.Some? <==> p.agentId.Some? && p.agentId.value in agents.rows
    ensures p.agentId.Some? && p.agentId.value in agents.rows ==> v.agentSk == Some(agents.rows[p.agentId.value].sk)
    ensures v.sourceRowHash == Fingerprint.CalculateHash(digest, HashArgs(p, v.agentSk))
  {
    var agentSk := AgentSk(agents, p.agentId);
    PlayerVersion(sk, p.playerId.value, p.playerName.value, p.position, p.dateOfBirth, p.height, p.foot,
                  p.currentClubId, p.currentClubName, p.countryOfBirth, p.citizenship, p.contractExpires,
                  agentSk, today, None, true, Fingerprint.CalculateHash(digest, HashArgs(p, agentSk)))
  }

  /** The rows inserted for the extracted profiles, keys counted up from `sk`. */
  function NewVersions(ex: seq<ProfileRow>, agents: ReferenceDimensions.AgentTable, today: Date,
                       digest: string -> string, sk: nat): (r: seq<PlayerVersion>)
    requires forall i :: 0 <= i < |ex| ==> Loadable(ex[i])
    ensures |r| == |ex|
    ensures forall i :: 0 <= i < |ex| ==> r[i] == NewVersion(ex[i], agents, today, digest, sk + i)
  {
    if |ex| == 0 then []
    else
      NewVersions(ex[..|ex| - 1], agents, today, digest, sk)
        + [NewVersion(ex[|ex| - 1], agents, today, digest, sk + |ex| - 1)]
  }

  /** The first index below `n` that the database rejects, if any. */
  function FirstRejected(n: nat, rejected: set<nat>): (r: Option<nat>)
    ensures r.Some? ==> r.value < n && r.value in rejected && forall j :: 0 <= j < r.value ==> j !in rejected
    ensures r.None? ==> forall j :: 0 <= j < n ==> j !in rejected
  {
    if n == 0 then None
    else
      match FirstRejected(n - 1, rejected)
      case Some(i) => Some(i)
      case None => if n - 1 in rejected then Some(n - 1) else None
  }

  /** Which extracted row failed and re-raised. */
  datatype LoadError = RowFailed(index: nat, playerNk: string)

  /** `load_dim_player`. `rejected` holds the positions (in `Extract(profiles)`)
      of the rows whose INSERT the database refuses. */
  function LoadPlayers(t: PlayerTable, profiles: seq<ProfileRow>, agents: ReferenceDimensions.AgentTable,
                       today: Date, digest: string -> string, rejected: set<nat>): (r: Result<PlayerTable, LoadError>)
    ensures r.Err? <==> exists i :: 0 <= i < |Extract(profiles)| && i in rejected
    ensures r.Err? ==>
              && r.error.index < |Extract(profiles)|
              && r.error.index in rejected
              && (forall j :: 0 <= j < r.error.index ==> j !in rejected)
              && r.error.playerNk == Extract(profiles)[r.error.index].playerId.value
    ensures r.Ok? ==> r.value.rows == t.rows + NewVersions(Extract(profiles), agents, today, digest, t.nextSk)
    ensures r.Ok? ==> r.value.nextSk == t.nextSk + |Extract(profiles)|
  {
    var ex := Extract(profiles);
    match FirstRejected(|ex|, rejected)
    case Some(i) => Err(RowFailed(i, ex[i].playerId.value))
    case None =>
      var added := NewVersions(ex, agents, today, digest, t.nextSk);
      Ok(PlayerTable(t.rows + added, t.nextSk + |ex|))
  }

  /** The `i`-th row a successful load appends is the new version of the
      `i`-th extracted profile, and the rows before the load are kept. */
  lemma LoadedVersion(t: PlayerTable, profiles: seq<ProfileRow>, agents: ReferenceDimensions.AgentTable,
                      today: Date, digest: string -> string, rejected: set<nat>, loaded: PlayerTable, i: nat)
    requires LoadPlayers(t, profiles, agents, today, digest, rejected) == Ok(loaded)
    requires i < |Extract(profiles)|
    ensures |loaded.rows| == |t.rows| + |Extract(profiles)| && loaded.rows[..|t.rows|] == t.rows
    ensures loaded.rows[|t.rows| + i] == NewVersion(Extract(profiles)[i], agents, today, digest, t.nextSk + i)
  {
    var ex := Extract(profiles);
    var r := LoadPlayers(t, profiles, agents, today, digest, rejected);
    assert r.value == loaded;
    assert loaded.rows == t.rows + NewVersions(ex, agents, today, digest, t.nextSk);
    AppendedVersion(t.rows, ex, agents, today, digest, t.nextSk, i);
  }

  lemma AppendedVersion(rows: seq<PlayerVersion>, ex: seq<ProfileRow>, agents: ReferenceDimensions.AgentTable,
                        today: Date, digest: string -> string, sk: nat, i: nat)
    requires forall j :: 0 <= j < |ex| ==> Loadable(ex[j])
    requires i < |ex|
    ensures var s := rows + NewVersions(ex, agents, today, digest, sk);
            |s| == |rows| + |ex| && s[..|rows|] == rows && s[|rows| + i] == NewVersion(ex[i], agents, today, digest, sk + i)
  {
    var added := NewVersions(ex, agents, today, digest, sk);
    assert (rows + added)[..|rows|] == rows;
    assert (rows + added)[|rows| + i] == added[i];
  }
}
