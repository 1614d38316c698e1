# Football data warehouse: the R2W transformation layer in Dafny

This project models the warehouse-transformation scripts under
`TRANSFORM/R2W`. They read a normalised football database and fill a
star-schema warehouse (schema `dw`). The model covers four scripts:

- **`load_dimensions.py`**: builds the dimension tables.
  - The helpers:
    - the row fingerprint `calculate_hash`;
    - the season parser `parse_season`;
    - the injury classifier `categorize_injury`;
    - the competition-id slug.
  - The `ON CONFLICT DO UPDATE` loads of the agent, team, competition and
    season dimensions.
  - The insert-if-absent load of the injury-type dimension.
  - The player load. It appends one new current version per extracted
    profile and never closes an old one.
  - `main`, which runs the six loads in dependency order.
- **`autoload_etl.py`**: the retrying orchestrator `ETLAutomation`. The
  model covers:
  - the checkpoint map;
  - the bounded retry loop of `run_script`;
  - the quality verdict `validate_data_quality`;
  - the phase sequence of `run_full_pipeline`;
  - the exit codes of `main`.
- **`run_etl.py`**: the plain runner. It runs three scripts in order and
  stops at the first failure.
- **`verify_warehouse.py`**: the status rules of the verification report:
  - `[OK]`/`[EMPTY]` per fact table;
  - the INFO/ERROR/WARNING data-quality lines, including the
    duplicate-current-player count;
  - the rule that skips the join tests;
  - the summary totals.

Everything outside the scripts is a parameter of the model:

| Outside dependency | How the model receives it |
|---|---|
| Database state | The rows of `player_profiles` and `team_details` as sequences in storage order, from which the agent, team, competition and player loaders derive their query rows; the season and injury query results as sequences in the order those queries return them. |
| Child processes | `Subprocess.Outcome` values: an exit code with stdout/stderr, or a raised exception. |
| The clock | Timestamp functions, and the run date. |
| MD5 | An arbitrary `digest: string -> string`. |

Every dimension table is a value. The four upserted dimensions are a map from
natural key to a row with a surrogate key (`Tables.Table`). The injury-type
and player dimensions are sequences of rows in insertion order.

Modules, one per concept:

| Module | File | Models |
|---|---|---|
| `Values` | values.dfy | nullable values (`Option`) and raised errors (`Result`) |
| `Text` | text.dfy | ASCII `str.lower()` and Python's substring test |
| `PyInt` | pyint.dfy | Python `int(s)`, `str(n)` and `f"{n:,}"` |
| `Fingerprint` | fingerprint.dfy | `calculate_hash` |
| `SeasonName` | season_name.dfy | `parse_season` |
| `InjuryCategory` | injury_category.dfy | `categorize_injury` |
| `Tables` | tables.dfy | a natural-key table under `INSERT … ON CONFLICT DO UPDATE` |
| `DimensionSource` | dimension_source.dfy | the source rows the loaders query |
| `ReferenceDimensions` | reference_dimensions.dfy | `load_dim_agent`, `load_dim_team`, `load_dim_competition`, `load_dim_season`, `load_dim_injury_type` |
| `PlayerDimension` | player_dimension.dfy | `load_dim_player` |
| `LoadDimensions` | load_dimensions.dfy | `main` of `load_dimensions.py` |
| `Subprocess` | subprocess.dfy | what a child-script run returns |
| `Checkpoint` | checkpoint.dfy | `load_checkpoint` / `save_checkpoint` |
| `Autoload` | autoload.dfy | `ETLAutomation` and `main` of `autoload_etl.py` |
| `RunEtl` | run_etl.dfy | `run_etl.py` |
| `VerifyWarehouse` | verify_warehouse.dfy | the verdicts of `verify_warehouse.py` |

### Where the code falls short of its own comments

The model follows the code in each case. A lemma or a Finding states the
difference.

- **Fingerprint.** The docstring of `calculate_hash`
  (`load_dimensions.py:31`) calls it change detection. The code joins the
  argument texts without a separator, so text that moves across an argument
  boundary goes unnoticed (`Fingerprint.BoundaryShiftCollides`).
- **Player history.** The docstring and banner of `load_dim_player`
  (`load_dimensions.py:294-295`) announce SCD Type 2 history. The code
  computes the fingerprint and never compares it. Every run appends one
  more current version per player, so a second run leaves two current
  versions of every player. The verification report then flags them
  (`VerifyWarehouse.RerunReportsDuplicates`).
- **Checkpoint.** `ETLAutomation` loads the checkpoint map when it is built
  (`autoload_etl.py:56`, `59-65`) and only ever writes to it afterwards
  (`67-73`). Nothing reads an entry to skip a phase, so every run starts at
  the first phase.
- **Halting.** `run_full_pipeline` returns early after a failed dimension
  or fact load. A failed quality validation only logs a warning
  (`autoload_etl.py:319-320`). The verdict drops, and verification still
  runs (`Autoload.RunFullPipeline`).
- **Season pivot.** The comment at `load_dimensions.py:183` speaks of
  two-digit names such as `'24/25'`. Line 189 pivots any first part, so
  `"2024/25"` starts in year 3924 (`SeasonName.FourDigitFirstPart`).
- **Current season.** The comment at `load_dimensions.py:207` says
  "24/25 or latest". The code marks the first name of a text-descending
  order as current, which is not the latest season once the 1900s and the
  2000s mix (see Findings).

## Model

| member | source | states |
|---|---|---|
| PyInt.ParseFormatRoundTrip | TRANSFORM/R2W/load_dimensions.py:185-195 | `int()` reads back every numeral that `str()` writes, negative ones included: `ParseInt(FormatInt(n)) == Some(n)` |
| PyInt.ParseIntIgnoresPadding | TRANSFORM/R2W/load_dimensions.py:185-186 | whitespace of any length, before and after a season part alike, never changes what `int()` returns: `ParseInt(p + s + q) == ParseInt(s)` for all-space `p` and `q` |
| PyInt.DigitlessIsNotInt | TRANSFORM/R2W/load_dimensions.py:185-186 | a part without any digit always makes `int()` raise |
| PyInt.ParseTwoDigits | TRANSFORM/R2W/load_dimensions.py:185-186 | `int()` of two digits is their decimal value |
| PyInt.FormatGrouped | TRANSFORM/R2W/verify_warehouse.py:77 | the thousands-grouped count `f"{count:,}"` consists of digits and commas, never starts with a comma, has a comma exactly at every fourth place counted from its end, and read without its commas is exactly `str(count)` |
| Fingerprint.PreImageAppend | TRANSFORM/R2W/load_dimensions.py:30-33 | the hashed text of `a + b` is the hashed text of `a` followed by that of `b` |
| Fingerprint.PreImageIsJoin | TRANSFORM/R2W/load_dimensions.py:32 | the hashed text is the left-to-right join of the argument texts, matching `''.join` |
| Fingerprint.NoneHashesAsEmpty | TRANSFORM/R2W/load_dimensions.py:32 | replacing any argument by `None` or by `''` gives the same hash |
| Fingerprint.EqualTextsEqualHashes | TRANSFORM/R2W/load_dimensions.py:30-33 | argument tuples whose texts agree position by position (None read as empty) get equal hashes, whatever the digest |
| Fingerprint.BoundaryShiftCollides | TRANSFORM/R2W/load_dimensions.py:32 | `("ab","c")` and `("a","bc")` hash alike: the fingerprint misses text that moves between arguments |
| SeasonName.ParseSeason | TRANSFORM/R2W/load_dimensions.py:180-201 | whenever a season name parses, its end year is its start year plus one |
| SeasonName.TwoPartSeason | TRANSFORM/R2W/load_dimensions.py:182-192 | `"a/b"` starts in 1900+a when a ≥ 50 and in 2000+a otherwise, and ends a year later; `b` only has to be an int |
| SeasonName.SingleYearSeason | TRANSFORM/R2W/load_dimensions.py:193-197 | `"Y"` is the season from Y to Y+1 |
| SeasonName.BadPartUnparsed | TRANSFORM/R2W/load_dimensions.py:185-201 | a non-integer first or second part makes the name unparsed, i.e. `(None, None)` |
| SeasonName.BadYearUnparsed | TRANSFORM/R2W/load_dimensions.py:195-201 | a name without `/` that is not an int is unparsed |
| SeasonName.FourDigitFirstPart | TRANSFORM/R2W/load_dimensions.py:189 | `"2024/25"` is pivoted like a two-digit year and starts in 3924 |
| SeasonName.TwoParsedParts | TRANSFORM/R2W/load_dimensions.py:182-192 | `p/x` with `p` an int and the text of `x` up to any further `/` an int starts in the pivoted year of `p` and ends a year later |
| SeasonName.TwoDigitNameYears | TRANSFORM/R2W/load_dimensions.py:182-192 | any two-digit name `"ab/cd"` starts in the pivoted year of `ab` and ends a year later |
| InjuryCategory.Categorize | TRANSFORM/R2W/load_dimensions.py:254-263 | Muscular iff a muscle word occurs in the lower-cased text; Bone/Ligament iff no muscle word but a bone word; Joint iff only a joint word; the severity is fixed by the category |
| InjuryCategory.AnyInIsMentions | TRANSFORM/R2W/load_dimensions.py:256 | the `any(word in text …)` scan is true iff some keyword of the group occurs in the text |
| InjuryCategory.MissingInjuryIsOther | TRANSFORM/R2W/load_dimensions.py:255-263 | `None` and `''` both classify as (Other, Low) |
| InjuryCategory.CategorizeIgnoresCase | TRANSFORM/R2W/load_dimensions.py:255 | lower-casing the input first never changes the category |
| InjuryCategory.MuscularSurvivesMoreText | TRANSFORM/R2W/load_dimensions.py:256-257 | the muscle group has precedence: appending any text to a Muscular injury keeps it Muscular |
| Tables.Upsert | TRANSFORM/R2W/load_dimensions.py:55-60 | one `ON CONFLICT DO UPDATE`: the key is present with the new attributes, an existing row keeps its surrogate key, every other row is unchanged, and surrogate keys stay distinct |
| Tables.UpsertAll | TRANSFORM/R2W/load_dimensions.py:62-63 | after the row loop each source key holds the attributes of its LAST source row, keys absent from the source are untouched, existing surrogate keys never change |
| Tables.UpsertAllIdempotent | TRANSFORM/R2W/load_dimensions.py:55-63 | re-running a load on unchanged source leaves the table unchanged |
| Tables.AgreeingRowsDecide | TRANSFORM/R2W/load_dimensions.py:62-63 | when all source rows for a key agree, the stored attributes are theirs, whatever the row order |
| ReferenceDimensions.AgentRows | TRANSFORM/R2W/load_dimensions.py:42-49 | the agent query yields exactly the (agent id, agent name) pairs of profiles whose agent id is not NULL |
| ReferenceDimensions.LoadAgents | TRANSFORM/R2W/load_dimensions.py:55-65 | the agent table gains exactly the profiles' agent ids, each stored name is one a profile gives for that id, other agents are untouched |
| ReferenceDimensions.AgentNameFromConsistentSource | TRANSFORM/R2W/load_dimensions.py:55-63 | an agent whose profiles agree on one name is stored with that name |
| ReferenceDimensions.DivisionLevel | TRANSFORM/R2W/load_dimensions.py:83 | `COALESCE(CAST(SUBSTRING(division FROM '[0-9]+') AS INTEGER), 99)`: NULL gives 99; any level produced lies in PostgreSQL's `INTEGER` range |
| ReferenceDimensions.DivisionLevelOfNumber | TRANSFORM/R2W/load_dimensions.py:83 | a division text with its first number n has level n, or makes the query fail when n exceeds `INTEGER` |
| ReferenceDimensions.DivisionWithoutDigits | TRANSFORM/R2W/load_dimensions.py:83 | a division text without digits has level 99 |
| ReferenceDimensions.CompetitionId | TRANSFORM/R2W/load_dimensions.py:138 | the id has the name's length, and each character is the name's character lower-cased, a space becoming `_`; so the id holds no space and no capital |
| ReferenceDimensions.CompetitionIdIdempotent | TRANSFORM/R2W/load_dimensions.py:138 | slugging an id again changes nothing |
| ReferenceDimensions.CompetitionIdMerges | TRANSFORM/R2W/load_dimensions.py:138 | two names share an id iff they have equal length and agree character by character up to letter case and up to a space against `_`: "Premier League", "premier league" and "premier_league" share one competition row |
| ReferenceDimensions.CompetitionRows | TRANSFORM/R2W/load_dimensions.py:124-138 | the competition rows are exactly the named competitions keyed by their slug; the query fails iff some named competition's division number overflows `INTEGER` |
| ReferenceDimensions.LoadCompetitions | TRANSFORM/R2W/load_dimensions.py:140-157 | the table gains exactly the slugs of the named competitions; each slug's whole record (name, country, tier) is the query row of some source row whose name slugs to it; other rows untouched; fails iff some named competition's division overflows |
| ReferenceDimensions.TeamRows | TRANSFORM/R2W/load_dimensions.py:77-110 | the query's rows are exactly the entries of the source rows with a club id: the club id as text, the name, the country or "Unknown", the competition reference (the `COALESCE`d name as written, or its id) and the tier; the query fails iff a division overflows |
| ReferenceDimensions.LoadTeams | TRANSFORM/R2W/load_dimensions.py:77-112 | the team table gains exactly the club ids; each key's whole record is the query row of a source row with that club id, its `primary_competition_id` being the competition NAME as the code stores it (`ByName`); other rows untouched; fails iff a division overflows |
| ReferenceDimensions.TeamAttrsTraced | TRANSFORM/R2W/load_dimensions.py:103-110 | the record kept for a team key (name, country, competition reference, tier) is the query row of one source row with that club id |
| ReferenceDimensions.TeamCompetitionAsWrittenDangles | TRANSFORM/R2W/load_dimensions.py:108 | as written, a "Premier League" team references a key that the competition load of the same rows never creates |
| ReferenceDimensions.ByNameResolvesOnlySlugs | TRANSFORM/R2W/load_dimensions.py:108 | as written, every loaded team stores its row's `COALESCE`d competition name, and that reference is a competition id of the same rows iff the name is already its own slug (no capital, no space) |
| ReferenceDimensions.TeamCompetitionResolves | TRANSFORM/R2W/load_dimensions.py:138 | with the competition's id stored instead of its name, every loaded team references a competition loaded from the same rows, or the id of "Unknown" when its competition is NULL |
| ReferenceDimensions.SeasonRows | TRANSFORM/R2W/load_dimensions.py:219-226 | one upsert row per season name of the result, in result order, each keyed by its name |
| ReferenceDimensions.MarkSeasons | TRANSFORM/R2W/load_dimensions.py:210-228 | once the current season is chosen, every season of the result is stored with its parsed years and is current iff it is the chosen one; other seasons untouched |
| ReferenceDimensions.LoadSeasons | TRANSFORM/R2W/load_dimensions.py:170-228 | fails iff the query result is empty (the pandas column assignment at lines 203-205 raises on an empty frame); otherwise every season is stored with its parsed years and is current iff it is the FIRST name of the result; other seasons untouched |
| ReferenceDimensions.ExactlyOneCurrentSeason | TRANSFORM/R2W/load_dimensions.py:207-226 | when every stored season reappears in a non-empty result, the load succeeds and exactly one season is current afterwards: the first of the result |
| ReferenceDimensions.SeasonOrderAsWrittenPicksOldest | TRANSFORM/R2W/load_dimensions.py:170-208 | for any two-digit names of the 1900s ("99/00") and of the 2000s ("24/25"), the text-descending order lists the older first, the older parses to the earlier start year, and the load marks the older current and the newer not |
| ReferenceDimensions.Latest | TRANSFORM/R2W/load_dimensions.py:207 | the chosen name is one of the names and no name with a key has a greater key; a name without a key wins only when none has one |
| ReferenceDimensions.LoadSeasonsIntended | TRANSFORM/R2W/load_dimensions.py:203-228 | corrected: fails iff the result is empty; otherwise exactly one extracted season is current, none starts later than it, every season keeps its parsed years and other seasons are untouched |
| ReferenceDimensions.DropDuplicates | TRANSFORM/R2W/load_dimensions.py:270 | `drop_duplicates()` keeps the same set of pairs with no pair twice |
| ReferenceDimensions.InsertIfAbsent | TRANSFORM/R2W/load_dimensions.py:274-286 | afterwards the pair is present; a present pair leaves the table unchanged, an absent one is appended with a fresh key |
| ReferenceDimensions.InsertAllIfAbsent | TRANSFORM/R2W/load_dimensions.py:272-286 | existing rows are kept as a prefix, every pair becomes present, new rows only hold given pairs, no duplicate pair is ever created, and nothing changes when all pairs were present |
| ReferenceDimensions.InsertInjuryTypes | TRANSFORM/R2W/load_dimensions.py:270-288 | the inserts for a non-empty result: old rows kept as a prefix, every reason's pair present afterwards, new rows only hold extracted pairs, and no pair is stored twice |
| ReferenceDimensions.LoadInjuryTypes | TRANSFORM/R2W/load_dimensions.py:240-288 | fails iff the query result is empty (the pandas column assignment at lines 265-267 raises on an empty frame); otherwise every extracted reason's pair is present afterwards, new rows only hold extracted pairs, old rows are kept, and a table without duplicate pairs stays so |
| ReferenceDimensions.InjuryTypesRerunAddsNothing | TRANSFORM/R2W/load_dimensions.py:272-288 | after a successful injury-type load, a second load of the same result succeeds and adds nothing |
| PlayerDimension.Extract | TRANSFORM/R2W/load_dimensions.py:300-320 | the player query keeps exactly the profiles with a player id and a player name |
| PlayerDimension.NewVersion | TRANSFORM/R2W/load_dimensions.py:351-370 | each inserted row is current, starts today, is open-ended, and carries the profile's id, name and other copied columns. Its agent key is the surrogate key of the profile's agent when that agent is in the agent dimension (the LEFT JOIN), and NULL otherwise. Its fingerprint is the hash of name, position, club id, contract end and that agent key |
| PlayerDimension.FirstRejected | TRANSFORM/R2W/load_dimensions.py:351-375 | the row whose failure re-raises is the first rejected one; none before it is rejected |
| PlayerDimension.LoadPlayers | TRANSFORM/R2W/load_dimensions.py:293-380 | the load fails iff some extracted row is rejected, reporting the first one and committing nothing; otherwise the old rows stay as they were and one new version per extracted profile is appended |
| PlayerDimension.LoadedVersion | TRANSFORM/R2W/load_dimensions.py:351-370 | after a successful load, the i-th appended row is the new version of the i-th extracted profile, with the next surrogate key |
| LoadDimensions.Main | TRANSFORM/R2W/load_dimensions.py:391-427 | the agent, team, competition, season, injury-type and player loads run in this order; each table holds its own load's result when that load and all before it succeeded and is untouched otherwise; the failure reported is that of the first failing load; the run fails iff some load fails. Teams store the competition name, as the code does |
| LoadDimensions.PlayersResolveFreshAgents | TRANSFORM/R2W/load_dimensions.py:395-400 | because agents load first, a new player version lacks an agent key only when its profile names no agent |
| LoadDimensions.LoadedResolveAgents | TRANSFORM/R2W/load_dimensions.py:314-316 | when every extracted agent id is in the agent dimension, each appended version has an agent key iff its profile has an agent id |
| LoadDimensions.SecondRunChangesOnlyPlayers | TRANSFORM/R2W/load_dimensions.py:391-400 | after a successful run, a second run on unchanged source, on any day and with its own set of rejected inserts, succeeds whenever none of its player inserts is rejected; it leaves every reference dimension unchanged and appends one more version per extracted profile |
| LoadDimensions.ReferenceLoadsSettle | TRANSFORM/R2W/load_dimensions.py:55-288 | each reference load, applied to the tables a successful run produced, succeeds and gives those tables back |
| Checkpoint.Save | TRANSFORM/R2W/autoload_etl.py:67-73 | the step's entry becomes the new one and every other step's entry is kept |
| Checkpoint.SaveOverwrites | TRANSFORM/R2W/autoload_etl.py:69-73 | a later save of the same step replaces the earlier one entirely |
| Checkpoint.SavesCommute | TRANSFORM/R2W/autoload_etl.py:69-73 | saves of different steps commute |
| Autoload.RunScript | TRANSFORM/R2W/autoload_etl.py:146-194 | succeeds iff some attempt within `max_attempts` exits 0. On success, the result is the first such attempt, its stdout, and a `success` checkpoint with that attempt number. On failure, all attempts were made and only the last one's `failed`/`error` checkpoint and output remain. With no attempt allowed, the result is "Max retries reached" and no checkpoint. It sleeps 5 s before each retry |
| Autoload.RunPhase | TRANSFORM/R2W/autoload_etl.py:139-194 | a phase succeeds iff an attempt within its budget exits 0, and leaves a checkpoint for its script whose status is `success` iff it succeeded |
| Autoload.CountCheckPasses | TRANSFORM/R2W/autoload_etl.py:214-218 | a count line carries the pass mark iff the count is positive |
| Autoload.OrphanCheckPasses | TRANSFORM/R2W/autoload_etl.py:227-231 | the orphan line carries the pass mark iff there are no orphans |
| Autoload.QualityChecksPass | TRANSFORM/R2W/autoload_etl.py:214-240 | every check line carries the pass mark iff the three counts are positive and there are no orphans |
| Autoload.ValidateDataQuality | TRANSFORM/R2W/autoload_etl.py:196-244 | true iff the queries succeed, the three table counts are positive and there are no orphans |
| Autoload.RunLoads | TRANSFORM/R2W/autoload_etl.py:282-309 | the fact load runs only after a successful dimension load, and their checkpoints are the only entries added |
| Autoload.RunFullPipeline | TRANSFORM/R2W/autoload_etl.py:255-370 | the pipeline halts with false before any phase when the database is unreachable, after a failed dimension load, or after a failed fact load. A failed quality check does not halt it. The phase names are recorded in order, and only a last recorded phase can have failed before verification. The verdict is true iff all four phases succeed, i.e. iff the environment lets them. Only the three scripts' checkpoints change |
| Autoload.AutoloadMain | TRANSFORM/R2W/autoload_etl.py:373-386 | exit 3 iff the checkpoint file cannot be loaded, 2 on keyboard interrupt, otherwise 0 iff the pipeline succeeds and 1 iff it does not |
| RunEtl.SameVerdictAsAutoload | TRANSFORM/R2W/run_etl.py:10-33 | for a child that behaves the same on every attempt, the plain runner succeeds iff the automated runner (`autoload_etl.py:147-175`) succeeds within its attempt budget, whatever the retry setting: both accept exactly exit code 0 |
| RunEtl.RunEtlMain | TRANSFORM/R2W/run_etl.py:36-87 | the results follow the fixed step order, stop at the first failure (only the last can be false) and the exit code is 0 iff all three steps succeed, 1 iff one fails |
| VerifyWarehouse.CheckFacts | TRANSFORM/R2W/verify_warehouse.py:62-77 | one line per fact table in the listed order; `[OK]` iff its count is positive, `[EMPTY]` iff zero; the grouped count reads back as the count |
| VerifyWarehouse.CountWhere | TRANSFORM/R2W/verify_warehouse.py:135-141 | a `COUNT(*) … WHERE` is at most the row count and is zero iff no row matches |
| VerifyWarehouse.CountDuplicateCurrent | TRANSFORM/R2W/verify_warehouse.py:145-155 | the `GROUP BY player_nk HAVING COUNT(*) > 1` count over current rows is the number of natural keys with two or more current versions |
| VerifyWarehouse.CheckDataQuality | TRANSFORM/R2W/verify_warehouse.py:132-174 | "Players without Agent" is INFO iff some current row lacks an agent, else OK. "Duplicate Current Players" is ERROR iff some key has two current versions, else OK. "Date Range Coverage" is always OK. "Current Season" is the first listed current season with OK, or NONE with WARNING |
| VerifyWarehouse.JoinTestsRun | TRANSFORM/R2W/verify_warehouse.py:186-192 | the join tests run iff the performance fact table is reported `[OK]` |
| VerifyWarehouse.QualityPassRunsJoins | TRANSFORM/R2W/verify_warehouse.py:187-192 | a passed quality validation in the orchestrator implies that the verification's join tests run |
| VerifyWarehouse.SumCountsAppend | TRANSFORM/R2W/verify_warehouse.py:255-281 | summing the counts over two table lists adds the two sums |
| VerifyWarehouse.SumCountsZero | TRANSFORM/R2W/verify_warehouse.py:270-281 | a total is zero iff every summed table is empty |
| VerifyWarehouse.SummaryReport | TRANSFORM/R2W/verify_warehouse.py:254-300 | the warehouse total is the dimension total plus the fact total, i.e. the sum over all fifteen tables; the fact total is zero iff every fact line is `[EMPTY]` |
| VerifyWarehouse.NoFactRowsIffAllEmpty | TRANSFORM/R2W/verify_warehouse.py:270-281 | the fact total is zero iff `check_facts` reports every fact table `[EMPTY]` |
| VerifyWarehouse.TwoCurrentVersionsDuplicate | TRANSFORM/R2W/verify_warehouse.py:145-154 | two current versions of one natural key make that key a duplicate |
| VerifyWarehouse.UniqueCurrentVersion | TRANSFORM/R2W/verify_warehouse.py:145-154 | without two current versions of a key, its current count is at most one, and zero iff none is current |
| VerifyWarehouse.RerunReportsDuplicates | TRANSFORM/R2W/load_dimensions.py:349-370 | two successful player loads of the same profiles make every extracted player a duplicate current key |
| VerifyWarehouse.NoDuplicatesAfterAppend | TRANSFORM/R2W/verify_warehouse.py:145-154 | appending versions with distinct keys to rows none of which is current creates no duplicate |
| VerifyWarehouse.FirstLoadHasNoDuplicates | TRANSFORM/R2W/load_dimensions.py:349-370 | a first load of profiles with distinct ids into a dimension without current versions leaves no duplicate current key |
| VerifyWarehouse.CurrentSeasonAfterLoad | TRANSFORM/R2W/verify_warehouse.py:167-174 | when every stored season reappears in a non-empty extract, the current-season check after the load reports the first extracted season, in whatever order the database lists the current seasons |

## Left out

- Database access, SQL text, `pd.read_sql`, progress bars, tabulated printing and all logging. The season and injury query results are parameters in the order those queries return them; their `DISTINCT` and `ORDER BY` are assumptions about those parameters.
- LoadDimensions.Main: the `ORDER BY` of the agent, team, competition and player queries (`load_dimensions.py` lines 48, 86, 131 and 319) is not modelled. `AgentRows`, `TeamRows`, `CompetitionRows` and `Extract` take the raw `player_profiles` and `team_details` rows in storage order. So when several rows give one key different attributes, the row that wins is the last in storage order, not the last in the query's order. New surrogate keys, player versions' keys included, are also handed out in storage order.
- LoadDimensions.Main: the INSERT and upsert statements of the agent, team, competition, season and injury-type loads are taken as accepted by the database. Only the player load's refused inserts are modelled (`rejected`). In the program a refused reference insert would also end the script after the earlier commits. `LoadAgents` therefore cannot fail, and `SecondRunChangesOnlyPlayers` relies on this.
- ReferenceDimensions.TextDescending: character-code order stands in for the database collation of `ORDER BY season_name DESC`. A locale-aware collation could order other names differently; for two-digit names (digits and `/` only) the orders agree.
- MD5: `Fingerprint.CalculateHash` applies an arbitrary `digest` to the modelled pre-image.
- PlayerDimension.HashArgs: renders the agent key as an integer numeral and a missing key as `None`, and takes `current_club_id` as its source text. In the source both come from pandas columns, which may hold floats (`12.0`) and NaN (`nan`) when the column is numeric and has a NULL. pandas dtype behaviour is not modelled.
- PlayerDimension.NewVersion: stores `current_club_id` as its source text in `current_club_nk`. The program stores `str(...)` of the pandas value (`load_dimensions.py:360`), which would be `"123.0"` for a numeric column holding a NULL. The same holds for the fingerprint's club id.
- SeasonName.ParseSeason: models Python `int()` on ASCII text only (the ASCII whitespace `str.isspace()` accepts, including 0x1C to 0x1F, a sign, digits and single underscores). Unicode digits and non-ASCII spaces such as U+0085 and U+00A0 are not modelled.
- ReferenceDimensions.LoadSeasons: an unparsed season is stored with NULL years. When some names of the result parse and others do not, pandas makes the year columns floats, so the database receives NaN and `2024.0`-style floats rather than NULL and integers. That dtype behaviour is not modelled.
- ReferenceDimensions.LoadInjuryTypes: the empty-result failure is the pandas column-assignment error; its text is a fixed message in the model.
- LoadDimensions.Main keeps the code as written for teams (`ByName`) and for the current season (first in text order). The corrected definitions `LoadTeams(…, ById)` and `LoadSeasonsIntended` are proved beside it and are not used by `Main`.
- Text.Lower: ASCII letters only. Python's full Unicode case mapping is not modelled.
- PlayerDimension.LoadPlayers: a rejected row is named by its position in `rejected`. The database's reasons for rejecting a row are not modelled.
- `time.sleep`: `Autoload.RunScript` counts the seconds it would wait.
- `datetime.now()` is given as timestamps and the run date.
- `subprocess.run`: each attempt's outcome is given by an oracle.
- Autoload.RunScript: the checkpoint file write is not modelled. If that write raised inside the `try`, the `except` branch would handle it as a failed attempt; that path is left out.
- `create_backup_snapshot`, `get_table_counts` and the final row-count listing of `run_full_pipeline`: their results never affect a verdict. A file error in the snapshot would end in exit code 3; that path is not modelled.
- `send_notification`: it is disabled by configuration and only logs.
- `check_db_connection` is reduced to a boolean: the database is reachable or not.
- Autoload.AutoloadMain: a keyboard interrupt is a boolean that leads to exit code 2. The phases and checkpoints completed before the interrupt are not modelled.
- Checkpoint.Load: JSON parsing is not modelled; a file that does not parse is an `Err`. A file holding valid JSON that is not a map of entries (a list, or a map of other shapes) is not modelled either. The program keeps such a value as loaded, and a list would make the next save raise.
- `check_dimensions`, `check_data_samples` and `check_indexes` only print. The size queries of `generate_summary_report` are left out.
- `load_facts.py`, `TRANSFORM/DATABASE/load_data.py` and `reload_three_tables.py` are not part of this model. The first opens a connection and prints; the other two are bulk CSV copies whose behaviour depends on pandas.
- Postgres sequence gaps: surrogate keys come from a counter.

## Findings

| source | as written | input that shows it | evidently intended | confidence | as-written member | corrected member |
|---|---|---|---|---|---|---|
| TRANSFORM/R2W/load_dimensions.py:108 | `load_dim_team` stores `row['competition_name']` in `primary_competition_id` | a team row with competition "Premier League": the team references "Premier League", while the competition load keys it "premier_league" | the competition's id, the name lower-cased with spaces replaced by `_` (line 138), the key of `dim_competition` | medium, not executed | ReferenceDimensions.ByNameResolvesOnlySlugs | ReferenceDimensions.TeamCompetitionResolves |
| TRANSFORM/R2W/load_dimensions.py:173 | seasons are ordered `ORDER BY season_name DESC`, a text order, and line 208 marks the first one current | the seasons "99/00" and "24/25": "99/00" sorts first and is marked current, although it starts in 1999 and "24/25" in 2024 | the latest season by start year, as the comment at line 207 says ("24/25 or latest") | medium, not executed | ReferenceDimensions.SeasonOrderAsWrittenPicksOldest | ReferenceDimensions.LoadSeasonsIntended |
