# A verified model of the sports-prediction data pipeline

This project models the data side of a football prediction system. It uses Dafny:

- **Store**: a SQLite database of leagues, teams, matches, odds and stats, each table with its
  uniqueness constraints.
- **Collectors**: six programs that read one source each and write it into the store.
  The sources are football-data.co.uk CSV files, the Kaggle international results,
  FiveThirtyEight SPI matches, openfootball JSON, the football-data.org history API and
  TheSportsDB events.
- **Importer**: a second ingestion path (`database_importer.py`) over the same sources.
- **Form analytics**: the preprocessing of API matches and the team-form features computed
  from past results.
- **Utilities**: the column-name normaliser and the driver that runs the selected collectors.

Modules and their files:

| module | file | what it holds |
|---|---|---|
| Wrappers | wrappers.dfy | `Option` |
| Text, Json, Dates, CsvRows | text.dfy, json.dfy, dates.dfy, csv_rows.dfy | Python's string, `int()`/`float()`/`str()`, `dict.get`, `strptime`/`strftime` and pandas cell conversions, as used by the pipeline |
| Outcome | outcome.dfy | the stored result of a match and its winner |
| Store | store.dfy | the schema of `database_setup.py`, tables as id-ordered rows with a `Valid` uniqueness predicate, `Connection` |
| Resolver | resolver.dfy | the collectors' `_get_or_create_entity_id`, with each copy's source-id policy |
| Upsert | upsert.dfy | the SELECT-then-UPDATE/INSERT and INSERT OR IGNORE paths the collectors use |
| SoccerData, Kaggle, FiveThirtyEight, OpenFootball, FdOrgHistory, TheSportsDb | one file each | each collector's parse-and-store function: row reading, skips and error paths, and what a re-run does |
| ImporterStore, ImporterCsv, ImporterJson, ImporterEvents | importer_*.dfy | the importer's resolvers, its ON CONFLICT inserts and its seven import functions |
| Preprocess, FormFeatures, FormExamples | preprocess.dfy, form_features.dfy, form_examples.dfy | `preprocess_match_data`, `get_team_form_features`, `engineer_form_features` and worked fixtures |
| Columns | columns.dfy | `to_snake_case` and `normalise_dataframe_columns` |
| UpdateAll | update_all.dfy | `run_selected_collectors` |

Code that works on values is modelled as functions and lemmas. Each collector and importer
function is also a method on a `Connection` class, which holds the database in a field
that its statements reassign. The loops of `get_team_form_features`, `engineer_form_features`,
`normalise_dataframe_columns` and `run_selected_collectors` are `while` loops with invariants.
Each of these methods is proved against a specification function. The properties that matter
are proved about that function as lemmas:

- every write keeps every UNIQUE constraint;
- a re-run of the same input writes nothing, or names exactly what it still writes;
- the form counts add up, depend only on which rows the window holds, and are fixed when no tie of dates straddles the window's edge;
- the snake-case conversion is idempotent.

The following are parameters of the model:

- the clock (`datetime.now`, the local time zone);
- date parsing;
- whether one resolve statement faults (a lost INSERT race or a `sqlite3.Error`), for the
  resolvers alone; the collectors and the importer call them fault-free;
- the functions the collector driver calls.

The Dafny members that the collector and importer methods run model the code as written.
Where the code has a bug (see "## Findings"), a corrected definition sits beside the
as-written one, and the lemmas compare the two. Where the documentation and the code
differ, the model follows the code. Examples:

- the Kaggle and TheSportsDB resolvers only fill a NULL source id;
- football-data.org's `INSERT OR IGNORE` never updates a source id;
- the importer's TheSportsDB counter counts every upsert as an update.

## Model

All source paths are under `sports_prediction_ai/src/`.

| member | source | states |
|---|---|---|
| Outcome.DeriveWinner | sports_prediction_ai/src/collect_soccer_data_co_uk.py:216-230 | home greater gives HOME_TEAM, away greater AWAY_TEAM, equal DRAW |
| Outcome.WinnerMirror | sports_prediction_ai/src/collect_kaggle.py:209-217 | exchanging the two scores mirrors the winner (HOME and AWAY swap, DRAW stays) |
| Outcome.Played | sports_prediction_ai/src/collect_openfootball.py:187-202 | a played match is FINISHED with both scores, and consistent: its winner is the one the scores give |
| Outcome.Unplayed | sports_prediction_ai/src/collect_fivethirtyeight.py:194-208 | a status other than FINISHED is stored consistently, with no scores and no winner |
| CsvRows.CellName | sports_prediction_ai/src/collect_soccer_data_co_uk.py:183-188 | a falsy cell (NaN, empty) gives no name; non-empty text gives itself |
| CsvRows.CellScores | sports_prediction_ai/src/collect_soccer_data_co_uk.py:213-230 | two present scores give FINISHED with `int()` of each and their winner, or nothing where `int()` raises; otherwise no scores and no winner |
| Dates.FirstParse | sports_prediction_ai/src/collect_soccer_data_co_uk.py:198-210 | the first format that parses the text wins, and none is found exactly when no format parses it |
| Dates.After | sports_prediction_ai/src/collect_openfootball.py:202 | the comparison is undefined exactly when only one side carries an offset |
| Dates.CompactInjective | sports_prediction_ai/src/collect_soccer_data_co_uk.py:232 | the `%Y%m%d` rendering tells calendar days apart |
| Store.InsertValid | sports_prediction_ai/src/database_setup.py:44-63 | inserting an absent key keeps every UNIQUE constraint, adds one row and leaves the others |
| Store.InsertOrIgnoreValid | sports_prediction_ai/src/database_setup.py:62 | INSERT OR IGNORE keeps the table valid and every row, and the key is present afterwards |
| Store.UpdateValid | sports_prediction_ai/src/database_setup.py:44-63 | an UPDATE that leaves the key columns keeps the table valid, its keys and its ids |
| Store.InsertOrIgnoreStat | sports_prediction_ai/src/database_setup.py:66-77 | a stats row is added exactly when no row clashes with it under the UNIQUE constraint |
| Store.NullPeriodNeverIgnored | sports_prediction_ai/src/database_setup.py:76 | a stats row with a NULL period never clashes, so it is always added |
| Store.InsertOrIgnoreStatUnique | sports_prediction_ai/src/database_setup.py:66-77 | INSERT OR IGNORE keeps the stats rows free of clashes |
| Store.CreateConnection | sports_prediction_ai/src/database_setup.py:7-15 | a connection on the file's database, or None when it cannot be opened |
| Store.CreateTables | sports_prediction_ai/src/database_setup.py:17-103 | every row is left as it was; afterwards the schema holds what it held plus the tables and indexes of the catalog, and nothing else |
| Store.CreateTablesIdempotent | sports_prediction_ai/src/database_setup.py:17-103 | running `create_tables` twice leaves the schema of running it once |
| Json.GetOr | sports_prediction_ai/src/collect_football_data_org_history.py:143-150 | the default is used only for a missing key, not for a null value |
| Json.PyInt | sports_prediction_ai/src/collect_kaggle.py:204-217 | `int(None)` raises, and an integer gives itself |
| Json.PyIntOfText | sports_prediction_ai/src/collect_kaggle.py:204-217 | `int()` of an integer or of its decimal text gives back the same number |
| Text.Strip | sports_prediction_ai/src/update_data_all.py:137-142 | no leading or trailing white space is left, and text without any comes back unchanged |
| Text.StripIsSlice | sports_prediction_ai/src/update_data_all.py:137-142 | the result is a slice of the input, and only white space is cut off either end |
| Text.ParseNatStr | sports_prediction_ai/src/connector_thesportsdb.py:227-230 | `int(str(n))` gives back n |
| Resolver.GetOrCreateEntityId | sports_prediction_ai/src/collect_soccer_data_co_uk.py:56-109 | the SELECT then UPDATE or INSERT on the connection leaves the table the resolution function gives, and returns its id |
| Resolver.MissingNameOrSport | sports_prediction_ai/src/collect_soccer_data_co_uk.py:61-63 | a missing name or sport returns None and writes nothing |
| Resolver.FoundKeepsRows | sports_prediction_ai/src/collect_soccer_data_co_uk.py:70-81 | an existing (name, sport) returns its id, adds no row and changes at most that row's source id, as the policy allows |
| Resolver.CreatedAddsOneRow | sports_prediction_ai/src/collect_soccer_data_co_uk.py:82-95 | a new (name, sport) gets one new row under the next id, which is returned |
| Resolver.RacedReturnsExisting | sports_prediction_ai/src/collect_soccer_data_co_uk.py:97-105 | a lost INSERT race returns the other writer's id and writes none of our values |
| Resolver.FailedWritesNothing | sports_prediction_ai/src/collect_soccer_data_co_uk.py:106-109 | any other `sqlite3.Error` returns None and leaves the table |
| Resolver.ResolveIdempotent | sports_prediction_ai/src/collect_soccer_data_co_uk.py:56-109 | a second resolve of the same entity returns the same id and changes nothing |
| Resolver.FillIfNullKeepsStored | sports_prediction_ai/src/collect_kaggle.py:38-42 | a stored source id is never replaced under fill-if-NULL |
| Resolver.OverwriteStoresSource | sports_prediction_ai/src/collect_openfootball.py:67 | under overwrite an existing row ends up with the supplied source id |
| Resolver.KeepSourceReadsOnly | sports_prediction_ai/src/collect_football_data_org_history.py:42-45 | INSERT OR IGNORE returns an existing row and does not touch the table |
| Resolver.ResolveSettles | sports_prediction_ai/src/collect_soccer_data_co_uk.py:56-109 | after one fault-free resolve, the same resolve is settled |
| Resolver.SettledAfterOther | sports_prediction_ai/src/collect_soccer_data_co_uk.py:190-195 | resolving an entity with another key does not unsettle this one nor change its id |
| Resolver.ResolveTableValid | sports_prediction_ai/src/database_setup.py:28 | resolving keeps the table valid and never removes a row; an id returned is that of the row under the key |
| Resolver.TeamsSettle | sports_prediction_ai/src/collect_soccer_data_co_uk.py:190-195 | after both teams are resolved, resolving them again returns the same ids and writes nothing; two names get two ids |
| Resolver.ResolvePairValid | sports_prediction_ai/src/collect_kaggle.py:186-191 | resolving two teams touches only the teams table and keeps it valid |
| Resolver.ResolvePairSettles | sports_prediction_ai/src/connector_thesportsdb.py:186-200 | resolving two different names again returns the same two different ids and writes nothing |
| Resolver.ResolveDbValid | sports_prediction_ai/src/database_setup.py:22-41 | resolving keeps the whole store valid and never removes a row |
| Resolver.ResolveExtends | sports_prediction_ai/src/collect_kaggle.py:25-63 | without a source id to write, a resolve only adds rows |
| Resolver.SettledPersists | sports_prediction_ai/src/collect_kaggle.py:25-63 | without a source id, a settled resolve stays settled once rows are added |
| Upsert.UpsertMatchRow | sports_prediction_ai/src/collect_openfootball.py:219-247 | the SELECT then UPDATE or INSERT on the connection, with its insert and update counts |
| Upsert.UpsertInsertsAbsent | sports_prediction_ai/src/collect_openfootball.py:242-247 | an absent key is inserted: one more row, holding the payload under the next id |
| Upsert.UpsertUpdatesPresent | sports_prediction_ai/src/collect_openfootball.py:234-240 | a present key keeps its row and id; the row is rewritten exactly when a compared column differs |
| Upsert.UpsertSettles | sports_prediction_ai/src/collect_openfootball.py:219-247 | the same payload a second time is neither inserted nor updated |
| Upsert.FindStatUnique | sports_prediction_ai/src/connector_thesportsdb.py:285-305 | the first index holding the match, team and type is the one found |
| Upsert.UpsertStat | sports_prediction_ai/src/connector_thesportsdb.py:285-305 | the first row for (match, team, type) is rewritten when its value differs; with none, a row with a NULL period is added |
| Upsert.UpsertStatSettles | sports_prediction_ai/src/connector_thesportsdb.py:285-305 | after an upsert the same upsert changes nothing |
| Upsert.UpsertStatOtherTeam | sports_prediction_ai/src/connector_thesportsdb.py:285-305 | the other team's upsert does not move or change this team's row |
| Upsert.UpsertStatUnique | sports_prediction_ai/src/database_setup.py:76 | the stats upsert keeps the UNIQUE constraint |
| Upsert.InsertOrIgnoreKeepsRows | sports_prediction_ai/src/collect_soccer_data_co_uk.py:236-241 | INSERT OR IGNORE keeps every row; the key is present under the id returned; a row was added exactly when the key was absent, holding the payload |
| Upsert.InsertOrIgnoreSettles | sports_prediction_ai/src/collect_kaggle.py:227-231 | a second INSERT OR IGNORE of the key, with any payload, is ignored and finds the same id |
| SoccerData.ReadMatch | sports_prediction_ai/src/collect_soccer_data_co_uk.py:198-232 | a row is skipped for a missing date, a date neither format parses, and a score `int()` rejects |
| SoccerData.SourceMatchIdSeparatesDays | sports_prediction_ai/src/collect_soccer_data_co_uk.py:232 | the same teams on two different days get different ids |
| SoccerData.ParseAndStoreData | sports_prediction_ai/src/collect_soccer_data_co_uk.py:144-256 | the connection ends holding the store the row fold gives for the file, its schema unchanged |
| SoccerData.IncompleteRowSkipped | sports_prediction_ai/src/collect_soccer_data_co_uk.py:183-188 | a row missing either team name is skipped with no write |
| SoccerData.UnreadableRowWritesOnlyTeams | sports_prediction_ai/src/collect_soccer_data_co_uk.py:190-230 | a row whose date or score cannot be read writes at most its two teams |
| SoccerData.StoredMatchUntouched | sports_prediction_ai/src/collect_soccer_data_co_uk.py:236-241 | a match already under the row's key is not rewritten |
| SoccerData.ProcessRowGrows | sports_prediction_ai/src/collect_soccer_data_co_uk.py:176-241 | a row only adds rows to teams and matches and keeps the store valid |
| SoccerData.ProcessRowsAbsorb | sports_prediction_ai/src/collect_soccer_data_co_uk.py:176-241 | after a run of rows, each of them is absorbed |
| SoccerData.ReimportChangesNothing | sports_prediction_ai/src/collect_soccer_data_co_uk.py:144-256 | importing the same file a second time changes no table |
| Kaggle.ReadMatch | sports_prediction_ai/src/collect_kaggle.py:193-224 | a row is skipped for a missing or unparsable date, a rejected score, or a non-text name; a row without both scores is UNKNOWN_SCORE |
| Kaggle.SourceMatchIdSeparatesRows | sports_prediction_ai/src/collect_kaggle.py:221 | rows at different indexes never share an id |
| Kaggle.ParseResults | sports_prediction_ai/src/collect_kaggle.py:152-250 | the connection ends holding the store the row fold gives for the file, its schema unchanged |
| Kaggle.IncompleteRowSkipped | sports_prediction_ai/src/collect_kaggle.py:179-184 | a row missing either team name is skipped with no write |
| Kaggle.UndatedRowWritesOnlyTeams | sports_prediction_ai/src/collect_kaggle.py:193-202 | a row without a date writes at most its two teams |
| Kaggle.LeagueFailureWritesNothing | sports_prediction_ai/src/collect_kaggle.py:172-177 | a league that cannot be resolved stops the file with nothing written |
| Kaggle.ProcessRowGrows | sports_prediction_ai/src/collect_kaggle.py:186-231 | a row only adds teams and matches and keeps the store valid |
| Kaggle.ProcessRowsAbsorb | sports_prediction_ai/src/collect_kaggle.py:186-231 | after a run of rows each of them, at its index, is absorbed |
| Kaggle.ReimportChangesNothing | sports_prediction_ai/src/collect_kaggle.py:152-250 | importing the same file a second time changes no table |
| FiveThirtyEight.ReadConfig | sports_prediction_ai/src/collect_fivethirtyeight.py:147-163 | the configured columns, with defaults for keys left out; None where the sport key is missing |
| FiveThirtyEight.MatchOf | sports_prediction_ai/src/collect_fivethirtyeight.py:183-228 | a row gives no match for a missing or unparsable date, a rejected score, or a missing `file_path` |
| FiveThirtyEight.SourceMatchIdSeparatesDays | sports_prediction_ai/src/collect_fivethirtyeight.py:210 | the same teams and league on two days get different ids |
| FiveThirtyEight.Probabilities | sports_prediction_ai/src/collect_fivethirtyeight.py:233-246 | the three probabilities, only when all are present and parse |
| FiveThirtyEight.StatItems | sports_prediction_ai/src/collect_fivethirtyeight.py:248-269 | SPI home and away, then importance home and away, each only when present |
| FiveThirtyEight.ParseAndStoreSpiMatches | sports_prediction_ai/src/collect_fivethirtyeight.py:121-283 | the connection ends holding the fold of the rows as written: each stored row stops at the counter update after its match insert; a missing sport key writes nothing |
| FiveThirtyEight.AsWrittenRowsWriteNoOddsOrStats | sports_prediction_ai/src/collect_fivethirtyeight.py:213-231 | the whole file, as written, keeps the store valid and leaves odds and stats as they were |
| FiveThirtyEight.AsWrittenWritesNoOddsOrStats | sports_prediction_ai/src/collect_fivethirtyeight.py:231 | as written, a row never writes odds or stats |
| FiveThirtyEight.CorrectedKeepsMatchPath | sports_prediction_ai/src/collect_fivethirtyeight.py:213-269 | with the counter line removed, leagues, teams and matches are written as before, and only odds and stats are added |
| FiveThirtyEight.UndatedRowWritesOnlyEntities | sports_prediction_ai/src/collect_fivethirtyeight.py:183-192 | a row without a date writes no match, odds or stats |
| FiveThirtyEight.OddsWrittenIffProbabilities | sports_prediction_ai/src/collect_fivethirtyeight.py:233-246 | an odds row is present afterwards exactly when it was already there or all three probabilities parse; a new one holds them in home, draw, away order |
| FiveThirtyEight.StatsAppended | sports_prediction_ai/src/collect_fivethirtyeight.py:248-269 | the row's stats items are all appended, none ignored |
| FiveThirtyEight.ProcessRowValid | sports_prediction_ai/src/collect_fivethirtyeight.py:171-269 | a row keeps the store valid |
| FiveThirtyEight.StoreMatchRowSettles | sports_prediction_ai/src/collect_fivethirtyeight.py:171-228 | the match path settles: the same row again finds the same ids and writes nothing |
| FiveThirtyEight.ReprocessDuplicatesStats | sports_prediction_ai/src/collect_fivethirtyeight.py:248-269 | processing a row again leaves leagues, teams, matches and odds, but appends its stats again, since a NULL period never conflicts |
| FiveThirtyEight.ReprocessAsWrittenChangesNothing | sports_prediction_ai/src/collect_fivethirtyeight.py:213-231 | as written, a second pass over a row changes nothing |
| OpenFootball.ExtractTeamName | sports_prediction_ai/src/collect_openfootball.py:121-127 | an object gives its `name`, a string itself, anything else None |
| OpenFootball.MatchDate | sports_prediction_ai/src/collect_openfootball.py:172-185 | a date with a 'T' is read by `fromisoformat` with 'Z' as '+00:00'; any other by `%Y-%m-%d` |
| OpenFootball.ReadResult | sports_prediction_ai/src/collect_openfootball.py:187-202 | a scored match is FINISHED; an unscored one is SCHEDULED or UNKNOWN_SCORE by the clock; None where the score is not an object or the comparison raises |
| OpenFootball.SourceMatchIdSeparatesDays | sports_prediction_ai/src/collect_openfootball.py:209-212 | the same teams and league on two days get different ids |
| OpenFootball.SourceMatchIdHasNoSpace | sports_prediction_ai/src/collect_openfootball.py:209-212 | the id holds no space |
| OpenFootball.ParseAndStoreFootballJson | sports_prediction_ai/src/collect_openfootball.py:130-262 | the document's matches on the connection, with the insert and update counts the upsert returns |
| OpenFootball.IncompleteMatchSkipped | sports_prediction_ai/src/collect_openfootball.py:158-170 | a match that is not an object, or lacks a team name, is skipped with no write |
| OpenFootball.AwareUnscoredSkipped | sports_prediction_ai/src/collect_openfootball.py:202 | an unscored match with a UTC offset, against a naive clock, raises and is never stored |
| OpenFootball.NoLeagueNameCountsNothing | sports_prediction_ai/src/collect_openfootball.py:141-149 | a missing league name stops the file with nothing written |
| OpenFootball.EmptyMatchListWritesOnlyLeague | sports_prediction_ai/src/collect_openfootball.py:151-154 | an empty or missing match list writes only the league and counts nothing |
| OpenFootball.CommitFailureCountsNothing | sports_prediction_ai/src/collect_openfootball.py:256-260 | a failed commit reports zero counts |
| OpenFootball.ReprocessMatchChangesNothing | sports_prediction_ai/src/collect_openfootball.py:158-247 | re-processing an unchanged match, with the clock unchanged, inserts and updates nothing |
| OpenFootball.ProcessMatchesValid | sports_prediction_ai/src/collect_openfootball.py:130-262 | the whole file keeps the store valid |
| FdOrgHistory.TeamSource | sports_prediction_ai/src/collect_football_data_org_history.py:143-161 | a team's source id is `str(id)`, and only for a truthy id |
| FdOrgHistory.ReadScore | sports_prediction_ai/src/collect_football_data_org_history.py:166-179 | the full-time score; None where a truthy `score` or `fullTime` is not an object or `int()` rejects a score; a falsy `fullTime` gives no scores |
| FdOrgHistory.ScoreWinner | sports_prediction_ai/src/collect_football_data_org_history.py:166-179 | the winner is derived whenever both scores are present, whatever the status |
| FdOrgHistory.ReadOdds | sports_prediction_ai/src/collect_football_data_org_history.py:226-256 | the three prices, or None for missing odds, the placeholder message, a None price or a price `float()` rejects |
| FdOrgHistory.UpsertOdds | sports_prediction_ai/src/collect_football_data_org_history.py:226-256 | the odds row is rewritten when a price differs, inserted when absent |
| FdOrgHistory.OddsSettle | sports_prediction_ai/src/collect_football_data_org_history.py:226-256 | the same odds a second time leave the row |
| FdOrgHistory.UpsertOddsValid | sports_prediction_ai/src/collect_football_data_org_history.py:226-256 | the odds upsert keeps the table valid |
| FdOrgHistory.ProcessAndStoreMatches | sports_prediction_ai/src/collect_football_data_org_history.py:122-270 | the batch on the connection: the counts the upserts return and a commit, or, at the first value that is not an object, no counts and no commit with the earlier matches written |
| FdOrgHistory.NonObjectMatchRaises | sports_prediction_ai/src/collect_football_data_org_history.py:141-265 | once the league resolves, a value that is not an object raises out of the function: no counts, no commit, and only the matches before it written |
| FdOrgHistory.CommitIff | sports_prediction_ai/src/collect_football_data_org_history.py:127-270 | the batch commits iff it is not empty, its league resolves, every match is an object and the commit succeeds; it raises iff the league resolves and some match is not an object |
| FdOrgHistory.IncompleteMatchSkipped | sports_prediction_ai/src/collect_football_data_org_history.py:143-161 | an object match whose team is not an object or lacks its name is skipped with no write |
| FdOrgHistory.WinnerNotCompared | sports_prediction_ai/src/collect_football_data_org_history.py:200-205 | a row whose status, scores and kickoff match is left, even when its winner, stage, matchday or ids differ |
| FdOrgHistory.UpdateRewritesPayload | sports_prediction_ai/src/collect_football_data_org_history.py:206-214 | an UPDATE rewrites every payload column |
| FdOrgHistory.RejectedOddsSkipOnlyOdds | sports_prediction_ai/src/collect_football_data_org_history.py:226-256 | rejected odds leave the match as if it had no odds |
| FdOrgHistory.PlaceholderMeansNoOdds | sports_prediction_ai/src/collect_football_data_org_history.py:228 | the placeholder message writes no odds |
| FdOrgHistory.LeagueFailureCountsNothing | sports_prediction_ai/src/collect_football_data_org_history.py:136-139 | an unresolved league stops the batch with zero counts and no match |
| FdOrgHistory.CommitFailureCountsNothing | sports_prediction_ai/src/collect_football_data_org_history.py:264-268 | a failed commit is no commit and reports zero counts, unless the batch raised first |
| FdOrgHistory.ReprocessMatchChangesNothing | sports_prediction_ai/src/collect_football_data_org_history.py:143-256 | re-processing an unchanged match inserts and updates nothing |
| FdOrgHistory.ProcessMatchesValid | sports_prediction_ai/src/collect_football_data_org_history.py:122-270 | the whole batch keeps the store valid |
| TheSportsDb.MapStatus | sports_prediction_ai/src/connector_thesportsdb.py:145-156 | Match Finished is FINISHED; Not Started, Postponed and Cancelled are SCHEDULED; Live is LIVE; any other label is FINISHED exactly when both scores are present, else SCHEDULED |
| TheSportsDb.EventWinner | sports_prediction_ai/src/connector_thesportsdb.py:232-239 | a winner is recorded only for a FINISHED match with both scores |
| TheSportsDb.EventTime | sports_prediction_ai/src/connector_thesportsdb.py:202-225 | only text is accepted; text containing a letter becomes midnight, other text is kept |
| TheSportsDb.Kickoff | sports_prediction_ai/src/connector_thesportsdb.py:202-225 | the date and time in the first of three formats that parses, else the date alone |
| TheSportsDb.ReadEvent | sports_prediction_ai/src/connector_thesportsdb.py:202-243 | an event is kept exactly when its date is truthy, its time and date parse and each score is null or an `int()` value; the kickoff is the parsed instant in ISO form, the status follows `strStatus` (default "Not Started"), the stage is `strRound` and the shots are their text |
| TheSportsDb.ShotItems | sports_prediction_ai/src/connector_thesportsdb.py:285-305 | one item per present shot count, home first and away last |
| TheSportsDb.ProcessAndStoreEvents | sports_prediction_ai/src/connector_thesportsdb.py:158-322 | the batch on the connection: the insert and update counts and a commit, or, at the first value that is not an object, no counts and no commit with the earlier events written |
| TheSportsDb.NonObjectEventRaises | sports_prediction_ai/src/connector_thesportsdb.py:184-316 | once the league resolves, a value that is not an object raises out of the function: no counts, no commit, and only the events before it written |
| TheSportsDb.CommitIff | sports_prediction_ai/src/connector_thesportsdb.py:164-322 | the batch commits iff it is not empty, its league resolves, every event is an object and the commit succeeds; it raises iff the league resolves and some event is not an object |
| TheSportsDb.IncompleteEventSkipped | sports_prediction_ai/src/connector_thesportsdb.py:186-200 | an object event lacking a team name or API team id is skipped with no write |
| TheSportsDb.UndatedEventWritesOnlyTeams | sports_prediction_ai/src/connector_thesportsdb.py:202-225 | an undated event changes only team rows and counts nothing |
| TheSportsDb.CommitFailureCountsNothing | sports_prediction_ai/src/connector_thesportsdb.py:315-319 | a failed commit is no commit and reports zero counts, unless the batch raised first |
| TheSportsDb.ShotsSettle | sports_prediction_ai/src/connector_thesportsdb.py:285-305 | a second pass of the shot upserts finds every value in place |
| TheSportsDb.ReprocessEventChangesNothing | sports_prediction_ai/src/connector_thesportsdb.py:178-305 | re-processing an unchanged event inserts and updates nothing |
| TheSportsDb.UpsertShotsUnique | sports_prediction_ai/src/connector_thesportsdb.py:285-305 | the stats loop keeps the stats UNIQUE constraint |
| TheSportsDb.ProcessEventsValid | sports_prediction_ai/src/connector_thesportsdb.py:158-322 | the whole batch keeps every UNIQUE constraint |
| ImporterStore.GetOrCreateLeagueSpec | sports_prediction_ai/src/database_importer.py:29-48 | found returns its id and writes nothing; new inserts the next id; a race returns the other row; a failure returns None and writes nothing; only `leagues` changes |
| ImporterStore.GetOrCreateLeagueSettles | sports_prediction_ai/src/database_importer.py:29-48 | once resolved, any later resolve returns the same id and writes nothing |
| ImporterStore.GetOrCreateLeagueRow | sports_prediction_ai/src/database_importer.py:29-48 | the SELECT and INSERT on the connection leave it holding the store GetOrCreateLeagueSpec describes and return its id |
| ImporterStore.GetOrCreateTeamRow | sports_prediction_ai/src/database_importer.py:50-73 | the same for a team: the connection ends holding the store GetOrCreateTeamSpec describes |
| ImporterStore.GetOrCreateTeamSpec | sports_prediction_ai/src/database_importer.py:50-73 | a team is looked up by name alone; country, league and source are used only for a new row |
| ImporterStore.GetOrCreateTeamSettles | sports_prediction_ai/src/database_importer.py:50-73 | once resolved, any later resolve returns the same id and writes nothing |
| ImporterStore.ResolveTeamsRow | sports_prediction_ai/src/database_importer.py:116-118 | the home team is resolved before the away team, each on the store the one before left |
| ImporterStore.InsertMatchDoNothingSpec | sports_prediction_ai/src/database_importer.py:123-130 | DO NOTHING adds a row exactly when the key was absent and returns the id under the key |
| ImporterStore.InsertMatchDoNothingSettles | sports_prediction_ai/src/database_importer.py:166-185 | the same statement again, with any payload, adds nothing and returns the same id |
| ImporterStore.InsertMatchDoNothingRow | sports_prediction_ai/src/database_importer.py:123-130 | the statement changes `matches` as InsertMatchDoNothingSpec describes and no other table |
| ImporterStore.AddAbsentSpec | sports_prediction_ai/src/database_importer.py:192-204 | every candidate's key is present afterwards; each row appended is a candidate whose key was new |
| ImporterStore.AddAbsentSettles | sports_prediction_ai/src/database_importer.py:261-270 | the loop run again appends nothing |
| ImporterStore.AddAbsentRows | sports_prediction_ai/src/database_importer.py:192-204 | the SELECT-then-INSERT loop over the candidates ends with the rows and count AddAbsentSpec describes |
| ImporterStore.CheckMatchExists | sports_prediction_ai/src/database_importer.py:75-97 | a match under the source id wins; otherwise one of the same teams and league within two hours either side |
| ImporterStore.ReimportFixpoint | sports_prediction_ai/src/database_importer.py:107-131 | for an absorbing row step, a second import of the same rows changes no table |
| ImporterStore.ImportCountsRows | sports_prediction_ai/src/database_importer.py:129-130 | the import's count is the number of matches it added |
| ImporterCsv.KaggleRowStores | sports_prediction_ai/src/database_importer.py:107-130 | a readable row leaves its league, teams and a match under its key, counted exactly when new |
| ImporterCsv.KaggleReimport | sports_prediction_ai/src/database_importer.py:100-132 | the import only adds rows, counts the matches added, and a second run writes nothing and returns 0 |
| ImporterCsv.KaggleRowOn | sports_prediction_ai/src/database_importer.py:107-131 | one row on the connection writes what KaggleRowStores describes, and a raising row writes nothing |
| ImporterCsv.ImportKaggle | sports_prediction_ai/src/database_importer.py:100-132 | the loop leaves the connection holding the fold of the rows KaggleReimport is about, and returns its match count |
| ImporterCsv.SoccerDataRowStores | sports_prediction_ai/src/database_importer.py:144-204 | a readable row leaves its teams, its match and the prices its columns give, under either column naming |
| ImporterCsv.SoccerDataReimport | sports_prediction_ai/src/database_importer.py:135-207 | the import counts the matches and odds it added, and a second run writes nothing and returns 0, 0 |
| ImporterCsv.SoccerDataMatchOn | sports_prediction_ai/src/database_importer.py:166-204 | the match insert, then, for a match id, every bookmaker as the code names its columns |
| ImporterCsv.SoccerDataRowOn | sports_prediction_ai/src/database_importer.py:144-205 | one row on the connection, with the column naming as written |
| ImporterCsv.ImportSeasonRows | sports_prediction_ai/src/database_importer.py:144-206 | the row loop leaves the connection holding the fold of the rows, with the naming as written |
| ImporterCsv.ImportSoccerData | sports_prediction_ai/src/database_importer.py:135-207 | a missing or unreadable file writes nothing and returns 0, 0; otherwise the league, then the row fold as written |
| ImporterCsv.WilliamHillColumns | sports_prediction_ai/src/database_importer.py:193 | as written, `WHH` is paired with `WDD` and `WAA` |
| ImporterCsv.WilliamHillPricesLost | sports_prediction_ai/src/database_importer.py:192-204 | on a row with William Hill prices, the code as written reads none and the corrected naming reads all three |
| ImporterCsv.CorrectedColumnsFollowNaming | sports_prediction_ai/src/database_importer.py:193 | a home column `<stem>H` pairs with `<stem>D` and `<stem>A` |
| ImporterCsv.OnlyWilliamHillMisread | sports_prediction_ai/src/database_importer.py:143 | William Hill is the only bookmaker the two namings disagree on |
| ImporterCsv.FteMatchStores | sports_prediction_ai/src/database_importer.py:231-270 | a new match is SCHEDULED without scores when a score is NaN, else FINISHED; the stats loop runs for its id |
| ImporterCsv.FteReimport | sports_prediction_ai/src/database_importer.py:210-272 | the import counts the matches and stats it added, and a second run writes nothing and returns 0, 0 |
| ImporterCsv.FteMatchOn | sports_prediction_ai/src/database_importer.py:231-270 | the match insert, then the stats loop for its id, on the connection |
| ImporterCsv.FteRowOn | sports_prediction_ai/src/database_importer.py:221-271 | one row on the connection writes what FteMatchStores describes, and a raising row writes nothing |
| ImporterCsv.ImportFte | sports_prediction_ai/src/database_importer.py:210-272 | the loop leaves the connection holding the fold of the rows and returns 0 odds |
| ImporterJson.FdOrgLeague | sports_prediction_ai/src/database_importer.py:287-291 | None unless the entry and its competition are objects and the name is truthy; otherwise the name and the country of its code: PL England, BL1 Germany, any other none |
| ImporterJson.FdOrgKickoff | sports_prediction_ai/src/database_importer.py:298-302 | None unless `utcDate` is non-empty text; then `strptime`, and where that fails `fromisoformat` with every 'Z' as '+00:00' |
| ImporterJson.FdOrgResult | sports_prediction_ai/src/database_importer.py:303-307 | a non-text status skips the entry; a FINISHED entry is kept exactly when `score.fullTime` is an object whose two scores are null, ints, bools or whole floats, and its scores are those values; a null one makes it UNKNOWN_SCORE |
| ImporterJson.FdOrgDefaultStatus | sports_prediction_ai/src/database_importer.py:303 | an entry without `status` is stored as SCHEDULED |
| ImporterJson.FdOrgRowStores | sports_prediction_ai/src/database_importer.py:286-317 | a readable entry leaves its league, teams and match, counted exactly when new |
| ImporterJson.FdOrgReimport | sports_prediction_ai/src/database_importer.py:275-319 | the import counts the matches it added and 0 odds, and a second run returns 0, 0 |
| ImporterJson.FdOrgRowOn | sports_prediction_ai/src/database_importer.py:286-317 | one entry on the connection writes what FdOrgRowStores describes, and a raising entry writes nothing |
| ImporterJson.ImportFdOrgEntries | sports_prediction_ai/src/database_importer.py:285-318 | the entry loop leaves the connection holding the fold of the entries |
| ImporterJson.ImportFdOrg | sports_prediction_ai/src/database_importer.py:275-319 | a missing or undecodable file, or no matches, gives 0, 0 and writes nothing; a document that raises before the loop writes nothing; otherwise the entry fold |
| ImporterJson.OpenFootballReimport | sports_prediction_ai/src/database_importer.py:322-339 | the league counts once for a named document and each named club once; a second run leaves the store |
| ImporterJson.ClubsCounted | sports_prediction_ai/src/database_importer.py:334-338 | every club with a name is counted once, new or not, and is present afterwards |
| ImporterJson.ImportOpenFootballOn | sports_prediction_ai/src/database_importer.py:322-339 | the league and club resolves on the connection end as OpenFootballReimport describes |
| ImporterJson.TsdbSport | sports_prediction_ai/src/database_importer.py:350 | "soccer" in any case files under Football |
| ImporterJson.TsdbLeaguesReimport | sports_prediction_ai/src/database_importer.py:342-353 | each entry naming a league counts once; only `leagues` changes; a second run leaves the store |
| ImporterJson.ImportTsdbLeaguesOn | sports_prediction_ai/src/database_importer.py:342-353 | the loop on the connection ends as TsdbLeaguesReimport describes; an entry whose sport is not text raises, and the leagues before it stay written |
| ImporterEvents.TsdbStatus | sports_prediction_ai/src/database_importer.py:415-429 | the stored status and scores for the API status label |
| ImporterEvents.TsdbScore | sports_prediction_ai/src/database_importer.py:412-413 | a score exactly when the value is not null and its text strips to digits; for text, the number those digits spell |
| ImporterEvents.TsdbKickoffText | sports_prediction_ai/src/database_importer.py:376-396 | None exactly when neither a non-blank `strTimestamp` nor a non-blank `dateEvent` is given; a timestamp with an offset or longer than a date as it is, a shorter one with `strTime` appended, else the date with `strTime` (default 00:00:00) |
| ImporterEvents.UpsertMatchSpec | sports_prediction_ai/src/database_importer.py:435-444 | the key holds the new status, scores and id; a present key keeps its id and league |
| ImporterEvents.UpsertFixpoint | sports_prediction_ai/src/database_importer.py:435-444 | running the same upserts twice leaves the table as once |
| ImporterEvents.UpsertMatchRow | sports_prediction_ai/src/database_importer.py:435-444 | the upsert changes `matches` as UpsertMatchSpec describes and no other table |
| ImporterEvents.TsdbReimport | sports_prediction_ai/src/database_importer.py:355-529 | the import adds nothing to `added`, keeps every match's id and league, and a second run leaves the store and counts the same |
| ImporterEvents.TsdbEventUpserts | sports_prediction_ai/src/database_importer.py:485-525 | every upsert counts one update and no add |
| ImporterEvents.TsdbEventOn | sports_prediction_ai/src/database_importer.py:360-527 | one event on the connection: skipped, raising or upserted as TsdbEventUpserts describes |
| ImporterEvents.ImportTsdbEventsOn | sports_prediction_ai/src/database_importer.py:355-529 | the event loop leaves the connection holding the fold TsdbReimport is about |
| Preprocess.ExtractScore | sports_prediction_ai/src/data_preprocessing.py:40-43 | a score is read only through a dict `score` holding a dict `fullTime` |
| Preprocess.PreprocessMatchData | sports_prediction_ai/src/data_preprocessing.py:4-63 | None exactly when the matches carry columns but not every required one; a non-list or empty input gives an empty frame; otherwise every row gets its derived columns |
| Preprocess.PreprocessRows | sports_prediction_ai/src/data_preprocessing.py:20-60 | the match id is copied; team and score fields stay None unless their cells are dicts; `utcDate` is parsed exactly when some match carries it |
| FormFeatures.FilterExact | sports_prediction_ai/src/data_preprocessing.py:183-196 | the selection keeps exactly the eligible rows |
| FormFeatures.WindowMostRecent | sports_prediction_ai/src/data_preprocessing.py:203-208 | the window holds the most recent eligible rows, and none left out is later than any kept |
| FormFeatures.TallyPermutation | sports_prediction_ai/src/data_preprocessing.py:214-237 | the counts depend only on which rows are in the window |
| FormFeatures.TallyBalanced | sports_prediction_ai/src/data_preprocessing.py:214-237 | each window row counts once, as win, draw, loss or unscored |
| FormFeatures.AtLeastFromPrefix | sports_prediction_ai/src/data_preprocessing.py:203-208 | in a descending order the rows at or after a date form a prefix |
| FormFeatures.GetTeamFormFeatures | sports_prediction_ai/src/data_preprocessing.py:128-245 | the loop's counts equal the tally of the window |
| FormFeatures.ZeroCases | sports_prediction_ai/src/data_preprocessing.py:158-200 | each early return is the all-zero dictionary under the venue's prefix |
| FormFeatures.FormKeys | sports_prediction_ai/src/data_preprocessing.py:151-156 | the prefix follows the venue and the four keys are distinct |
| FormFeatures.FormBalanced | sports_prediction_ai/src/data_preprocessing.py:214-245 | W + D + L is games played, and games played is the window less its unscored rows |
| FormFeatures.GamesPlayedBound | sports_prediction_ai/src/data_preprocessing.py:203-245 | games played is at most the eligible rows and a non-negative `num_games` |
| FormFeatures.WindowByThreshold | sports_prediction_ai/src/data_preprocessing.py:203-208 | the window is the rows at or after a date, however ties were ordered |
| FormFeatures.MergeAt | sports_prediction_ai/src/data_preprocessing.py:323-339 | every one of the 24 columns holds the statistic of its side, venue and stat |
| FormFeatures.FeatureRowColumns | sports_prediction_ai/src/data_preprocessing.py:286-339 | every fixture gets all 24 columns: zero for a NaT date, otherwise its teams' six forms |
| FormFeatures.ColumnNamesDistinct | sports_prediction_ai/src/data_preprocessing.py:323-329 | the 24 column names are distinct |
| FormFeatures.SameDayExcluded | sports_prediction_ai/src/data_preprocessing.py:306 | a match earlier on the fixture's day is in no window |
| FormFeatures.EngineerFormFeatures | sports_prediction_ai/src/data_preprocessing.py:248-339 | one feature row per fixture, the fixture copied; an empty input gives nothing; with a required column missing every row gets zeros; otherwise each row gets its teams' forms |
| FormExamples.TestFixtureOverallForm | sports_prediction_ai/tests/unit/test_data_preprocessing_features.py:46-93 | the test fixture's form: 1 win, 1 draw, 3 losses, 5 played |
| FormExamples.TestWindow | sports_prediction_ai/tests/unit/test_data_preprocessing_features.py:46-93 | the fixture's window is the five expected matches |
| FormExamples.TieAtWindowEdge | sports_prediction_ai/src/data_preprocessing.py:203-204 | with a tie of dates at the edge of the window, the form follows the order the sort leaves the tied rows in |
| Columns.SplitTrailingCapsKeepsText | sports_prediction_ai/src/utils.py:8 | splitting a trailing run of capitals only inserts an underscore: without underscores the text is unchanged |
| Columns.SplitCamel | sports_prediction_ai/src/utils.py:9 | no lower-case letter or digit is left directly before a capital; every character comes from the input or is an underscore; text without capitals is unchanged |
| Columns.SplitCamelKeepsText | sports_prediction_ai/src/utils.py:9 | the text without underscores is unchanged, and the length grows by one for each lower-case letter or digit followed by a capital |
| Columns.SplitAcronymKeepsText | sports_prediction_ai/src/utils.py:10 | splitting acronyms only inserts underscores: without them the text is unchanged |
| Columns.ToSnakeCase | sports_prediction_ai/src/utils.py:4-11 | `to_snake_case`: the output has no capitals, spaces, hyphens or dots |
| Columns.SnakeCaseKeepsText | sports_prediction_ai/src/utils.py:4-11 | the conversion only inserts or removes underscores: without them, the output is the name lower-cased with its separators replaced |
| Columns.SnakeCaseIdempotent | sports_prediction_ai/src/utils.py:4-11 | `to_snake_case` of its own output changes nothing |
| Columns.WordsSpec | sports_prediction_ai/src/utils.py:24-37 | separator replacement and the filter keep every word character and add none: each output character is a word character of the input (lower-cased) or an underscore |
| Columns.KeepWordCharsAppend | sports_prediction_ai/src/utils.py:33 | the filter works character by character: the filter of two joined pieces is the two filters joined |
| Columns.KeepWordCharsOne | sports_prediction_ai/src/utils.py:33 | a single character is kept exactly when it is a word character; with KeepWordCharsAppend this fixes the output, its order and its repetitions |
| Columns.WordsByPieces | sports_prediction_ai/src/utils.py:31-33 | separator replacement then the filter give, in order, each word character once, one underscore per separator, and nothing for any other character |
| Columns.CleanedSpec | sports_prediction_ai/src/utils.py:24-37 | a cleaned name is lower-case word characters not starting with a digit, and is empty exactly when the name had no word character or separator |
| Columns.NormaliseIdempotent | sports_prediction_ai/src/utils.py:24-37 | a name with a non-empty cleaned form normalises to a fixpoint |
| Columns.FallbackKeepsSymbols | sports_prediction_ai/src/utils.py:35-37 | the fallback can give a non-identifier: `"%"` stays `"%"` |
| Columns.NormaliseDataframeColumns | sports_prediction_ai/src/utils.py:13-40 | None for anything but a frame; otherwise the same frame, each label normalised, their number and order kept |
| UpdateAll.SplitJoin | sports_prediction_ai/src/update_data_all.py:137-142 | joining the split pieces gives the text back |
| UpdateAll.SelectionSpec | sports_prediction_ai/src/update_data_all.py:131-142 | "all" in any case selects every collector in mapping order; otherwise a name is selected exactly when it is known and some piece strips to it |
| UpdateAll.KnownAppend | sports_prediction_ai/src/update_data_all.py:137-142 | names keep their given order and duplicates |
| UpdateAll.Partition | sports_prediction_ai/src/update_data_all.py:153-175 | each selected collector is in exactly one of failed and succeeded |
| UpdateAll.CallsSpec | sports_prediction_ai/src/update_data_all.py:159-169 | only placeholders are not called, and each call carries the arguments its name calls for |
| UpdateAll.SelectCollectors | sports_prediction_ai/src/update_data_all.py:137-146 | the loop builds exactly the selection that SelectionSpec describes |
| UpdateAll.RunSelectedCollectors | sports_prediction_ai/src/update_data_all.py:129-182 | placeholders and raising calls fail, the rest succeed, and the result is true exactly when none failed; an empty selection succeeds with no calls |
| UpdateAll.NoFailureIff | sports_prediction_ai/src/update_data_all.py:172-182 | success exactly when every selected collector is a real function whose call returns |

## Left out

- Network access, downloads, API keys, retries, YAML config loading and each collector's `main()`: these are I/O. Documents and file contents are inputs to the model.
- Printing and logging: no effect on stored data.
- `datetime.now`, the local time zone and `CURRENT_TIMESTAMP`/`updated_at`: the clock is a parameter, and `updated_at` is not stored.
- Date and time parsing (`strptime`, `fromisoformat`, `pd.to_datetime`): each is a parser parameter returning an optional timestamp. The rendering of formats is modelled.
- Transactions and commit internals: a commit is a success flag. Statement faults other than the modelled IntegrityError race and `sqlite3.Error` are left out.
- Floating point: prices and probabilities are rationals. `float()` of text reads whole numbers only, and decimal text is outside the model.
- Json.PyStr: a float with a fractional part renders as a fixed marker, not as Python's `repr`. This reaches every identifier or text built with `str()` of such a value, among them the FiveThirtyEight stats text (FiveThirtyEight.StatOf, through CsvRows.CellStr, collect_fivethirtyeight.py:264).
- ImporterJson.FdOrgResult: a score that is text or a fractional float would be bound and stored by SQLite as it is; the model skips such an entry instead.
- FormFeatures.TeamForm, FormFeatures.GetTeamFormFeatures, FormFeatures.EngineerFormFeatures: history dates that carry a time zone, compared with the naive cutoff at data_preprocessing.py:183-186, raise `TypeError` in pandas; the model compares every date as a naive instant.
- NaN semantics beyond "missing": pandas `to_numeric` is approximated by `int()`.
- Containers bound to TEXT columns: they are modelled as NULL.
- SoccerData.ParseAndStoreData: the outer `try` in `collect_soccer_data_co_uk.py` has no `except`. As written the file does not compile, so the model skips a raising row as the other collectors do.
- SoccerData.ParseAndStoreData: `processed_matches_count` is undefined, so the first stored row raises. The model stops at the match insert and writes no odds or stats, as the code does.
- Kaggle.ParseResults: `processed_matches_count` is undefined, so each stored row raises right after its match insert, which the model follows. After the commit, line 249 formats the same unbound name, so a run that reaches it always raises instead of returning; the method returns nothing, and that final raise is not modelled.
- FiveThirtyEight.ParseAndStoreSpiMatches: after the commit, line 282 formats `processed_matches_count`, which is never assigned, so a run over a non-empty frame always raises there instead of returning. The method's `configError` covers only the missing `sport` key before the loop; the final raise is not modelled.
- The importer's schema: database_importer.py:554 points to `database_setup.py` for the schema, but the tables that file creates (database_setup.py:22-93) lack columns the importer's statements name. There is no `leagues.source`, no `teams.league_id` or `teams.source`, no `matches.datetime` or `matches.source`, no `odds.home_win_odds`, `odds.away_win_odds` or `odds.source`, and no `stats.value_home`, `stats.value_away` or `stats.source`; `teams.sport` is NOT NULL and the team insert does not supply it, and no UNIQUE constraint matches the `ON CONFLICT (datetime, home_team_id, away_team_id, source)` target. Against that schema every importer INSERT (database_importer.py:38, 63, 124, 168, 236) fails. The importer model (ImporterStore.ImportDb and the members built on it) assumes instead a schema inferred from the importer's own statements, with those columns and that conflict key.
- TheSportsDb.ProcessAndStoreEvents: `connector_thesportsdb.py` does not compile as written. The `if __name__` block opened at line 324 holds a `return 0` (line 386) and a `return 0, 0` (line 531) outside any function, and line 634 is a stray line of three backticks. The model treats the function as if its file compiled.
- FiveThirtyEight.ParseAndStoreSpiMatches: line 374 of `collect_fivethirtyeight.py` is a stray line of three backticks, so the file does not compile as written. The model treats the function as if its file compiled.
- Kaggle.ParseResults: line 349 of `collect_kaggle.py` is a stray line of three backticks, so the file does not compile as written. The model treats the function as if its file compiled.
- OpenFootball.ParseAndStoreFootballJson: line 332 of `collect_openfootball.py` is a stray line of three backticks, so the file does not compile as written. The model treats the function as if its file compiled.
- SoccerData.ParseAndStoreData: line 425 of `collect_soccer_data_co_uk.py` is also a stray line of three backticks, besides the missing `except` noted above.
- UpdateAll.RunSelectedCollectors: `update_data_all.py` imports the collectors at lines 19-49 under `except ImportError`, which does not catch the SyntaxError of the files above, so as written the module itself cannot load. The model treats it as if each import either succeeded or fell back to its placeholder.
- File existence, `os.path.basename` and reads of CSV or JSON files: file contents are inputs. ImporterCsv.ImportSoccerData and ImporterJson.ImportFdOrg take None for a missing or unreadable file and then write nothing and return zeros. For ImporterCsv.ImportKaggle and ImporterCsv.ImportFte a missing or unreadable file is given as no rows, which writes nothing and returns zeros, as the code does.
- Json.PyInt: `int()` of text reads surrounding white space, an optional sign and ASCII digits; underscores between digits and non-ASCII digits are not modelled, and such text counts as rejected (this reaches FdOrgHistory.ReadScore and the other score readers).
- Match lists that are neither lists nor objects are treated as empty.
- Unicode: `\w`, `str.lower`, `isdigit` and `strip` are modelled on ASCII. Text.IsSpace takes the ASCII white space Python's `strip` removes, 0x1C-0x1F included; `\x85`, `\xa0` and the other Unicode spaces, and case folding, are not modelled.
- Columns.SplitCamel, Columns.SplitAcronym, Columns.SplitTrailingCaps: each is written out as the string function that regex substitution computes, not as regex matching.
- Columns.DataFrame: only the column labels are modelled, not the data.
- Preprocess.PreprocessMatchData: items that are not dicts are not modelled, nor is pandas turning them into NaN rows.
- UpdateAll.RunSelectedCollectors: the check that a collector is a placeholder (line 159) compares `__name__`. That name is a parameter, because the fallback definitions at lines 16-52 carry their own names.
- The collectors' own behaviour, inside the driver: a parameter saying whether each call raises.
- `create_tables` error handling and `main()`/argument parsing of `database_setup.py` and `update_data_all.py`: this is I/O.
- Pandas' unstable sort: the model sorts with insertion sort, which keeps tied dates in history order; pandas does not promise that order. The counts depend only on which rows the window holds (FormFeatures.TallyPermutation), and the window is fixed when no tie straddles its edge (FormFeatures.WindowByThreshold); a tie that straddles it can change the form (FormExamples.TieAtWindowEdge).

## Findings

| source | as written | input that shows it | evidently intended | confidence | as-written member | corrected member |
|---|---|---|---|---|---|---|
| sports_prediction_ai/src/collect_fivethirtyeight.py:231 | `processed_matches_count += 1` on a name never assigned raises right after the match insert, so no odds or stats are ever written | any row with a date, a league and two teams | the counter is never read; odds and stats are written after the match | not executed | FiveThirtyEight.AsWrittenWritesNoOddsOrStats | FiveThirtyEight.OddsWrittenIffProbabilities |
| sports_prediction_ai/src/database_importer.py:193 | `col_prefix.replace('H','D')` turns `WHH` into `WDD` (and `WAA`), so the William Hill prices are never read | a row with `WHH`, `WHD`, `WHA` set | the draw and away columns are the home column with its last letter changed | not executed | ImporterCsv.WilliamHillPricesLost | ImporterCsv.CorrectedColumnsFollowNaming |
