# Football scorekeeper — a verified model of its game logic

The football scorekeeper is a live scoring application. One operator keeps a
single active game up to date: score, clock, down and distance, ball
position, timeouts, the play-by-play log and the two rosters. Viewers poll a
read-only game view. This project models, in Dafny, the logic under those
screens and proves properties of it:

- **The play-outcome engine** (`Engine`). It covers `calculateNewSituation`,
  kickoff and punt field position, and the play text `processPlay` writes.
- **The roster store** (`Roster`, `CsvLine`, `CsvImport`, `RosterCsv`). It
  covers player lookups, adding and removing players, kicker assignment, and
  CSV import and export.
- **The player-statistics panel** (`PlayParse`, `PlayerStats`). It re-reads
  play texts into per-player events, then folds them into summaries, team
  totals and the sorted team view.
- **The game view** (`Gamecast`). It covers yard-line notation, the down
  ordinal, timeout slots and possession dividers.
- **The scoring panel** (`Scorekeeper`). It covers field goals, the point
  buttons, the score and quarter buttons, timeout restoring and the clock
  editor.
- **The client's game session** (`Session`). It covers the situation fields
  each action overwrites, the clock tick, the time format, and the requests
  sent to the server, in order.
- **Player lookup by jersey number** (`Lookup`).
- **The two servers.**
  - `Store` models the games, plays and users tables as maps with
    autoincrement counters, plus the PUT allow-list. The `UNIQUE` username
    column is part of the database invariant, so a name finds one user.
  - `Auth` models the token middleware.
  - `ApiRoutes` gives each route's status and effect for the hosted API.
  - `ServerRoutes` does the same for the SQLite server, where it differs.
- **The timeout-restore request end to end** (`TimeoutRestore`). See
  Findings.

The model follows the code where the design description of the system says
otherwise:

- **Engine branch order.** The engine tests first down, then turnover on
  downs, then safety, then touchdown. A gain of at least the distance that
  crosses the goal line is a first down at the 99. A fourth-down play that
  crosses a goal line is a turnover.
- **Fourth-down incomplete pass.** It mirrors the yard line (100 − yardLine).
  The design says it is left unchanged.
- **Suffix on incomplete passes.** An incomplete pass gets the outcome
  suffix like any other play.
- **No re-sort before parsing.** The statistics panel parses the play log in
  the order it receives it. It does not re-sort it chronologically.
- **TD button.** It adds six points and logs no play.
- **Next Quarter.** The scorekeeper panel's button wraps 4 to 1
  (`Scorekeeper.NextQuarterCycles`). The session's `nextQuarter` stops at 4
  (`Session.GameSession.NextQuarter`). Both are modelled.

Calls into code the model cannot see become parameters:

- JWT verification and signing.
- Password hashing and comparison.
- `Date.now()`.

Time, the network, the UI and the SQL engine are not modelled.

## Model

| member | source | states |
|---|---|---|
| Common.Clamp | client/src/components/StatsManager.js:200 | the result lies in [lo, hi]; it is v inside the range, lo below it and hi above it |
| Common.TrimTrims | client/src/components/StatsManager.js:108 | trim leaves no surrounding whitespace; a trimmed string is unchanged; the result is empty exactly when every character is whitespace |
| Common.JoinSplit | client/src/components/StatsManager.js:103 | joining the pieces of a split with the separator gives back the text |
| Common.SplitJoin | client/src/components/StatsManager.js:110 | splitting a join of separator-free pieces gives back the pieces |
| Common.PadStart2 | client/src/App.js:310 | a string of two or more characters is unchanged; a shorter one becomes two characters ending in it |
| Roster.FindByNumber | client/src/components/StatsManager.js:153 | the index of the first player wearing the number, or none when nobody wears it |
| Roster.FindById | client/src/components/StatsManager.js:63 | the index of the first player with the id, or none when no player has it |
| Roster.GetPlayerName | client/src/components/StatsManager.js:151-155 | "" for an empty number; the name of the first roster player wearing it; `#number` when nobody does |
| Roster.KickerLabel | client/src/components/StatsManager.js:59-65 | nothing without an assigned kicker, for the id 0, or for an id no rostered player has; otherwise exactly "name #number" of the first player with the assigned id |
| Roster.KickerName | client/src/components/ScorekeeperView.js:135-141 | nothing without an assigned kicker, for the id 0, or for an id no rostered player has; otherwise exactly the name of the first player with the assigned id |
| Roster.MatchesAnyIff | client/src/components/StatsManager.js:171 | the case-insensitive `some` holds exactly when some listed position equals the lowered position |
| Roster.FilterPositionMembers | client/src/components/StatsManager.js:170-177 | the filter keeps exactly the players whose match result is the one asked for |
| Roster.FilterPositionSplits | client/src/components/StatsManager.js:174-179 | the matching players and the others together are a permutation of the roster |
| Roster.FilterPositionAppend | client/src/components/StatsManager.js:170-177 | the filter works player by player: it distributes over concatenation, so it keeps roster order |
| Roster.FilterPositionSingle | client/src/components/StatsManager.js:170-177 | one player is kept exactly when its match result is the one asked for |
| Roster.GetPlayersByPosition | client/src/components/StatsManager.js:168-182 | without `includeOthers`, exactly the players with a listed position, in roster order; with it, those players followed by all the others, each part in roster order; a player with a listed position never follows one without |
| Roster.AddPlayer | client/src/components/StatsManager.js:68-77 | an empty number or name changes nothing; otherwise the player is appended to that team only |
| Roster.WithoutId | client/src/components/StatsManager.js:83 | exactly the players whose id differs remain; a roster without the id is unchanged |
| Roster.WithoutIdAppend | client/src/components/StatsManager.js:83 | the id filter distributes over concatenation, so the kept players stay in roster order |
| Roster.WithoutIdSingle | client/src/components/StatsManager.js:83 | one player is kept exactly when its id differs |
| Roster.WithoutIdCounts | client/src/components/StatsManager.js:83 | every player whose id differs keeps all its copies; none with the id remains |
| Roster.RemovePlayer | client/src/components/StatsManager.js:80-92 | the team's roster becomes its `filter` by id: the other players, in roster order, every copy kept; the other roster is untouched; the team's kicker is cleared only when it was that id |
| Roster.AssignKicker | client/src/components/StatsManager.js:49-56 | the team's kicker becomes the id; the other team's is kept |
| CsvLine.ParseCsvLine | client/src/components/StatsManager.js:108-113 | a player is produced only with a non-empty number and name, and carries the line's id; a blank line gives nothing |
| CsvLine.ParseCsvRow | client/src/components/StatsManager.js:108-113 | a row written by the export reads back as the same player with the new id |
| CsvLine.ParseCsvLineFields | client/src/components/StatsManager.js:108-113 | a line of comma-free fields gives a player exactly when its trimmed first two fields are non-empty, and then with the trimmed number, name and position |
| CsvLine.ParsedPlayerExportable | client/src/components/StatsManager.js:108-139 | a player read from a one-line entry has trimmed fields free of commas and line breaks, so the export can write it |
| CsvLine.CsvLineRoundTrip | client/src/components/StatsManager.js:108-139 | a player read from a line, written back as an export row, reads back as the same player with the new id |
| CsvImport.ImportLines | client/src/components/StatsManager.js:104-115 | the import loop collects the player of every data line, in line order |
| CsvImport.ImportCsv | client/src/components/StatsManager.js:102-115 | the file is split into lines, then read by the import loop |
| RosterCsv.AppendImported | client/src/components/StatsManager.js:117-120 | the imported players go after the team's roster; the other team is untouched |
| RosterCsv.CsvRows | client/src/components/StatsManager.js:139 | one `number,name,position` row per player, in order |
| RosterCsv.ExportCsv | client/src/components/StatsManager.js:131-139 | nothing for an empty roster; otherwise text starting with the header line |
| RosterCsv.ExportImportRoundTrip | client/src/components/StatsManager.js:103-139 | importing an exported roster gives back its players, in order, player i of the file with the id now + i + 1 |
| Engine.NextSituation | client/src/components/StatsManager.js:185-244 | from down 1..4, a positive distance and a ball in 1..99, every play leads to the same ranges |
| Engine.CalculateNewSituation | client/src/components/StatsManager.js:185-244 | the ball goes to the other team exactly on a turnover on downs, a safety or a touchdown; every outcome but a normal play gives first and ten; the ball always ends in 1..99 |
| Engine.OutcomeBallPlacement | client/src/components/StatsManager.js:196-243 | a first down or normal play puts the ball at the new spot clamped to 1..99, same team; a turnover on downs at the mirrored spot clamped, other team; a safety at the 20 and a touchdown at the 25, other team |
| Engine.FirstDownIgnoresDirection | client/src/components/StatsManager.js:187-196 | the first-down test compares the raw yards with the distance, whatever the field direction |
| Engine.PossessionChangesIff | client/src/components/StatsManager.js:196-243 | the ball changes hands exactly on a turnover on downs, a safety or a touchdown |
| Engine.OutcomeCharacterised | client/src/components/StatsManager.js:196-243 | each outcome holds exactly under its condition, in branch order; scoring and turnover outcomes give first and ten; a normal play gives down + 1 and distance − yards ≥ 1 |
| Engine.LongGainIsFirstDownAt99 | client/src/components/StatsManager.js:196-203 | a gain of at least the distance that crosses the goal line is a first down at the 99, not a touchdown |
| Engine.FourthDownIsTurnover | client/src/components/StatsManager.js:206-214 | on fourth down, short of the distance, the outcome is a turnover whatever the ball crosses |
| Engine.FourthDownIncompleteMirrors | client/src/components/StatsManager.js:206-214 | a fourth-down incomplete pass gives the other team first and ten at 100 − yardLine |
| Engine.KickFieldPosition | client/src/components/StatsManager.js:264-266 | N on the home side, 100 − N on the away side, within 0..100 |
| Engine.KickFieldPositionSides | client/src/components/StatsManager.js:264-266 | the two sides' positions add up to 100 and agree at midfield |
| Engine.OutcomeSuffix | client/src/components/StatsManager.js:337-348 | a normal play, and only a normal play, gets no suffix |
| Engine.ProcessPlay | client/src/components/StatsManager.js:247-361 | nothing without yardage or a kick yard line; a kick gives the receiving team first and ten at the kick position with the kick text; a scrimmage play gives the engine's situation and the play text with at most one outcome suffix, logged for the possessing team |
| Gamecast.DisplayMidfield | client/src/components/GamecastView.js:27-29 | the 50 shows as "50" |
| Gamecast.DisplayOwnHalf | client/src/components/GamecastView.js:31-34 | below 50 the ball shows against the possessing team |
| Gamecast.DisplayOpponentHalf | client/src/components/GamecastView.js:35-40 | 51..99 show against the opponent as 49..1 |
| Gamecast.DisplaySymmetric | client/src/components/GamecastView.js:26-41 | a spot seen with home possession reads as its mirror seen with away possession |
| Gamecast.DownSuffix | client/src/components/GamecastView.js:120 | "st", "nd", "rd", "th" for downs 1, 2, 3, 4; nothing for any other down |
| Gamecast.DownAndDistanceReadsBack | client/src/components/GamecastView.js:120 | the down-and-distance text is the down's digit, its ordinal, " & " and digits that read back as the distance |
| Gamecast.TimeoutSlots | client/src/components/GamecastView.js:104-111 | nothing for a count outside 0..3, where building the empty slots throws; otherwise three slots, the first `timeouts` of them filled |
| Gamecast.DividerHeadsRun | client/src/components/GamecastView.js:166-167 | every play sits under a divider reached through plays of its own team only |
| Gamecast.NoDividerInsideRun | client/src/components/GamecastView.js:166-167 | two consecutive plays of one team are never separated |
| Scorekeeper.FieldGoalDistanceFacts | client/src/components/ScorekeeperView.js:157-164 | the two directions' distances add up to 134; each lies in 18..116 on the field; 17 toward home and 83 toward away both give 100 |
| Scorekeeper.TouchdownAddsSix | client/src/components/ScorekeeperView.js:146-152 | applied by the session, the TD button raises only that team's score, by six, and changes nothing else; no play is logged |
| Scorekeeper.FieldGoal | client/src/components/ScorekeeperView.js:155-175 | a made kick scores 3 for the team; a missed one scores nothing and is logged as a play for the team |
| Scorekeeper.FieldGoalTexts | client/src/components/ScorekeeperView.js:155-175 | the text starts with the kick distance, whose digits read back, then " Yard Field Goal", and ends with ": " and the team's name; the missed text is the made text with " MISSED" inserted after "Field Goal" |
| Scorekeeper.PointValues | client/src/components/ScorekeeperView.js:166-191 | safety 2, two-point conversion 2, extra point 1, field goal 3, each scored for the pressing team with a text |
| Scorekeeper.Safety | client/src/components/ScorekeeperView.js:177-179 | two points for the pressing team |
| Scorekeeper.TwoPointConversion | client/src/components/ScorekeeperView.js:181-183 | two points for the pressing team |
| Scorekeeper.ExtraPoint | client/src/components/ScorekeeperView.js:186-191 | one point for the pressing team |
| Scorekeeper.ScoreMinusOne | client/src/components/ScorekeeperView.js:345-348 | one point off the team's score, never below zero |
| Scorekeeper.NextQuarterCycles | client/src/components/ScorekeeperView.js:669-672 | the button keeps the quarter in 1..4, maps 4 to 1, and four presses come back to the start |
| Scorekeeper.NextQuarterButton | client/src/components/ScorekeeperView.js:669-672 | one update, of the quarter only: quarter + 1, or 1 after the fourth |
| Scorekeeper.RestoreTimeout | client/src/components/ScorekeeperView.js:200-210 | a request exactly when the team has fewer than three timeouts; it names only `timeouts`, with that team's count + 1 and the other team's count |
| Scorekeeper.RestoreTimeoutFixed | client/src/components/ScorekeeperView.js:200-210 | corrected key: a request exactly when the team has fewer than three timeouts, setting only that team's timeout column to its count + 1 |
| Scorekeeper.ClockEditor.constructor | client/src/components/ScorekeeperView.js:47-48 | the boxes show the clock's minutes and seconds, which add back to the clock |
| Scorekeeper.ClockEditor.Sync | client/src/components/ScorekeeperView.js:52-55 | re-reading the clock sets both boxes from it |
| Scorekeeper.ClockEditor.IncrementMinutes | client/src/components/ScorekeeperView.js:76-78 | minutes up by one, capped at 60, seconds kept, range kept |
| Scorekeeper.ClockEditor.DecrementMinutes | client/src/components/ScorekeeperView.js:80-82 | minutes down by one, floored at 0, seconds kept, range kept |
| Scorekeeper.ClockEditor.IncrementSeconds | client/src/components/ScorekeeperView.js:84-92 | 59 rolls to 0 and carries a capped minute; below 60:00 the shown time grows by exactly one second |
| Scorekeeper.ClockEditor.DecrementSeconds | client/src/components/ScorekeeperView.js:94-102 | 0 rolls to 59 and borrows a floored minute; above 0:00 the shown time drops by exactly one second |
| Scorekeeper.ClockEditor.MinutesChanged | client/src/components/ScorekeeperView.js:105-108 | a typed value is clamped to 0..60 |
| Scorekeeper.ClockEditor.SecondsChanged | client/src/components/ScorekeeperView.js:110-113 | a typed value is clamped to 0..59 |
| Scorekeeper.ClockEditor.TimeSet | client/src/components/ScorekeeperView.js:57-61 | the clock is set to minutes·60 + seconds, at most 3659 |
| Scorekeeper.ClockEditor.ResetClock | client/src/components/ScorekeeperView.js:69-74 | the boxes show 15:00 and the clock is set to 900 |
| Scorekeeper.SyncThenSet | client/src/components/ScorekeeperView.js:47-61 | reading the clock into the editor and setting it gives back the same time |
| Session.TickTime | client/src/App.js:286 | one step down, never below zero |
| Session.ScoreTextLast | client/src/App.js:329 | the default text ends in S exactly for the counted texts, every value but 1, 2, 3 and 6 |
| Session.ScoreTextInjective | client/src/App.js:329 | two different point values never get the same default text |
| Session.TickTimesRunsDown | client/src/App.js:284-294 | n ticks from t leave max(t − n, 0) |
| Session.PadStart2Value | client/src/App.js:310 | padding keeps a digit string's value |
| Session.FormatTimeReadsBack | client/src/App.js:307-311 | minutes, a colon and two digits of seconds that together give back the time |
| Session.ApiUpdatesRenames | client/src/App.js:432-440 | with no clashing keys, the API body renames `yardLine` and keeps every other key, the values and the order |
| Session.ApiUpdatesMergesYardLine | client/src/App.js:433-440 | a body naming both spellings sends one `yard_line` with the last value |
| Session.PostOf | client/src/App.js:223-237 | the post carries the game, the text, the state's quarter, clock and possession, and the given team or else the possessing team's name |
| Session.ApplySituationKeeps | client/src/App.js:420-430 | the setters never touch team names, timeouts, the clock switch or the play box |
| Session.ApplySituationUnnamed | client/src/App.js:420-430 | a down, quarter or possession the body does not name keeps its value |
| Session.GameSession.constructor | client/src/App.js:22-42 | the initial state, which is valid, and no requests sent |
| Session.GameSession.SendUpdate | client/src/App.js:198-204 | the body is sent only when a game is loaded |
| Session.GameSession.SendPlay | client/src/App.js:223-237 | the post is sent only when a game is loaded |
| Session.GameSession.AddScore | client/src/App.js:322-334 | only the scoring team's total moves, by the points; both scores are sent, then the given text or the default one is logged |
| Session.GameSession.NextDown | client/src/App.js:336-354 | below fourth down, down + 1; on fourth down, first and ten for the other team with a turnover logged; the ranges are kept |
| Session.GameSession.FirstDown | client/src/App.js:356-361 | first and ten, nothing else changes, a first down is logged |
| Session.GameSession.NextQuarter | client/src/App.js:363-380 | before the fourth quarter, the next one with 900 seconds and 3/3 timeouts; in the fourth, no change and no request |
| Session.GameSession.UseTimeout | client/src/App.js:382-394 | with a timeout left, only that team loses one and the clock stops; with none, nothing happens |
| Session.GameSession.Tick | client/src/App.js:284-294 | the clock goes down one second, never below zero, and reaching zero stops it |
| Session.GameSession.UpdateGameSituation | client/src/App.js:420-443 | the setters run key by key, then the renamed body is sent |
| Session.GameSession.UpdateTeamName | client/src/App.js:406-418 | only that team's name changes, and it is sent |
| Session.GameSession.AddCustomPlay | client/src/App.js:445-450 | a blank text does nothing; any other is logged trimmed and clears the play box |
| Session.DeleteTarget | client/src/App.js:248-263 | an id exactly when a game is loaded, the index is in the list and the play has an id |
| TimeoutRestore.RestoreTimeoutIsLost | client/src/components/ScorekeeperView.js:200-210 | as written, the restore request changes neither the client state nor anything the PUT may write |
| TimeoutRestore.RestoreTimeoutFixedReachesRow | client/src/components/ScorekeeperView.js:200-210 | corrected, the allow-listed body is the team's timeout column + 1 and writing it changes that column only |
| Store.SetField | client/src/App.js:436-438 | a key the object lacks goes last, with its value, after every existing pair |
| Store.SetFieldReplacesFirst | client/src/App.js:436-438 | a key the object has: the pair at its first occurrence gets the new value, every other pair is kept in place |
| Store.AllowedUpdatesMembers | football-api/index.js:273-287 | the filter keeps exactly the allow-listed pairs |
| Store.AllowedUpdatesEmpty | football-api/index.js:282-291 | nothing is left exactly when no key is allow-listed |
| Store.AllowedUpdatesKeepsAllowed | football-api/index.js:282-287 | a body of allow-listed keys passes unchanged |
| Store.AllowedUpdates | football-api/index.js:282-287 | never longer than the body, and every key left is allow-listed |
| Store.BuildUpdate | football-api/index.js:279-294 | no statement exactly when nothing is allow-listed; otherwise the allow-listed columns and values in request order, with the game id last |
| Store.NewGame | football-api/index.js:83-101 | a new game is active and has every allow-listed column |
| Store.ApplyUpdatesOther | football-api/index.js:296 | a column the SET list does not name keeps its value |
| Store.ApplyUpdatesLast | football-api/index.js:296 | a column holds the value of its last mention |
| Store.ApplyUpdates | football-api/index.js:296 | after the update the row has its old columns and every named one, and no other |
| Store.Database.constructor | football-api/index.js:74-114 | empty tables |
| Store.Database.UpdateGame | football-api/index.js:296-303 | one row changed when the id exists, none otherwise |
| Store.Database.LatestActiveGame | football-api/index.js:316 | the largest active id, or none when no game is active |
| Store.Database.CompleteGame | football-api/index.js:320 | only that game's status becomes completed |
| Store.Database.DeletePlaysOf | football-api/index.js:321 | exactly the plays of that game are removed |
| Store.Database.InsertGame | football-api/index.js:324 | a fresh id above all earlier ones holds a new game with the defaults |
| Store.Database.InsertPlay | football-api/index.js:361 | the row is stored under a fresh id |
| Store.Database.DeletePlay | football-api/index.js:385 | exactly that row goes; one change when it existed, none otherwise |
| Store.Database.ArchiveLatestActive | football-api/index.js:316-322 | the latest active game is completed and its plays deleted; nothing else changes |
| Store.Database.PlaysOfGame | football-api/index.js:341 | exactly that game's plays, newest first |
| Store.Database.InsertUser | football-api/index.js:430-438 | a taken username changes nothing; otherwise a new user under a fresh id |
| Store.Database.FindUser | server.js:140 | the id of a user with that name, or none when nobody has it |
| Auth.BearerToken | football-api/index.js:152-153 | the second space-separated word of the header, never empty |
| Auth.Authenticate | football-api/index.js:151-166 | 401 exactly without a token, 403 when it does not verify, the claims otherwise |
| Auth.BearerHeader | football-api/index.js:153 | a `Bearer <token>` header gives exactly that token |
| Auth.NoSpaceNoToken | football-api/index.js:153 | a header without a space gives no token |
| ApiRoutes.PutGame | football-api/index.js:266-309 | the token check; 400 without an allow-listed key; 404 for an unknown id; otherwise the row gets the allow-listed pairs |
| ApiRoutes.GetGame | football-api/index.js:255-264 | the latest active game, or nothing when none is active |
| ApiRoutes.ResetGame | football-api/index.js:312-333 | the latest active game is completed and its plays deleted, then a new default game becomes the latest active |
| ApiRoutes.GetPlays | football-api/index.js:336-349 | exactly that game's plays, newest first |
| ApiRoutes.PostPlay | football-api/index.js:351-372 | 400 without a game id or text; 500 without quarter or game time; otherwise the stored row |
| ApiRoutes.DeletePlay | football-api/index.js:374-398 | 404 for a missing play; otherwise exactly that row is removed |
| ApiRoutes.GetUsersStatus | football-api/index.js:401-413 | 200 exactly for an admin, 403 for another user |
| ApiRoutes.PostUser | football-api/index.js:415-442 | 403 for a non-admin; 400 for a missing field or a taken name; otherwise a new user with the hashed password |
| ApiRoutes.Login | football-api/index.js:210-252 | 400 without name or password; 401 for an unknown user; a token only for a user whose password matches; with unique usernames, a known user gets 200 and the signed claims exactly when the password matches, 401 otherwise |
| ServerRoutes.PutGame | server.js:191-240 | as the API, but a PUT for an unknown id still succeeds, with zero changes |
| ServerRoutes.ResetGame | server.js:242-282 | archive, delete the plays, then insert the new game, in that order |
| ServerRoutes.PostPlay | server.js:299-321 | no field check: an empty text or zero id is stored; only a missing NOT NULL column fails, with 500 |
| ServerRoutes.DeletePlay | server.js:323-362 | 404 when the play is missing or nothing was removed; otherwise exactly that row goes |
| ServerRoutes.PostUser | server.js:402-431 | 403 for a non-admin; 500 for a missing field; 400 for a taken name; otherwise a new user |
| ServerRoutes.Login | server.js:136-175 | 401 for a missing name or password, an unknown user or a wrong password; a token only for a matching user; with unique usernames, a known user gets 200 and the signed claims exactly when the password matches |
| Lookup.Matches | client/src/components/PlayerLookup.js:22-31 | exactly the roster's players wearing the number, tagged with their team |
| Lookup.MatchesAppend | client/src/components/PlayerLookup.js:22-31 | the match list is built player by player: it distributes over concatenation, so roster order and repeated numbers are kept |
| Lookup.MatchesSingle | client/src/components/PlayerLookup.js:22-31 | one player is a match exactly when it wears that number |
| Lookup.SearchResultsSpec | client/src/components/PlayerLookup.js:9-37 | a blank query finds nobody; otherwise the home matches followed by the away matches, each in roster order: exactly the players wearing that very string, with their team's name and key |
| Lookup.PaddedQueryFindsNobody | client/src/components/PlayerLookup.js:12-24 | a query with spaces around it matches no trimmed jersey number |
| Lookup.PlayerLookup.constructor | client/src/components/PlayerLookup.js:6-7 | an empty query and no results |
| Lookup.PlayerLookup.HandleSearch | client/src/components/PlayerLookup.js:9-37 | the query is kept and the results are the search results |
| Lookup.PlayerLookup.Collect | client/src/components/PlayerLookup.js:20-34 | the push loop appends one roster's matches to the results |
| PlayParse.TargetOrUnknown | client/src/components/PlayerStatsManager.js:150 | the target is never empty: "Unknown" stands in |
| PlayParse.LazyMatchFirst | client/src/components/PlayerStatsManager.js:88 | the lazy name group ends at the first end after which the pattern matches |
| PlayParse.LazyMatchIsFirst | client/src/components/PlayerStatsManager.js:88 | whatever the lazy group matches, no earlier end lets the pattern match |
| PlayParse.RushCredits | client/src/components/PlayerStatsManager.js:88-104 | one rushing event about this text and play number |
| PlayParse.PassCredits | client/src/components/PlayerStatsManager.js:108-144 | a passing event, and a receiving event when complete, about this text and play number |
| PlayParse.BareCredits | client/src/components/PlayerStatsManager.js:147-164 | one passing event about this text and play number |
| PlayParse.MentionCredits | client/src/components/PlayerStatsManager.js:167-183 | one touchdown event about this text and play number |
| PlayParse.ParsePlay | client/src/components/PlayerStatsManager.js:84-184 | at most two events, each about this text and play number |
| PlayParse.ParsePlayShapes | client/src/components/PlayerStatsManager.js:84-184 | patterns tried in order: a rush gives one rushing event; a pass gives a passing event with yards only when complete, plus a receiving event with the same yards when complete; a bare incomplete gives one passing event with no yards; unmatched text without TOUCHDOWN gives nothing |
| PlayParse.SignedYardsCases | client/src/components/StatsManager.js:321 | the formatter writes a sign only before nonzero yards, then the digits |
| PlayParse.SignedYardsReadBack | client/src/components/PlayerStatsManager.js:88-92 | the signed yards read back as the same number |
| PlayParse.NoRushInName | client/src/components/PlayerStatsManager.js:88 | no end inside a name without digits lets the rush pattern match |
| PlayParse.RushLineMatch | client/src/components/PlayerStatsManager.js:88 | in a formatted rush line the name group ends right after the name, with the rush's yards |
| PlayParse.ParseRush | client/src/components/PlayerStatsManager.js:88-104 | a rush match gives one rushing event for the trimmed name, with TD, gain or loss |
| PlayParse.RushRoundTrip | client/src/components/PlayerStatsManager.js:88-104 | a rush line the formatter writes for a plain name parses back into one rushing event for that name with the same yards and touchdown flag, whatever suffix follows |
| PlayParse.OutcomeSuffixShape | client/src/components/StatsManager.js:337-348 | the suffixes have no digits and start with " - " |
| PlayParse.NoDigitsNoYards | client/src/components/PlayerStatsManager.js:88-108 | without digits neither the rush nor the pass pattern matches |
| PlayParse.IncompleteText | client/src/components/StatsManager.js:327 | the incomplete-pass text is thrower, the fixed words and the receiver |
| PlayParse.NameEndAfter | client/src/components/PlayerStatsManager.js:147 | a receiver's name ends exactly where the outcome suffix begins |
| PlayParse.NoBareInThrower | client/src/components/PlayerStatsManager.js:147 | no end inside the thrower's name lets the bare pattern match |
| PlayParse.IncompleteLineMatch | client/src/components/PlayerStatsManager.js:147 | the bare pattern first matches right after the thrower's name |
| PlayParse.IncompleteTargetAsWritten | client/src/components/PlayerStatsManager.js:147-150 | as written, the target is the receiver's first character, not the name |
| PlayParse.IncompleteRoundTrip | client/src/components/PlayerStatsManager.js:147-164 | corrected, a formatted incomplete pass parses back into one incomplete passing event for the thrower aimed at the whole receiver name |
| PlayerStats.ContainsAnyIff | client/src/components/PlayerStatsManager.js:21 | `some` over the codes holds exactly when one code occurs in the position |
| PlayerStats.IsOffensiveIff | client/src/components/PlayerStatsManager.js:17-22 | offensive exactly when the position is blank or its lower case contains none of the twelve codes |
| PlayerStats.PutSpec | client/src/components/PlayerStatsManager.js:60-61 | setting a key keeps keys distinct and existing keys in place, and adds only that pair |
| PlayerStats.SeedTeamShape | client/src/components/PlayerStatsManager.js:57-69 | seeding one roster adds only fresh offensive players under their key, one key per offensive player |
| PlayerStats.SeededShape | client/src/components/PlayerStatsManager.js:55-71 | both rosters seeded: distinct keys, empty play lists, only offensive roster players, and every one of them present |
| PlayerStats.FirstMatch | client/src/components/PlayerStatsManager.js:188-191 | the first key whose entry has that team and name, or none |
| PlayerStats.WithEvent | client/src/components/PlayerStatsManager.js:186-196 | keys unchanged; the first entry of that team and name gets the event appended; every other entry is kept; no match changes nothing |
| PlayerStats.WithCredits | client/src/components/PlayerStatsManager.js:95-183 | crediting a play's events keeps the keys |
| PlayerStats.ParseAll | client/src/components/PlayerStatsManager.js:74-79 | parsing all plays keeps the keys |
| PlayerStats.RushCredited | client/src/components/PlayerStatsManager.js:88-104 | a formatted rush line credits one rushing event with its yards to that name |
| PlayerStats.PlayerStatsManager.constructor | client/src/components/PlayerStatsManager.js:25-46 | the entries are the seeded rosters |
| PlayerStats.PlayerStatsManager.SeedRoster | client/src/components/PlayerStatsManager.js:30-41 | the loop puts every offensive player under its key, in roster order |
| PlayerStats.PlayerStatsManager.AddPlayerPlay | client/src/components/PlayerStatsManager.js:186-196 | the event goes where WithEvent puts it |
| PlayerStats.PlayerStatsManager.ParsePlayForPlayers | client/src/components/PlayerStatsManager.js:84-184 | the play's parsed events go to the players they name, on the play's team |
| PlayerStats.PlayerStatsManager.Refresh | client/src/components/PlayerStatsManager.js:49-82 | no plays changes nothing; otherwise fresh seeding, then every play with a text parsed |
| PlayerStats.CountWhere | client/src/components/PlayerStatsManager.js:218-236 | a count never exceeds the events |
| PlayerStats.CountWhereAppend | client/src/components/PlayerStatsManager.js:218-236 | counts and yard sums add over concatenation |
| PlayerStats.CountWhereMonotone | client/src/components/PlayerStatsManager.js:219-224 | a narrower class counts no more events |
| PlayerStats.CalculatePlayerSummary | client/src/components/PlayerStatsManager.js:205-238 | the counter loop gives the summary stated class by class |
| PlayerStats.SummaryBounds | client/src/components/PlayerStatsManager.js:218-238 | completions ≤ attempts ≤ events; touchdowns ≤ events; total yards = passing + rushing + receiving |
| PlayerStats.SummaryOfRush | client/src/components/PlayerStatsManager.js:225-227 | one more rush adds to rushing attempts, rushing yards, total yards and its touchdown only |
| PlayerStats.InsertByPlays | client/src/components/PlayerStatsManager.js:202 | insertion gives a permutation of the list plus the entry |
| PlayerStats.InsertByPlaysSorted | client/src/components/PlayerStatsManager.js:202 | insertion keeps the list sorted by play count, descending |
| PlayerStats.SortByPlays | client/src/components/PlayerStatsManager.js:202 | the sort gives a permutation |
| PlayerStats.SortByPlaysSorted | client/src/components/PlayerStatsManager.js:202 | the sort gives descending play counts |
| PlayerStats.InsertByPlaysStable | client/src/components/PlayerStatsManager.js:202 | inserting into a sorted list puts the entry after every entry with its play count and keeps their order |
| PlayerStats.SortByPlaysStable | client/src/components/PlayerStatsManager.js:202 | the sort is stable: the entries with any one play count keep their relative order |
| PlayerStats.TeamEntries | client/src/components/PlayerStatsManager.js:200-201 | exactly the entries of that team |
| PlayerStats.GetTeamPlayersSpec | client/src/components/PlayerStatsManager.js:198-203 | the team view is a permutation of the team's entries, most plays first, and stable: entries with equal play counts keep their relative order |
| PlayerStats.TeamTotalsAreSummary | client/src/components/PlayerStatsManager.js:505-511 | the team totals are the summary of all the players' events together |

## Left out

- **UI and timers.** Rendering, modals, tabs, keyboard dispatch
  (`handleKeyDown`), polling and the `setInterval` timers are left out. Only
  the single clock step is modelled.
- **Client I/O.** axios, localStorage, FileReader and Blob downloads are left
  out. A request is recorded in the session as the body it would send.
- **`loadGameData`.** Its fallbacks and the play-list mapping are not
  modelled, because they are I/O. The session starts from the initial state
  in `useState`.
- **Clock-switch sync effect.** The effect that sends `is_clock_running`
  whenever the switch changes is not modelled. It re-sends state the model
  already records.
- **Client `resetGame`.** It is only a POST followed by a reload.
- **Outside code as parameters.** JWT verification, signing and expiry,
  bcrypt hashing and comparison, and the SQL engine are foreign libraries.
  Verification, signing, hashing and password matching are function
  parameters. The tables are maps.
- **SQL failures.** Only the NOT NULL and UNIQUE constraint failures are
  modelled.
- **Untouched columns.** `created_at`, `updated_at` and `timestamp` are not
  modelled.
- **Startup seeding.** The servers' seeding of default users and a first game
  at startup is not modelled.
- **Other routes.** The root, health and debug routes are not modelled.
- **Asynchronous steps.** server.js runs its reset steps in un-awaited
  callbacks. The model runs them in the order the code issues them.
- **Completion percentage.** The `toFixed` completion percentage is floating
  point and is not modelled.
- **Display strings.** `toLocaleTimeString` and the play-time strings are
  carried as opaque strings.
- **Fresh ids.** `Date.now()` ids are taken as a parameter. The model takes
  a single clock reading `now` for an import, and data line i gets the id
  `now + i`. The source calls `Date.now()` again for every line, so its ids
  can grow by more than one from line to line.
- **Lenient `parseInt`.** Typed yardage and clock values are taken already
  parsed. The play form's yardage is blank, the `x` mark or a number. The
  kick text (`Engine.KickText`) writes the parsed kick yard line, where the
  source writes the typed string as it is: "035" stays "035" there.
- **Lower-casing.** `ToLower` folds ASCII letters only.
- **The description alias.** `play.description || play.play` is one
  `description` field. An empty text is skipped.
- **Absent rosters.** The case where `rosters[team]` is absent is not
  modelled. Both rosters are always present, possibly empty.
- **Ill-typed session values.** `updateGameSituation` values of the wrong
  JSON type leave the field unchanged in the model. React would store them
  anyway.
- **The `restoreTimeout` prop.** handleRestoreTimeout also calls an optional
  `restoreTimeout` prop, which App does not pass. It is not modelled.
- **Next-quarter buttons.** The scorekeeper panel's Next Quarter button is
  modelled by the request it makes. The session applies that request through
  `UpdateGameSituation`.
- PlayParse.ParsePlay: reads the whole receiver name of an incomplete pass
  (the corrected group, see Findings), where the source as written records
  only the name's first character. `Refresh`, `ParsePlayForPlayers` and the
  summaries inherit this. Its regular expressions are modelled as
  recognisers of these play-text shapes; backtracking paths that cannot
  change which match is found first are not modelled.
- Gamecast.TimeoutSlots: a count outside 0..3, which the PUT's allow-listed
  `home_timeouts` and `away_timeouts` can store, makes `Array` throw a
  RangeError during rendering in the source. The model returns nothing for
  it and does not model what the failed render shows.
- Engine.PassText: no lemma reads a formatted pass line back through the
  pass pattern. Only rush and incomplete-pass lines have round trips.
- Lookup.PaddedQueryFindsNobody assumes that roster numbers carry no
  surrounding whitespace.

## Findings

| source | as written | input that shows it | evidently intended | confidence | as-written member | corrected member |
|---|---|---|---|---|---|---|
| client/src/components/ScorekeeperView.js:200-210 | the restore button sends a `timeouts` object | home has 2 timeouts: the body is `{timeouts: {home: 3, away: …}}`. No local setter reads `timeouts`, and the PUT allow-list drops it, so the route answers 400 and nothing changes | send `home_timeouts` (or `away_timeouts`) = count + 1 | high (not executed) | TimeoutRestore.RestoreTimeoutIsLost | TimeoutRestore.RestoreTimeoutFixedReachesRow |
| client/src/components/PlayerStatsManager.js:147-150 | the optional receiver group `(.+?)` ends the pattern, so the lazy group takes one character | "QB incomplete pass intended for Rice" records the target "R" | the target is the whole receiver name, "Rice" | high (not executed) | PlayParse.IncompleteTargetAsWritten | PlayParse.IncompleteRoundTrip |

`PlayParse.ParsePlay` and everything built on it use the corrected receiver
group. `Scorekeeper.RestoreTimeoutFixed` is the corrected restore request.
