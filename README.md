# PRU voting system — a Dafny model of its core

This project models the core of a village-level election system: an
Express/MySQL backend that registers voters, villages and parties and records
ballots, and a React frontend with shared helpers and a socket.io client
service.

The project has these modules:

- **Records** (`records.dfy`) holds the rows of the four tables (voters,
  villages, parties, vote_logs) and the handler responses (`Ok`,
  `BadRequest`, `NotFound`, `ServerError` with the controllers' own messages).
  It also defines what the controllers' SQL computes:
  - the case-insensitive text comparison of the collation;
  - the getAllVoters filter, offset and page count;
  - voter_count, votes_cast and vote_count;
  - the joined result rows and their orders.
- **Listing** (`listing.dfy`) builds each list query's result set: every row
  once, joined and counted, sorted as the `ORDER BY` says.
- **Store** (`store.dfy`) is a class `ElectionDb`. It holds the tables as
  maps from id to row, the stored logo files as a set of paths, and the
  `AUTO_INCREMENT` counters. There is one method per controller handler. Each
  runs the guards in the controller's order and returns its response.
  - `Valid()` is the table constraints: unique identity numbers, village names
    and party names; ballot fields set exactly for voters who voted; one log
    row per vote.
  - Every method keeps `Valid()`.
  - Every method states the new state in full: which table changed, how, and
    that nothing else did.
- **Helpers** (`helpers.dfy`) models `frontend/src/utils/helpers.js`: the
  identity-number formatter and validator, the hex-colour check, turnout
  banding, CSV export, `sortByKey` and `filterBySearch`.
- **VotersPage** and **VotingPage** (`voters_page.dfy`, `voting_page.dfy`)
  model the page-button window, the Previous/Next clamps and `formatIC` of
  the voter list page. They also model the unvoted-voter filter and the
  village list of the voting page.
- **SocketClient** (`socket.dfy`) is a class `SocketService`. It holds the
  listener registry (a map from event to a duplicate-free list of callback
  ids) and the connection fields that `connect`, `disconnect` and the
  socket's events update.
- **Scenarios** (`scenarios.dfy`) runs concrete request sequences against a
  fresh store and a fresh socket service.
- **Text**, **Seqs** and **Sorting** are the string, sequence and sorting
  toolkit the rest builds on: ASCII lower-casing, substring search,
  lexicographic order, filtering, subsequences, distinct elements, and an
  insertion sort over an array.

Request fields the handlers treat as falsy are modelled as the empty string
(text) or 0 (ids). A field with a default in the destructuring pattern is an
`Option`, because only an absent field takes the default.

The stored procedure `CastVote` is not part of this model. Its body lives in
the database schema. The controller reveals only a compare-and-set: an
existing voter who has not voted gets the ballot, and everything else is
refused with one message. The model adds the vote_logs row the procedure
keeps, one row per ballot.

Uploaded logos are not cleaned up on every failure path. `addParty` removes
a just-uploaded file only when the insert itself fails (the duplicate-name
path); its name and colour refusals leave the file in place, and
`updateParty` never looks at its upload. `Store.ElectionDb.AddParty` and
`Store.ElectionDb.UpdateParty` state exactly which paths keep the file.

## Model

| member | source | states |
|---|---|---|
| Store.ElectionDb.AddVoter | backend/controllers/votersController.js:87-134 | A missing name, number or village is refused. A number that is not exactly 12 digits is refused. A number already held under the collation is refused. On any refusal the store is unchanged. Otherwise exactly one voter is inserted at the next id, unvoted. |
| Store.ElectionDb.CastVote | backend/controllers/votersController.js:137-167 | Both ids are required. An unknown voter and a voter who already voted get the same single refusal, and nothing changes. Otherwise only that voter gets the ballot and one log row is appended. |
| Store.ElectionDb.GetVoterById | backend/controllers/votersController.js:181-214 | Succeeds iff the voter exists. The row is the voter LEFT JOINed with its village and party; otherwise NotFound. |
| Store.ElectionDb.UpdateVoter | backend/controllers/votersController.js:217-270 | Checks run in order: fields required, NotFound, then the voted lock. A number held by a different voter is refused. On success only name, number and village are replaced, with no re-check of the 12-digit format; ballot fields and all other voters stay. |
| Store.ElectionDb.DeleteVoter | backend/controllers/votersController.js:273-299 | NotFound for an unknown id. BadRequest for a voter who voted, who is kept. Otherwise only that voter is removed. |
| Store.ElectionDb.GetAllVoters | backend/controllers/votersController.js:4-84 | Page and limit default to 1 and 50; a negative LIMIT or OFFSET fails. total is the number of matching voters and pages = ceil(total/limit), or null for limit 0. The rows are exactly the LIMIT/OFFSET window at (page-1)*limit of the full result: every matching voter's joined row once, ordered by name, total rows in all. |
| Store.ElectionDb.MatchingPage | backend/controllers/votersController.js:27-66 | The count query and the row query apply the same filter. The full result holds each matching voter's joined row once, sorted by name, and has total rows; the page is its window from offset of at most limit rows. |
| Store.InsertUnvoted | backend/controllers/votersController.js:101-106 | Inserting an unvoted voter with an unused number at the next id keeps the voter-table constraints, with the counter one higher. |
| Store.ReplaceUnvoted | backend/controllers/votersController.js:250-253 | Replacing an unvoted voter's fields with an unused number keeps the voter-table constraints. |
| Store.RemoveUnvoted | backend/controllers/votersController.js:284-291 | Deleting an unvoted voter keeps the voter-table constraints (no vote-log row can refer to it). |
| Listing.Window | backend/controllers/votersController.js:43-46 | LIMIT/OFFSET returns PageLength(n, offset, limit) rows, the i-th being row offset + i of the ordered result. |
| Store.ElectionDb.GetAllVillages | backend/controllers/villagesController.js:4-25 | One row per village, ordered by name. Each row carries the village's voter_count and votes_cast, and votes_cast <= voter_count. |
| Store.ElectionDb.AddVillage | backend/controllers/villagesController.js:28-58 | The name is required and the description defaults to ''. A name equal to an existing one under the collation is refused. Otherwise only the new village is inserted. |
| Store.ElectionDb.GetVillageById | backend/controllers/villagesController.js:61-100 | NotFound for an unknown id. Otherwise the voter list is exactly the voters with that village_id, ordered by name; its length is voter_count. |
| Store.ElectionDb.UpdateVillage | backend/controllers/villagesController.js:103-138 | The name is required. An unknown id is NotFound. Another village's name is refused. Otherwise only name and description change. |
| Store.ElectionDb.DeleteVillage | backend/controllers/villagesController.js:141-170 | Refused while any voter has that village_id, even for an unknown id. An unknown id is NotFound. Otherwise only that village goes, and no voter loses its village. |
| Store.ElectionDb.GetAllParties | backend/controllers/partiesController.js:6-29 | One row per party, ordered by name. vote_count counts only voters with has_voted whose party_voted_id is the party. |
| Store.ElectionDb.AddParty | backend/controllers/partiesController.js:32-80 | The name is required. The colour defaults to #3B82F6 and must be a hex colour. logo_path is '/uploads/party-flags/' + filename or null. The name and colour refusals keep the uploaded file; a duplicate name removes it. |
| Store.ElectionDb.UpdateParty | backend/controllers/partiesController.js:146-191 | The name is required. A colour is checked only when non-empty. An unknown id is NotFound. Another party's name is refused. On success name, abbreviation, colour and description are replaced and logo_path kept. The upload is stored and never used. |
| Store.ElectionDb.DeleteParty | backend/controllers/partiesController.js:194-223 | Refused while any voter who voted chose the party. An unknown id is NotFound. Otherwise only that party goes, and no cast ballot loses its party. |
| Store.ElectionDb.UploadLogo | backend/controllers/partiesController.js:226-278 | No file means BadRequest. For an unknown party the upload is deleted and NotFound returned. Otherwise logo_path becomes the new file's path and the old logo file, if any, is deleted. |
| Store.ElectionDb.GetPartyColors | backend/controllers/partiesController.js:281-302 | The map has exactly the party ids as keys. Each entry holds the party's name, abbreviation, colour and logo_path. |
| Store.ElectionDb.GetVotingStats | backend/controllers/votersController.js:302-339 | The overall row, or all zeros when the view is empty. recent_votes is min(10, n) of the n joined log rows, newest first, drawn from those rows; no row left out is newer than a row shown. |
| Listing.SortedViews | backend/controllers/votersController.js:9-21 | The joined rows of the selected voters: each once, ordered by name, exactly as many as there are selected voters. |
| Listing.VillageRows | backend/controllers/villagesController.js:6-17 | The LEFT JOIN and GROUP BY give each village exactly one row with its counts, sorted by name. |
| Listing.PartyRows | backend/controllers/partiesController.js:8-21 | Each party gets exactly one row with its vote_count, sorted by name. |
| Listing.RecentVotes | backend/controllers/votersController.js:313-326 | ORDER BY voted_at DESC LIMIT 10: a sorted sub-multiset of the joined rows of size min(10, n), holding every row newer than some row it leaves out. |
| Records.VotesCast | backend/controllers/villagesController.js:11-12 | A village's votes_cast never exceeds its voter_count. |
| Records.VoteCountAtMostVoted | backend/controllers/partiesController.js:16-18 | A party's vote_count is at most the number of voters who voted. |
| Records.BallotCounts | backend/controllers/votersController.js:148-149 | Recording a ballot adds one to the chosen party's vote_count, to the voter's village's votes_cast and to the votes cast overall; every other count is unchanged. |
| Records.VoteLogCount | backend/controllers/votersController.js:148-149 | Under the log invariant, the vote log has exactly one row per voter who voted. |
| Records.Pages | backend/controllers/votersController.js:77 | pages is null iff limit is 0; otherwise it is the least number of pages of limit rows that hold total. |
| Records.PageLength | backend/controllers/votersController.js:43-44 | LIMIT/OFFSET leave at most limit rows, all inside the total: a full page when it fits, total - offset rows on a partial last page, none past the end. |
| Records.PaginationExample | backend/controllers/votersController.js:7 | 45 matches at limit 20 give 3 pages; page 2 starts at offset 20 and holds 20 rows, and page 3 holds 5. |
| Records.MatchCountBounds | backend/controllers/votersController.js:27-41 | The getAllVoters filter only narrows: with no search and no village every voter matches, and a search term never adds matches. |
| Records.VoterMatchesExamples | backend/controllers/votersController.js:27-41 | An all-digit village value selects by village_id, any other by the village's name ignoring case, and the search term matches inside the name. |
| Records.ViewOf | backend/controllers/votersController.js:185-200 | The joined row keeps every voter column. village_name is the village's name when the village exists and null otherwise; party_name and party_color are the party's when the voted-for party exists and null otherwise. |
| Records.OrdersArePreorders | backend/controllers/villagesController.js:16 | The name orders and the newest-first order are total preorders, so sorting by them is well defined. |
| Scenarios.RegisterVoters | backend/controllers/votersController.js:97-99 | "12345" is refused for its format, "123456789012" is accepted, and the same number again is refused as a duplicate. |
| Scenarios.VoteOnce | backend/controllers/votersController.js:143-162 | The first ballot succeeds. A second ballot for the same voter gets the same message as a ballot for an unknown voter. |
| Scenarios.VotedIsLocked | backend/controllers/votersController.js:236-238 | After voting, a voter can be neither edited nor deleted. |
| Scenarios.VillageWithVoterKept | backend/controllers/villagesController.js:151-155 | A village with a registered voter cannot be deleted. |
| Scenarios.UnknownVillage | backend/controllers/villagesController.js:160-162 | Deleting an unknown village without voters is NotFound. |
| Scenarios.VillageRenameClash | backend/controllers/villagesController.js:132-133 | Renaming a village to another village's name is refused. |
| Scenarios.PartyColours | backend/controllers/partiesController.js:34-44 | "blue" is refused; without a colour the party gets #3B82F6, and without a file its logo_path is null. |
| Scenarios.ListenerOnce | frontend/src/services/socket.js:112-143 | A callback added twice is called once per emit, with the emitted data. |
| Scenarios.ConnectionStatus | frontend/src/services/socket.js:38-49 | A 'connected' listener is called with true when the socket connects and with false when it disconnects. |
| Helpers.FormatICNumber | frontend/src/utils/helpers.js:2-7 | A falsy input gives ''. An input whose digits do not number 12 is returned unchanged. Otherwise the result has the form DDDDDD-DD-DDDD. |
| Helpers.FormatICNumberRoundTrip | frontend/src/utils/helpers.js:4-6 | Removing the dashes from the formatted number gives back the input's 12 digits. |
| Helpers.FormatICNumberIdempotent | frontend/src/utils/helpers.js:2-7 | Formatting twice gives the same as formatting once. |
| Helpers.ValidateICNumber | frontend/src/utils/helpers.js:10-13 | True iff stripping the non-digits leaves exactly 12 digits. |
| Helpers.ValidateICNumberAgreement | frontend/src/utils/helpers.js:2-13 | A bare 12-digit number and its formatted form are both valid. The formatted form is the dashed number and is no longer a bare 12-digit run. |
| Helpers.ValidateICNumberExamples | frontend/src/utils/helpers.js:10-13 | '123456-78-9012' and '123456789012' are valid and '12345' is not. |
| Helpers.IsValidHexColor | frontend/src/utils/helpers.js:73-75 | True iff the text is '#' followed by exactly six characters from 0-9, a-f and A-F. |
| Helpers.HexColorCaseInsensitive | frontend/src/utils/helpers.js:73-75 | A colour is valid exactly when its lower-cased form is (the /i flag). |
| Helpers.HexColorExamples | frontend/src/utils/helpers.js:73-75 | '#3B82F6' and '#3b82f6' are valid; 'blue', '#3B82F' and '#3B82FG' are not. |
| Helpers.TurnoutBands | frontend/src/utils/helpers.js:84-97 | Status and colour agree. The bands split at 70, 50 and 30, and a higher percentage never falls in a lower band. |
| Helpers.TurnoutStatus | frontend/src/utils/helpers.js:92-97 | 'Tinggi' iff at least 70, 'Sederhana' iff in [50, 70), 'Rendah' iff in [30, 50), 'Sangat Rendah' iff below 30. |
| Helpers.TurnoutStatusColor | frontend/src/utils/helpers.js:84-89 | Green iff at least 70, yellow iff in [50, 70), orange iff in [30, 50), red iff below 30. |
| Helpers.CsvCell | frontend/src/utils/helpers.js:133-138 | A falsy cell prints as ''. A truthy text cell goes through the quoting rule. A truthy number or boolean prints as its string form, unquoted. |
| Helpers.DoubleQuotes | frontend/src/utils/helpers.js:136 | Every '"' becomes '""': the result is longer by the number of quotes and holds exactly twice as many quotes. |
| Helpers.EscapeText | frontend/src/utils/helpers.js:134-137 | Text without ',' or '"' is unchanged. Otherwise it is '"' + the text with every '"' doubled + '"': one character longer per quote plus the two enclosing quotes, and undoubling the inside gives back the text. |
| Helpers.EscapeTextRoundTrip | frontend/src/utils/helpers.js:135-137 | Unquoting and undoubling an escaped cell gives back the original text. |
| Helpers.ExportToCsv | frontend/src/utils/helpers.js:126-143 | Empty data produces nothing. |
| Helpers.CsvLineCount | frontend/src/utils/helpers.js:129-140 | Without line breaks in the cells, the output has exactly as many line breaks as rows. |
| Helpers.CsvLinesOfDocument | frontend/src/utils/helpers.js:128-140 | Without line breaks in the cells, splitting the output at its line breaks gives the first row's keys joined by ',', then each row's cells in header order joined by ',', row by row. |
| Helpers.CsvQuotingExamples | frontend/src/utils/helpers.js:133-138 | 'a,b' is quoted and 'plain' is not. |
| Helpers.CsvScalarExamples | frontend/src/utils/helpers.js:133-138 | 7, -12 and true print as "7", "-12" and "true". 0, false and null print as ''. |
| Helpers.RowLeTotalPreorder | frontend/src/utils/helpers.js:147-168 | The comparator, with null as '' and strings lower-cased, is a consistent order in both directions. |
| Helpers.SortByKey | frontend/src/utils/helpers.js:146-169 | The result is a permutation of the input and is ordered by the key in the requested direction. |
| Helpers.FilterBySearch | frontend/src/utils/helpers.js:172-182 | An empty term returns the array unchanged. Otherwise the result is an order-preserving subsequence holding every copy of each item where some listed field contains the term, ignoring case, and no copy of any other item. |
| VotersPage.TotalPages | frontend/src/pages/Voters.jsx:70 | ceil(total/20): the fewest pages of 20 that hold total. |
| VotersPage.TotalPagesExamples | frontend/src/pages/Voters.jsx:70 | 0, 1, 20, 21 and 45 voters give 0, 1, 1, 2 and 3 pages. |
| VotersPage.HandlerBody | backend/controllers/votersController.js:70-78 | The body getAllVoters sends has no top-level total; the count is pagination.total. |
| VotersPage.TotalPagesAsWritten | frontend/src/pages/Voters.jsx:69-70 | Math.ceil(response.data.total / 20) is NaN exactly when the top-level total is absent, and ceil(total/20) otherwise. |
| VotersPage.PaginationHiddenAsWritten | frontend/src/pages/Voters.jsx:367 | For every body the handler sends, the page count as written is NaN and the pagination bar (shown only when totalPages > 1) does not render. |
| VotersPage.TotalPagesOf | frontend/src/pages/Voters.jsx:70 | Reading pagination.total, the page count is the fewest pages of 20 that hold the total. |
| VotersPage.PaginationShownWhenNeeded | frontend/src/pages/Voters.jsx:367 | Reading pagination.total, the bar renders exactly when there are more than 20 matches. |
| VotersPage.PageButtons | frontend/src/pages/Voters.jsx:394-395 | min(5, totalPages) consecutive buttons, all within [1, totalPages], including the current page when it exists. |
| VotersPage.PageButtonsCentred | frontend/src/pages/Voters.jsx:395 | Away from both ends, the current page is the middle button. |
| VotersPage.PreviousPage | frontend/src/pages/Voters.jsx:372 | Previous steps back one page and clamps at 1: from page 1 (or below) it gives exactly 1. |
| VotersPage.NextPage | frontend/src/pages/Voters.jsx:379 | Next steps forward one page and clamps at totalPages: from the last page (or beyond) it gives exactly totalPages. |
| VotersPage.ClampsStayInRange | frontend/src/pages/Voters.jsx:372-379 | From a valid page, Previous and Next stay within [1, totalPages]. |
| VotersPage.FormatIC | frontend/src/pages/Voters.jsx:101-104 | A falsy ic gives ''. The leftmost run of 12 digits gets dashes as 6-2-4. A string without such a run is unchanged. |
| VotersPage.FormatICRemovesOnlyDashes | frontend/src/pages/Voters.jsx:103 | The formatter only inserts dashes. |
| VotersPage.FormatICAgreesWithHelper | frontend/src/pages/Voters.jsx:101-104 | On a bare 12-digit number the page's formatter and formatICNumber agree. |
| VotingPage.FilterVoters | frontend/src/pages/Voting.jsx:61-77 | An order-preserving subsequence of the voters. With no search and no village it is exactly the unvoted voters. Each voter appears exactly as often as in the input when it has not voted, matches the search and has exactly the selected village, and not at all otherwise. |
| VotingPage.UniqueVillages | frontend/src/pages/Voting.jsx:43 | No duplicates; every voter's village name appears, and nothing else does. |
| VotingPage.UniqueVillagesOrder | frontend/src/pages/Voting.jsx:43 | The names keep their first-occurrence order. |
| SocketClient.WithListener | frontend/src/services/socket.js:112-117 | The event's set is created on first use. A callback already there leaves the registry unchanged. Other events are untouched, and sets stay duplicate-free. |
| SocketClient.WithoutListener | frontend/src/services/socket.js:119-123 | An unknown event is a no-op. Otherwise the event's list loses every copy of that callback and keeps all other callbacks in their order (an order-preserving subsequence with the same counts); all other events stay. |
| SocketClient.WithoutEvent | frontend/src/services/socket.js:125-131 | With an event, only that event's set goes; without one, every event is cleared. |
| SocketClient.RemoveUndoesAdd | frontend/src/services/socket.js:112-123 | Removing a callback just added to an event's set restores the registry exactly. |
| SocketClient.SocketService.AddListener | frontend/src/services/socket.js:112-117 | The registry becomes WithListener of the old one and stays duplicate-free; the connection fields are unchanged. |
| SocketClient.SocketService.RemoveListener | frontend/src/services/socket.js:119-123 | The registry becomes WithoutListener of the old one; the connection fields are unchanged. |
| SocketClient.SocketService.RemoveAllListeners | frontend/src/services/socket.js:125-131 | The registry becomes WithoutEvent of the old one; the connection fields are unchanged. |
| SocketClient.SocketService.EmitToListeners | frontend/src/services/socket.js:133-143 | The calls are exactly the event's registered callbacks, in insertion order, each once and each with the emitted data; none for an unknown event. Every throwing callback is reported and the rest still run. |
| SocketClient.SocketService.Connect | frontend/src/services/socket.js:12-33 | A connected socket is returned as is. An existing disconnected one is reconnected, not replaced. Only without a socket is a new one created. |
| SocketClient.SocketService.Disconnect | frontend/src/services/socket.js:78-84 | Afterwards there is no socket, and with a socket the flag is false. Without one it is a no-op. |
| SocketClient.SocketService.HandleConnect | frontend/src/services/socket.js:38-43 | The flag becomes true and each 'connected' listener is called once with `true`. With no socket the handler throws before changing anything. |
| SocketClient.SocketService.HandleDisconnect | frontend/src/services/socket.js:45-49 | The flag becomes false and each 'connected' listener is called once with `false`. |
| SocketClient.SocketService.HandleConnectError | frontend/src/services/socket.js:51-55 | The flag becomes false and each 'error' listener is called once with the error the socket reported. |

## Left out

- SQL text, `pool.execute` and the MySQL driver are not modelled. Each query is replaced by the table computation it performs.
  - The `overall_stats`, `vote_stats_by_party` and `vote_stats_by_village` views are opaque. `Store.ElectionDb.GetVotingStats` takes the overall row as a parameter and omits by_party and by_village.
  - The `CastVote` procedure body is not shown, so the model keeps only the compare-and-set the controller reveals. Whether the party exists is not checked.
- Infrastructure failures (HTTP 500 responses other than getAllVoters' negative LIMIT/OFFSET) are not modelled: database errors, a lost connection, a failing `fs.unlink`.
- Concurrency is not modelled. Every handler runs atomically in sequence, and the atomicity of `CastVote` across server instances is left to the database.
- Foreign keys are not part of this model (the schema is not shown). A voter may name a village or party that does not exist, which is why the joins return optional names.
- The model enforces uniqueness of party names only. A unique index on the abbreviation, if the schema has one, would make a duplicate abbreviation fail the insert under the party-name message; the schema is not part of this model.
- A failed insert does not consume an `AUTO_INCREMENT` value in the model. InnoDB may leave a gap there.
- `Store.ElectionDb.UpdateVillage` takes its description as plain text, as do `Store.ElectionDb.UpdateParty` for abbreviation, colour and description and `Store.ElectionDb.UpdateVoter` for its fields. An absent field would be an undefined bind parameter, which the driver rejects with a 500; that path is not modelled.
- `Records.SameText`, `Records.LikeText` and `Text.NameLe` approximate the database collation. They fold ASCII letters only, and the collation's handling of accents and trailing spaces is not modelled. LIKE wildcards inside the search term are treated as plain characters.
- `Helpers.SortByKey`, `Helpers.FilterBySearch` and `VotingPage.FilterVoters` lower-case with `Text.Lower`, which folds ASCII letters only. JavaScript's `toLowerCase` also folds non-ASCII letters (accented Latin, Greek, Cyrillic and so on), so a search or sort that differs only in such letters is not modelled.
- `Records.ViewOf` carries every column of the joined row. Each handler's SELECT returns a subset of them.
- `Store.ElectionDb.GetAllVoters`: JavaScript coercion of non-numeric page and limit strings and `parseInt` beyond 2^53 are not modelled; page and limit are integers.
- Logo files are an abstract set of paths. `req.file.path`, the served path and `path.join(__dirname, '..', logo_path)` are all identified with `'/uploads/party-flags/' + filename`. Deletion is immediate rather than asynchronous and best-effort.
- getPartyById is not modelled: its percentage is floating point and its lists are ordered by timestamps. Also left out are the real-time `voteUpdate` broadcast after a vote, the routes, server wiring and rate limiter.
- Ties in `ORDER BY` may come back in any order from the database, so the model proves sortedness and permutation only. `Sorting.InsertionSort` is not proved stable.
- `Helpers.SortByKey` is not proved stable. `Array.prototype.sort` is stable, so rows with equal keys keep their input order in the source; the model promises only sortedness and permutation.
- `Helpers.SortByKey` requires the key column to be all numbers or all text/null. JavaScript's `<`/`>` across mixed types is not a consistent order, so such a column is not modelled.
- Floating point (turnout percentages, `toFixed`, `toLocaleString`) is out of scope, apart from the band thresholds in `Helpers.TurnoutBands`. So are dates and times (`voted_at` is an integer timestamp), randomness (`generateRandomColor`), timers (`debounce`, the emit retry) and DOM downloads.
- `Helpers.ValidateICNumber` takes a string. In the browser, `validateICNumber` calls `ic.replace` with no guard, so null or undefined throws a TypeError; that throw is not modelled.
- `Helpers.Keys` lists a row's keys in insertion order. `Object.keys` puts integer-like keys first, in ascending order, so a row with such column names would get a different CSV header order; the API's column names are not integer-like.
- The CSV text is returned, not downloaded.
- `VotingPage.FilterVoters` assumes every voter has a village name. A null `village_name` would throw in the browser.
- `SocketClient.SocketService`: the socket is abstract and `io()` options are ignored. Also left out:
  - `emit`, `joinVotingRoom`, `requestStats`, `isSocketConnected` and `getConnectionStatus`;
  - the forwarding handlers for `welcome`, `voteUpdate`, `statsUpdate` and `error`, each only a call to `EmitToListeners`;
  - the `disconnect` event the library raises from within `disconnect()`, which calls the 'connected' listeners as `HandleDisconnect` does.

  Callbacks are ids, and the set of throwing callbacks is a parameter. The argument a listener receives is kept as a `Payload`: the connection state is modelled exactly, while error objects and message data are opaque ids.

## Findings

| source | as written | input that shows it | evidently intended | confidence | as-written member | corrected member |
|---|---|---|---|---|---|---|
| frontend/src/pages/Voters.jsx:69-70 | The page reads `response.data.total`, but getAllVoters (backend/controllers/votersController.js:70-78) sends the count as `pagination.total`. `Math.ceil(undefined / 20)` is NaN, and `NaN > 1` is false, so the pagination bar never renders. | Any voter list, e.g. 45 matching voters: only the first 20 can ever be shown. | Read `response.data.pagination.total`: 45 voters give 3 pages and the bar renders. | high — not executed | VotersPage.PaginationHiddenAsWritten | VotersPage.PaginationShownWhenNeeded |
