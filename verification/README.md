# Trivia scraper: the scrape-to-database reconciliation engine

This project models the core of a trivia-night tracker. A scraper reads a
venue's results page into a `PageData` record: the venue, its weekly games
and the events played, each with its teams and scores. `ScraperService.push_to_db`
reconciles that record with the database in one transaction:

- it upserts the venue, the game types and the games;
- it builds the (game type, weekday) lookup of the venue's games (of every venue's games when the page has no games and no events; see Findings);
- it installs the celery-beat tasks of the official games;
- it upserts the quizmasters;
- in unattended mode, it resolves the placeholder event of the game being auto-scraped;
- it creates the other events;
- it upserts the official teams and the guest teams with their names;
- it backfills the scores of the participations already attached to the resolved placeholder;
- it inserts one participation per (team, event), keeping the highest score.

Around the engine, three periodic tasks run for every official game:

- an hour before the game, a placeholder event is created;
- after the game, an unattended scrape resolves the placeholder and switches itself off;
- the day after, a task deletes the game's event of the previous day, resolved or not, or, when there is none, switches the scrape back on (see Findings).

The project also models the table constraints the engine relies on, the
display strings of teams, games, glossary entries and tables, and the
vote-category check of the wrongdoings form.

The modules:

- `Wrappers`: `Option` and `Result`, with the Python exceptions as error kinds.
- `Text`: decimal rendering and parsing, string order and sorting, truncation.
- `Chrono`: dates as day ordinals, ISO dates, weekdays.
- `Records`: the scraped records and their validators.
- `Schema`: the table rows, their constraints and their display strings.
- `Db`: the database as a class whose tables are maps. It has one method per ORM write the engine makes (`get_or_create`, `bulk_create` ignoring conflicts, `save`, `delete`), each stating which constraint rejects a row.
- `Matching`: the game lookup and `_match_game_to_event`.
- `Duplicates`: "keep the highest score per key", as the participation step computes it.
- `Collect`: the sets and rows the steps build from the scraped events.
- `Service`: `ScraperService` and its steps.
- `Schedule`: the crontab arithmetic and `sync`, over a `Beat` class that holds the two scheduler tables.
- `Lifecycle`: the three periodic tasks.
- `Wrongdoings`: the form check.

The current instant, the local date and the scraped page are parameters.
Primary keys come from one counter (`nextPk`), so every inserted row gets a
fresh key.

## Model

Source paths are relative to the repository root.

| member | source | states |
|---|---|---|
| Records.NewGameData | backend/scraper/types.py:5-13 | A game record is built exactly when its day is in 0..6, and then carries the given type, day and time; otherwise ValueError. |
| Records.NewTeamData | backend/scraper/types.py:22-32 | A team record is built exactly when its team id is null or non-negative and its score is in -1..112; the result keeps the given id, name and score; otherwise ValueError. |
| Records.TeamDataBoundaries | backend/scraper/types.py:28-32 | Both score bounds and id 0 or null are accepted; id -1 and scores 113 and -2 are refused. |
| Text.IntTextRoundTrip | backend/scraper/utils/sync_tasks.py:26-28 | The decimal text of any integer, including a negative one, parses back to that integer. |
| Text.NatTextRoundTrip | backend/scraper/utils/sync_tasks.py:26-28 | The digits of a natural number have that number as their value. |
| Text.SortedNames | backend/scraper/services/scraper_service.py:499 | `sorted()` of a set of names lists each name once, and only those names, in strictly ascending code-point order. |
| Text.Truncate | backend/api/models.py:48 | A display name is at most 100 characters; a longer name keeps its first 97 characters followed by "...". A shorter name is kept whole. |
| Text.Least | backend/api/models.py:46 | The first name in code-point order is a member of the set and comes before every other member. |
| Text.BelowTransitive | backend/api/models.py:83 | Code-point name order is transitive; together with BelowIrreflexive, BelowAsymmetric and BelowTotal, it is a strict total order. |
| Text.BelowTotal | backend/api/models.py:83 | Of two different names, one sorts before the other in code-point order. |
| Chrono.Latest | backend/scraper/tasks.py:22-32 | The latest date of a non-empty set is in the set and is no earlier than any member. |
| Chrono.ParseIsoDate | backend/scraper/services/scraper_service.py:113-117 | A parsed date is a valid calendar date; a string that does not parse gives ValueError. |
| Chrono.IsoRoundTrip | backend/scraper/services/scraper_service.py:113-117 | Every valid calendar date written as YYYY-MM-DD parses back to itself. |
| Chrono.IsoParseCanonical | backend/scraper/services/scraper_service.py:113-117 | Every string that parses is the canonical YYYY-MM-DD text of its date, so parsing is one-to-one. |
| Chrono.KnownWeekday | backend/scraper/tests/test_services.py:126-166 | "2001-09-11" parses to that date, a Tuesday; "Blah" is refused. |
| Schema.GamesValidIffDistinct | backend/api/models.py:243-267 | Under the row checks, the two conditional unique constraints on games together mean that no two game rows are equal. |
| Schema.GameConflictIsPresence | backend/api/models.py:245-254 | A game row violates a unique constraint exactly when an equal row is already stored. |
| Schema.EventAt | backend/api/models.py:298-305 | Under the (game, date) uniqueness of events, the event of a (game, date) that exists is that game's event on that date. |
| Schema.NameOf | backend/api/models.py:62-77 | Under (name, team) uniqueness, the name row of a (name, team) that exists has that name and team. |
| Schema.GuestTeamNamed | backend/api/models.py:68-72 | A guest name that exists belongs to a guest name row of the returned team. |
| Schema.AtMostSevenRounds | backend/api/models.py:137-154 | Round numbers are unique and in 1..7, so there are at most seven rounds. |
| Schema.TeamStr | backend/api/models.py:44-51 | A team with no names gives ValueError. Otherwise the result is the team id, or "Guest" for a null id, then " \| " and the truncated name that sorts first. |
| Schema.TeamStrExamples | backend/api/tests/test_models.py:73-89 | "5678 \| Test Team" for an official team, "Guest \| Guest Team" for a guest team, and ValueError for a team without names. |
| Schema.TeamStrLongName | backend/api/tests/test_models.py:81-85 | A 300-character name is shown as its first 97 characters and "...". |
| Schema.GlossaryStr | backend/api/models.py:181-186 | The acronym, " \| " and the definition. A definition over 100 characters is cut to 97 characters plus "...", so the result is at most 103 characters longer than the acronym. |
| Schema.TableStr | backend/api/models.py:115-116 | A non-empty table name is shown as it is; otherwise the result is the decimal table id and parses back to it. |
| Schema.OfficialGameStrInjective | backend/api/models.py:270-273 | Two official games of one venue with the same display string have the same type, day and time, so under `unique_official_game` the string names one game. |
| Schema.TimeTextInjective | backend/api/models.py:273 | Different times of day display differently. |
| Schema.DaySuffixInjective | backend/api/models.py:273 | The ", <Day>s at " part names the day: two suffixes that agree have the same day. |
| Schema.GameStr | backend/api/models.py:270-273 | Starts with "venue \| type"; it is longer than that exactly for an official game, whose day and time follow. OfficialGameStrInjective states what the string identifies. |
| Db.TepScoreKeepsValid | backend/api/models.py:331-342 | Setting a participation's score within -1..112 keeps the participation constraints and foreign keys, and keeps the set of rows. |
| Db.TepInsertKeepsValid | backend/api/models.py:312-342 | Inserting a participation of a new (team, event), with a score in range and existing foreign keys, keeps the table valid. |
| Db.DeleteEventKeepsValid | backend/api/models.py:276-342 | Deleting an event and, by cascade, its participations keeps every constraint and foreign key. |
| Db.WithoutEvent | backend/api/models.py:318-320 | The cascade removes exactly the participations of the deleted event and leaves the others unchanged. |
| Db.OfficialNameConflict | backend/api/models.py:62-77 | A non-guest name row conflicts exactly when its (name, team) is already stored. |
| Db.InsertedIgnoringIdle | backend/scraper/services/scraper_service.py:383-400 | A `bulk_create(ignore_conflicts=True)` whose every row's key is stored leaves the table as it was. |
| Db.InsertedRowsIdle | backend/scraper/services/scraper_service.py:239-250 | The same for an insert described by its set of rows. |
| Db.Database.InsertGame | backend/api/models.py:243-267 | A game row is inserted at the next key exactly when no equal row exists; otherwise the table is unchanged. |
| Db.Database.InsertEvent | backend/api/models.py:298-305 | An event is inserted exactly when its (game, date) is free; otherwise the table is unchanged. |
| Db.Database.InsertTeam | backend/api/models.py:35-36 | A team is inserted unless its non-null team id is taken; guest teams are always inserted. |
| Db.Database.InsertTeamName | backend/api/models.py:62-83 | A blank name is an IntegrityError. A conflicting name is an IntegrityError, or is skipped when conflicts are ignored. Otherwise the name row is inserted at the next key. |
| Db.Database.InsertTep | backend/api/models.py:331-342 | A participation is inserted exactly when its (team, event) is free; otherwise the table is unchanged. |
| Db.Database.BulkInsertGames | backend/scraper/services/scraper_service.py:239-250 | `bulk_create(ignore_conflicts=True)` on games: each row in turn is inserted unless an equal row is stored by then. |
| Db.Database.BulkInsertEvents | backend/scraper/services/scraper_service.py:383-400 | Each event row in turn is inserted unless its (game, date) is taken by then. |
| Db.Database.BulkInsertTeams | backend/scraper/services/scraper_service.py:435-438 | Each official team row in turn is inserted unless its team id is taken by then. |
| Db.Database.CreateBlankTeams | backend/scraper/services/scraper_service.py:490-492 | `count` blank guest teams are created at consecutive fresh keys, which are returned in order. |
| Db.Database.BulkInsertNames | backend/scraper/services/scraper_service.py:450-462 | A blank name fails the whole batch with IntegrityError and writes nothing. Otherwise each name row is inserted unless its (name, team) is taken by then. |
| Db.Database.BulkInsertGuestNames | backend/scraper/services/scraper_service.py:510 | A blank name fails the batch and writes nothing; otherwise every guest name row is appended at consecutive keys. |
| Db.Database.BulkInsertTeps | backend/scraper/services/scraper_service.py:595-598 | Each participation in turn is inserted unless its (team, event) is taken by then. |
| Db.Database.SaveEvent | backend/scraper/services/scraper_service.py:362-368 | Only the end time, description and quizmaster of that one event change. |
| Db.Database.SaveTepScore | backend/scraper/services/scraper_service.py:542-543 | Only the score of that one participation changes. |
| Db.Database.DeleteEvent | backend/scraper/tasks.py:51 | The event and its participations are removed and the tables stay valid. |
| Db.Enumerate | backend/scraper/services/scraper_service.py:299 | Iterating a set visits each element exactly once. |
| Matching.MatchGame | backend/scraper/services/scraper_service.py:131-174 | A game is found exactly when the lookup has (type, day) or (type, none); the result is one of the lookup's games; otherwise KeyError. |
| Matching.MatchedGameFits | backend/scraper/services/scraper_service.py:156-167 | The matched game has the requested type. Its day is the requested day, or none, and it is none only when no game has that exact day. |
| Matching.MatchGameExamples | backend/scraper/tests/test_services.py:169-200 | An exact official match; a fallback to the custom game; KeyError for an unknown type. |
| Matching.LookupCoversEvents | backend/scraper/services/scraper_service.py:254-306 | With the official rows and the custom rows stored, the lookup read back matches every scraped event. |
| Matching.SelectedLookupFaithful | backend/scraper/services/scraper_service.py:280-306 | Every lookup entry names a stored game with that (type, day). With at least one condition, every entry is a game of this venue; with none (no official game, no event), the empty `Q()` selects every game of every venue and the lookup has the key of each. |
| Matching.SelectedGames | backend/scraper/services/scraper_service.py:280-298 | Without conditions the selection is every stored game; with conditions it holds only games at the venue, and always every stored official or custom row of the page. |
| Matching.VenueGames | backend/scraper/services/scraper_service.py:280-298 | Under the correction (Findings row 4), only stored games at the venue that are official or custom rows of the page. |
| Matching.EmptyPageReadsEveryVenue | backend/scraper/services/scraper_service.py:280-304 | As written, a page with no games and no events, pushed while two other venues each have a "Trivia" game on Tuesday, selects both games and so raises NotImplementedError; the venue's own selection is empty. See Findings. |
| Matching.VenueLookupFaithful | backend/scraper/services/scraper_service.py:280-306 | The read-back restricted to the venue's own rows: faithful, only games of the venue, and empty for a page without conditions. |
| Duplicates.DedupKeys | backend/scraper/services/scraper_service.py:567-593 | The kept map has exactly the keys of the entries seen. |
| Duplicates.DedupChoice | backend/scraper/services/scraper_service.py:587 | The entry kept for a key is the first of the highest-scoring entries with that key. |
| Duplicates.DedupKeepsMax | backend/scraper/services/scraper_service.py:587 | No entry of a key scores more than the entry kept for it. |
| Duplicates.BestScoresMax | backend/scraper/services/scraper_service.py:587 | Highest-wins over (key, score) pairs, the rule of the participation step and the corrected backfill: every key is present, no score given for it is higher than the one kept, and the kept score is one given for that key. |
| Duplicates.LastScoresLast | backend/scraper/services/scraper_service.py:528-531 | The dict comprehension as written maps a key whose entry no later entry shares to that entry's score. |
| Duplicates.LastScoresFrom | backend/scraper/services/scraper_service.py:528-531 | The comprehension's keys are exactly the keys given, and each maps to the score of an entry with that key that no later entry shares. |
| Duplicates.LastScoresDisagree | backend/scraper/services/scraper_service.py:528-531 | A team scraped twice with 70, then 50 gets 50 from the comprehension as written, and 70 under highest-wins. |
| Collect.AllTeams | backend/scraper/services/scraper_service.py:427-432 | The teams of all scraped events, and only those. |
| Collect.OfficialTeams | backend/scraper/services/scraper_service.py:457-459 | Exactly the scraped teams with a team id. |
| Collect.OfficialNameRows | backend/scraper/services/scraper_service.py:450-460 | One non-guest name row per scraped official team, attached to the team's key. |
| Collect.BlankOfficialName | backend/api/models.py:78-81 | The official name rows contain a blank name exactly when some scraped official team has a blank name. |
| Collect.EventRows | backend/scraper/services/scraper_service.py:383-398 | One event row per event to create, at its matched game and date. |
| Collect.MatchingEvents | backend/scraper/services/scraper_service.py:337-344 | Exactly the scraped events whose matched game is the autoscrape target. |
| Collect.Without | backend/scraper/services/scraper_service.py:370 | The scraped events other than the resolved one. |
| Collect.WithoutSingleMatch | backend/scraper/services/scraper_service.py:351-370 | When a single event matches, leaving it out removes just that position from the list. |
| Collect.TepEntryOf | backend/scraper/services/scraper_service.py:578-593 | A scraped team's participation is keyed by its (team, event), names the team of its id or guest name, takes as `team_name` the name row of that team with the scraped name, and carries the scraped score. |
| Collect.TepChoiceIsBest | backend/scraper/services/scraper_service.py:565-593 | For every scraped team of every event, a participation of that (team, event) is kept with a score no lower than the team's. The kept one was built from a team scraped at that event with the same team, its name row and its score. |
| Collect.KeptTepFrom | backend/scraper/services/scraper_service.py:585-593 | Every kept participation was built from some scraped team of some scraped event. |
| Collect.KeptTepKey | backend/scraper/services/scraper_service.py:585-593 | The participation kept under a (team, event) key has that key and its entry's score. |
| Collect.KeptTepNamed | backend/scraper/services/scraper_service.py:585-593 | Each kept participation names a name row of its own team with the name and score of a team scraped at its event. |
| Collect.NameLookup | backend/scraper/services/scraper_service.py:558-563 | (team, name) maps to the name row of that team and name, for exactly the page's teams. |
| Service.ProcessEndDate | backend/scraper/services/scraper_service.py:104-128 | A date is kept. A YYYY-MM-DD string gives its date, other text ValueError. No end date gives the latest event date at the venue, or none. Any other value gives ValueError. |
| Service.ProcessEndDateExamples | backend/scraper/tests/test_services.py:125-166 | The date object, the date string, "Blah", no end date without events, and no end date with events at the venue. |
| Service.ProcessEndDateText | backend/scraper/services/scraper_service.py:111-117 | A date and its ISO text resolve to the same end date. |
| Service.OfficialGames | backend/scraper/services/scraper_service.py:71-73 | The games handed to `sync` are the lookup's games that have a day, each with its row and its own venue's name. |
| Service.OfficialGamesSynced | backend/scraper/services/scraper_service.py:71-73 | Once those games' schedules are installed, every official game of the lookup is synced. |
| Service.ScraperService.constructor | backend/scraper/services/scraper_service.py:26-30 | A service in the given mode for the given URL, with no lookup and no resolved event. |
| Service.ScraperService.PushToDb | backend/scraper/services/scraper_service.py:44-102 | An unattended call with no events answers false and writes nothing. An error rolls back every table and the schedule. Success answers true and stores the venue, game types and quizmasters. The page's game rows are stored and the lookup is their read-back: of this venue's games, or of every venue's for a page with no games and no events. Every scraped event matches a game, and every scraped team takes part in its event. Every game of the lookup with a day is synced under its venue's name, and no task is lost. Without an autoscrape resolution, the page is then stored, and a push of a page already stored leaves the games, events, teams, team names and participations unchanged, so a repeated push changes none of them. |
| Service.ScraperService.StoreAll | backend/scraper/services/scraper_service.py:64-100 | The transaction's steps in order up to the first error; on success the same facts as PushToDb, the page stored and the five tables unchanged for a page already stored. |
| Service.ScraperService.StoreGames | backend/scraper/services/scraper_service.py:65-75 | Steps 1 to 4; on success the venue, game types, the games and their read-back, the synced tasks (of every venue's games for a page without conditions) and the quizmasters as in PushToDb. Events, teams, names and participations are untouched, and a games table that already holds the page is unchanged. |
| Service.ScraperService.StorePageEvents | backend/scraper/services/scraper_service.py:77-100 | From the events on: every scraped team plays at its event. Without a resolution the page is then stored, and a page already stored leaves the four tables unchanged. |
| Service.ScraperService.SyncOfficialGames | backend/scraper/services/scraper_service.py:71-73 | Fails only with NotImplementedError or IntegrityError. On success every game of the lookup with a day is synced under its venue's name; existing tasks are never changed. |
| Service.ScraperService.StorePage | backend/scraper/services/scraper_service.py:65-69 | Upserts the venue, game types and games, touching no event, team or participation. It fails with IntegrityError exactly when the venue's create or rename clashes with another venue's name (backend/api/models.py:190-193), and otherwise only with NotImplementedError on an ambiguous read-back (over every venue's games for a page without conditions). On success the page's game rows are stored; with them already stored, the games table is unchanged. |
| Service.ScraperService.StoreEvents | backend/scraper/services/scraper_service.py:77-100 | Steps 5 to 10: on success every scraped team plays at the event of its scraped (game, date). Without a resolution the page's events, teams and participations are then stored, and were they stored before, nothing changes. |
| Service.ScraperService.CreateOrUpdateVenue | backend/scraper/services/scraper_service.py:176-207 | IntegrityError, with the venues unchanged, exactly when the venue is created or renamed to a name another URL's venue holds. Otherwise the venue under the URL has the scraped name and was last scraped now, and unique venue names stay unique. |
| Service.ScraperService.ProcessGameTypes | backend/scraper/services/scraper_service.py:209-233 | Every official and event game type is stored; none is removed. |
| Service.ScraperService.ProcessGames | backend/scraper/services/scraper_service.py:235-308 | Inserts the official and custom game rows while ignoring stored ones; with all of them stored the table is unchanged. The selected games are the page's rows at this venue, or every game of every venue when there is no condition. Two selected games under one (type, day) give NotImplementedError. Otherwise the lookup of the selected games matches every scraped event. |
| Service.PageGamesAtVenue | backend/scraper/services/scraper_service.py:235-278 | Inserting the page's rows, all at a stored venue, keeps every game's venue stored. |
| Service.ScraperService.ProcessQuizmasters | backend/scraper/services/scraper_service.py:310-325 | Every scraped quizmaster name is stored; none is removed. |
| Service.ScraperService.ProcessAutoscrapeEvent | backend/scraper/services/scraper_service.py:327-374 | In manual mode, or with no match, all events go on unchanged. More than one matching event gives ValueError. A single match resolves today's placeholder of the game in place and withholds that event; a missing placeholder gives DoesNotExist. |
| Service.ScraperService.ProcessEvents | backend/scraper/services/scraper_service.py:376-421 | Inserts the events not resolved, ignoring stored (game, date) pairs; with all of them stored the table is unchanged. The lookup read back maps each key to its event. For a page with events its keys are exactly the scraped (game, date) pairs that exist; for a page with none, the empty `Q()` reads back every stored event. Every event not withheld is in it. |
| Service.ScraperService.ProcessOfficialTeams | backend/scraper/services/scraper_service.py:423-464 | Inserts a team per new scraped team id and returns id to key for exactly the scraped ids. Inserts their name rows ignoring stored ones; a blank name gives IntegrityError. With every id and official name stored, neither table changes. |
| Service.ScraperService.ProcessTeamIds | backend/scraper/services/scraper_service.py:427-446 | Inserts a team per new scraped id and reads back id to team for exactly the scraped ids; with every id stored the table is unchanged. |
| Service.ScraperService.ProcessGuestTeams | backend/scraper/services/scraper_service.py:466-514 | The map's keys are exactly the scraped guest names. A known guest name keeps its team, and each new name gets its own fresh blank team and guest name row. A blank guest name gives IntegrityError. |
| Service.ScraperService.ProcessAutoscrapeTeps | backend/scraper/services/scraper_service.py:516-543 | Without a resolved event nothing changes. Otherwise it fails with ValueError exactly when a pending participation has no scraped (team id, name). On success it gives each pending participation its scraped score. |
| Service.ScraperService.ProcessTeps | backend/scraper/services/scraper_service.py:548-598 | KeyError exactly when a scraped (game, date) has no event, writing nothing. Otherwise the kept participation of every (team, event), with its team, `team_name` row and score, is inserted unless that pair is stored. |
| Service.ScraperService.ProcessTeams | backend/scraper/services/scraper_service.py:88-91 | On success every scraped official and guest team has its team and its name row; with all of them stored before, neither table changes. |
| Service.ScraperService.ProcessTeamsAndTeps | backend/scraper/services/scraper_service.py:88-100 | On success every scraped team takes part in the event it was scraped at and the page's teams are stored; events are untouched. Without a resolution, with the teams and every participation stored before, nothing changes. |
| Service.ScraperService.ProcessScores | backend/scraper/services/scraper_service.py:93-100 | After the backfill and the participations, every scraped team takes part in its event; without a resolution, with every participation stored before, the table is unchanged. |
| Service.ScraperService.RecordParticipations | backend/scraper/services/scraper_service.py:95-100 | With the teams ready, every scraped team takes part in its event after the participation step; with every participation stored before, the table is unchanged. |
| Service.ReadBackGames | backend/scraper/services/scraper_service.py:298-308 | NotImplementedError exactly when two selected games share a (type, day); otherwise the lookup of the selected games. |
| Service.PageGamesStored | backend/scraper/services/scraper_service.py:239-277 | After the two bulk inserts, every official and custom row of the page is stored. |
| Service.ReadBackEvents | backend/scraper/services/scraper_service.py:406-421 | (game, date) maps to its event; for a non-empty request exactly the requested pairs that exist, for an empty one every stored event's (game, date). |
| Service.ReadBackOfPage | backend/scraper/services/scraper_service.py:406-421 | The read-back of a page's events is its existing (game, date) pairs, or every stored event for a page without events, and holds every stored event not withheld. |
| Service.TeamsStored | backend/scraper/services/scraper_service.py:435-438 | After the bulk insert, every scraped team id has a team. |
| Service.ReadBackTeams | backend/scraper/services/scraper_service.py:442-446 | The id-to-key map has exactly the scraped ids, each mapped to the team with that id. |
| Service.ExistingGuests | backend/scraper/services/scraper_service.py:477-481 | Exactly the scraped guest names already stored, each mapped to its guest team. |
| Service.NewGuestNames | backend/scraper/services/scraper_service.py:487 | Exactly the scraped guest names not yet stored. |
| Service.PairGuestNames | backend/scraper/services/scraper_service.py:497-508 | The i-th sorted name is paired with the i-th blank team, as a guest name row and as a map entry. |
| Service.PairNewGuests | backend/scraper/services/scraper_service.py:489-508 | Creates one blank team per new name and pairs them in sorted order, with rows the guest constraints accept. |
| Service.InsertNewGuests | backend/scraper/services/scraper_service.py:489-510 | Maps every new name to a fresh team whose only name row is that guest name. A blank name gives IntegrityError and writes no name. |
| Service.GuestRowsInsertable | backend/api/models.py:68-77 | The paired rows satisfy both guest constraints against the stored names. |
| Service.PairingRecorded | backend/scraper/services/scraper_service.py:497-510 | After the insert, each new name is recorded on its own new team. |
| Service.LookupOfGuests | backend/scraper/services/scraper_service.py:512 | Merging the known and the new guests gives every scraped guest name its guest team. |
| Service.TeamScoresLast | backend/scraper/services/scraper_service.py:528-531 | As written, the backfill's score map has exactly the scraped (team id, name) keys, each mapped to the score of its last occurrence on the page. |
| Service.BestTeamScoresMax | backend/scraper/services/scraper_service.py:528-531 | Under the correction, each scraped key maps to a score scraped for it and none scraped for it is higher; see Findings. |
| Service.TeamScoresValid | backend/api/models.py:336-342 | Every backfill score is in -1..112. |
| Service.SaveBackfilledScores | backend/scraper/services/scraper_service.py:533-543 | ValueError exactly when a pending participation's key is missing. On success each pending participation has its key's score and nothing else changes. |
| Service.BackfillFillsPending | backend/scraper/services/scraper_service.py:519-543 | After the backfill no participation of the event is pending. The others are unchanged. Each pending one keeps its team, name row and event, and gets the score of the last scraped entry of its (team id, name), as the comprehension as written keeps it. |
| Service.CollectTeps | backend/scraper/services/scraper_service.py:567-593 | KeyError exactly when a scraped event's (game, date) is missing from the lookup; otherwise the kept participation per (team, event). |
| Service.KeepBest | backend/scraper/services/scraper_service.py:578-593 | The inner loop leaves, per (team, event), the first highest-scoring entry seen so far. |
| Service.InsertTepSet | backend/scraper/services/scraper_service.py:595-598 | The kept participations are inserted, ignoring stored (team, event) pairs. |
| Service.EventsPlayed | backend/scraper/services/scraper_service.py:416-421 | A participation at the looked-up event is one at the event of that (game, date). |
| Service.PageParticipations | backend/scraper/services/scraper_service.py:585-598 | After the insert, every scraped team has a participation at its event. |
| Service.TepsStored | backend/scraper/services/scraper_service.py:589-598 | A scraped team's (team, event) is stored after the insert. A row the insert added there scores no lower than that team, and carries the score and the `team_name` row of a team scraped at that event under the same team. |
| Service.KeptTepsOk | backend/api/models.py:312-342 | Every kept participation has a score in range and existing team, name and event. |
| Service.PageTeamsResolve | backend/scraper/services/scraper_service.py:579-590 | Every scraped team resolves to a team key and to a name row of that team. |
| Service.PlaceholderAt | backend/scraper/services/scraper_service.py:354-358 | The placeholder found is the game's event today and has no quizmaster. |
| Service.Resolved | backend/scraper/services/scraper_service.py:362-368 | The resolved event keeps its game, date and theme, and takes now, the scraped description and the quizmaster. |
| Service.OfficialRowSeq | backend/scraper/services/scraper_service.py:239-250 | The rows of the venue's official games, each a valid official row. |
| Service.CustomRowSeqOf | backend/scraper/services/scraper_service.py:259-277 | One custom row (no day, no time) per custom game type at this venue. |
| Service.LookupOfUnique | backend/scraper/services/scraper_service.py:298-306 | Without two selected games on one (type, day), the lookup read back is unique. |
| Service.PushLeavesPageStored | backend/scraper/services/scraper_service.py:64-100 | A push that stored the page's games, events, teams and participations under the lookup it read back leaves the page stored. |
| Service.ReadyIsStored | backend/scraper/services/scraper_service.py:427-512 | Teams and names as the team steps leave them count as the page's teams stored. |
| Service.PageGamesIdle | backend/scraper/services/scraper_service.py:239-277 | Inserting game rows that are all stored, ignoring conflicts, changes nothing. |
| Service.EventsIdle | backend/scraper/services/scraper_service.py:383-400 | Inserting events whose (game, date) pairs are all stored changes nothing. |
| Service.TeamsIdle | backend/scraper/services/scraper_service.py:435-438 | Inserting teams whose ids are all stored changes nothing. |
| Service.OfficialNamesIdle | backend/scraper/services/scraper_service.py:450-462 | Inserting the official name rows of a page whose official names are stored changes nothing. |
| Service.GuestsIdle | backend/scraper/services/scraper_service.py:486-510 | With no new guest name, the guest step writes no name row. |
| Service.TepsIdle | backend/scraper/services/scraper_service.py:595-598 | When every scraped team already takes part in its event, inserting the kept participations changes nothing. |
| Service.KeptTepStored | backend/scraper/services/scraper_service.py:585-598 | A kept participation's (team, event) is already stored when its scraped team takes part in its event. |
| Schedule.CronWeekdayShift | backend/scraper/utils/sync_tasks.py:28-34 | Crontab's weekday of a date is Python's weekday plus one, mod 7; of the next day, plus two. |
| Schedule.RangeRoundTrip | backend/scraper/utils/sync_tasks.py:103-105 | "a-b" reads back as the pair (a, b). |
| Schedule.CrontabHours | backend/scraper/utils/sync_tasks.py:96-105 | NotImplementedError exactly from 21:30 on. Otherwise the window starts at the next hour and lasts two hours, or three from half past, ending by 23. |
| Schedule.CutoffIsTight | backend/scraper/utils/sync_tasks.py:97-100 | A time is accepted exactly when its window would end by 23. |
| Schedule.ScrapeWindowCoversGame | backend/scraper/utils/sync_tasks.py:39-56 | The window opens within an hour after the start and lasts until at least two hours after it. |
| Schedule.CrontabHoursNormal | backend/scraper/tests/test_utils.py:80-84 | 14:00 gives "15-16". |
| Schedule.CrontabHoursBeforeHalf | backend/scraper/tests/test_utils.py:86-90 | 09:15 gives "10-11". |
| Schedule.CrontabHoursAfterHalf | backend/scraper/tests/test_utils.py:92-96 | 17:45 gives "18-20". |
| Schedule.CrontabHoursLatest | backend/scraper/tests/test_utils.py:98-102 | 21:15 gives "22-23". |
| Schedule.CrontabHoursRefusals | backend/scraper/tests/test_utils.py:104-123 | 21:30, 21:45, 22:00 and 23:45 give NotImplementedError. |
| Schedule.PlaceholderMidnightCounterexample | backend/scraper/utils/sync_tasks.py:25-37 | As written, a game at 00:15 gets placeholder hour field "-1"; see Findings. |
| Schedule.PlaceholderCron | backend/scraper/utils/sync_tasks.py:25-37 | The placeholder schedule keeps the game's minute, on every day of the month and every month. |
| Schedule.PlaceholderFields | backend/scraper/utils/sync_tasks.py:25-37 | The fields read back as the game's minute and the previous hour. The weekday is the crontab game day, or the day before for a 00:xx game. |
| Schedule.PlaceholderAnHourBefore | backend/scraper/utils/sync_tasks.py:24-37 | On any date the game is played, the placeholder fires at a valid hour and weekday exactly 60 minutes before the start. |
| Schedule.ScrapeCron | backend/scraper/utils/sync_tasks.py:50-56 | The scrape schedule runs through the window's hours. |
| Schedule.ScrapeSameDay | backend/scraper/utils/sync_tasks.py:53 | The scrape schedule's weekday is the crontab weekday of the game's date. |
| Schedule.ReenableCron | backend/scraper/utils/sync_tasks.py:60-66 | The re-enable schedule runs at 00:00. |
| Schedule.ReenableNextDay | backend/scraper/utils/sync_tasks.py:63 | Its weekday is the crontab weekday of the day after the game. |
| Schedule.Plan | backend/scraper/utils/sync_tasks.py:68-89 | Three tasks, each under one of the game's three task names; the placeholder task carries the schedule as written (see Findings). |
| Schedule.TasksNameTheScrapeTask | backend/scraper/utils/sync_tasks.py:22-89 | The scrape and re-enable tasks run the scrape and re-enable jobs and both carry the scrape task's own name as `task_name`. |
| Schedule.GetOrCreate | backend/scraper/utils/sync_tasks.py:68-89 | An equal task is kept. A task of the same name with other fields is an IntegrityError. A new name is added. Other tasks never change. |
| Schedule.InstallAll | backend/scraper/utils/sync_tasks.py:68-89 | On success all three tasks are present, old tasks are unchanged and new names come from the plan; a plan already present changes nothing. |
| Schedule.SyncGame | backend/scraper/utils/sync_tasks.py:18-89 | ValueError exactly for a game without a day; NotImplementedError exactly for an official game from 21:30 on; on success the schedule only grows. |
| Schedule.SyncGameInstalls | backend/scraper/utils/sync_tasks.py:25-89 | After one game's sync its three schedules and tasks are installed; the only names added are its own. |
| Schedule.SyncFrom | backend/scraper/utils/sync_tasks.py:12-93 | A successful sync only adds schedules and tasks. |
| Schedule.SyncInstallsAll | backend/scraper/utils/sync_tasks.py:18-89 | After a successful sync every game's schedules and tasks are installed. |
| Schedule.SyncAddsOnlyGameTasks | backend/scraper/utils/sync_tasks.py:68-89 | A sync adds no task name other than those of the synced games. |
| Schedule.SyncSettled | backend/scraper/utils/sync_tasks.py:25-89 | A sync over games already installed changes nothing. |
| Schedule.SyncIdempotent | backend/scraper/utils/sync_tasks.py:12-93 | Syncing the same games twice gives the state of syncing them once. |
| Schedule.SyncErrorCause | backend/scraper/utils/sync_tasks.py:18-100 | A failed sync failed with ValueError because of a game without a day, with NotImplementedError because of a game from 21:30 on, or with IntegrityError. |
| Schedule.SyncOfficialErrors | backend/scraper/services/scraper_service.py:71-73 | Syncing only official games never raises ValueError. |
| Schedule.Beat.GetOrCreateSchedule | backend/scraper/utils/sync_tasks.py:25-66 | The crontab row is present afterwards; no other row changes. |
| Schedule.Beat.GetOrCreateTask | backend/scraper/utils/sync_tasks.py:68-89 | The task table follows GetOrCreate; on IntegrityError it is unchanged. |
| Schedule.Beat.SetEnabled | backend/scraper/tasks.py:39-56 | Only the named task's enabled flag changes, and only if the task exists. |
| Schedule.Beat.SyncOne | backend/scraper/utils/sync_tasks.py:18-91 | One loop iteration follows SyncGame, with the placeholder schedule as written, and never removes or changes an existing task. |
| Schedule.Beat.CreateTasks | backend/scraper/utils/sync_tasks.py:68-89 | The task table follows InstallAll; existing tasks never change. |
| Schedule.Beat.Sync | backend/scraper/utils/sync_tasks.py:12-93 | The loop follows SyncFrom over the games, stopping at the first error, and never removes or changes an existing task. |
| Lifecycle.Placeholder | backend/scraper/tasks.py:15 | The placeholder is the game's event today with end time, description, quizmaster and theme all null. |
| Lifecycle.GeneratePlaceholderEvent | backend/scraper/tasks.py:13-15 | IntegrityError, with nothing written, exactly when the game is missing or already has an event today; otherwise the placeholder is added under a fresh key. |
| Lifecycle.PlaceholderIsFound | backend/scraper/tests/test_tasks.py:11-25 | The new placeholder is the only event of the game today, and it is the one the unattended scrape resolves. |
| Lifecycle.ScrapeCutoff | backend/scraper/tasks.py:22-32 | The latest date at the venue of an event with a quizmaster, or yesterday when there is none. |
| Lifecycle.PlaceholderKeepsCutoff | backend/scraper/tasks.py:22-26 | Creating a placeholder never moves the cutoff. |
| Lifecycle.AutoScrape | backend/scraper/tasks.py:18-39 | Pushes in unattended mode from the cutoff, targeting the game. False exactly for a page without events. False or an error leaves the tables and the schedule as they were. True updates the venue and disables exactly the named task. A task is never enabled. |
| Lifecycle.ReenableActionAsWritten | backend/scraper/tasks.py:42-56 | As written: delete exactly when the game has an event dated yesterday, whatever its state. |
| Lifecycle.ReenableDeletesResolvedEvent | backend/scraper/tasks.py:42-56 | An event resolved yesterday is deleted by the rule as written and kept by the corrected rule; see Findings. |
| Lifecycle.ReenableAction | backend/scraper/tasks.py:49-56 | Delete exactly when yesterday's event of the game is an unresolved placeholder, and then that one; otherwise enable. |
| Lifecycle.ReenableKeepsResolvedEvents | backend/scraper/tasks.py:49-56 | The corrected rule never deletes a resolved event, nor an event of another game or day. |
| Lifecycle.ReenableScraping | backend/scraper/tasks.py:42-56 | As written (Findings row 1): the action is to delete the game's event dated yesterday, resolved or not, whenever there is one. Deleting removes that event and its participations and leaves the schedule. Enabling switches on the named task and leaves the tables. A task is never disabled. |
| Wrongdoings.Members | backend/api/forms.py:130-132 | A missing field is the empty set; otherwise the set of its members. |
| Wrongdoings.DuplicatesAreRepeatedVotes | backend/api/forms.py:135 | The reported members are exactly those in two or more categories. |
| Wrongdoings.CleanVotes | backend/api/forms.py:128-145 | ValidationError exactly when some member is in two categories, naming all such members. Otherwise the cleaned data unchanged. |
| Wrongdoings.CleanIffDisjoint | backend/api/forms.py:135-141 | The form cleans exactly when the three categories are pairwise disjoint. |
| Wrongdoings.Filled | backend/api/forms.py:130-132 | Filling absent fields with empty lists keeps every category's members. |
| Wrongdoings.MissingFieldsAreEmpty | backend/api/forms.py:130-132 | A field left out cleans exactly like the same field given empty. |

## Left out

- Scraping itself is not part of this model: the HTTP session, the headless browser, the DOM extraction and `scrape_data`. The page is a parameter of `PushToDb` and `AutoScrape`.
- Logging, and the text of exception messages: an error is its exception kind.
- `transaction.atomic` and `select_for_update` are modelled sequentially. On an error, `PushToDb` restores a snapshot of every table and of the scheduler; concurrent runs are not modelled.
- The `lru_cache` on `_match_game_to_event`: a cached pure lookup is the lookup itself.
- The iteration order of Python sets, dicts and querysets. Sets are visited in an unspecified order, and the order of the games handed to `sync` is not modelled. Only the set of tasks and the first error kind reach the contracts.
- The order in which `bulk_create` returns rows is not modelled. Blank teams get consecutive fresh keys, which is the pairing the source relies on.
- The clock and the time zone: `timezone.now()` and `timezone.localdate()` are parameters.
- `Service.ProcessEndDate`: the model accepts only the YYYY-MM-DD form. Python's `date.fromisoformat` accepts further ISO forms from Python 3.11 on; those are refused here.
- Blank venue, game-type and quizmaster names: their not-blank check constraints are not among the modelled constraints, and the model stores such names as given.
- `Schema.Event` and `Schema.TeamEventParticipation` keep `quizmaster` and `score` optional, as the placeholder task, the autoscrape step and the score backfill use them. backend/api/models.py:288-292 and :322 declare both columns non-null; the migrations that decide this are not part of this model.
- Member, MemberAttendance, Vote, Theme, Glossary and Round: only the constraints and display strings listed above are modelled. `Event.__str__`, `TeamEventParticipation.__str__` and the other display strings are not.
- `Wrongdoings.CleanVotes`: the error message's member list is modelled as the set it lists, not as its text.
- The admin site, the views, the serializers and the management commands.
- Text.Least: compares names by code point, as Python's `sorted()` does. `Team.__str__` takes the first name of `ordering = ["name"]`, which the database sorts by its collation; the model agrees with it only under a binary collation.
- Schedule.PlaceholderCron: corrects the schedule of a 00:xx game only. The placeholder it triggers is still dated the day before the game, since `generate_placeholder_event` uses the local date; `Lifecycle.GeneratePlaceholderEvent` models the task as written.
- Seconds of a game's time: `Chrono.Time` has hours and minutes only, and `Schema.TimeText` prints the seconds as "00". `Game.__str__` (backend/api/models.py:270-273) prints the stored seconds, which reach the task names built from it; a scraped time with non-zero seconds is not modelled.
- Column lengths: the `max_length` limits of the character columns are not modelled. These include the 100-character quizmaster name (backend/api/models.py:19), the 300-character team name (:56), the 100-character venue name (:191), the 200-character venue URL (:195) and the 200-character game-type name (:212). An over-long scraped value makes the database raise DataError and the push roll back; the model stores it and can answer true.
- `Db.VenueFks`: the foreign key from a game to its venue is a precondition of `PushToDb` and `AutoScrape` rather than part of `Database.Valid()`; the other foreign keys are in `Valid()`.
- `Schedule.Beat.Sync`: on an error the scheduler keeps the rows created before it. Inside `PushToDb` they are rolled back with everything else.

## Findings

| source | as written | input that shows it | evidently intended | confidence | as-written member | corrected member |
|---|---|---|---|---|---|---|
| backend/scraper/tasks.py:42-56 | `reenable_scraping` deletes any event of the game dated yesterday. | A placeholder created at 18:00 and resolved by the 20:00 scrape, which also disabled the scrape task. At midnight the re-enable task finds that event and deletes it with its participations. It does not re-enable the task, so the game is never scraped again. | Delete only a placeholder nobody resolved (quizmaster still null); otherwise re-enable the task. | high, not executed | Lifecycle.ReenableActionAsWritten, Lifecycle.ReenableDeletesResolvedEvent, Lifecycle.ReenableScraping | Lifecycle.ReenableAction, Lifecycle.ReenableKeepsResolvedEvents |
| backend/scraper/services/scraper_service.py:528-531 | The backfill's score dict keeps the last scraped score of a duplicated (team id, name). The participation step keeps the highest. | An event whose page lists guest "Team A" with 70, then with 50. A pending participation gets 50, although a fresh one would get 70. | Highest score wins in both steps. | medium, not executed | Duplicates.LastScoresLast, Duplicates.LastScoresDisagree, Service.TeamScoresLast, Service.BackfillFillsPending (used by Service.ScraperService.ProcessAutoscrapeTeps) | Service.BestTeamScores, Service.BestTeamScoresMax, Duplicates.BestScoresMax |
| backend/scraper/utils/sync_tasks.py:25-37 | The placeholder hour is `game.time.hour - 1`. | A game at 00:15 on a Monday gets crontab hour "-1", which is no hour. | 23:15 on the previous crontab weekday. The task then runs the day before the game, and `generate_placeholder_event` dates the placeholder with the local date, so that task would also have to date it the next day for the scrape to find it; the corrected member fixes the schedule only. | high, not executed | Schedule.PlaceholderCronAsWritten, Schedule.PlaceholderMidnightCounterexample, Schedule.Plan, Schedule.Beat.SyncOne | Schedule.PlaceholderCron, Schedule.PlaceholderAnHourBefore |
| backend/scraper/services/scraper_service.py:280-304 | The read-back filter ORs its conditions onto an empty `Q()`; a page with no games and no events adds none, so the filter selects every game of every venue. | A manual push of a page with no games and no events while two other venues each have a "Trivia" game on Tuesday: the read-back finds two games under ("Trivia", 1) and raises NotImplementedError. With no such clash, `sync` is handed every venue's official games. | Read back only the venue's own games, which for such a page is none. | medium, not executed | Matching.SelectedGames, Matching.EmptyPageReadsEveryVenue, Service.ScraperService.ProcessGames | Matching.VenueGames, Matching.VenueLookupFaithful |
