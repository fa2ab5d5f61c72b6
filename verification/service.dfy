/**
 * The reconciliation engine: `ScraperService.push_to_db` and its steps. Each
 * step reads the scraped page, writes its tables through get-or-create or an
 * insert that ignores conflicts, and reads back the lookup the later steps
 * use. The whole push is atomic: any error leaves every table as it was.
 */
module Service {
  import opened Wrappers
  import opened Chrono
  import opened Text
  import opened Records
  import opened Schema
  import opened Db
  import opened Matching
  import opened Duplicates
  import opened Collect
  import Schedule

  // ---------------------------------------------------------------- the end date of a scrape

  /** The `end_date` argument: a date, a string, None, or a value of any other type. */
  datatype EndDate = DateValue(d: Date) | TextValue(s: string) | NoEndDate | OtherValue

  /**
   * `_process_end_date`: a date is used as given; a string is parsed as an
   * ISO calendar date (ValueError when it is not one); None gives the latest
   * date of an event at the venue, or None when the venue has none; any other
   * value is a ValueError.
   */
  function ProcessEndDate(endDate: EndDate, url: Url, games: map<Pk, Game>, events: map<Pk, Event>): (r: Result<Option<Date>>)
    ensures endDate.DateValue? ==> r == Ok(Some(endDate.d))
    ensures endDate.TextValue? ==>
      (r.Ok? <==> ParseIsoDate(endDate.s).Ok?)
      && (r.Ok? ==> r.value == Some(ToOrdinal(ParseIsoDate(endDate.s).value)))
    ensures endDate.NoEndDate? ==>
      && r.Ok?
      && (r.value.None? <==> VenueEventDates(games, events, url, false) == {})
      && (r.value.Some? ==> r.value.value in VenueEventDates(games, events, url, false)
                            && forall d :: d in VenueEventDates(games, events, url, false) ==> d <= r.value.value)
    ensures endDate.OtherValue? ==> r == Err(ValueError)
    ensures r.Err? ==> r.error == ValueError
  {
    match endDate
    case DateValue(d) => Ok(Some(d))
    case TextValue(s) =>
      (match ParseIsoDate(s)
       case Ok(c) => Ok(Some(ToOrdinal(c)))
       case Err(_) => Err(ValueError))
    case NoEndDate =>
      var dates := VenueEventDates(games, events, url, false);
      if exists d :: d in dates then Ok(Some(Latest(dates))) else Ok(None)
    case OtherValue => Err(ValueError)
  }

  /** The end-date cases of the service tests. */
  lemma ProcessEndDateExamples(url: Url, venue: Url, games: map<Pk, Game>)
    requires url != venue
    ensures ProcessEndDate(DateValue(ToOrdinal(CalendarDate(2001, 9, 11))), url, map[], map[])
              == Ok(Some(ToOrdinal(CalendarDate(2001, 9, 11))))
    ensures ProcessEndDate(TextValue("2001-09-11"), url, map[], map[]) == Ok(Some(ToOrdinal(CalendarDate(2001, 9, 11))))
    ensures ProcessEndDate(TextValue("Blah"), url, map[], map[]) == Err(ValueError)
    ensures ProcessEndDate(NoEndDate, url, map[], map[]) == Ok(None)
    ensures var d := ToOrdinal(CalendarDate(2001, 9, 11));
            var g := map[1 := Game("Trivia", None, None, venue)];
            var ev := map[2 := Event(1, d + 1, None, None, None, None), 3 := Event(1, d + 2, None, None, None, None),
                          4 := Event(1, d + 3, None, None, None, None)];
            && ProcessEndDate(NoEndDate, venue, g, ev) == Ok(Some(d + 3))
            && ProcessEndDate(NoEndDate, url, g, ev) == Ok(None)
  {
    KnownWeekday();
    var d := ToOrdinal(CalendarDate(2001, 9, 11));
    var g := map[1 := Game("Trivia", None, None, venue)];
    var ev := map[2 := Event(1, d + 1, None, None, None, None), 3 := Event(1, d + 2, None, None, None, None),
                  4 := Event(1, d + 3, None, None, None, None)];
    assert VenueEventDates(g, ev, venue, false) == {d + 1, d + 2, d + 3} by {
      assert ev[2].date == d + 1 && ev[3].date == d + 2 && ev[4].date == d + 3;
    }
    assert VenueEventDates(g, ev, url, false) == {};
  }

  /** A date written out in ISO form is read back as the same day. */
  lemma ProcessEndDateText(c: CalendarDate, url: Url, games: map<Pk, Game>, events: map<Pk, Event>)
    requires ValidCalendarDate(c)
    ensures ProcessEndDate(TextValue(IsoText(c)), url, games, events) == ProcessEndDate(DateValue(ToOrdinal(c)), url, games, events)
  {
    IsoRoundTrip(c);
  }

  // ---------------------------------------------------------------- the service

  /** The game `p` as `sync` is handed it: its row, and the name of its venue. */
  function SyncedOf(p: Pk, gs: map<Pk, Game>, venues: map<Url, Venue>): Schedule.SyncedGame
    requires p in gs && gs[p].venue in venues
  {
    Schedule.SyncedGame(p, gs[p], venues[gs[p].venue].name)
  }

  /** The game `p` of the lookup, as `sync` is handed it, is one `sync` accepts. */
  ghost predicate OfficialReady(p: Pk, gs: map<Pk, Game>, venues: map<Url, Venue>) {
    p in gs && gs[p].venue in venues && Schedule.Ready(SyncedOf(p, gs, venues))
  }

  /** Every game of the lookup with a day has its schedules and tasks in `st`. */
  ghost predicate SyncedAll(st: Schedule.BeatState, games: map<GameKey, Pk>, gs: map<Pk, Game>, venues: map<Url, Venue>) {
    forall k :: k in games && k.1.Some? ==>
      OfficialReady(games[k], gs, venues)
      && Schedule.Installed(st, SyncedOf(games[k], gs, venues), Schedule.DefaultInterval)
  }

  /**
   * The games `push_to_db` hands to `sync`: those of the lookup that have a
   * day, each with its primary key, its row and its venue's name.
   */
  method OfficialGames(games: map<GameKey, Pk>, gs: map<Pk, Game>, venues: map<Url, Venue>)
    returns (official: seq<Schedule.SyncedGame>)
    requires LookupFaithful(games, gs) && GamesValid(gs) && VenueFks(gs, venues)
    ensures Schedule.RowsOk(official)
    ensures forall i :: 0 <= i < |official| ==> official[i].game.day.Some?
    ensures forall k :: k in games && k.1.Some? ==> SyncedOf(games[k], gs, venues) in official
  {
    var pks := Enumerate(set k | k in games && k.1.Some? :: games[k]);
    official := [];
    var i := 0;
    while i < |pks|
      invariant i <= |pks|
      invariant Schedule.RowsOk(official)
      invariant forall j :: 0 <= j < |official| ==> official[j].game.day.Some?
      invariant forall j :: 0 <= j < i ==> pks[j] in gs && SyncedOf(pks[j], gs, venues) in official
    {
      assert pks[i] in pks;
      var k :| k in games && k.1.Some? && games[k] == pks[i];
      official := official + [SyncedOf(pks[i], gs, venues)];
      i := i + 1;
    }
    forall k | k in games && k.1.Some?
      ensures SyncedOf(games[k], gs, venues) in official
    {
      assert games[k] in pks;
    }
  }

  /** A sync that installed every game it was handed leaves every game of the lookup with a day installed. */
  lemma OfficialGamesSynced(st: Schedule.BeatState, games: map<GameKey, Pk>, gs: map<Pk, Game>, venues: map<Url, Venue>,
                            official: seq<Schedule.SyncedGame>)
    requires LookupFaithful(games, gs) && VenueFks(gs, venues)
    requires forall k :: k in games && k.1.Some? ==> SyncedOf(games[k], gs, venues) in official
    requires Schedule.AllInstalled(st, official, 0, Schedule.DefaultInterval)
    ensures SyncedAll(st, games, gs, venues)
  {
    forall k | k in games && k.1.Some?
      ensures OfficialReady(games[k], gs, venues)
      ensures Schedule.Installed(st, SyncedOf(games[k], gs, venues), Schedule.DefaultInterval)
    {
      var i :| 0 <= i < |official| && official[i] == SyncedOf(games[k], gs, venues);
    }
  }

  class ScraperService {
    /** False for the unattended (autoscrape) mode. */
    const isManual: bool
    var sourceUrl: Url
    /** The game lookup `_match_game_to_event` reads. */
    var games: map<GameKey, Pk>
    var updatedEventPk: Option<Pk>
    var updatedEventData: Option<EventData>

    constructor (isManual: bool, sourceUrl: Url)
      ensures this.isManual == isManual && this.sourceUrl == sourceUrl
      ensures games == map[] && updatedEventPk == None && updatedEventData == None
    {
      this.isManual := isManual;
      this.sourceUrl := sourceUrl;
      games := map[];
      updatedEventPk, updatedEventData := None, None;
    }

    /**
     * `push_to_db`: forgets the previous autoscrape result; an unattended
     * scrape of a page without events writes nothing and answers false.
     * Otherwise every step runs inside one transaction: the first error
     * rolls every table back and is raised, and success answers true, with
     * every scraped team taking part in an event of its scraped (game, date).
     */
    method PushToDb(db: Database, beat: Schedule.Beat, page: PageData, target: Option<Pk>, today: Date, now: Instant)
      returns (r: Result<bool>)
      requires db.Valid() && VenueFks(db.games, db.venues)
      modifies db, beat, this`games, this`updatedEventPk, this`updatedEventData
      ensures db.Valid() && VenueFks(db.games, db.venues)
      ensures (r == Ok(false)) <==> !isManual && page.eventData == []
      ensures r.Err? || r == Ok(false) ==> db.Snapshot() == old(db.Snapshot()) && beat.State() == old(beat.State())
      ensures r == Ok(false) ==> updatedEventPk == None && updatedEventData == None
      ensures r == Ok(true) ==>
        && db.venues == old(db.venues)[sourceUrl := Venue(page.venueData.name, Some(now))]
        && GameTypeNames(page) <= db.gameTypes && QuizmasterNames(page.eventData) <= db.quizmasters
        && GamesRead(games, db.games, page, sourceUrl)
        && (forall e, t :: e in page.eventData && t in e.teams ==>
             PlayedAt(db.events, db.teams, db.teamNames, db.teps, EventKeyOf(games, e), t))
        && SyncedAll(beat.State(), games, db.games, db.venues)
        && Schedule.Extends(old(beat.State()), beat.State())
      ensures r == Ok(true) && updatedEventData.None? ==>
                PageStored(db.games, db.events, db.teams, db.teamNames, db.teps, page, sourceUrl)
      ensures r == Ok(true) && updatedEventData.None?
              && PageStored(old(db.games), old(db.events), old(db.teams), old(db.teamNames), old(db.teps), page, sourceUrl) ==>
        && db.games == old(db.games) && db.events == old(db.events) && db.teams == old(db.teams)
        && db.teamNames == old(db.teamNames) && db.teps == old(db.teps)
    {
      updatedEventPk, updatedEventData := None, None;
      if page.eventData == [] && !isManual {
        return Ok(false);
      }
      var saved, savedBeat := db.Snapshot(), beat.State();
      var stored := StoreAll(db, beat, page, target, today, now);
      if stored.Err? {
        db.Restore(saved);
        beat.Restore(savedBeat);
        return Err(stored.error);
      }
      r := Ok(true);
    }

    /** The body of the transaction of `push_to_db`, up to the first error. */
    method StoreAll(db: Database, beat: Schedule.Beat, page: PageData, target: Option<Pk>, today: Date, now: Instant)
      returns (r: Result<()>)
      requires db.Valid() && VenueFks(db.games, db.venues)
      modifies db, beat, this`games, this`updatedEventPk, this`updatedEventData
      ensures db.Valid() && VenueFks(db.games, db.venues)
      ensures r.Ok? ==>
        && db.venues == old(db.venues)[sourceUrl := Venue(page.venueData.name, Some(now))]
        && GameTypeNames(page) <= db.gameTypes && QuizmasterNames(page.eventData) <= db.quizmasters
        && GamesRead(games, db.games, page, sourceUrl)
        && (forall e, t :: e in page.eventData && t in e.teams ==>
             PlayedAt(db.events, db.teams, db.teamNames, db.teps, EventKeyOf(games, e), t))
        && SyncedAll(beat.State(), games, db.games, db.venues)
        && Schedule.Extends(old(beat.State()), beat.State())
      ensures r.Ok? && updatedEventData.None? ==>
                PageStored(db.games, db.events, db.teams, db.teamNames, db.teps, page, sourceUrl)
      ensures r.Ok? && updatedEventData.None?
              && PageStored(old(db.games), old(db.events), old(db.teams), old(db.teamNames), old(db.teps), page, sourceUrl) ==>
        && db.games == old(db.games) && db.events == old(db.events) && db.teams == old(db.teams)
        && db.teamNames == old(db.teamNames) && db.teps == old(db.teps)
    {
      r := StoreGames(db, beat, page, now);
      if r.Err? {
        return;
      }
      ghost var mid := db.Snapshot();
      r := StorePageEvents(db, page, target, today, now);
      assert db.games == mid.games && db.venues == mid.venues;
      assert db.gameTypes == mid.gameTypes && db.quizmasters == mid.quizmasters;
    }

    /**
     * The steps of `push_to_db` from the events on, for a page whose games are
     * stored and read back as the service's `games`.
     */
    method StorePageEvents(db: Database, page: PageData, target: Option<Pk>, today: Date, now: Instant)
      returns (r: Result<()>)
      requires db.Valid() && AllMatch(games, page.eventData) && LookupFaithful(games, db.games)
      requires OfficialRows(page.venueData, sourceUrl) <= db.games.Values
      requires CustomRows(CustomTypes(page), sourceUrl) <= db.games.Values
      requires !Ambiguous(db.games, SelectedGames(db.games, page, sourceUrl))
      requires LookupOf(games, db.games, SelectedGames(db.games, page, sourceUrl))
      modifies db`events, db`nextPk, db`teams, db`teamNames, db`teps, this`updatedEventPk, this`updatedEventData
      ensures db.Valid()
      ensures r.Ok? ==> forall e, t :: e in page.eventData && t in e.teams ==>
                PlayedAt(db.events, db.teams, db.teamNames, db.teps, EventKeyOf(games, e), t)
      ensures r.Ok? && updatedEventData.None? ==>
                PageStored(db.games, db.events, db.teams, db.teamNames, db.teps, page, sourceUrl)
      ensures r.Ok? && updatedEventData.None?
              && PageStored(db.games, old(db.events), old(db.teams), old(db.teamNames), old(db.teps), page, sourceUrl)
              ==> db.events == old(db.events) && db.teams == old(db.teams)
                  && db.teamNames == old(db.teamNames) && db.teps == old(db.teps)
    {
      if PageStored(db.games, db.events, db.teams, db.teamNames, db.teps, page, sourceUrl) {
        assert LookupOf(games, db.games, SelectedGames(db.games, page, sourceUrl));
      }
      r := StoreEvents(db, page.eventData, target, today, now);
      if r.Ok? && updatedEventData.None? {
        PushLeavesPageStored(db.games, db.events, db.teams, db.teamNames, db.teps, page, sourceUrl, games);
      }
    }

    /**
     * Steps 1 to 4 of `push_to_db`: the venue, game types and games, the
     * `sync_tasks.sync` of the games, then the quizmasters.
     */
    method StoreGames(db: Database, beat: Schedule.Beat, page: PageData, now: Instant) returns (r: Result<()>)
      requires db.Valid() && VenueFks(db.games, db.venues)
      modifies db`venues, db`gameTypes, db`games, db`nextPk, db`quizmasters, beat, this`games
      ensures db.Valid() && VenueFks(db.games, db.venues) && db.events == old(db.events) && db.teams == old(db.teams)
      ensures db.teamNames == old(db.teamNames) && db.teps == old(db.teps)
      ensures Schedule.Extends(old(beat.State()), beat.State())
      ensures r.Ok? ==>
        && db.venues == old(db.venues)[sourceUrl := Venue(page.venueData.name, Some(now))]
        && GameTypeNames(page) <= db.gameTypes && QuizmasterNames(page.eventData) <= db.quizmasters
        && GamesRead(games, db.games, page, sourceUrl)
        && SyncedAll(beat.State(), games, db.games, db.venues)
      ensures PageStored(old(db.games), db.events, db.teams, db.teamNames, db.teps, page, sourceUrl) ==> db.games == old(db.games)
    {
      r := StorePage(db, page, now);
      if r.Err? {
        return;
      }
      r := SyncOfficialGames(db, beat);
      if r.Err? {
        return;
      }
      var quizmasters := ProcessQuizmasters(db, page.eventData);
    }

    /**
     * The `sync_tasks.sync` call of `push_to_db`: the games of the lookup that
     * have a day, at the default interval of two minutes. Every such game has
     * a day and a time, so the only failures are a game from 21:30 on and a
     * task name taken by another task.
     */
    method SyncOfficialGames(db: Database, beat: Schedule.Beat) returns (r: Result<()>)
      requires db.Valid() && LookupFaithful(games, db.games) && VenueFks(db.games, db.venues)
      modifies beat
      ensures r.Err? ==> r.error in {NotImplementedError, IntegrityError}
      ensures r.Ok? ==> SyncedAll(beat.State(), games, db.games, db.venues)
      ensures Schedule.Extends(old(beat.State()), beat.State())
    {
      var gs, venues := db.games, db.venues;
      var official := OfficialGames(games, gs, venues);
      ghost var before := beat.State();
      r := beat.Sync(official, Schedule.DefaultInterval);
      if r.Ok? {
        Schedule.SyncInstallsAll(before, official, 0, Schedule.DefaultInterval);
        OfficialGamesSynced(beat.State(), games, gs, venues, official);
      } else {
        Schedule.SyncOfficialErrors(before, official, Schedule.DefaultInterval);
      }
    }

    /**
     * Steps 1 to 3 of `push_to_db`: the venue, the game types, and the games
     * with their lookup (kept as the service's `games`).
     */
    method StorePage(db: Database, page: PageData, now: Instant) returns (r: Result<()>)
      requires db.Valid() && VenueFks(db.games, db.venues)
      modifies db`venues, db`gameTypes, db`games, db`nextPk, this`games
      ensures db.Valid() && VenueFks(db.games, db.venues) && db.events == old(db.events) && db.teams == old(db.teams)
      ensures db.teamNames == old(db.teamNames) && db.teps == old(db.teps)
      ensures r.Err? ==> r.error in {NotImplementedError, IntegrityError}
      ensures r.Err? && r.error == IntegrityError <==> VenueNameClash(old(db.venues), sourceUrl, page.venueData.name)
      ensures r.Ok? ==>
        && db.venues == old(db.venues)[sourceUrl := Venue(page.venueData.name, Some(now))]
        && GameTypeNames(page) <= db.gameTypes
        && GamesRead(games, db.games, page, sourceUrl)
      ensures OfficialRows(page.venueData, sourceUrl) <= old(db.games).Values
              && CustomRows(CustomTypes(page), sourceUrl) <= old(db.games).Values
              ==> db.games == old(db.games)
    {
      var venue := CreateOrUpdateVenue(db, page.venueData.name, now);
      if venue.Err? {
        return venue;
      }
      var types := ProcessGameTypes(db, page);
      var found := ProcessGames(db, page);
      if found.Err? {
        return Err(found.error);
      }
      games := found.value;
      r := Ok(());
    }

    /**
     * Steps 5 to 10 of `push_to_db`: the autoscrape placeholder, the events
     * and their lookup, the teams, the backfill and the participations.
     */
    method StoreEvents(db: Database, events: seq<EventData>, target: Option<Pk>, today: Date, now: Instant)
      returns (r: Result<()>)
      requires db.Valid() && AllMatch(games, events) && LookupFaithful(games, db.games)
      modifies db`events, db`nextPk, db`teams, db`teamNames, db`teps, this`updatedEventPk, this`updatedEventData
      ensures db.Valid()
      ensures r.Ok? ==> forall e, t :: e in events && t in e.teams ==>
                PlayedAt(db.events, db.teams, db.teamNames, db.teps, EventKeyOf(games, e), t)
      ensures r.Ok? && updatedEventData.None? ==> EventsStored(games, db.events, db.teams, db.teamNames, db.teps, events)
      ensures r.Ok? && updatedEventData.None?
              && EventsStored(games, old(db.events), old(db.teams), old(db.teamNames), old(db.teps), events)
              ==> db.events == old(db.events) && db.teams == old(db.teams)
                  && db.teamNames == old(db.teamNames) && db.teps == old(db.teps)
    {
      var notUpdated := ProcessAutoscrapeEvent(db, events, target, today, now);
      if notUpdated.Err? {
        return Err(notUpdated.error);
      }
      var lookup := ProcessEvents(db, events, notUpdated.value);
      assert lookup.Values <= db.events.Keys;
      ghost var evs := db.events;
      r := ProcessTeamsAndTeps(db, events, lookup);
      if r.Ok? {
        EventsPlayed(events, games, lookup, evs, db.teams, db.teamNames, db.teps);
        if updatedEventData.None? {
          assert notUpdated.value == events;
          forall e | e in events
            ensures HasKey(db.events, EventKey, EventKeyOf(games, e))
          {
            assert EventKey(db.events[lookup[EventKeyOf(games, e)]]) == EventKeyOf(games, e);
          }
        }
      }
    }

    /**
     * `_create_or_update_venue`: the venue with the source URL, created with
     * the scraped name or renamed to it, stamped with the scrape time. The
     * create or the rename fails on the unique venue name when a venue under
     * another URL holds it.
     */
    method CreateOrUpdateVenue(db: Database, name: string, now: Instant) returns (r: Result<()>)
      modifies db`venues
      ensures r.Err? <==> VenueNameClash(old(db.venues), sourceUrl, name)
      ensures r.Err? ==> r.error == IntegrityError && db.venues == old(db.venues)
      ensures r.Ok? ==> db.venues == old(db.venues)[sourceUrl := Venue(name, Some(now))]
      ensures VenueNamesUnique(old(db.venues)) ==> VenueNamesUnique(db.venues)
      ensures db.events == old(db.events) && db.teams == old(db.teams) && db.teamNames == old(db.teamNames) && db.teps == old(db.teps)
      ensures VenueFks(db.games, old(db.venues)) ==> VenueFks(db.games, db.venues)
    {
      if sourceUrl !in db.venues || db.venues[sourceUrl].name != name {
        if exists u :: u in db.venues && u != sourceUrl && db.venues[u].name == name {
          return Err(IntegrityError);
        }
      }
      if sourceUrl !in db.venues {
        db.venues := db.venues[sourceUrl := Venue(name, None)];
      } else if db.venues[sourceUrl].name != name {
        db.venues := db.venues[sourceUrl := db.venues[sourceUrl].(name := name)];
      }
      db.venues := db.venues[sourceUrl := db.venues[sourceUrl].(lastScrapedAt := Some(now))];
      r := Ok(());
    }

    /** `_process_game_types`: every official and event game type is a stored game type. */
    method ProcessGameTypes(db: Database, page: PageData) returns (names: set<string>)
      modifies db`gameTypes
      ensures db.gameTypes == old(db.gameTypes) + GameTypeNames(page)
      ensures db.events == old(db.events) && db.teams == old(db.teams) && db.teamNames == old(db.teamNames) && db.teps == old(db.teps)
      ensures names == GameTypeNames(page) && names <= db.gameTypes
    {
      names := GameTypeNames(page);
      db.gameTypes := db.gameTypes + names;
    }

    /**
     * `_process_games`: the official games and the page's custom games are
     * stored, then the selected games are read back into the lookup; two
     * selected games with the same (type, day) raise NotImplementedError.
     */
    method ProcessGames(db: Database, page: PageData) returns (r: Result<map<GameKey, Pk>>)
      requires db.Valid() && VenueFks(db.games, db.venues) && sourceUrl in db.venues
      modifies db`games, db`nextPk
      ensures db.Valid() && VenueFks(db.games, db.venues)
      ensures db.events == old(db.events) && db.teams == old(db.teams) && db.teamNames == old(db.teamNames) && db.teps == old(db.teps)
      ensures InsertedRows(old(db.games), db.games,
                           OfficialRows(page.venueData, sourceUrl) + CustomRows(CustomTypes(page), sourceUrl), GameRow)
      ensures OfficialRows(page.venueData, sourceUrl) <= db.games.Values
      ensures CustomRows(CustomTypes(page), sourceUrl) <= db.games.Values
      ensures OfficialRows(page.venueData, sourceUrl) + CustomRows(CustomTypes(page), sourceUrl) <= old(db.games).Values ==>
                db.games == old(db.games)
      ensures r.Err? <==> Ambiguous(db.games, SelectedGames(db.games, page, sourceUrl))
      ensures r.Err? ==> r.error == NotImplementedError
      ensures r.Ok? ==> GamesRead(r.value, db.games, page, sourceUrl)
    {
      var official := OfficialRowSeq(page.venueData, sourceUrl);
      ghost var g0, n0 := db.games, db.nextPk;
      db.BulkInsertGames(official);
      ghost var g1, n1 := db.games, db.nextPk;
      var types := Enumerate(CustomTypes(page));
      var custom := CustomRowSeqOf(types, sourceUrl);
      db.BulkInsertGames(custom);
      InsertedChain(g0, g1, db.games, n0, n1, db.nextPk, official, custom, GameRow);
      PageGamesStored(g0, db.games, n0, db.nextPk, official, custom, types, page, sourceUrl);
      PageGamesIdle(g0, db.games, OfficialRows(page.venueData, sourceUrl) + CustomRows(CustomTypes(page), sourceUrl));
      PageGamesAtVenue(g0, db.games, page, sourceUrl, db.venues);
      var sel := SelectedGames(db.games, page, sourceUrl);
      var ps := Enumerate(sel);
      r := ReadBackGames(db.games, sel, ps);
      if r.Ok? {
        LookupCoversEvents(r.value, db.games, page, sourceUrl);
        SelectedLookupFaithful(r.value, db.games, page, sourceUrl);
      }
    }

    /**
     * `_process_autoscrape_event`: in unattended mode the scraped events of
     * the target game decide the placeholder. More than one is a ValueError;
     * exactly one resolves today's placeholder of that game (DoesNotExist when
     * there is none) and is withheld from the events step; none changes nothing.
     */
    method ProcessAutoscrapeEvent(db: Database, events: seq<EventData>, target: Option<Pk>, today: Date, now: Instant)
      returns (r: Result<seq<EventData>>)
      requires db.Valid() && AllMatch(games, events) && LookupFaithful(games, db.games)
      modifies db`events, this`updatedEventPk, this`updatedEventData
      ensures db.Valid()
      ensures isManual || |MatchingEvents(games, events, target)| == 0 ==>
        r == Ok(events) && db.events == old(db.events)
        && updatedEventPk == old(updatedEventPk) && updatedEventData == old(updatedEventData)
      ensures !isManual && |MatchingEvents(games, events, target)| > 1 ==>
        r == Err(ValueError) && db.events == old(db.events)
      ensures !isManual && |MatchingEvents(games, events, target)| == 1 ==>
        var m := MatchingEvents(games, events, target)[0];
        && EventsUnique(old(db.events))
        && (r.Err? <==> !HasPlaceholder(old(db.events), MatchedPk(games, m), today))
        && (r.Err? ==> r.error == DoesNotExist && db.events == old(db.events))
        && (r.Ok? ==>
              var p := PlaceholderAt(old(db.events), MatchedPk(games, m), today);
              && db.events == old(db.events)[p := Resolved(old(db.events)[p], m, now)]
              && updatedEventPk == Some(p) && updatedEventData == Some(m)
              && r.value == Without(events, m))
    {
      if isManual {
        return Ok(events);
      }
      var matching := MatchingEvents(games, events, target);
      if |matching| > 1 {
        return Err(ValueError);
      }
      if |matching| == 0 {
        return Ok(events);
      }
      var m := matching[0];
      var g := MatchedPk(games, m);
      if !HasPlaceholder(db.events, g, today) {
        return Err(DoesNotExist);
      }
      var p := PlaceholderAt(db.events, g, today);
      updatedEventPk := Some(p);
      var resolved := Resolved(db.events[p], m, now);
      db.SaveEvent(p, resolved.endDatetime, resolved.description, resolved.quizmaster);
      updatedEventData := Some(m);
      r := Ok(Without(events, m));
    }

    /**
     * `_process_events`: an event row for each scraped event not withheld,
     * inserted while ignoring existing (game, date) pairs, then the events of
     * every scraped (game, date) read back as a lookup; with no scraped event
     * the empty filter reads back every stored event.
     */
    method ProcessEvents(db: Database, all: seq<EventData>, notUpdated: seq<EventData>)
      returns (lookup: map<(Pk, Date), Pk>)
      requires db.Valid() && AllMatch(games, all) && LookupFaithful(games, db.games)
      requires forall e :: e in notUpdated ==> e in all
      modifies db`events, db`nextPk
      ensures db.Valid()
      ensures AllMatch(games, notUpdated)
      ensures InsertedIgnoring(old(db.events), db.events, old(db.nextPk), db.nextPk, EventRows(games, notUpdated), EventKey)
      ensures forall p :: p in db.events && p !in old(db.events) ==>
                exists i :: FirstWithKey(EventRows(games, notUpdated), i, EventKey) && EventRows(games, notUpdated)[i] == db.events[p]
      ensures all != [] ==> forall k :: k in lookup <==> k in EventKeys(games, all) && HasKey(db.events, EventKey, k)
      ensures all == [] ==> forall k :: k in lookup <==> HasKey(db.events, EventKey, k)
      ensures EventLookupFaithful(lookup, db.events)
      ensures forall e :: e in notUpdated ==> EventKeyOf(games, e) in lookup
      ensures (forall e :: e in notUpdated ==> HasKey(old(db.events), EventKey, EventKeyOf(games, e))) ==> db.events == old(db.events)
    {
      var rows := EventRows(games, notUpdated);
      assert forall e :: e in rows ==> e.game in db.games by {
        forall e | e in rows
          ensures e.game in db.games
        {
          var i :| 0 <= i < |rows| && rows[i] == e;
          MatchedGameFits(games, db.games, notUpdated[i].gameType, Weekday(notUpdated[i].date));
        }
      }
      ghost var e0, k0 := db.events, db.nextPk;
      db.BulkInsertEvents(rows);
      EventsIdle(e0, db.events, k0, db.nextPk, games, notUpdated);
      var keys := EventKeys(games, all);
      lookup := ReadBackEvents(db.events, keys);
      ReadBackOfPage(db.events, games, all, notUpdated);
    }

    /**
     * `_process_official_teams`: a team for each scraped team id (existing
     * ones kept), read back as id -> team, then a non-guest name row for each
     * official appearance; a blank name fails `team_name_not_blank`.
     */
    method ProcessOfficialTeams(db: Database, events: seq<EventData>) returns (r: Result<map<nat, Pk>>)
      requires db.Valid()
      modifies db`teams, db`teamNames, db`nextPk
      ensures db.Valid()
      ensures InsertedRows(old(db.teams), db.teams, TeamRows(TeamIds(events)), TeamIdKey)
      ensures r.Err? <==> exists t :: t in AllTeams(events) && t.teamId.Some? && t.name == ""
      ensures r.Err? ==> r.error == IntegrityError
      ensures r.Ok? ==> r.value.Keys == TeamIds(events)
      ensures r.Ok? ==> forall id :: id in r.value ==> r.value[id] in db.teams && db.teams[r.value[id]].teamId == Some(id)
      ensures r.Ok? ==> InsertedRows(old(db.teamNames), db.teamNames, OfficialNames(events, r.value), NameKey)
      ensures (forall id :: id in TeamIds(events) ==> HasKey(old(db.teams), TeamIdKey, Some(id))) ==> db.teams == old(db.teams)
      ensures r.Ok? && PageTeamsStored(db.teams, old(db.teamNames), events) ==> db.teamNames == old(db.teamNames)
    {
      var teams := ProcessTeamIds(db, events);
      var names := OfficialNameRows(events, teams);
      ghost var m0, k0 := db.teamNames, db.nextPk;
      var res := db.BulkInsertNames(names);
      BlankOfficialName(events, teams);
      if res.Err? {
        return Err(IntegrityError);
      }
      InsertedAsRows(m0, db.teamNames, k0, db.nextPk, names, OfficialNames(events, teams), NameKey);
      OfficialNamesIdle(events, teams, db.teams, m0, db.teamNames);
      r := Ok(teams);
    }

    /**
     * The team half of `_process_official_teams`: a team for each scraped
     * team id, existing ones kept, read back as id -> team.
     */
    method ProcessTeamIds(db: Database, events: seq<EventData>) returns (teams: map<nat, Pk>)
      requires db.Valid()
      modifies db`teams, db`nextPk
      ensures db.Valid()
      ensures InsertedRows(old(db.teams), db.teams, TeamRows(TeamIds(events)), TeamIdKey)
      ensures teams.Keys == TeamIds(events)
      ensures forall id :: id in teams ==> teams[id] in db.teams && db.teams[teams[id]].teamId == Some(id)
      ensures (forall id :: id in TeamIds(events) ==> HasKey(old(db.teams), TeamIdKey, Some(id))) ==> db.teams == old(db.teams)
    {
      var ids := Enumerate(TeamIds(events));
      var rows := seq(|ids|, i requires 0 <= i < |ids| => Team(Some(ids[i])));
      ghost var t0, n0 := db.teams, db.nextPk;
      db.BulkInsertTeams(rows);
      TeamsStored(t0, db.teams, n0, db.nextPk, rows, ids, TeamIds(events));
      TeamsIdle(t0, db.teams, TeamIds(events));
      teams := ReadBackTeams(db.teams, TeamIds(events));
    }

    /**
     * `_process_guest_teams`: a scraped guest name that is already a guest
     * name keeps its team; every other one gets a new blank team, paired in
     * name order with the teams created, and its guest name row. A blank name
     * fails `team_name_not_blank`.
     */
    method ProcessGuestTeams(db: Database, events: seq<EventData>) returns (r: Result<map<string, Pk>>)
      requires db.Valid()
      modifies db`teams, db`teamNames, db`nextPk
      ensures db.Valid()
      ensures db.teams == old(db.teams) + BlankTeams(old(db.nextPk), |NewGuestNames(old(db.teamNames), events)|)
      ensures r.Err? <==> "" in GuestNames(events)
      ensures r.Err? ==> r.error == IntegrityError && db.teamNames == old(db.teamNames)
      ensures r.Ok? ==> GuestLookup(old(db.teamNames), db.teamNames, GuestNames(events), r.value)
      ensures r.Ok? ==> GuestsRecorded(old(db.teamNames), db.teamNames, old(db.nextPk), NewGuestNames(old(db.teamNames), events), r.value)
    {
      var guests := GuestNames(events);
      var existing := ExistingGuests(db.teamNames, guests);
      assert !HasGuestName(db.teamNames, "");
      var unseen := guests - existing.Keys;
      assert unseen == NewGuestNames(db.teamNames, events);
      ghost var before, from := db.teamNames, db.nextPk;
      var res := InsertNewGuests(db, unseen);
      if res.Err? {
        return Err(IntegrityError);
      }
      LookupOfGuests(before, db.teamNames, guests, unseen, existing, res.value);
      RecordedUnderMerge(before, db.teamNames, from, unseen, existing, res.value);
      r := Ok(existing + res.value);
    }

    /**
     * `_process_autoscrape_teps`: after an autoscrape resolved a placeholder,
     * each of its participations still without a score takes the scraped
     * score of its (team id, name), the last one when the team was scraped
     * more than once; one that matches no scraped team is a ValueError.
     */
    method ProcessAutoscrapeTeps(db: Database) returns (r: Result<()>)
      requires db.Valid()
      modifies db`teps
      ensures db.Valid() && db.teams == old(db.teams) && db.teamNames == old(db.teamNames) && db.events == old(db.events)
      ensures isManual || updatedEventData.None? ==> r.Ok? && db.teps == old(db.teps)
      ensures !isManual && updatedEventData.Some? ==>
        (r.Err? <==> !AllBackfillable(old(db.teps), old(db.teams), old(db.teamNames), PendingTeps(old(db.teps), updatedEventPk), TeamScores(updatedEventData.value)))
      ensures r.Err? ==> r.error == ValueError
      ensures !isManual && updatedEventData.Some? && r.Ok? ==>
        db.teps == BackfilledTeps(old(db.teps), old(db.teams), old(db.teamNames), PendingTeps(old(db.teps), updatedEventPk), TeamScores(updatedEventData.value))
    {
      if isManual || updatedEventData.None? {
        return Ok(());
      }
      var pending := PendingTeps(db.teps, updatedEventPk);
      TeamScoresValid(updatedEventData.value);
      r := SaveBackfilledScores(db, pending, TeamScores(updatedEventData.value));
    }

    /**
     * `_process_team_event_participations`: the name rows of the page's
     * teams read back as (team, name) -> row, one participation per
     * (team, event) keeping the first of the highest-scoring scraped entries,
     * inserted while ignoring (team, event) pairs already stored. A scraped
     * event whose (game, date) is not in the event lookup is a KeyError, and
     * nothing is written then.
     */
    method ProcessTeps(db: Database, events: seq<EventData>, eventLookup: map<(Pk, Date), Pk>,
                       teams: map<nat, Pk>, guests: map<string, Pk>) returns (r: Result<()>)
      requires db.Valid() && AllMatch(games, events)
      requires TeamsResolve(TepLookups(games, eventLookup, teams, guests, db.teamNames), events)
      requires eventLookup.Values <= db.events.Keys && teams.Values <= db.teams.Keys && guests.Values <= db.teams.Keys
      modifies db`teps, db`nextPk
      ensures db.Valid() && db.teams == old(db.teams) && db.teamNames == old(db.teamNames)
      ensures r.Err? <==> exists e :: e in events && EventKeyOf(games, e) !in eventLookup
      ensures r.Err? ==> r.error == KeyError && db.teps == old(db.teps)
      ensures r.Ok? ==>
        var lk := TepLookups(games, eventLookup, teams, guests, old(db.teamNames));
        Resolves(lk, events) && InsertedRows(old(db.teps), db.teps, KeptTeps(lk, events), TepKey)
    {
      var names := db.teamNames;
      var lk := TepLookups(games, eventLookup, teams, guests, names);
      var collected := CollectTeps(lk, events);
      if collected.Err? {
        return Err(KeyError);
      }
      var unique := collected.value;
      var kept := set k | k in unique :: unique[k].item;
      KeptTepsOk(lk, events, db.teams, names, db.events);
      InsertTepSet(db, kept, lk, events);
      r := Ok(());
    }

    /**
     * Steps 7 and 8 of `push_to_db`: the official teams, then the guest
     * teams; afterwards every scraped team has its team and its name row.
     */
    method ProcessTeams(db: Database, events: seq<EventData>) returns (r: Result<(map<nat, Pk>, map<string, Pk>)>)
      requires db.Valid()
      modifies db`teams, db`teamNames, db`nextPk
      ensures db.Valid()
      ensures r.Err? ==> r.error == IntegrityError
      ensures r.Ok? ==> TeamsReady(events, r.value.0, r.value.1, db.teams, db.teamNames)
      ensures r.Ok? ==> PageTeamsStored(db.teams, db.teamNames, events)
      ensures r.Ok? && PageTeamsStored(old(db.teams), old(db.teamNames), events) ==>
                db.teams == old(db.teams) && db.teamNames == old(db.teamNames)
    {
      var official := ProcessOfficialTeams(db, events);
      if official.Err? {
        return Err(official.error);
      }
      var teams := official.value;
      ghost var t1, n1, k1 := db.teams, db.teamNames, db.nextPk;
      var guest := ProcessGuestTeams(db, events);
      if guest.Err? {
        return Err(guest.error);
      }
      BlankTeamsKeep(t1, k1, |NewGuestNames(n1, events)|);
      if NewGuestNames(n1, events) == {} {
        NoBlankTeams(t1, k1);
        GuestsIdle(n1, db.teamNames, k1, guest.value);
      }
      OfficialNamesKept(events, teams, n1, db.teamNames);
      ReadyIsStored(events, teams, guest.value, db.teams, db.teamNames);
      r := Ok((teams, guest.value));
    }

    /**
     * Steps 7 to 10 of `push_to_db`: the teams, the placeholder backfill and
     * the participations, stopping at the first error. Afterwards every
     * scraped team takes part in the event it was scraped at.
     */
    method ProcessTeamsAndTeps(db: Database, events: seq<EventData>, eventLookup: map<(Pk, Date), Pk>)
      returns (r: Result<()>)
      requires db.Valid() && AllMatch(games, events) && eventLookup.Values <= db.events.Keys
      modifies db`teams, db`teamNames, db`nextPk, db`teps
      ensures db.Valid() && db.events == old(db.events)
      ensures r.Ok? ==> forall e, t :: e in events && t in e.teams ==>
                EventKeyOf(games, e) in eventLookup
                && Participates(db.teams, db.teamNames, db.teps, t, eventLookup[EventKeyOf(games, e)])
      ensures r.Ok? ==> PageTeamsStored(db.teams, db.teamNames, events)
      ensures r.Ok? && updatedEventData.None? && EventLookupFaithful(eventLookup, db.events)
              && PageTeamsStored(old(db.teams), old(db.teamNames), events)
              && AllPlayed(games, db.events, old(db.teams), old(db.teamNames), old(db.teps), events) ==>
                db.teams == old(db.teams) && db.teamNames == old(db.teamNames) && db.teps == old(db.teps)
    {
      var found := ProcessTeams(db, events);
      if found.Err? {
        return Err(found.error);
      }
      ghost var teams, names := db.teams, db.teamNames;
      r := ProcessScores(db, events, eventLookup, found.value.0, found.value.1);
      assert db.teams == teams && db.teamNames == names;
    }

    /** Steps 9 and 10 of `push_to_db`: the placeholder backfill, then the participations. */
    method ProcessScores(db: Database, events: seq<EventData>, eventLookup: map<(Pk, Date), Pk>,
                         teams: map<nat, Pk>, guests: map<string, Pk>) returns (r: Result<()>)
      requires db.Valid() && AllMatch(games, events) && eventLookup.Values <= db.events.Keys
      requires TeamsReady(events, teams, guests, db.teams, db.teamNames)
      modifies db`teps, db`nextPk
      ensures db.Valid()
      ensures r.Ok? ==> forall e, t :: e in events && t in e.teams ==>
                EventKeyOf(games, e) in eventLookup
                && Participates(db.teams, db.teamNames, db.teps, t, eventLookup[EventKeyOf(games, e)])
      ensures r.Ok? && updatedEventData.None? && EventLookupFaithful(eventLookup, db.events)
              && AllPlayed(games, db.events, db.teams, db.teamNames, old(db.teps), events)
              ==> db.teps == old(db.teps)
    {
      var backfill := ProcessAutoscrapeTeps(db);
      if backfill.Err? {
        return Err(backfill.error);
      }
      r := RecordParticipations(db, events, eventLookup, teams, guests);
    }

    /** Step 10 of `push_to_db` on teams that are ready: afterwards each scraped team takes part in its event. */
    method RecordParticipations(db: Database, events: seq<EventData>, eventLookup: map<(Pk, Date), Pk>,
                                teams: map<nat, Pk>, guests: map<string, Pk>) returns (r: Result<()>)
      requires db.Valid() && AllMatch(games, events) && eventLookup.Values <= db.events.Keys
      requires TeamsReady(events, teams, guests, db.teams, db.teamNames)
      modifies db`teps, db`nextPk
      ensures db.Valid()
      ensures r.Ok? ==> forall e, t :: e in events && t in e.teams ==>
                EventKeyOf(games, e) in eventLookup
                && Participates(db.teams, db.teamNames, db.teps, t, eventLookup[EventKeyOf(games, e)])
      ensures r.Ok? && EventLookupFaithful(eventLookup, db.events)
              && AllPlayed(games, db.events, db.teams, db.teamNames, old(db.teps), events)
              ==> db.teps == old(db.teps)
    {
      var names := db.teamNames;
      PageTeamsResolve(events, games, eventLookup, teams, guests, names, db.teams);
      ghost var tp := db.teps;
      r := ProcessTeps(db, events, eventLookup, teams, guests);
      if r.Ok? {
        PageParticipations(events, TepLookups(games, eventLookup, teams, guests, names),
                           db.teams, names, tp, db.teps);
        TepsIdle(TepLookups(games, eventLookup, teams, guests, names), events, db.teams, names, db.events, tp, db.teps);
      }
    }

    /** `_process_quizmasters`: every scraped quizmaster is a stored quizmaster. */
    method ProcessQuizmasters(db: Database, events: seq<EventData>) returns (names: set<string>)
      modifies db`quizmasters
      ensures db.quizmasters == old(db.quizmasters) + QuizmasterNames(events)
      ensures names == QuizmasterNames(events) && names <= db.quizmasters
    {
      names := QuizmasterNames(events);
      db.quizmasters := db.quizmasters + names;
    }
  }

  /**
   * The read-back loop of `_process_games`: each selected game goes into the
   * lookup under its (type, day); a key met twice raises NotImplementedError.
   */
  method ReadBackGames(games: map<Pk, Game>, sel: set<Pk>, ps: seq<Pk>) returns (r: Result<map<GameKey, Pk>>)
    requires sel <= games.Keys
    requires forall p :: p in ps <==> p in sel
    requires forall i, j :: 0 <= i < j < |ps| ==> ps[i] != ps[j]
    ensures r.Err? <==> Ambiguous(games, sel)
    ensures r.Err? ==> r.error == NotImplementedError
    ensures r.Ok? ==> LookupOf(r.value, games, sel)
  {
    var lookup: map<GameKey, Pk> := map[];
    for i := 0 to |ps|
      invariant forall k :: k in lookup ==> lookup[k] in ps[..i] && KeyOfGame(games[lookup[k]]) == k
      invariant forall j :: 0 <= j < i ==> KeyOfGame(games[ps[j]]) in lookup && lookup[KeyOfGame(games[ps[j]])] == ps[j]
    {
      var key := KeyOfGame(games[ps[i]]);
      if key in lookup {
        assert ps[i] != lookup[key] by {
          var j :| 0 <= j < i && ps[j] == lookup[key];
        }
        return Err(NotImplementedError);
      }
      lookup := lookup[key := ps[i]];
    }
    assert ps[..|ps|] == ps;
    assert !Ambiguous(games, sel) by {
      forall p, q | p in sel && q in sel && KeyOfGame(games[p]) == KeyOfGame(games[q])
        ensures p == q
      {
        var j :| 0 <= j < |ps| && ps[j] == p;
        var j' :| 0 <= j' < |ps| && ps[j'] == q;
      }
    }
    r := Ok(lookup);
  }

  /** After both inserts of the games step, the page's official and custom rows are all stored. */
  lemma PageGamesStored(before: map<Pk, Game>, after: map<Pk, Game>, from: nat, to: nat,
                        official: seq<Game>, custom: seq<Game>, types: seq<string>, page: PageData, url: Url)
    requires official == OfficialRowSeq(page.venueData, url)
    requires custom == CustomRowSeqOf(types, url)
    requires forall t :: t in types <==> t in CustomTypes(page)
    requires InsertedIgnoring(before, after, from, to, official + custom, GameRow)
    ensures InsertedRows(before, after, OfficialRows(page.venueData, url) + CustomRows(CustomTypes(page), url), GameRow)
    ensures OfficialRows(page.venueData, url) <= after.Values
    ensures CustomRows(CustomTypes(page), url) <= after.Values
  {
    var rows := OfficialRows(page.venueData, url) + CustomRows(CustomTypes(page), url);
    assert forall g :: g in official + custom <==> g in rows;
    InsertedAsRows(before, after, from, to, official + custom, rows, GameRow);
    forall g | g in rows
      ensures g in after.Values
    {
      var p :| p in after && GameRow(after[p]) == g;
    }
  }

  /**
   * The events step's read-back: the primary key of each stored event among
   * `keys`. The filter ORs one condition per key onto an empty `Q()`, so with
   * no key at all it selects every stored event.
   */
  function ReadBackEvents(events: map<Pk, Event>, keys: set<(Pk, Date)>): (lookup: map<(Pk, Date), Pk>)
    requires EventsUnique(events)
    ensures keys != {} ==> forall k :: k in lookup <==> k in keys && HasKey(events, EventKey, k)
    ensures keys == {} ==> forall k :: k in lookup <==> HasKey(events, EventKey, k)
    ensures forall k :: k in lookup ==> lookup[k] in events && EventKey(events[lookup[k]]) == k
  {
    var selected := if keys == {} then set p | p in events :: EventKey(events[p]) else keys;
    map k | k in selected && HasKey(events, EventKey, k) :: EventAt(events, k.0, k.1)
  }

  /** One team row per scraped team id. */
  function TeamRows(ids: set<nat>): set<Team> {
    set id | id in ids :: Team(Some(id))
  }

  /** The official name rows as a set: (name, team of its id), not a guest name. */
  function OfficialNames(events: seq<EventData>, teams: map<nat, Pk>): (s: set<TeamName>)
    requires TeamIds(events) <= teams.Keys
    ensures forall n :: n in s <==> n in OfficialNameRows(events, teams)
  {
    set t | t in AllTeams(events) && t.teamId.Some? :: TeamName(t.name, teams[t.teamId.value], false)
  }

  /** After the team insert every scraped team id has a team. */
  lemma TeamsStored(before: map<Pk, Team>, after: map<Pk, Team>, from: nat, to: nat,
                    rows: seq<Team>, ids: seq<nat>, idSet: set<nat>)
    requires |rows| == |ids| && forall i :: 0 <= i < |ids| ==> rows[i] == Team(Some(ids[i]))
    requires forall id :: id in ids <==> id in idSet
    requires InsertedIgnoring(before, after, from, to, rows, TeamIdKey)
    ensures InsertedRows(before, after, TeamRows(idSet), TeamIdKey)
    ensures forall id :: id in idSet ==> HasKey(after, TeamIdKey, Some(id))
  {
    assert forall t :: t in rows <==> t in TeamRows(idSet) by {
      forall t | t in TeamRows(idSet)
        ensures t in rows
      {
        var id :| id in idSet && t == Team(Some(id));
        var i :| 0 <= i < |ids| && ids[i] == id;
        assert rows[i] == t;
      }
    }
    InsertedAsRows(before, after, from, to, rows, TeamRows(idSet), TeamIdKey);
    forall id | id in idSet
      ensures HasKey(after, TeamIdKey, Some(id))
    {
      assert Team(Some(id)) in TeamRows(idSet);
    }
  }

  /** The official-teams read-back: the team of each scraped id. */
  function ReadBackTeams(teams: map<Pk, Team>, ids: set<nat>): (lookup: map<nat, Pk>)
    requires TeamIdsUnique(teams)
    requires forall id :: id in ids ==> HasKey(teams, TeamIdKey, Some(id))
    ensures lookup.Keys == ids
    ensures forall id :: id in lookup ==> lookup[id] in teams && teams[lookup[id]].teamId == Some(id)
  {
    map id | id in ids :: TeamWithId(teams, id)
  }

  /** `existing_guest_teams`: each scraped guest name that is already a guest name, with its team. */
  function ExistingGuests(names: map<Pk, TeamName>, guests: set<string>): (m: map<string, Pk>)
    requires TeamNamesValid(names)
    ensures forall n :: n in m <==> n in guests && HasGuestName(names, n)
    ensures forall n :: n in m ==> GuestNameOn(names, n, m[n])
  {
    map n | n in guests && HasGuestName(names, n) :: GuestTeamNamed(names, n)
  }

  /** The loop of `_process_guest_teams` pairing the sorted new names with the blank teams. */
  method PairGuestNames(sorted: seq<string>, pks: seq<Pk>) returns (rows: seq<TeamName>, created: map<string, Pk>)
    requires |sorted| == |pks|
    requires forall i, j :: 0 <= i < j < |sorted| ==> sorted[i] != sorted[j]
    ensures |rows| == |sorted|
    ensures forall i :: 0 <= i < |rows| ==> rows[i] == TeamName(sorted[i], pks[i], true)
    ensures forall n :: n in created <==> n in sorted
    ensures forall i :: 0 <= i < |sorted| ==> created[sorted[i]] == pks[i]
  {
    rows, created := [], map[];
    for i := 0 to |sorted|
      invariant |rows| == i
      invariant forall j :: 0 <= j < i ==> rows[j] == TeamName(sorted[j], pks[j], true)
      invariant forall n :: n in created ==> n in sorted[..i]
      invariant forall j :: 0 <= j < i ==> sorted[j] in created && created[sorted[j]] == pks[j]
    {
      rows := rows + [TeamName(sorted[i], pks[i], true)];
      created := created[sorted[i] := pks[i]];
    }
    assert sorted[..|sorted|] == sorted;
  }

  /** The page's guest names that are not yet guest names. */
  function NewGuestNames(names: map<Pk, TeamName>, events: seq<EventData>): (s: set<string>)
    ensures forall n :: n in s <==> n in GuestNames(events) && !HasGuestName(names, n)
  {
    set n | n in GuestNames(events) && !HasGuestName(names, n)
  }

  /**
   * `after` is `before` plus a guest name row for each of `unseen`, each on
   * its own new team `lookup[n]`: the new teams are the consecutive keys from
   * `from`, handed out in name order.
   */
  ghost predicate GuestsRecorded(before: map<Pk, TeamName>, after: map<Pk, TeamName>, from: nat,
                                 unseen: set<string>, lookup: map<string, Pk>) {
    && unseen <= lookup.Keys
    && (set n | n in unseen :: lookup[n]) == BlankTeams(from, |unseen|).Keys
    && (forall a, b :: a in unseen && b in unseen && Below(a, b) ==> lookup[a] < lookup[b])
    && (forall n :: n in unseen ==> GuestNameOn(after, n, lookup[n]))
    && (forall p :: p in before ==> p in after && after[p] == before[p])
    && (forall p :: p in after && p !in before ==>
          after[p].guest && after[p].name in unseen && after[p].team == lookup[after[p].name])
  }

  /**
   * The guest lookup of a page: every guest name of the page is a guest name
   * of its team, and one that already was keeps its team.
   */
  ghost predicate GuestLookup(before: map<Pk, TeamName>, after: map<Pk, TeamName>,
                              guests: set<string>, lookup: map<string, Pk>) {
    && lookup.Keys == guests
    && (forall n :: n in lookup ==> GuestNameOn(after, n, lookup[n]))
    && (forall n :: n in lookup && HasGuestName(before, n) ==> GuestNameOn(before, n, lookup[n]))
  }

  /**
   * The new-guest half of `_process_guest_teams`: one blank team per name,
   * then the names in sorted order paired with those teams in creation order,
   * inserted as guest names without ignoring conflicts.
   */
  method InsertNewGuests(db: Database, unseen: set<string>) returns (r: Result<map<string, Pk>>)
    requires db.Valid()
    requires forall n :: n in unseen ==> !HasGuestName(db.teamNames, n)
    modifies db`teams, db`teamNames, db`nextPk
    ensures db.Valid()
    ensures db.teams == old(db.teams) + BlankTeams(old(db.nextPk), |unseen|)
    ensures r.Err? <==> "" in unseen
    ensures r.Err? ==> r.error == IntegrityError && db.teamNames == old(db.teamNames)
    ensures r.Ok? ==> r.value.Keys == unseen && GuestsRecorded(old(db.teamNames), db.teamNames, old(db.nextPk), unseen, r.value)
  {
    ghost var n0, m0 := db.nextPk, db.teamNames;
    var sorted, rows, created := PairNewGuests(db, unseen);
    ghost var k0 := db.nextPk;
    var res := db.BulkInsertGuestNames(rows);
    if res.Err? {
      return Err(IntegrityError);
    }
    PairingRecorded(m0, db.teamNames, n0, k0, unseen, sorted, rows, created);
    r := Ok(created);
  }

  /**
   * `sorted` lists `unseen` in name order, `created` gives its `i`-th name
   * the team numbered `from + i`, and `rows` are the matching guest name rows.
   */
  ghost predicate Paired(unseen: set<string>, sorted: seq<string>, rows: seq<TeamName>, created: map<string, Pk>, from: nat) {
    && StrictlyAscending(sorted) && |sorted| == |unseen| && (forall n :: n in sorted <==> n in unseen)
    && (forall n :: n in created <==> n in sorted)
    && (forall i :: 0 <= i < |sorted| ==> created[sorted[i]] == from + i)
    && |rows| == |sorted|
    && (forall i :: 0 <= i < |rows| ==> rows[i] == TeamName(sorted[i], created[sorted[i]], true))
  }

  /**
   * The first half of the new-guest step: one blank team per name, then the
   * names in sorted order paired with those teams in creation order.
   */
  method PairNewGuests(db: Database, unseen: set<string>) returns (sorted: seq<string>, rows: seq<TeamName>, created: map<string, Pk>)
    requires db.Valid()
    requires forall n :: n in unseen ==> !HasGuestName(db.teamNames, n)
    modifies db`teams, db`nextPk
    ensures db.Valid() && db.teamNames == old(db.teamNames)
    ensures db.teams == old(db.teams) + BlankTeams(old(db.nextPk), |unseen|)
    ensures Paired(unseen, sorted, rows, created, old(db.nextPk))
    ensures GuestRowsFit(db.teamNames, db.teams, rows)
    ensures (exists i :: 0 <= i < |rows| && rows[i].name == "") <==> "" in unseen
  {
    ghost var n0, t0 := db.nextPk, db.teams;
    var pks := db.CreateBlankTeams(|unseen|);
    sorted := SortedNames(unseen);
    AscendingDistinct(sorted);
    rows, created := PairGuestNames(sorted, pks);
    GuestRowsInsertable(db.teamNames, t0, db.teams, n0, unseen, sorted, pks, rows);
  }

  /** The paired rows meet what inserting them as guest names needs. */
  lemma GuestRowsInsertable(names: map<Pk, TeamName>, before: map<Pk, Team>, teams: map<Pk, Team>, from: nat,
                            unseen: set<string>, sorted: seq<string>, pks: seq<Pk>, rows: seq<TeamName>)
    requires NameFks(names, before) && KeysBelow(before.Keys, from)
    requires teams == before + BlankTeams(from, |pks|)
    requires forall n :: n in unseen ==> !HasGuestName(names, n)
    requires forall n :: n in sorted <==> n in unseen
    requires forall i, j :: 0 <= i < j < |sorted| ==> sorted[i] != sorted[j]
    requires |pks| == |sorted| == |rows|
    requires forall i :: 0 <= i < |pks| ==> pks[i] == from + i
    requires forall i :: 0 <= i < |rows| ==> rows[i] == TeamName(sorted[i], pks[i], true)
    ensures GuestRowsFit(names, teams, rows)
    ensures (exists i :: 0 <= i < |rows| && rows[i].name == "") <==> "" in unseen
  {
    if "" in unseen {
      var i :| 0 <= i < |sorted| && sorted[i] == "";
      assert rows[i].name == "";
    }
    forall i | 0 <= i < |rows|
      ensures !HasGuestName(names, rows[i].name)
    {
      assert sorted[i] in sorted;
    }
  }

  /** Pairing the sorted names with the new teams and appending their rows records them as new guests. */
  lemma PairingRecorded(before: map<Pk, TeamName>, after: map<Pk, TeamName>, from: nat, at: nat,
                        unseen: set<string>, sorted: seq<string>, rows: seq<TeamName>, created: map<string, Pk>)
    requires Paired(unseen, sorted, rows, created, from)
    requires AppendedAt(before, after, at, rows, |rows|)
    ensures GuestsRecorded(before, after, from, unseen, created)
  {
    forall a, b | a in unseen && b in unseen && Below(a, b)
      ensures created[a] < created[b]
    {
      var i :| 0 <= i < |sorted| && sorted[i] == a;
      var j :| 0 <= j < |sorted| && sorted[j] == b;
      AscendingIndex(sorted, i, j);
    }
    var values := set n | n in unseen :: created[n];
    forall p | p in BlankTeams(from, |sorted|)
      ensures p in values
    {
      assert created[sorted[p - from]] == p;
    }
    forall n | n in unseen
      ensures GuestNameOn(after, n, created[n])
    {
      var i :| 0 <= i < |sorted| && sorted[i] == n;
      assert after[at + i] == rows[i];
    }
    forall p | p in after && p !in before
      ensures after[p].guest && after[p].name in unseen && after[p].team == created[after[p].name]
    {
      assert after[p] == rows[p - at];
    }
  }

  /** Merging other names under the new ones keeps them recorded. */
  lemma RecordedUnderMerge(before: map<Pk, TeamName>, after: map<Pk, TeamName>, from: nat,
                           unseen: set<string>, existing: map<string, Pk>, created: map<string, Pk>)
    requires created.Keys == unseen
    requires GuestsRecorded(before, after, from, unseen, created)
    ensures GuestsRecorded(before, after, from, unseen, existing + created)
  {
    var lookup := existing + created;
    assert forall n :: n in unseen ==> lookup[n] == created[n];
    assert (set n | n in unseen :: lookup[n]) == (set n | n in unseen :: created[n]);
  }

  /** Existing guests merged with the recorded new ones form the page's guest lookup. */
  lemma LookupOfGuests(before: map<Pk, TeamName>, after: map<Pk, TeamName>, guests: set<string>,
                       unseen: set<string>, existing: map<string, Pk>, created: map<string, Pk>)
    requires forall n :: n in existing <==> n in guests && HasGuestName(before, n)
    requires forall n :: n in unseen <==> n in guests && !HasGuestName(before, n)
    requires forall n :: n in existing ==> GuestNameOn(before, n, existing[n])
    requires created.Keys == unseen
    requires forall n :: n in created ==> GuestNameOn(after, n, created[n])
    requires forall p :: p in before ==> p in after && after[p] == before[p]
    ensures GuestLookup(before, after, guests, existing + created)
  {
    var lookup := existing + created;
    assert forall n :: n in lookup && HasGuestName(before, n) ==> n !in created && lookup[n] == existing[n];
    assert lookup.Keys == guests;
    NamesOnMerge(before, after, existing, created);
  }

  /** Guest names already held before are still held after rows are only added. */
  lemma NamesOnMerge(before: map<Pk, TeamName>, after: map<Pk, TeamName>, existing: map<string, Pk>, created: map<string, Pk>)
    requires forall p :: p in before ==> p in after && after[p] == before[p]
    requires forall n :: n in existing ==> GuestNameOn(before, n, existing[n])
    requires forall n :: n in created ==> GuestNameOn(after, n, created[n])
    ensures forall n :: n in existing + created ==> GuestNameOn(after, n, (existing + created)[n])
  {
    forall n | n in existing && n !in created
      ensures GuestNameOn(after, n, existing[n])
    {
      var p :| p in before && before[p].guest && before[p].name == n && before[p].team == existing[n];
      assert after[p] == before[p];
    }
  }

  /** The scraped teams of an event as ((team id, name), score) pairs, in page order. */
  function ScoreEntries(teams: seq<TeamData>): (s: seq<((Option<nat>, string), int)>)
    ensures |s| == |teams|
    ensures forall i :: 0 <= i < |teams| ==> s[i] == ((teams[i].teamId, teams[i].name), teams[i].score)
  {
    seq(|teams|, i requires 0 <= i < |teams| => ((teams[i].teamId, teams[i].name), teams[i].score))
  }

  /**
   * `score_dict` of the backfill, as written: a dict comprehension over the
   * scraped teams, so a team scraped more than once keeps its last score.
   */
  function TeamScores(m: EventData): map<(Option<nat>, string), int> {
    LastScores(ScoreEntries(m.teams))
  }

  /**
   * Each scraped (team id, name) has a score, and it is the one scraped with
   * the last occurrence of that key on the page.
   */
  lemma TeamScoresLast(m: EventData, k: (Option<nat>, string))
    ensures k in TeamScores(m) <==> exists i :: 0 <= i < |m.teams| && (m.teams[i].teamId, m.teams[i].name) == k
    ensures k in TeamScores(m) ==>
      exists i :: 0 <= i < |m.teams| && (m.teams[i].teamId, m.teams[i].name) == k && m.teams[i].score == TeamScores(m)[k]
        && forall j :: i < j < |m.teams| ==> (m.teams[j].teamId, m.teams[j].name) != k
  {
    var es := ScoreEntries(m.teams);
    LastScoresFrom(es, k);
    if k in TeamScores(m) {
      var i :| 0 <= i < |es| && es[i].0 == k && es[i].1 == LastScores(es)[k] && forall j :: i < j < |es| ==> es[j].0 != k;
      assert (m.teams[i].teamId, m.teams[i].name) == k && m.teams[i].score == TeamScores(m)[k];
      forall j | i < j < |m.teams|
        ensures (m.teams[j].teamId, m.teams[j].name) != k
      {
        assert es[j].0 != k;
      }
    }
  }

  /** Every score kept is a valid score, since each is one scraped. */
  lemma TeamScoresValid(m: EventData)
    ensures ScoresValid(TeamScores(m))
  {
    forall k | k in TeamScores(m)
      ensures -1 <= TeamScores(m)[k] <= 112
    {
      TeamScoresLast(m, k);
    }
  }

  /**
   * `score_dict` corrected to agree with the participation step: the highest
   * score of each scraped (team id, name).
   */
  function BestTeamScores(m: EventData): map<(Option<nat>, string), int> {
    BestScores(ScoreEntries(m.teams))
  }

  /**
   * Under the correction each scraped team has a score, each score is one
   * scraped for its team, and none scraped for it is higher.
   */
  lemma BestTeamScoresMax(m: EventData, k: (Option<nat>, string))
    ensures k in BestTeamScores(m) <==> exists i :: 0 <= i < |m.teams| && (m.teams[i].teamId, m.teams[i].name) == k
    ensures k in BestTeamScores(m) ==>
      && (exists i :: 0 <= i < |m.teams| && (m.teams[i].teamId, m.teams[i].name) == k && m.teams[i].score == BestTeamScores(m)[k])
      && (forall i :: 0 <= i < |m.teams| && (m.teams[i].teamId, m.teams[i].name) == k ==> m.teams[i].score <= BestTeamScores(m)[k])
  {
    var es := ScoreEntries(m.teams);
    DedupKeys(Entries(es), k);
    if k in BestTeamScores(m) {
      var j :| 0 <= j < |es| && Entries(es)[j].key == k;
      BestScoresMax(es, j);
      forall i | 0 <= i < |m.teams| && (m.teams[i].teamId, m.teams[i].name) == k
        ensures m.teams[i].score <= BestTeamScores(m)[k]
      {
        BestScoresMax(es, i);
      }
    } else if i :| 0 <= i < |m.teams| && (m.teams[i].teamId, m.teams[i].name) == k {
      BestScoresMax(es, i);
    }
  }

  /** The participations of event `ev` still waiting for a score. */
  function PendingTeps(teps: map<Pk, TeamEventParticipation>, ev: Option<Pk>): set<Pk> {
    set p | p in teps && Some(teps[p].event) == ev && teps[p].score.None?
  }

  /** The (team id, name) a stored participation is matched on. */
  function ScoreKey(t: TeamEventParticipation, teams: map<Pk, Team>, names: map<Pk, TeamName>): (Option<nat>, string)
    requires t.team in teams && t.teamName in names
  {
    (teams[t.team].teamId, names[t.teamName].name)
  }

  /** Scores that fit `valid_score`. */
  predicate ScoresValid(scores: map<(Option<nat>, string), int>) {
    forall k :: k in scores ==> -1 <= scores[k] <= 112
  }

  /** Every participation of `ps` is stored, its team and name exist, and a score is known for its team. */
  predicate AllBackfillable(teps: map<Pk, TeamEventParticipation>, teams: map<Pk, Team>, names: map<Pk, TeamName>,
                            ps: set<Pk>, scores: map<(Option<nat>, string), int>) {
    forall p :: p in ps ==>
      p in teps && teps[p].team in teams && teps[p].teamName in names && ScoreKey(teps[p], teams, names) in scores
  }

  /** The participations table with those of `ps` given the score of their team. */
  function BackfilledTeps(teps: map<Pk, TeamEventParticipation>, teams: map<Pk, Team>, names: map<Pk, TeamName>,
                          ps: set<Pk>, scores: map<(Option<nat>, string), int>): (r: map<Pk, TeamEventParticipation>)
    requires AllBackfillable(teps, teams, names, ps, scores)
    ensures r.Keys == teps.Keys
  {
    map p | p in teps :: if p in ps then teps[p].(score := Some(scores[ScoreKey(teps[p], teams, names)])) else teps[p]
  }

  /**
   * The loop of `_process_autoscrape_teps` over the waiting participations
   * `pending`, in no particular order: each takes the score of its team,
   * saved one at a time; the first whose team has no score is a ValueError.
   */
  method SaveBackfilledScores(db: Database, pending: set<Pk>, scores: map<(Option<nat>, string), int>) returns (r: Result<()>)
    requires db.Valid() && ScoresValid(scores) && pending <= db.teps.Keys
    modifies db`teps
    ensures db.Valid()
    ensures r.Err? <==> !AllBackfillable(old(db.teps), old(db.teams), old(db.teamNames), pending, scores)
    ensures r.Err? ==> r.error == ValueError
    ensures r.Ok? ==> db.teps == BackfilledTeps(old(db.teps), old(db.teams), old(db.teamNames), pending, scores)
  {
    ghost var t0 := db.teps;
    var teams, names := db.teams, db.teamNames;
    assert forall q :: q in t0 ==> t0[q].team in teams && t0[q].teamName in names;
    var rest := pending;
    ghost var done: set<Pk> := {};
    BackfillNothing(t0, teams, names, scores);
    r := Ok(());
    while rest != {}
      invariant db.Valid() && r.Ok?
      invariant Split(pending, done, rest) && BackfilledSoFar(t0, teams, names, done, scores, db.teps)
      decreases rest
    {
      var p :| p in rest;
      BackfillNext(t0, db.teps, teams, names, pending, done, rest, scores, p);
      var key := ScoreKey(db.teps[p], teams, names);
      if key !in scores {
        r := Err(ValueError);
        break;
      }
      db.SaveTepScore(p, scores[key]);
      done, rest := done + {p}, rest - {p};
    }
    if r.Ok? {
      assert done == pending;
    }
  }

  /** `done` and `rest` split `all` in two. */
  ghost predicate Split(all: set<Pk>, done: set<Pk>, rest: set<Pk>) {
    done + rest == all && done !! rest
  }

  /**
   * The next pending participation `p`: its score key is the one it had; a
   * key without a score makes the whole backfill fail, and otherwise saving
   * its score moves `p` from the rest to the done part.
   */
  lemma BackfillNext(t0: map<Pk, TeamEventParticipation>, now: map<Pk, TeamEventParticipation>,
                     teams: map<Pk, Team>, names: map<Pk, TeamName>, pending: set<Pk>, done: set<Pk>, rest: set<Pk>,
                     scores: map<(Option<nat>, string), int>, p: Pk)
    requires BackfilledSoFar(t0, teams, names, done, scores, now) && Split(pending, done, rest) && p in rest
    requires pending <= t0.Keys && forall q :: q in t0 ==> t0[q].team in teams && t0[q].teamName in names
    ensures p in now && ScoreKey(now[p], teams, names) == ScoreKey(t0[p], teams, names)
    ensures ScoreKey(t0[p], teams, names) !in scores ==> !AllBackfillable(t0, teams, names, pending, scores)
    ensures ScoreKey(t0[p], teams, names) in scores ==>
      && Split(pending, done + {p}, rest - {p})
      && BackfilledSoFar(t0, teams, names, done + {p}, scores,
                         now[p := now[p].(score := Some(scores[ScoreKey(t0[p], teams, names)]))])
  {
    BackfillKeepsKey(t0, now, teams, names, done, scores, p);
    if ScoreKey(t0[p], teams, names) !in scores {
      NotBackfillable(t0, teams, names, pending, scores, p);
    } else {
      BackfillStep(t0, now, teams, names, done, scores, p);
      MoveOne(pending, done, rest, p);
    }
  }

  /** Moving one element from the rest to the done part keeps them a split of the whole. */
  lemma MoveOne(all: set<Pk>, done: set<Pk>, rest: set<Pk>, p: Pk)
    requires done + rest == all && done !! rest && p in rest
    ensures (done + {p}) + (rest - {p}) == all && (done + {p}) !! (rest - {p})
  {
  }

  /** The participations `done` are backfilled in `now`, and no other has changed. */
  ghost predicate BackfilledSoFar(t0: map<Pk, TeamEventParticipation>, teams: map<Pk, Team>, names: map<Pk, TeamName>,
                                  done: set<Pk>, scores: map<(Option<nat>, string), int>, now: map<Pk, TeamEventParticipation>) {
    AllBackfillable(t0, teams, names, done, scores) && now == BackfilledTeps(t0, teams, names, done, scores)
  }

  lemma BackfillNothing(teps: map<Pk, TeamEventParticipation>, teams: map<Pk, Team>, names: map<Pk, TeamName>,
                        scores: map<(Option<nat>, string), int>)
    ensures AllBackfillable(teps, teams, names, {}, scores)
    ensures BackfilledTeps(teps, teams, names, {}, scores) == teps
  {
  }

  /** Backfilling leaves a participation's team and name as they were. */
  lemma BackfillKeepsKey(t0: map<Pk, TeamEventParticipation>, now: map<Pk, TeamEventParticipation>,
                         teams: map<Pk, Team>, names: map<Pk, TeamName>, done: set<Pk>,
                         scores: map<(Option<nat>, string), int>, p: Pk)
    requires BackfilledSoFar(t0, teams, names, done, scores, now)
    requires p in t0 && t0[p].team in teams && t0[p].teamName in names
    ensures p in now && now[p].team == t0[p].team && now[p].teamName == t0[p].teamName
    ensures ScoreKey(now[p], teams, names) == ScoreKey(t0[p], teams, names)
  {
  }

  /** A participation whose team has no score is not backfillable. */
  lemma NotBackfillable(teps: map<Pk, TeamEventParticipation>, teams: map<Pk, Team>, names: map<Pk, TeamName>,
                        ps: set<Pk>, scores: map<(Option<nat>, string), int>, p: Pk)
    requires p in ps && p in teps && teps[p].team in teams && teps[p].teamName in names
    requires ScoreKey(teps[p], teams, names) !in scores
    ensures !AllBackfillable(teps, teams, names, ps, scores)
  {
  }

  /** Saving the next score extends the backfilled set by one participation. */
  lemma BackfillStep(t0: map<Pk, TeamEventParticipation>, now: map<Pk, TeamEventParticipation>,
                     teams: map<Pk, Team>, names: map<Pk, TeamName>,
                     done: set<Pk>, scores: map<(Option<nat>, string), int>, p: Pk)
    requires BackfilledSoFar(t0, teams, names, done, scores, now)
    requires p in t0 && t0[p].team in teams && t0[p].teamName in names
    requires now[p].team == t0[p].team && now[p].teamName == t0[p].teamName
    requires ScoreKey(now[p], teams, names) in scores
    ensures BackfilledSoFar(t0, teams, names, done + {p}, scores,
                            now[p := now[p].(score := Some(scores[ScoreKey(now[p], teams, names)]))])
  {
  }

  /**
   * After the backfill no participation of the event waits for a score, each
   * one that did has the score of the last scraped entry of its team, and
   * every other participation is unchanged.
   */
  lemma BackfillFillsPending(teps: map<Pk, TeamEventParticipation>, teams: map<Pk, Team>, names: map<Pk, TeamName>,
                             ev: Option<Pk>, m: EventData)
    requires AllBackfillable(teps, teams, names, PendingTeps(teps, ev), TeamScores(m))
    ensures PendingTeps(BackfilledTeps(teps, teams, names, PendingTeps(teps, ev), TeamScores(m)), ev) == {}
    ensures forall p :: p in teps && p !in PendingTeps(teps, ev) ==>
              BackfilledTeps(teps, teams, names, PendingTeps(teps, ev), TeamScores(m))[p] == teps[p]
    ensures forall p :: p in PendingTeps(teps, ev) ==>
              var t := BackfilledTeps(teps, teams, names, PendingTeps(teps, ev), TeamScores(m))[p];
              && t.score.Some? && t.team == teps[p].team && t.teamName == teps[p].teamName && t.event == teps[p].event
              && exists i :: 0 <= i < |m.teams| && (m.teams[i].teamId, m.teams[i].name) == ScoreKey(teps[p], teams, names)
                             && m.teams[i].score == t.score.value
                             && forall j :: i < j < |m.teams| ==> (m.teams[j].teamId, m.teams[j].name) != ScoreKey(teps[p], teams, names)
  {
    forall p | p in PendingTeps(teps, ev)
      ensures var k := ScoreKey(teps[p], teams, names);
        exists i :: 0 <= i < |m.teams| && (m.teams[i].teamId, m.teams[i].name) == k && m.teams[i].score == TeamScores(m)[k]
                    && forall j :: i < j < |m.teams| ==> (m.teams[j].teamId, m.teams[j].name) != k
    {
      TeamScoresLast(m, ScoreKey(teps[p], teams, names));
    }
  }

  // ---------------------------------------------------------------- participations

  /** The lookups of the participation step, with the name rows of the looked-up teams. */
  function TepLookups(games: map<GameKey, Pk>, eventLookup: map<(Pk, Date), Pk>, teams: map<nat, Pk>,
                      guests: map<string, Pk>, names: map<Pk, TeamName>): (lk: Lookups)
    requires TeamNamesValid(names)
    ensures lk.games == games && lk.events == eventLookup && lk.teams == teams && lk.guests == guests
    ensures forall k :: k in lk.names <==> k.0 in teams.Values + guests.Values && HasKey(names, NameKey, (k.1, k.0))
    ensures forall k :: k in lk.names ==> lk.names[k] in names && names[lk.names[k]].team == k.0 && names[lk.names[k]].name == k.1
  {
    Lookups(games, eventLookup, teams, guests, NameLookup(names, teams.Values + guests.Values))
  }

  /**
   * The nested loop of the participation step: for each event (KeyError when
   * its key is not in the event lookup) and each of its teams, the entry
   * replaces the one kept for its (team, event) when there is none or its
   * score is strictly higher.
   */
  method CollectTeps(lk: Lookups, events: seq<EventData>) returns (r: Result<map<(Pk, Pk), TepEntry>>)
    requires AllMatch(lk.games, events) && TeamsResolve(lk, events)
    ensures r.Err? <==> exists e :: e in events && EventKeyOf(lk.games, e) !in lk.events
    ensures r.Err? ==> r.error == KeyError
    ensures r.Ok? ==> Resolves(lk, events) && r.value == TepChoices(lk, events)
  {
    var unique: map<(Pk, Pk), TepEntry> := map[];
    for i := 0 to |events|
      invariant Resolves(lk, events[..i])
      invariant unique == Dedup(TepEntries(lk, events[..i]))
    {
      var e := events[i];
      var key := EventKeyOf(lk.games, e);
      if key !in lk.events {
        return Err(KeyError);
      }
      var ev := lk.events[key];
      assert Resolves(lk, events[..i + 1]);
      TepEntriesSnoc(lk, events, i);
      assert forall t :: t in e.teams ==> TeamResolves(lk, t);
      unique := KeepBest(lk, e.teams, ev, TepEntries(lk, events[..i]), unique);
    }
    assert events[..|events|] == events;
    r := Ok(unique);
  }

  /** The inner loop over one event's teams, continuing from the map built for the entries `done`. */
  method KeepBest(lk: Lookups, ts: seq<TeamData>, ev: Pk, ghost done: seq<TepEntry>, m: map<(Pk, Pk), TepEntry>)
    returns (unique: map<(Pk, Pk), TepEntry>)
    requires forall t :: t in ts ==> TeamResolves(lk, t)
    requires m == Dedup(done)
    ensures unique == Dedup(done + EventEntries(lk, ts, ev))
  {
    unique := m;
    assert done + EventEntries(lk, ts[..0], ev) == done;
    for j := 0 to |ts|
      invariant unique == Dedup(done + EventEntries(lk, ts[..j], ev))
    {
      var t := ts[j];
      var x := TepEntryOf(lk, t, ev);
      KeepBestStep(lk, ts, j, ev, done);
      if x.key !in unique || t.score > unique[x.key].score {
        unique := unique[x.key := x];
      }
    }
    assert ts[..|ts|] == ts;
  }

  /** One more team of the event: the map so far takes one more dedup step. */
  lemma KeepBestStep(lk: Lookups, ts: seq<TeamData>, j: nat, ev: Pk, done: seq<TepEntry>)
    requires j < |ts| && forall t :: t in ts ==> TeamResolves(lk, t)
    ensures Dedup(done + EventEntries(lk, ts[..j + 1], ev)) ==
              Step(Dedup(done + EventEntries(lk, ts[..j], ev)), TepEntryOf(lk, ts[j], ev))
  {
    EventEntriesSnoc(lk, ts, j, ev);
    var x := TepEntryOf(lk, ts[j], ev);
    assert done + EventEntries(lk, ts[..j + 1], ev) == (done + EventEntries(lk, ts[..j], ev)) + [x];
    DedupSnoc(done + EventEntries(lk, ts[..j], ev), x);
  }

  /** `bulk_create(..., ignore_conflicts=True)` of a set of participations, in some order. */
  method InsertTepSet(db: Database, kept: set<TeamEventParticipation>, ghost lk: Lookups, ghost events: seq<EventData>)
    requires Resolves(lk, events) && kept == KeptTeps(lk, events)
    requires db.Valid() && forall t :: t in kept ==> TepRowOk(t, db.teams, db.teamNames, db.events)
    modifies db`teps, db`nextPk
    ensures db.Valid()
    ensures InsertedRows(old(db.teps), db.teps, KeptTeps(lk, events), TepKey)
  {
    var rows := Enumerate(kept);
    ghost var t0, n0 := db.teps, db.nextPk;
    db.BulkInsertTeps(rows);
    InsertedAsRows(t0, db.teps, n0, db.nextPk, rows, kept, TepKey);
  }

  /** An event stored under `key` has a participation of the scraped team `t`. */
  ghost predicate PlayedAt(events: map<Pk, Event>, teams: map<Pk, Team>, names: map<Pk, TeamName>,
                           teps: map<Pk, TeamEventParticipation>, key: (Pk, Date), t: TeamData) {
    exists ev :: ev in events && EventKey(events[ev]) == key && Participates(teams, names, teps, t, ev)
  }

  /** Participation in the looked-up event is participation in an event of the scraped (game, date). */
  lemma EventsPlayed(events: seq<EventData>, games: map<GameKey, Pk>, lookup: map<(Pk, Date), Pk>, evs: map<Pk, Event>,
                     teams: map<Pk, Team>, names: map<Pk, TeamName>, teps: map<Pk, TeamEventParticipation>)
    requires AllMatch(games, events)
    requires EventLookupFaithful(lookup, evs)
    requires forall e, t :: e in events && t in e.teams ==>
               EventKeyOf(games, e) in lookup && Participates(teams, names, teps, t, lookup[EventKeyOf(games, e)])
    ensures forall e, t :: e in events && t in e.teams ==> PlayedAt(evs, teams, names, teps, EventKeyOf(games, e), t)
  {
    forall e, t | e in events && t in e.teams
      ensures PlayedAt(evs, teams, names, teps, EventKeyOf(games, e), t)
    {
      var ev := lookup[EventKeyOf(games, e)];
      assert ev in evs && EventKey(evs[ev]) == EventKeyOf(games, e) && Participates(teams, names, teps, t, ev);
    }
  }

  /**
   * The scraped team `t` has a participation in event `ev`: its team is the
   * team with the scraped id, or for a guest the team carrying the scraped
   * name as its guest name.
   */
  ghost predicate Participates(teams: map<Pk, Team>, names: map<Pk, TeamName>,
                               teps: map<Pk, TeamEventParticipation>, t: TeamData, ev: Pk) {
    exists p :: p in teps && teps[p].event == ev && teps[p].team in teams &&
      if t.teamId.Some? then teams[teps[p].team].teamId == t.teamId else GuestNameOn(names, t.name, teps[p].team)
  }

  /** New blank teams take keys from `from` on, so the teams below it keep their rows. */
  lemma BlankTeamsKeep(teams: map<Pk, Team>, from: nat, count: nat)
    requires KeysBelow(teams.Keys, from)
    ensures forall p :: p in teams ==> p in teams + BlankTeams(from, count) && (teams + BlankTeams(from, count))[p] == teams[p]
  {
  }

  /**
   * What the team steps leave for the participation step: the team of each
   * scraped id with its official name rows, and the team of each scraped
   * guest name carrying that name.
   */
  ghost predicate TeamsReady(events: seq<EventData>, teams: map<nat, Pk>, guests: map<string, Pk>,
                             t: map<Pk, Team>, n: map<Pk, TeamName>) {
    && teams.Keys == TeamIds(events)
    && (forall id :: id in teams ==> teams[id] in t && t[teams[id]].teamId == Some(id))
    && (forall x :: x in OfficialNames(events, teams) ==> HasKey(n, NameKey, NameKey(x)))
    && guests.Keys == GuestNames(events)
    && (forall g :: g in guests ==> GuestNameOn(n, g, guests[g]))
  }

  /** The official name rows survive the guest step, which only adds rows. */
  lemma OfficialNamesKept(events: seq<EventData>, teams: map<nat, Pk>, n1: map<Pk, TeamName>, n2: map<Pk, TeamName>)
    requires TeamIds(events) <= teams.Keys
    requires forall x :: x in OfficialNames(events, teams) ==> HasKey(n1, NameKey, NameKey(x))
    requires forall p :: p in n1 ==> p in n2 && n2[p] == n1[p]
    ensures forall x :: x in OfficialNames(events, teams) ==> HasKey(n2, NameKey, NameKey(x))
  {
    forall x | x in OfficialNames(events, teams)
      ensures HasKey(n2, NameKey, NameKey(x))
    {
      var p :| p in n1 && NameKey(n1[p]) == NameKey(x);
      assert n2[p] == n1[p];
    }
  }

  /** A name row of one of the owners is in the name lookup. */
  lemma NameFound(names: map<Pk, TeamName>, owners: set<Pk>, p: Pk)
    requires TeamNamesValid(names) && p in names && names[p].team in owners
    ensures (names[p].team, names[p].name) in NameLookup(names, owners)
  {
    assert NameKey(names[p]) == (names[p].name, names[p].team);
  }

  /**
   * After the team steps every lookup of the participation step succeeds
   * for every scraped team, and the looked-up teams exist.
   */
  lemma PageTeamsResolve(events: seq<EventData>, games: map<GameKey, Pk>, eventLookup: map<(Pk, Date), Pk>,
                         teams: map<nat, Pk>, guests: map<string, Pk>, n: map<Pk, TeamName>, t: map<Pk, Team>)
    requires TeamNamesValid(n) && NameFks(n, t)
    requires TeamsReady(events, teams, guests, t, n)
    ensures TeamsResolve(TepLookups(games, eventLookup, teams, guests, n), events)
    ensures teams.Values <= t.Keys && guests.Values <= t.Keys
  {
    forall e, d | e in events && d in e.teams
      ensures TeamResolves(TepLookups(games, eventLookup, teams, guests, n), d)
    {
      assert d in AllTeams(events);
      TeamResolvesOnce(events, games, eventLookup, teams, guests, n, t, d);
    }
  }

  lemma TeamResolvesOnce(events: seq<EventData>, games: map<GameKey, Pk>, eventLookup: map<(Pk, Date), Pk>,
                         teams: map<nat, Pk>, guests: map<string, Pk>, n: map<Pk, TeamName>, t: map<Pk, Team>,
                         d: TeamData)
    requires TeamNamesValid(n) && TeamsReady(events, teams, guests, t, n) && d in AllTeams(events)
    ensures TeamResolves(TepLookups(games, eventLookup, teams, guests, n), d)
  {
    var owners := teams.Values + guests.Values;
    if d.teamId.Some? {
      assert d.teamId.value in TeamIds(events);
      var x := TeamName(d.name, teams[d.teamId.value], false);
      assert x in OfficialNames(events, teams);
      var p :| p in n && NameKey(n[p]) == NameKey(x);
      assert teams[d.teamId.value] in teams.Values;
      NameFound(n, owners, p);
    } else {
      assert d.name in GuestNames(events);
      var p :| p in n && n[p].guest && n[p].name == d.name && n[p].team == guests[d.name];
      assert guests[d.name] in guests.Values;
      NameFound(n, owners, p);
    }
  }

  /** The end of the participation step, stated per scraped team. */
  lemma PageParticipations(events: seq<EventData>, lk: Lookups, teams: map<Pk, Team>, names: map<Pk, TeamName>,
                           before: map<Pk, TeamEventParticipation>, after: map<Pk, TeamEventParticipation>)
    requires Resolves(lk, events) && InsertedRows(before, after, KeptTeps(lk, events), TepKey)
    requires forall id :: id in lk.teams ==> lk.teams[id] in teams && teams[lk.teams[id]].teamId == Some(id)
    requires forall n :: n in lk.guests ==> GuestNameOn(names, n, lk.guests[n])
    requires forall p :: p in after ==> after[p].team in teams
    ensures forall e, t :: e in events && t in e.teams ==>
              EventKeyOf(lk.games, e) in lk.events && Participates(teams, names, after, t, lk.events[EventKeyOf(lk.games, e)])
  {
    forall e, t | e in events && t in e.teams
      ensures EventKeyOf(lk.games, e) in lk.events && Participates(teams, names, after, t, lk.events[EventKeyOf(lk.games, e)])
    {
      TepsStored(before, after, lk, events, e, t);
      var p :| p in after && TepKey(after[p]) == (TeamOf(lk, t), lk.events[EventKeyOf(lk.games, e)]);
      assert after[p].team in teams;
    }
  }

  /** Every kept participation is a valid row: its team, name and event exist and its score is in range. */
  lemma KeptTepsOk(lk: Lookups, events: seq<EventData>, teams: map<Pk, Team>, names: map<Pk, TeamName>,
                   evs: map<Pk, Event>)
    requires Resolves(lk, events)
    requires lk.events.Values <= evs.Keys && lk.teams.Values <= teams.Keys && lk.guests.Values <= teams.Keys
    requires forall k :: k in lk.names ==> lk.names[k] in names
    ensures forall x :: x in KeptTeps(lk, events) ==> TepRowOk(x, teams, names, evs)
  {
    forall x | x in KeptTeps(lk, events)
      ensures TepRowOk(x, teams, names, evs)
    {
      KeptTepFrom(lk, events, x);
      var e, t :| e in events && t in e.teams && x == TepEntryOf(lk, t, lk.events[EventKeyOf(lk.games, e)]).item;
      assert TeamResolves(lk, t);
      assert lk.events[EventKeyOf(lk.games, e)] in lk.events.Values;
      if t.teamId.Some? {
        assert lk.teams[t.teamId.value] in lk.teams.Values;
      } else {
        assert lk.guests[t.name] in lk.guests.Values;
      }
    }
  }

  /**
   * What the participation step promises, stated without the loop: every
   * scraped team has a participation in each event it was scraped at, and
   * one the step added holds a score scraped for that team at that event,
   * no lower than any other scraped for it there, under the name row of
   * the name it was scraped with.
   */
  lemma TepsStored(before: map<Pk, TeamEventParticipation>, after: map<Pk, TeamEventParticipation>,
                   lk: Lookups, events: seq<EventData>, e: EventData, t: TeamData)
    requires Resolves(lk, events) && InsertedRows(before, after, KeptTeps(lk, events), TepKey)
    requires e in events && t in e.teams
    ensures TeamResolves(lk, t)
    ensures HasKey(after, TepKey, (TeamOf(lk, t), lk.events[EventKeyOf(lk.games, e)]))
    ensures forall p :: p in after && p !in before && TepKey(after[p]) == (TeamOf(lk, t), lk.events[EventKeyOf(lk.games, e)]) ==>
              && after[p].score.Some? && t.score <= after[p].score.value
              && exists e', t' :: e' in events && t' in e'.teams && TeamResolves(lk, t') && TeamOf(lk, t') == TeamOf(lk, t)
                   && EventKeyOf(lk.games, e') in lk.events && lk.events[EventKeyOf(lk.games, e')] == lk.events[EventKeyOf(lk.games, e)]
                   && after[p].teamName == lk.names[(TeamOf(lk, t), t'.name)] && after[p].score == Some(t'.score)
  {
    assert TeamResolves(lk, t);
    var x := TepEntryOf(lk, t, lk.events[EventKeyOf(lk.games, e)]);
    TepChoiceIsBest(lk, events, e, t);
    var kept := TepChoices(lk, events)[x.key];
    KeptTepKey(lk, events, x.key);
    assert kept.item in KeptTeps(lk, events);
    forall p | p in after && p !in before && TepKey(after[p]) == x.key
      ensures && after[p].score.Some? && t.score <= after[p].score.value
              && exists e', t' :: e' in events && t' in e'.teams && TeamResolves(lk, t') && TeamOf(lk, t') == TeamOf(lk, t)
                   && EventKeyOf(lk.games, e') in lk.events && lk.events[EventKeyOf(lk.games, e')] == lk.events[EventKeyOf(lk.games, e)]
                   && after[p].teamName == lk.names[(TeamOf(lk, t), t'.name)] && after[p].score == Some(t'.score)
    {
      var y := after[p];
      var k :| k in TepChoices(lk, events) && TepChoices(lk, events)[k].item == y;
      KeptTepKey(lk, events, k);
      KeptTepFrom(lk, events, y);
      var e', t' :| e' in events && t' in e'.teams && y == TepEntryOf(lk, t', lk.events[EventKeyOf(lk.games, e')]).item;
      assert TeamResolves(lk, t') && EventKeyOf(lk.games, e') in lk.events;
    }
  }

  // ---------------------------------------------------------------- a page that is already stored

  /** Every entry of the event lookup is the stored event of its (game, date). */
  ghost predicate EventLookupFaithful(lookup: map<(Pk, Date), Pk>, evs: map<Pk, Event>) {
    forall k :: k in lookup ==> lookup[k] in evs && EventKey(evs[lookup[k]]) == k
  }

  /** Every scraped team takes part in an event of its scraped (game, date). */
  ghost predicate AllPlayed(games: map<GameKey, Pk>, evs: map<Pk, Event>, teams: map<Pk, Team>, names: map<Pk, TeamName>,
                            teps: map<Pk, TeamEventParticipation>, events: seq<EventData>)
    requires AllMatch(games, events)
  {
    forall e, t :: e in events && t in e.teams ==> PlayedAt(evs, teams, names, teps, EventKeyOf(games, e), t)
  }

  /**
   * The team steps would find what they write already there: a team for each
   * scraped team id, a name row with each official team's scraped name on
   * the team of its id, and every scraped guest name already a guest name.
   */
  ghost predicate PageTeamsStored(teams: map<Pk, Team>, names: map<Pk, TeamName>, events: seq<EventData>) {
    && (forall id :: id in TeamIds(events) ==> HasKey(teams, TeamIdKey, Some(id)))
    && (forall d :: d in AllTeams(events) && d.teamId.Some? ==>
          exists p :: p in names && names[p].name == d.name && names[p].team in teams
                      && teams[names[p].team].teamId == d.teamId)
    && NewGuestNames(names, events) == {}
  }

  /**
   * Under the game lookup `games`, the events, team and participation steps
   * would find what they write already there: the event of every scraped
   * (game, date), the page's teams, and every scraped team's participation.
   */
  ghost predicate EventsStored(games: map<GameKey, Pk>, evs: map<Pk, Event>, teams: map<Pk, Team>,
                               names: map<Pk, TeamName>, teps: map<Pk, TeamEventParticipation>, events: seq<EventData>)
    requires AllMatch(games, events)
  {
    && (forall e :: e in events ==> HasKey(evs, EventKey, EventKeyOf(games, e)))
    && PageTeamsStored(teams, names, events)
    && AllPlayed(games, evs, teams, names, teps, events)
  }

  /**
   * Everything a push of `page` from `url` writes to the games, events,
   * teams, team names and participations tables is already in them: the
   * page's game rows, and under the game lookup read back from them, its
   * events, teams and participations.
   */
  ghost predicate PageStored(gs: map<Pk, Game>, evs: map<Pk, Event>, teams: map<Pk, Team>, names: map<Pk, TeamName>,
                             teps: map<Pk, TeamEventParticipation>, page: PageData, url: Url) {
    && OfficialRows(page.venueData, url) <= gs.Values
    && CustomRows(CustomTypes(page), url) <= gs.Values
    && forall lookup :: LookupOf(lookup, gs, SelectedGames(gs, page, url)) ==>
         AllMatch(lookup, page.eventData) && EventsStored(lookup, evs, teams, names, teps, page.eventData)
  }

  /** Without two selected games on one key, the games step reads back one lookup only. */
  lemma LookupOfUnique(l1: map<GameKey, Pk>, l2: map<GameKey, Pk>, games: map<Pk, Game>, sel: set<Pk>)
    requires sel <= games.Keys && !Ambiguous(games, sel)
    requires LookupOf(l1, games, sel) && LookupOf(l2, games, sel)
    ensures l1 == l2
  {
    forall k | k in l1
      ensures k in l2 && l2[k] == l1[k]
    {
      assert KeyOfGame(games[l1[k]]) == k;
    }
    forall k | k in l2
      ensures k in l1
    {
      assert KeyOfGame(games[l2[k]]) == k;
    }
  }

  /**
   * After a push whose event steps stored the page under the lookup it read
   * back, and no autoscrape resolution, the page counts as stored.
   */
  lemma {:induction false} PushLeavesPageStored(gs: map<Pk, Game>, evs: map<Pk, Event>, teams: map<Pk, Team>,
                                                names: map<Pk, TeamName>, teps: map<Pk, TeamEventParticipation>,
                                                page: PageData, url: Url, games: map<GameKey, Pk>)
    requires OfficialRows(page.venueData, url) <= gs.Values
    requires CustomRows(CustomTypes(page), url) <= gs.Values
    requires !Ambiguous(gs, SelectedGames(gs, page, url))
    requires LookupOf(games, gs, SelectedGames(gs, page, url)) && AllMatch(games, page.eventData)
    requires EventsStored(games, evs, teams, names, teps, page.eventData)
    ensures PageStored(gs, evs, teams, names, teps, page, url)
  {
    forall lookup | LookupOf(lookup, gs, SelectedGames(gs, page, url))
      ensures AllMatch(lookup, page.eventData) && EventsStored(lookup, evs, teams, names, teps, page.eventData)
    {
      LookupOfUnique(lookup, games, gs, SelectedGames(gs, page, url));
    }
  }

  /** What the team steps leave behind is a page whose teams are stored. */
  lemma {:induction false} ReadyIsStored(events: seq<EventData>, teams: map<nat, Pk>, guests: map<string, Pk>,
                                         t: map<Pk, Team>, n: map<Pk, TeamName>)
    requires TeamsReady(events, teams, guests, t, n)
    ensures PageTeamsStored(t, n, events)
  {
    forall id | id in TeamIds(events)
      ensures HasKey(t, TeamIdKey, Some(id))
    {
      assert TeamIdKey(t[teams[id]]) == Some(id);
    }
    forall d | d in AllTeams(events) && d.teamId.Some?
      ensures exists p :: p in n && n[p].name == d.name && n[p].team in t && t[n[p].team].teamId == d.teamId
    {
      var x := TeamName(d.name, teams[d.teamId.value], false);
      assert d.teamId.value in TeamIds(events);
      assert x in OfficialNames(events, teams);
      var p :| p in n && NameKey(n[p]) == NameKey(x);
      assert n[p].name == d.name && n[p].team == teams[d.teamId.value];
    }
    forall g | g in GuestNames(events)
      ensures HasGuestName(n, g)
    {
      assert GuestNameOn(n, g, guests[g]);
    }
    assert NewGuestNames(n, events) == {};
  }

  /** A guest name is on one team only. */
  lemma GuestTeamUnique(names: map<Pk, TeamName>, name: string, a: Pk, b: Pk)
    requires TeamNamesValid(names) && GuestNameOn(names, name, a) && GuestNameOn(names, name, b)
    ensures a == b
  {
  }

  /**
   * When every scraped team already takes part in the event of its (game,
   * date), every kept participation's (team, event) is already stored, so
   * the participation insert adds nothing.
   */
  lemma {:induction false} TepsIdle(lk: Lookups, events: seq<EventData>, teams: map<Pk, Team>, names: map<Pk, TeamName>,
                                    evs: map<Pk, Event>, before: map<Pk, TeamEventParticipation>,
                                    after: map<Pk, TeamEventParticipation>)
    requires Resolves(lk, events) && InsertedRows(before, after, KeptTeps(lk, events), TepKey)
    requires TeamIdsUnique(teams) && TeamNamesValid(names) && EventsUnique(evs)
    requires forall id :: id in lk.teams ==> lk.teams[id] in teams && teams[lk.teams[id]].teamId == Some(id)
    requires forall n :: n in lk.guests ==> GuestNameOn(names, n, lk.guests[n])
    ensures EventLookupFaithful(lk.events, evs) && AllPlayed(lk.games, evs, teams, names, before, events) ==> after == before
  {
    if EventLookupFaithful(lk.events, evs) && AllPlayed(lk.games, evs, teams, names, before, events) {
      forall x | x in KeptTeps(lk, events)
        ensures HasKey(before, TepKey, TepKey(x))
      {
        KeptTepFrom(lk, events, x);
        var e, t :| e in events && t in e.teams && x == TepEntryOf(lk, t, lk.events[EventKeyOf(lk.games, e)]).item;
        KeptTepStored(lk, events, teams, names, evs, before, e, t);
      }
      InsertedRowsIdle(before, after, KeptTeps(lk, events), TepKey);
    }
  }

  /** The participation of a scraped team that already took part in its event has the kept (team, event). */
  lemma KeptTepStored(lk: Lookups, events: seq<EventData>, teams: map<Pk, Team>, names: map<Pk, TeamName>,
                      evs: map<Pk, Event>, before: map<Pk, TeamEventParticipation>, e: EventData, t: TeamData)
    requires Resolves(lk, events) && e in events && t in e.teams
    requires TeamIdsUnique(teams) && TeamNamesValid(names) && EventsUnique(evs)
    requires forall id :: id in lk.teams ==> lk.teams[id] in teams && teams[lk.teams[id]].teamId == Some(id)
    requires forall n :: n in lk.guests ==> GuestNameOn(names, n, lk.guests[n])
    requires EventLookupFaithful(lk.events, evs) && PlayedAt(evs, teams, names, before, EventKeyOf(lk.games, e), t)
    ensures TeamResolves(lk, t)
    ensures HasKey(before, TepKey, TepKey(TepEntryOf(lk, t, lk.events[EventKeyOf(lk.games, e)]).item))
  {
    var key := EventKeyOf(lk.games, e);
    assert TeamResolves(lk, t) && key in lk.events;
    var ev :| ev in evs && EventKey(evs[ev]) == key && Participates(teams, names, before, t, ev);
    assert ev == lk.events[key];
    var p :| p in before && before[p].event == ev && before[p].team in teams &&
      if t.teamId.Some? then teams[before[p].team].teamId == t.teamId else GuestNameOn(names, t.name, before[p].team);
    if t.teamId.Some? {
      assert before[p].team == lk.teams[t.teamId.value];
    } else {
      GuestTeamUnique(names, t.name, before[p].team, lk.guests[t.name]);
    }
    assert TepKey(before[p]) == TepKey(TepEntryOf(lk, t, ev).item);
  }

  /**
   * What the games step leaves: the page's game rows stored, and `lookup` the
   * unambiguous read-back of the selected games, matching every scraped
   * event. With conditions all its games are at `url`; without, it has the
   * key of every stored game.
   */
  ghost predicate GamesRead(lookup: map<GameKey, Pk>, gs: map<Pk, Game>, page: PageData, url: Url) {
    && OfficialRows(page.venueData, url) <= gs.Values
    && CustomRows(CustomTypes(page), url) <= gs.Values
    && !Ambiguous(gs, SelectedGames(gs, page, url))
    && LookupOf(lookup, gs, SelectedGames(gs, page, url))
    && AllMatch(lookup, page.eventData) && LookupFaithful(lookup, gs)
    && (!NoConditions(page) ==> forall k :: k in lookup ==> lookup[k] in gs && gs[lookup[k]].venue == url)
    && (NoConditions(page) ==> forall p :: p in gs ==> KeyOfGame(gs[p]) in lookup)
  }

  /** Game rows inserted for the venue at `url`, a stored venue, keep every game's venue stored. */
  lemma PageGamesAtVenue(before: map<Pk, Game>, after: map<Pk, Game>, page: PageData, url: Url, venues: map<Url, Venue>)
    requires InsertedRows(before, after, OfficialRows(page.venueData, url) + CustomRows(CustomTypes(page), url), GameRow)
    requires VenueFks(before, venues) && url in venues
    ensures VenueFks(after, venues)
  {
  }

  /** The games step adds nothing when the page's game rows are all stored. */
  lemma PageGamesIdle(before: map<Pk, Game>, after: map<Pk, Game>, rows: set<Game>)
    requires InsertedRows(before, after, rows, GameRow)
    ensures rows <= before.Values ==> after == before
  {
    if rows <= before.Values {
      forall g | g in rows
        ensures HasKey(before, GameRow, g)
      {
        var p :| p in before && before[p] == g;
        assert GameRow(before[p]) == g;
      }
      InsertedRowsIdle(before, after, rows, GameRow);
    }
  }

  /** The events step adds nothing when every scraped (game, date) has its event. */
  lemma {:induction false} EventsIdle(before: map<Pk, Event>, after: map<Pk, Event>, from: nat, to: nat,
                                      games: map<GameKey, Pk>, events: seq<EventData>)
    requires AllMatch(games, events)
    requires InsertedIgnoring(before, after, from, to, EventRows(games, events), EventKey)
    ensures (forall e :: e in events ==> HasKey(before, EventKey, EventKeyOf(games, e))) ==> after == before
  {
    if forall e :: e in events ==> HasKey(before, EventKey, EventKeyOf(games, e)) {
      var rows := EventRows(games, events);
      forall r | r in rows
        ensures HasKey(before, EventKey, EventKey(r))
      {
        var i :| 0 <= i < |rows| && rows[i] == r;
        assert events[i] in events && EventKey(rows[i]) == EventKeyOf(games, events[i]);
      }
      InsertedIgnoringIdle(before, after, from, to, rows, EventKey);
    }
  }

  /**
   * The read-back of a page's events: the stored events of its (game, date)
   * pairs, or every stored event when the page has none; once every row of
   * the events not withheld is stored, it has each of their keys.
   */
  lemma {:induction false} ReadBackOfPage(events: map<Pk, Event>, games: map<GameKey, Pk>,
                                          all: seq<EventData>, notUpdated: seq<EventData>)
    requires EventsUnique(events) && AllMatch(games, all) && AllMatch(games, notUpdated)
    requires forall e :: e in notUpdated ==> e in all
    requires forall r :: r in EventRows(games, notUpdated) ==> HasKey(events, EventKey, EventKey(r))
    ensures all != [] ==> forall k :: k in ReadBackEvents(events, EventKeys(games, all)) <==>
                                         k in EventKeys(games, all) && HasKey(events, EventKey, k)
    ensures all == [] ==> forall k :: k in ReadBackEvents(events, EventKeys(games, all)) <==> HasKey(events, EventKey, k)
    ensures forall e :: e in notUpdated ==> EventKeyOf(games, e) in ReadBackEvents(events, EventKeys(games, all))
  {
    if all != [] {
      assert EventKeyOf(games, all[0]) in EventKeys(games, all);
    }
    var rows := EventRows(games, notUpdated);
    forall e | e in notUpdated
      ensures EventKeyOf(games, e) in ReadBackEvents(events, EventKeys(games, all))
    {
      var i :| 0 <= i < |notUpdated| && notUpdated[i] == e;
      assert rows[i] in rows && EventKey(rows[i]) == EventKeyOf(games, e);
      assert EventKeyOf(games, e) in EventKeys(games, all);
    }
  }

  /** The team insert adds nothing when every scraped team id has its team. */
  lemma TeamsIdle(before: map<Pk, Team>, after: map<Pk, Team>, ids: set<nat>)
    requires InsertedRows(before, after, TeamRows(ids), TeamIdKey)
    ensures (forall id :: id in ids ==> HasKey(before, TeamIdKey, Some(id))) ==> after == before
  {
    if forall id :: id in ids ==> HasKey(before, TeamIdKey, Some(id)) {
      forall r | r in TeamRows(ids)
        ensures HasKey(before, TeamIdKey, TeamIdKey(r))
      {
        var id :| id in ids && r == Team(Some(id));
      }
      InsertedRowsIdle(before, after, TeamRows(ids), TeamIdKey);
    }
  }

  /**
   * The official name insert adds nothing when each official team's scraped
   * name is already a name row of the team of its id.
   */
  lemma {:induction false} OfficialNamesIdle(events: seq<EventData>, lookup: map<nat, Pk>, t: map<Pk, Team>,
                                             before: map<Pk, TeamName>, after: map<Pk, TeamName>)
    requires TeamIdsUnique(t) && lookup.Keys == TeamIds(events)
    requires forall id :: id in lookup ==> lookup[id] in t && t[lookup[id]].teamId == Some(id)
    requires InsertedRows(before, after, OfficialNames(events, lookup), NameKey)
    ensures PageTeamsStored(t, before, events) ==> after == before
  {
    if PageTeamsStored(t, before, events) {
      forall x | x in OfficialNames(events, lookup)
        ensures HasKey(before, NameKey, NameKey(x))
      {
        var d :| d in AllTeams(events) && d.teamId.Some? && x == TeamName(d.name, lookup[d.teamId.value], false);
        var p :| p in before && before[p].name == d.name && before[p].team in t && t[before[p].team].teamId == d.teamId;
        assert d.teamId.value in TeamIds(events);
        assert before[p].team == lookup[d.teamId.value];
        assert NameKey(before[p]) == NameKey(x);
      }
      InsertedRowsIdle(before, after, OfficialNames(events, lookup), NameKey);
    }
  }

  /** Creating no blank teams leaves the teams as they were. */
  lemma NoBlankTeams(teams: map<Pk, Team>, from: nat)
    ensures teams + BlankTeams(from, 0) == teams
  {
    assert BlankTeams(from, 0) == map[];
  }

  /** Recording no new guest names leaves the name rows as they were. */
  lemma GuestsIdle(before: map<Pk, TeamName>, after: map<Pk, TeamName>, from: nat, lookup: map<string, Pk>)
    requires GuestsRecorded(before, after, from, {}, lookup)
    ensures after == before
  {
    assert after.Keys == before.Keys;
  }

  /** Today's placeholder of game `g`: its event dated `today` that has no quizmaster yet. */
  predicate HasPlaceholder(events: map<Pk, Event>, g: Pk, today: Date) {
    exists p :: p in events && events[p].game == g && events[p].date == today && events[p].quizmaster.None?
  }

  function PlaceholderAt(events: map<Pk, Event>, g: Pk, today: Date): (p: Pk)
    requires EventsUnique(events) && HasPlaceholder(events, g, today)
    ensures p in events && events[p].game == g && events[p].date == today && events[p].quizmaster.None?
  {
    var p :| p in events && events[p].game == g && events[p].date == today && events[p].quizmaster.None?;
    p
  }

  /** The placeholder once resolved by the scraped event `m` at time `now`. */
  function Resolved(e: Event, m: EventData, now: Instant): (r: Event)
    ensures EventKey(r) == EventKey(e) && r.theme == e.theme
    ensures r.endDatetime == Some(now) && r.description == m.description && r.quizmaster == Some(m.quizmaster)
  {
    e.(endDatetime := Some(now), description := m.description, quizmaster := Some(m.quizmaster))
  }

  /** The official games as rows, in the venue's order. */
  function OfficialRowSeq(venue: VenueData, url: Url): (rows: seq<Game>)
    ensures forall g :: g in rows <==> g in OfficialRows(venue, url)
    ensures forall g :: g in rows ==> GameRowOk(g)
  {
    var rows := seq(|venue.games|, i requires 0 <= i < |venue.games| =>
                      Game(venue.games[i].gameType, Some(venue.games[i].day), Some(venue.games[i].time), url));
    assert forall g :: g in OfficialRows(venue, url) ==> g in rows by {
      forall g | g in OfficialRows(venue, url)
        ensures g in rows
      {
        var d :| d in venue.games && g == Game(d.gameType, Some(d.day), Some(d.time), url);
        var i :| 0 <= i < |venue.games| && venue.games[i] == d;
        assert rows[i] == g;
      }
    }
    rows
  }

  /** One custom game row per listed type. */
  function CustomRowSeqOf(types: seq<string>, url: Url): (rows: seq<Game>)
    ensures |rows| == |types|
    ensures forall g :: g in rows <==> exists t :: t in types && g == Game(t, None, None, url)
    ensures forall g :: g in rows ==> GameRowOk(g)
  {
    var rows := seq(|types|, i requires 0 <= i < |types| => Game(types[i], None, None, url));
    assert forall t :: t in types ==> Game(t, None, None, url) in rows by {
      forall t | t in types
        ensures Game(t, None, None, url) in rows
      {
        var i :| 0 <= i < |types| && types[i] == t;
        assert rows[i] == Game(t, None, None, url);
      }
    }
    rows
  }
}
