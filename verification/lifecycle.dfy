/**
 * The three periodic tasks of an official game (`scraper.tasks`): the
 * placeholder event created an hour before the game, the unattended scrape
 * that resolves it and then switches itself off, and the re-enable run of
 * the next day. As written, that run deletes the game's event of the
 * previous day whether or not a scrape resolved it, and switches the scrape
 * back on only when there is no such event.
 *
 * The date of the local day and the current instant are parameters; the
 * scraped page the extractor would return for the cutoff is a parameter too.
 */
module Lifecycle {
  import opened Wrappers
  import opened Chrono
  import opened Schema
  import opened Records
  import opened Db
  import Service
  import Schedule

  // ---------------------------------------------------------------- generate_placeholder_event

  /** The event `generate_placeholder_event` creates: every optional column null. */
  function Placeholder(gamePk: Pk, today: Date): (e: Event)
    ensures EventKey(e) == (gamePk, today)
    ensures e.endDatetime.None? && e.description.None? && e.quizmaster.None? && e.theme.None?
  {
    Event(gamePk, today, None, None, None, None)
  }

  /**
   * `generate_placeholder_event`: one new event of the game dated today. The
   * insert fails with an IntegrityError when the game does not exist (the
   * foreign key) or already has an event today (unique (game, date)).
   */
  method GeneratePlaceholderEvent(db: Database, gamePk: Pk, today: Date) returns (r: Result<Pk>)
    requires db.Valid()
    modifies db`events, db`nextPk
    ensures db.Valid()
    ensures r.Err? <==> gamePk !in db.games || HasKey(old(db.events), EventKey, (gamePk, today))
    ensures r.Err? ==> r.error == IntegrityError && db.events == old(db.events) && db.nextPk == old(db.nextPk)
    ensures r.Ok? ==> r.value == old(db.nextPk) && r.value !in old(db.events)
                      && db.events == old(db.events)[r.value := Placeholder(gamePk, today)]
  {
    if gamePk !in db.games {
      return Err(IntegrityError);
    }
    var pk := db.nextPk;
    var inserted := db.InsertEvent(Placeholder(gamePk, today));
    if !inserted {
      return Err(IntegrityError);
    }
    r := Ok(pk);
  }

  /**
   * The placeholder is the event the unattended scrape of the same day looks
   * for: the only event of the game that day, and without a quizmaster.
   */
  lemma PlaceholderIsFound(events: map<Pk, Event>, pk: Pk, gamePk: Pk, today: Date)
    requires EventsUnique(events) && !HasKey(events, EventKey, (gamePk, today)) && pk !in events
    ensures var after := events[pk := Placeholder(gamePk, today)];
      && EventsUnique(after)
      && Service.HasPlaceholder(after, gamePk, today)
      && Service.PlaceholderAt(after, gamePk, today) == pk
  {
    var after := events[pk := Placeholder(gamePk, today)];
    assert after[pk].game == gamePk && after[pk].date == today;
    forall p | p in after && after[p].game == gamePk && after[p].date == today
      ensures p == pk
    {
      assert p != pk ==> EventKey(events[p]) == (gamePk, today);
    }
  }

  // ---------------------------------------------------------------- auto_scrape

  /**
   * The lookback of `auto_scrape`: the date of the latest event at the venue
   * that has a quizmaster, or yesterday when there is none.
   */
  function ScrapeCutoff(games: map<Pk, Game>, events: map<Pk, Event>, url: Url, today: Date): (cutoff: Date)
    ensures VenueEventDates(games, events, url, true) == {} ==> cutoff == today - 1
    ensures VenueEventDates(games, events, url, true) != {} ==>
      && cutoff in VenueEventDates(games, events, url, true)
      && forall d :: d in VenueEventDates(games, events, url, true) ==> d <= cutoff
  {
    var dates := VenueEventDates(games, events, url, true);
    if dates == {} then today - 1 else Latest(dates)
  }

  /** A placeholder has no quizmaster, so creating one never moves the lookback. */
  lemma PlaceholderKeepsCutoff(games: map<Pk, Game>, events: map<Pk, Event>, pk: Pk, gamePk: Pk, url: Url, today: Date)
    requires pk !in events
    ensures ScrapeCutoff(games, events[pk := Placeholder(gamePk, today)], url, today)
         == ScrapeCutoff(games, events, url, today)
  {
    var after := events[pk := Placeholder(gamePk, today)];
    assert VenueEventDates(games, after, url, true) == VenueEventDates(games, events, url, true) by {
      forall d ensures d in VenueEventDates(games, after, url, true) <==> d in VenueEventDates(games, events, url, true)
      {
        if d in VenueEventDates(games, after, url, true) {
          var p :| p in after && after[p].game in games && games[after[p].game].venue == url
                   && after[p].quizmaster.Some? && after[p].date == d;
          assert p != pk;
        }
        if d in VenueEventDates(games, events, url, true) {
          var p :| p in events && events[p].game in games && games[events[p].game].venue == url
                   && events[p].quizmaster.Some? && events[p].date == d;
          assert p in after && after[p] == events[p];
        }
      }
    }
  }

  /**
   * `auto_scrape`: a service in unattended mode for `url` pushes the page
   * scraped back to the cutoff, with the game as the autoscrape target. A
   * push that answered true switches the named task off; a push that wrote
   * nothing or failed leaves the tables and the schedule as they were. The
   * task is never switched on here.
   */
  method AutoScrape(db: Database, beat: Schedule.Beat, gamePk: Pk, url: Url, taskName: string,
                    page: PageData, today: Date, now: Instant)
    returns (cutoff: Date, r: Result<bool>)
    requires db.Valid() && VenueFks(db.games, db.venues)
    modifies db, beat
    ensures db.Valid() && VenueFks(db.games, db.venues)
    ensures cutoff == ScrapeCutoff(old(db.games), old(db.events), url, today)
    ensures r == Ok(false) <==> page.eventData == []
    ensures r.Err? || r == Ok(false) ==> db.Snapshot() == old(db.Snapshot()) && beat.State() == old(beat.State())
    ensures r == Ok(true) ==>
      && db.venues == old(db.venues)[url := Venue(page.venueData.name, Some(now))]
      && (taskName in beat.tasks ==> !beat.tasks[taskName].enabled)
      && forall n :: n in old(beat.tasks) ==>
           (n in beat.tasks &&
            beat.tasks[n] == if n == taskName then old(beat.tasks[n]).(enabled := false) else old(beat.tasks[n]))
    ensures forall n :: n in old(beat.tasks) && !old(beat.tasks[n]).enabled ==> n in beat.tasks && !beat.tasks[n].enabled
  {
    var service := new Service.ScraperService(false, url);
    cutoff := ScrapeCutoff(db.games, db.events, url, today);
    ghost var before := beat.State();
    r := service.PushToDb(db, beat, page, Some(gamePk), today, now);
    if r.Ok? && r.value {
      assert Schedule.Extends(before, beat.State());
      beat.SetEnabled(taskName, false);
    }
  }

  // ---------------------------------------------------------------- reenable_scraping

  /** What `reenable_scraping` does: delete one event, or switch the scrape task back on. */
  datatype Action = DeleteEvent(pk: Pk) | EnableTask

  /**
   * The rule as written: any event of the game dated yesterday is deleted,
   * whether or not the scrape resolved it; only when there is none is the
   * task switched back on.
   */
  function ReenableActionAsWritten(events: map<Pk, Event>, gamePk: Pk, today: Date): (a: Action)
    requires EventsUnique(events)
    ensures a.DeleteEvent? <==> HasKey(events, EventKey, (gamePk, today - 1))
    ensures a.DeleteEvent? ==> a.pk in events && EventKey(events[a.pk]) == (gamePk, today - 1)
  {
    if HasKey(events, EventKey, (gamePk, today - 1)) then DeleteEvent(EventAt(events, gamePk, today - 1)) else EnableTask
  }

  /**
   * As written, the event a successful scrape resolved yesterday, with its
   * quizmaster and its participations, is deleted the next day, and the
   * scrape task, switched off by that scrape, is never switched on again.
   */
  lemma ReenableDeletesResolvedEvent(events: map<Pk, Event>, p: Pk, m: EventData, now: Instant, today: Date)
    requires EventsUnique(events) && p in events && events[p].date == today - 1
    ensures var resolved := events[p := Service.Resolved(events[p], m, now)];
      && EventsUnique(resolved) && resolved[p].quizmaster.Some?
      && ReenableActionAsWritten(resolved, events[p].game, today) == DeleteEvent(p)
      && ReenableAction(resolved, events[p].game, today) == EnableTask
  {
    var resolved := events[p := Service.Resolved(events[p], m, now)];
    assert EventKey(resolved[p]) == EventKey(events[p]);
    assert EventsUnique(resolved) by {
      forall a, b | a in resolved && b in resolved && a != b
        ensures EventKey(resolved[a]) != EventKey(resolved[b])
      {
        assert EventKey(resolved[a]) == EventKey(events[a]) && EventKey(resolved[b]) == EventKey(events[b]);
      }
    }
    var g := events[p].game;
    assert HasKey(resolved, EventKey, (g, today - 1));
    var q := EventAt(resolved, g, today - 1);
    assert q == p;
    assert !Service.HasPlaceholder(resolved, g, today - 1);
  }

  /**
   * The rule as intended: yesterday's placeholder of the game that nobody
   * resolved (no quizmaster) is deleted as orphaned; otherwise the task is
   * switched back on for next week.
   */
  function ReenableAction(events: map<Pk, Event>, gamePk: Pk, today: Date): (a: Action)
    requires EventsUnique(events)
    ensures a.DeleteEvent? <==> Service.HasPlaceholder(events, gamePk, today - 1)
    ensures a.DeleteEvent? ==>
      a.pk in events && EventKey(events[a.pk]) == (gamePk, today - 1) && events[a.pk].quizmaster.None?
  {
    if Service.HasPlaceholder(events, gamePk, today - 1) then DeleteEvent(Service.PlaceholderAt(events, gamePk, today - 1))
    else EnableTask
  }

  /** The intended rule never deletes an event a scrape resolved, nor an event of another game or day. */
  lemma ReenableKeepsResolvedEvents(events: map<Pk, Event>, gamePk: Pk, today: Date, p: Pk)
    requires EventsUnique(events) && p in events
    requires events[p].quizmaster.Some? || events[p].game != gamePk || events[p].date != today - 1
    ensures ReenableAction(events, gamePk, today) != DeleteEvent(p)
  {
  }

  /**
   * `reenable_scraping`, with the rule as written: yesterday's event of the
   * game, resolved or not, is deleted with its participations and the
   * schedule is left alone; otherwise the named task is switched on and the
   * tables are left alone. A task is never switched off here.
   */
  method ReenableScraping(db: Database, beat: Schedule.Beat, gamePk: Pk, taskName: string, today: Date)
    returns (a: Action)
    requires db.Valid()
    modifies db`events, db`teps, beat`tasks
    ensures db.Valid()
    ensures a == ReenableActionAsWritten(old(db.events), gamePk, today)
    ensures a.DeleteEvent? ==>
      db.events == old(db.events) - {a.pk} && db.teps == WithoutEvent(old(db.teps), a.pk) && beat.tasks == old(beat.tasks)
    ensures a.EnableTask? ==>
      && db.events == old(db.events) && db.teps == old(db.teps)
      && beat.tasks.Keys == old(beat.tasks.Keys)
      && forall n :: n in beat.tasks ==>
           beat.tasks[n] == if n == taskName then old(beat.tasks[n]).(enabled := true) else old(beat.tasks[n])
    ensures forall n :: n in old(beat.tasks) && old(beat.tasks[n]).enabled ==> n in beat.tasks && beat.tasks[n].enabled
  {
    a := ReenableActionAsWritten(db.events, gamePk, today);
    match a
    case DeleteEvent(p) =>
      db.DeleteEvent(p);
    case EnableTask =>
      beat.SetEnabled(taskName, true);
  }
}
