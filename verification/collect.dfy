/**
 * What each step of the reconciliation collects from a scraped page before it
 * writes: the comprehensions over the events and their teams, the rows an
 * insert is given, and the entries the participation step deduplicates.
 */
module Collect {
  import opened Wrappers
  import opened Chrono
  import opened Records
  import opened Schema
  import opened Matching
  import opened Duplicates

  // ---------------------------------------------------------------- teams of a page

  /** Every team of every event, event by event (`for event in event_data for team in event.teams`). */
  function AllTeams(events: seq<EventData>): (ts: seq<TeamData>)
    ensures forall t :: t in ts <==> exists e :: e in events && t in e.teams
    decreases |events|
  {
    if events == [] then []
    else
      var front := events[..|events| - 1];
      var ts := AllTeams(front) + events[|events| - 1].teams;
      assert forall e :: e in events <==> e in front || e == events[|events| - 1];
      ts
  }

  /** The teams that carry a team id, in order. */
  function OfficialTeams(ts: seq<TeamData>): (os: seq<TeamData>)
    ensures forall t :: t in os <==> t in ts && t.teamId.Some?
    decreases |ts|
  {
    if ts == [] then []
    else
      var front := ts[..|ts| - 1];
      var last := ts[|ts| - 1];
      assert forall t :: t in ts <==> t in front || t == last;
      OfficialTeams(front) + (if last.teamId.Some? then [last] else [])
  }

  /** `unique_team_ids`: the distinct team ids of the page. */
  function TeamIds(events: seq<EventData>): set<nat> {
    set t | t in AllTeams(events) && t.teamId.Some? :: t.teamId.value
  }

  /** The rows built position by position from the official teams `os` are the name rows of those teams. */
  lemma OfficialRowsCover(os: seq<TeamData>, teams: map<nat, Pk>, rows: seq<TeamName>)
    requires forall t :: t in os ==> t.teamId.Some? && t.teamId.value in teams
    requires |rows| == |os| && forall i :: 0 <= i < |os| ==> rows[i] == TeamName(os[i].name, teams[os[i].teamId.value], false)
    ensures forall n :: n in rows <==> exists t :: t in os && n == TeamName(t.name, teams[t.teamId.value], false)
  {
    forall n | n in rows
      ensures exists t :: t in os && n == TeamName(t.name, teams[t.teamId.value], false)
    {
      var i :| 0 <= i < |rows| && rows[i] == n;
      assert os[i] in os;
    }
    forall t | t in os
      ensures TeamName(t.name, teams[t.teamId.value], false) in rows
    {
      var i :| 0 <= i < |os| && os[i] == t;
      assert rows[i] == TeamName(t.name, teams[t.teamId.value], false);
    }
  }

  /** `unique_guest_team_names`: the distinct names of the teams without a team id. */
  function GuestNames(events: seq<EventData>): set<string> {
    set t | t in AllTeams(events) && t.teamId.None? :: t.name
  }

  /** `unique_quizmaster_names`. */
  function QuizmasterNames(events: seq<EventData>): set<string> {
    set e | e in events :: e.quizmaster
  }

  /** The non-guest name rows the official-teams step inserts, one per official appearance. */
  function OfficialNameRows(events: seq<EventData>, teams: map<nat, Pk>): (rows: seq<TeamName>)
    requires TeamIds(events) <= teams.Keys
    ensures forall n :: n in rows <==>
      exists t :: t in AllTeams(events) && t.teamId.Some? && n == TeamName(t.name, teams[t.teamId.value], false)
  {
    var os := OfficialTeams(AllTeams(events));
    assert forall t :: t in os ==> t.teamId.value in TeamIds(events);
    var rows := seq(|os|, i requires 0 <= i < |os| => TeamName(os[i].name, teams[os[i].teamId.value], false));
    OfficialRowsCover(os, teams, rows);
    rows
  }

  /** A blank name row is inserted exactly when some official team is scraped with a blank name. */
  lemma BlankOfficialName(events: seq<EventData>, teams: map<nat, Pk>)
    requires TeamIds(events) <= teams.Keys
    ensures (exists n :: n in OfficialNameRows(events, teams) && n.name == "") <==>
            (exists t :: t in AllTeams(events) && t.teamId.Some? && t.name == "")
  {
    var rows := OfficialNameRows(events, teams);
    if t :| t in AllTeams(events) && t.teamId.Some? && t.name == "" {
      assert TeamName(t.name, teams[t.teamId.value], false) in rows;
    }
  }

  // ---------------------------------------------------------------- events of a page

  /** The (game, date) key a scraped event is recorded under. */
  function EventKeyOf(lookup: map<GameKey, Pk>, e: EventData): (Pk, Date)
    requires MatchGame(lookup, e.gameType, Weekday(e.date)).Ok?
  {
    (MatchedPk(lookup, e), e.date)
  }

  /** The keys of the events the events step reads back. */
  function EventKeys(lookup: map<GameKey, Pk>, events: seq<EventData>): set<(Pk, Date)>
    requires AllMatch(lookup, events)
  {
    set e | e in events :: EventKeyOf(lookup, e)
  }

  /** The row created for a scraped event: no end time, no theme, its quizmaster and description. */
  function EventRow(lookup: map<GameKey, Pk>, e: EventData): (row: Event)
    requires MatchGame(lookup, e.gameType, Weekday(e.date)).Ok?
    ensures EventKey(row) == EventKeyOf(lookup, e)
  {
    Event(MatchedPk(lookup, e), e.date, None, e.description, Some(e.quizmaster), None)
  }

  /** The rows of the events step, one per event not already resolved as the placeholder. */
  function EventRows(lookup: map<GameKey, Pk>, events: seq<EventData>): (rows: seq<Event>)
    requires AllMatch(lookup, events)
    ensures |rows| == |events|
    ensures forall i :: 0 <= i < |events| ==> rows[i] == EventRow(lookup, events[i])
  {
    seq(|events|, i requires 0 <= i < |events| => EventRow(lookup, events[i]))
  }

  /** The scraped events matched to the autoscrape target game, in page order. */
  function MatchingEvents(lookup: map<GameKey, Pk>, events: seq<EventData>, target: Option<Pk>): (ms: seq<EventData>)
    requires AllMatch(lookup, events)
    ensures forall e :: e in ms <==> e in events && Some(MatchedPk(lookup, e)) == target
    decreases |events|
  {
    if events == [] then []
    else
      var front, last := events[..|events| - 1], events[|events| - 1];
      assert forall e :: e in events <==> e in front || e == last;
      MatchingEvents(lookup, front, target) + (if Some(MatchedPk(lookup, last)) == target then [last] else [])
  }

  /** The page's events other than `m`. */
  function Without(events: seq<EventData>, m: EventData): (rest: seq<EventData>)
    ensures forall e :: e in rest <==> e in events && e != m
    decreases |events|
  {
    if events == [] then []
    else
      var front, last := events[..|events| - 1], events[|events| - 1];
      assert forall e :: e in events <==> e in front || e == last;
      Without(front, m) + (if last != m then [last] else [])
  }

  /**
   * When exactly one scraped event matches the target, leaving it out removes
   * exactly one position of the page: dropping the event by value is the same
   * as dropping that one object.
   */
  lemma WithoutSingleMatch(lookup: map<GameKey, Pk>, events: seq<EventData>, target: Option<Pk>, i: nat)
    requires AllMatch(lookup, events)
    requires |MatchingEvents(lookup, events, target)| == 1
    requires i < |events| && events[i] == MatchingEvents(lookup, events, target)[0]
    ensures Without(events, events[i]) == events[..i] + events[i + 1..]
  {
    var m := events[i];
    MatchingCounts(lookup, events, target, m);
    assert multiset(MatchingEvents(lookup, events, target)) == multiset{m};
    WithoutOnce(events, i);
  }

  /** A matching event occurs as often among the matching events as on the page. */
  lemma {:induction false} MatchingCounts(lookup: map<GameKey, Pk>, events: seq<EventData>, target: Option<Pk>, m: EventData)
    requires AllMatch(lookup, events) && m in events && Some(MatchedPk(lookup, m)) == target
    ensures multiset(MatchingEvents(lookup, events, target))[m] == multiset(events)[m]
    decreases |events|
  {
    var n := |events| - 1;
    var front, last := events[..n], events[n];
    assert events == front + [last];
    MatchingSnoc(lookup, events, target);
    if m in front {
      MatchingCounts(lookup, front, target, m);
    } else {
      assert multiset(MatchingEvents(lookup, front, target))[m] == 0;
    }
  }

  /** Leaving out a value that occurs once removes exactly its position. */
  lemma {:induction false} WithoutOnce(events: seq<EventData>, i: nat)
    requires i < |events| && multiset(events)[events[i]] == 1
    ensures Without(events, events[i]) == events[..i] + events[i + 1..]
    decreases |events|
  {
    var m := events[i];
    var n := |events| - 1;
    var front, last := events[..n], events[n];
    assert events == front + [last];
    WithoutSnoc(events, m);
    if i == n {
      assert multiset(front)[m] == 0;
      WithoutAbsent(front, m);
    } else {
      assert front[i] == m;
      assert multiset(front)[m] >= 1;
      assert last != m;
      WithoutOnce(front, i);
      assert events[..i] == front[..i] && events[i + 1..] == front[i + 1..] + [last];
    }
  }

  /** The matching events of a page are those of all but its last event, then the last one if it matches. */
  lemma MatchingSnoc(lookup: map<GameKey, Pk>, events: seq<EventData>, target: Option<Pk>)
    requires AllMatch(lookup, events) && events != []
    ensures AllMatch(lookup, events[..|events| - 1])
    ensures MatchingEvents(lookup, events, target) ==
              MatchingEvents(lookup, events[..|events| - 1], target)
              + (if Some(MatchedPk(lookup, events[|events| - 1])) == target then [events[|events| - 1]] else [])
  {
  }

  /** Leaving out `m` from a page leaves it out of all but the last event, then keeps the last unless it is `m`. */
  lemma WithoutSnoc(events: seq<EventData>, m: EventData)
    requires events != []
    ensures Without(events, m) == Without(events[..|events| - 1], m) + (if events[|events| - 1] != m then [events[|events| - 1]] else [])
  {
  }

  lemma {:induction false} WithoutAbsent(events: seq<EventData>, m: EventData)
    requires m !in events
    ensures Without(events, m) == events
    decreases |events|
  {
    if events != [] {
      var front, last := events[..|events| - 1], events[|events| - 1];
      assert events == front + [last];
      assert m !in front && last != m;
      WithoutAbsent(front, m);
    }
  }

  // ---------------------------------------------------------------- participations of a page

  /** A participation entry: keyed by (team, event), kept by score. */
  type TepEntry = Entry<(Pk, Pk), TeamEventParticipation>

  /** The lookups the participation step reads from. */
  datatype Lookups = Lookups(
    games: map<GameKey, Pk>,
    events: map<(Pk, Date), Pk>,
    teams: map<nat, Pk>,
    guests: map<string, Pk>,
    names: map<(Pk, string), Pk>)

  /** `teams[team.team_id]` for an official team, else `guest_teams[team.name]`. */
  function TeamOf(lk: Lookups, t: TeamData): Pk
    requires t.teamId.Some? ==> t.teamId.value in lk.teams
    requires t.teamId.None? ==> t.name in lk.guests
  {
    if t.teamId.Some? then lk.teams[t.teamId.value] else lk.guests[t.name]
  }

  /** Every lookup the participation step makes for the team `t` succeeds. */
  predicate TeamResolves(lk: Lookups, t: TeamData) {
    && (t.teamId.Some? ==> t.teamId.value in lk.teams)
    && (t.teamId.None? ==> t.name in lk.guests)
    && (TeamOf(lk, t), t.name) in lk.names
  }

  /**
   * The entry built for team `t` at event `ev`: the participation of `t`'s
   * team, under its name row for the scraped name, keyed and scored as scraped.
   */
  function TepEntryOf(lk: Lookups, t: TeamData, ev: Pk): (x: TepEntry)
    requires TeamResolves(lk, t)
    ensures x.key == (x.item.team, x.item.event) && x.item.event == ev && x.score == t.score
    ensures x.item.score == Some(t.score)
    ensures x.item.team == TeamOf(lk, t) && x.item.teamName == lk.names[(TeamOf(lk, t), t.name)]
  {
    var team := TeamOf(lk, t);
    Entry((team, ev), Tep(team, lk.names[(team, t.name)], ev, Some(t.score), None), t.score)
  }

  /** The entries of one event's teams, in order. */
  function EventEntries(lk: Lookups, ts: seq<TeamData>, ev: Pk): (xs: seq<TepEntry>)
    requires forall t :: t in ts ==> TeamResolves(lk, t)
    ensures |xs| == |ts|
    ensures forall i :: 0 <= i < |ts| ==> xs[i] == TepEntryOf(lk, ts[i], ev)
  {
    seq(|ts|, i requires 0 <= i < |ts| => TepEntryOf(lk, ts[i], ev))
  }

  /** The step's lookups succeed for every event of the page and every team of those events. */
  ghost predicate Resolves(lk: Lookups, events: seq<EventData>) {
    && AllMatch(lk.games, events)
    && (forall e :: e in events ==> EventKeyOf(lk.games, e) in lk.events)
    && (forall e, t :: e in events && t in e.teams ==> TeamResolves(lk, t))
  }

  /** The team lookups succeed for every team of every event. */
  ghost predicate TeamsResolve(lk: Lookups, events: seq<EventData>) {
    forall e, t :: e in events && t in e.teams ==> TeamResolves(lk, t)
  }

  /** The entries of a longer prefix of one event's teams. */
  lemma EventEntriesSnoc(lk: Lookups, ts: seq<TeamData>, j: int, ev: Pk)
    requires forall t :: t in ts ==> TeamResolves(lk, t)
    requires 0 <= j < |ts|
    ensures EventEntries(lk, ts[..j + 1], ev) == EventEntries(lk, ts[..j], ev) + [TepEntryOf(lk, ts[j], ev)]
  {
  }

  /** Every entry the nested loop of the participation step considers, in loop order. */
  function TepEntries(lk: Lookups, events: seq<EventData>): seq<TepEntry>
    requires Resolves(lk, events)
    decreases |events|
  {
    if events == [] then []
    else
      var last := events[|events| - 1];
      TepEntries(lk, events[..|events| - 1]) + EventEntries(lk, last.teams, lk.events[EventKeyOf(lk.games, last)])
  }

  /** The entries of one more event of the page. */
  lemma TepEntriesSnoc(lk: Lookups, events: seq<EventData>, i: int)
    requires 0 <= i < |events| && Resolves(lk, events[..i + 1])
    ensures Resolves(lk, events[..i])
    ensures TepEntries(lk, events[..i + 1])
      == TepEntries(lk, events[..i]) + EventEntries(lk, events[i].teams, lk.events[EventKeyOf(lk.games, events[i])])
  {
    assert events[..i + 1][..i] == events[..i];
    assert events[..i + 1][i] == events[i];
  }

  /** An entry of the page, described without the loop: some event's team, at that event's key. */
  lemma {:induction false} TepEntriesFrom(lk: Lookups, events: seq<EventData>, x: TepEntry)
    requires Resolves(lk, events)
    requires x in TepEntries(lk, events)
    ensures exists e, t :: e in events && t in e.teams && x == TepEntryOf(lk, t, lk.events[EventKeyOf(lk.games, e)])
    decreases |events|
  {
    var front, last := events[..|events| - 1], events[|events| - 1];
    var ev := lk.events[EventKeyOf(lk.games, last)];
    if x in TepEntries(lk, front) {
      TepEntriesFrom(lk, front, x);
      var e, t :| e in front && t in e.teams && x == TepEntryOf(lk, t, lk.events[EventKeyOf(lk.games, e)]);
      assert e in events;
    } else {
      var xs := EventEntries(lk, last.teams, ev);
      var i :| 0 <= i < |xs| && xs[i] == x;
      assert last.teams[i] in last.teams;
    }
  }

  /** Every team of every event contributes its entry. */
  lemma {:induction false} TepEntriesHas(lk: Lookups, events: seq<EventData>, e: EventData, t: TeamData)
    requires Resolves(lk, events)
    requires e in events && t in e.teams
    ensures TepEntryOf(lk, t, lk.events[EventKeyOf(lk.games, e)]) in TepEntries(lk, events)
    decreases |events|
  {
    var front, last := events[..|events| - 1], events[|events| - 1];
    assert events == front + [last];
    if e == last {
      var i :| 0 <= i < |e.teams| && e.teams[i] == t;
      assert EventEntries(lk, last.teams, lk.events[EventKeyOf(lk.games, last)])[i]
        == TepEntryOf(lk, t, lk.events[EventKeyOf(lk.games, e)]);
    } else {
      TepEntriesHas(lk, front, e, t);
    }
  }

  /** The deduplicated participations: one per (team, event), the first with the highest score. */
  function TepChoices(lk: Lookups, events: seq<EventData>): map<(Pk, Pk), TepEntry>
    requires Resolves(lk, events)
  {
    Dedup(TepEntries(lk, events))
  }

  /**
   * What the participation step keeps, stated without the loop: for every
   * team of every event there is a kept participation with its (team, event)
   * key whose score is at least that team's score and which was itself scraped
   * at that event with that score.
   */
  lemma TepChoiceIsBest(lk: Lookups, events: seq<EventData>, e: EventData, t: TeamData)
    requires Resolves(lk, events)
    requires e in events && t in e.teams
    ensures TepEntryOf(lk, t, lk.events[EventKeyOf(lk.games, e)]).key in TepChoices(lk, events)
    ensures var x := TepEntryOf(lk, t, lk.events[EventKeyOf(lk.games, e)]);
            var kept := TepChoices(lk, events)[x.key];
            && kept.key == x.key && kept.item.team == x.item.team && kept.item.event == x.item.event
            && t.score <= kept.score
            && kept in TepEntries(lk, events)
    ensures var x := TepEntryOf(lk, t, lk.events[EventKeyOf(lk.games, e)]);
            var kept := TepChoices(lk, events)[x.key];
            exists e', t' :: e' in events && t' in e'.teams && TeamResolves(lk, t')
              && kept == TepEntryOf(lk, t', lk.events[EventKeyOf(lk.games, e')])
              && TeamOf(lk, t') == TeamOf(lk, t) && kept.item.teamName == lk.names[(TeamOf(lk, t), t'.name)]
  {
    var s := TepEntries(lk, events);
    var x := TepEntryOf(lk, t, lk.events[EventKeyOf(lk.games, e)]);
    TepEntriesHas(lk, events, e, t);
    var j :| 0 <= j < |s| && s[j] == x;
    DedupKeepsMax(s, j);
    DedupChoice(s, x.key);
    var i :| IsChoice(s, x.key, i) && Dedup(s)[x.key] == s[i];
    TepEntriesFrom(lk, events, s[i]);
  }

  /** The participations the step inserts: the kept entry of every (team, event). */
  ghost function KeptTeps(lk: Lookups, events: seq<EventData>): set<TeamEventParticipation>
    requires Resolves(lk, events)
  {
    set k | k in TepChoices(lk, events) :: TepChoices(lk, events)[k].item
  }

  /**
   * Each kept participation names a name row of its own team that carries
   * the name of a team scraped at its event with its score, when the name
   * lookup is read from the name rows `names`.
   */
  lemma KeptTepNamed(lk: Lookups, events: seq<EventData>, names: map<Pk, TeamName>, x: TeamEventParticipation)
    requires Resolves(lk, events) && x in KeptTeps(lk, events)
    requires forall k :: k in lk.names ==> lk.names[k] in names && names[lk.names[k]].team == k.0 && names[lk.names[k]].name == k.1
    ensures x.teamName in names && names[x.teamName].team == x.team
    ensures exists e, t :: e in events && t in e.teams && TeamResolves(lk, t) && x.team == TeamOf(lk, t)
              && x.event == lk.events[EventKeyOf(lk.games, e)] && names[x.teamName].name == t.name && x.score == Some(t.score)
  {
    KeptTepFrom(lk, events, x);
    var e, t :| e in events && t in e.teams && x == TepEntryOf(lk, t, lk.events[EventKeyOf(lk.games, e)]).item;
    assert TeamResolves(lk, t);
  }

  /** Each kept participation is one built for some team of some event. */
  lemma KeptTepFrom(lk: Lookups, events: seq<EventData>, x: TeamEventParticipation)
    requires Resolves(lk, events) && x in KeptTeps(lk, events)
    ensures exists e, t :: e in events && t in e.teams && x == TepEntryOf(lk, t, lk.events[EventKeyOf(lk.games, e)]).item
  {
    var s := TepEntries(lk, events);
    var k :| k in TepChoices(lk, events) && TepChoices(lk, events)[k].item == x;
    DedupChoice(s, k);
    var i :| IsChoice(s, k, i) && Dedup(s)[k] == s[i];
    TepEntriesFrom(lk, events, s[i]);
  }

  /** The entry kept under key `k` has that key, as its participation's (team, event), and its score. */
  lemma KeptTepKey(lk: Lookups, events: seq<EventData>, k: (Pk, Pk))
    requires Resolves(lk, events) && k in TepChoices(lk, events)
    ensures var c := TepChoices(lk, events)[k];
            c.key == k && TepKey(c.item) == k && c.item.score == Some(c.score)
  {
    var s := TepEntries(lk, events);
    DedupChoice(s, k);
    var i :| IsChoice(s, k, i) && Dedup(s)[k] == s[i];
    TepEntriesFrom(lk, events, s[i]);
  }

  /**
   * `team_names`: (team, name) -> name row, for the name rows of the teams
   * `owners`; the rows are unique on (name, team).
   */
  function NameLookup(names: map<Pk, TeamName>, owners: set<Pk>): (m: map<(Pk, string), Pk>)
    requires TeamNamesValid(names)
    ensures forall k :: k in m <==> k.0 in owners && HasKey(names, NameKey, (k.1, k.0))
    ensures forall k :: k in m ==> m[k] in names && names[m[k]].team == k.0 && names[m[k]].name == k.1
  {
    var keys := set p | p in names && names[p].team in owners :: (names[p].team, names[p].name);
    map k | k in keys :: NameOf(names, k.0, k.1)
  }
}
