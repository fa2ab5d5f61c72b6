/**
 * The relational store the engine writes to: one map per table, a counter
 * for fresh primary keys, the schema constraints as the object invariant,
 * and the storage primitives the engine uses (insert that ignores or reports
 * unique conflicts, cascading delete, snapshot and rollback).
 */
module Db {
  import opened Wrappers
  import opened Chrono
  import opened Schema

  /** Every table at one moment: what a rolled-back transaction returns to. */
  datatype Tables = Tables(
    venues: map<Url, Venue>,
    gameTypes: set<string>,
    games: map<Pk, Game>,
    quizmasters: set<string>,
    events: map<Pk, Event>,
    teams: map<Pk, Team>,
    teamNames: map<Pk, TeamName>,
    teps: map<Pk, TeamEventParticipation>,
    nextPk: nat)

  /** Every game's venue exists: the foreign key of `Game.venue`. */
  predicate VenueFks(games: map<Pk, Game>, venues: map<Url, Venue>) {
    forall p :: p in games ==> games[p].venue in venues
  }

  /** No two venues share a name: the unique constraint of `Venue.name`. */
  predicate VenueNamesUnique(venues: map<Url, Venue>) {
    forall u, v :: u in venues && v in venues && venues[u].name == venues[v].name ==> u == v
  }

  /**
   * Writing `name` to the venue of `url` breaks the unique venue name: the
   * venue is created or renamed, and a venue under another URL already holds
   * that name.
   */
  predicate VenueNameClash(venues: map<Url, Venue>, url: Url, name: string) {
    && (url !in venues || venues[url].name != name)
    && exists u :: u in venues && u != url && venues[u].name == name
  }

  /** Every event's game exists. */
  predicate EventFks(events: map<Pk, Event>, games: map<Pk, Game>) {
    forall p :: p in events ==> events[p].game in games
  }

  /** Every team name's team exists. */
  predicate NameFks(names: map<Pk, TeamName>, teams: map<Pk, Team>) {
    forall p :: p in names ==> names[p].team in teams
  }

  /** Every participation's team, team name and event exist. */
  predicate TepFks(teps: map<Pk, TeamEventParticipation>, teams: map<Pk, Team>,
                   names: map<Pk, TeamName>, events: map<Pk, Event>) {
    forall p :: p in teps ==> teps[p].team in teams && teps[p].teamName in names && teps[p].event in events
  }

  /** The participation's team, name and event exist and its score is in range. */
  predicate TepRowOk(t: TeamEventParticipation, teams: map<Pk, Team>,
                     names: map<Pk, TeamName>, events: map<Pk, Event>) {
    && t.team in teams && t.teamName in names && t.event in events
    && (t.score.Some? ==> -1 <= t.score.value <= 112)
  }

  /** Changing one participation's score to a valid one keeps the participation constraints. */
  lemma TepScoreKeepsValid(teps: map<Pk, TeamEventParticipation>, teams: map<Pk, Team>,
                           names: map<Pk, TeamName>, events: map<Pk, Event>, pk: Pk, score: int)
    requires TepsValid(teps) && TepFks(teps, teams, names, events) && pk in teps && -1 <= score <= 112
    ensures TepsValid(teps[pk := teps[pk].(score := Some(score))])
    ensures TepFks(teps[pk := teps[pk].(score := Some(score))], teams, names, events)
    ensures teps[pk := teps[pk].(score := Some(score))].Keys == teps.Keys
  {
    var u := teps[pk := teps[pk].(score := Some(score))];
    assert forall p :: p in u ==> TepKey(u[p]) == TepKey(teps[p]);
  }

  /** Every primary key in use is below the next one to be handed out. */
  predicate KeysBelow(keys: set<Pk>, next: nat) {
    forall p :: p in keys ==> p < next
  }

  /** Adding a participation under a fresh key keeps the participation constraints. */
  lemma TepInsertKeepsValid(teps: map<Pk, TeamEventParticipation>, teams: map<Pk, Team>,
                            names: map<Pk, TeamName>, events: map<Pk, Event>,
                            k: Pk, t: TeamEventParticipation)
    requires TepsValid(teps) && TepFks(teps, teams, names, events) && k !in teps
    requires !HasKey(teps, TepKey, TepKey(t))
    requires t.score.Some? ==> -1 <= t.score.value <= 112
    requires t.team in teams && t.teamName in names && t.event in events
    ensures TepsValid(teps[k := t]) && TepFks(teps[k := t], teams, names, events)
  {
    var u := teps[k := t];
    forall p, q | p in u && q in u && p != q
      ensures (u[p].team, u[p].event) != (u[q].team, u[q].event)
    {
      if p == k {
        assert q in teps;
      } else if q == k {
        assert p in teps;
      }
    }
  }

  /** The participations that do not belong to event `pk`. */
  function WithoutEvent(teps: map<Pk, TeamEventParticipation>, pk: Pk): (r: map<Pk, TeamEventParticipation>)
    ensures forall p :: p in r <==> p in teps && teps[p].event != pk
    ensures forall p :: p in r ==> r[p] == teps[p]
  {
    map p | p in teps && teps[p].event != pk :: teps[p]
  }

  /** Deleting an event with its participations keeps the event and participation constraints. */
  lemma DeleteEventKeepsValid(events: map<Pk, Event>, teps: map<Pk, TeamEventParticipation>,
                              teams: map<Pk, Team>, names: map<Pk, TeamName>, n: nat, pk: Pk)
    requires EventsUnique(events) && TepsValid(teps) && TepFks(teps, teams, names, events)
    requires KeysBelow(events.Keys, n) && KeysBelow(teps.Keys, n)
    ensures EventsUnique(events - {pk}) && TepsValid(WithoutEvent(teps, pk))
    ensures TepFks(WithoutEvent(teps, pk), teams, names, events - {pk})
    ensures KeysBelow((events - {pk}).Keys, n) && KeysBelow(WithoutEvent(teps, pk).Keys, n)
  {
  }

  /** `count` teams without a team id under the consecutive keys from `from`. */
  function BlankTeams(from: nat, count: nat): (m: map<Pk, Team>)
    ensures forall p :: p in m <==> from <= p < from + count
    ensures forall p :: p in m ==> m[p] == Team(None)
  {
    if count == 0 then map[] else BlankTeams(from, count - 1)[from + count - 1 := Team(None)]
  }

  /** Teams without a team id under fresh keys keep the team constraints and every foreign key. */
  lemma BlankTeamsKeepValid(teams: map<Pk, Team>, from: nat, count: nat)
    requires TeamIdsUnique(teams) && KeysBelow(teams.Keys, from)
    ensures var after := teams + BlankTeams(from, count);
      && TeamIdsUnique(after) && KeysBelow(after.Keys, from + count)
      && teams.Keys <= after.Keys && (forall p :: p in teams ==> after[p] == teams[p])
  {
  }

  /** `after` is `before` with `rows[..n]` added under the consecutive keys from `from`. */
  ghost predicate AppendedAt<R>(before: map<Pk, R>, after: map<Pk, R>, from: nat, rows: seq<R>, n: nat) {
    && n <= |rows|
    && (forall p :: p in after <==> p in before || from <= p < from + n)
    && (forall p :: p in before ==> after[p] == before[p])
    && (forall j :: 0 <= j < n ==> from + j in after && after[from + j] == rows[j])
  }

  /** Adding `rows[n]` under the next key extends the appended prefix by one. */
  lemma AppendedStep<R>(before: map<Pk, R>, mid: map<Pk, R>, after: map<Pk, R>, from: nat, rows: seq<R>, n: nat)
    requires n < |rows| && KeysBelow(before.Keys, from)
    requires AppendedAt(before, mid, from, rows, n)
    requires after == mid[from + n := rows[n]]
    ensures AppendedAt(before, after, from, rows, n + 1)
  {
  }

  /**
   * Guest name rows that can be inserted without a unique conflict: each on
   * an existing team that has no name yet, no two sharing a name or a team,
   * and none already a guest name.
   */
  predicate GuestRowsFit(names: map<Pk, TeamName>, teams: map<Pk, Team>, rows: seq<TeamName>) {
    && (forall i :: 0 <= i < |rows| ==> rows[i].guest && rows[i].team in teams)
    && (forall i, j :: 0 <= i < j < |rows| ==> rows[i].name != rows[j].name && rows[i].team != rows[j].team)
    && (forall i :: 0 <= i < |rows| ==> !HasGuestName(names, rows[i].name))
    && (forall i, p :: 0 <= i < |rows| && p in names ==> names[p].team != rows[i].team)
  }

  /**
   * A new guest name on a team without names does not conflict with the
   * names inserted before it in the same batch, nor with the old ones.
   */
  lemma GuestRowFits(before: map<Pk, TeamName>, now: map<Pk, TeamName>, teams: map<Pk, Team>, from: nat,
                     rows: seq<TeamName>, i: nat)
    requires i < |rows|
    requires GuestRowsFit(before, teams, rows)
    requires AppendedAt(before, now, from, rows, i)
    ensures !TeamNameConflicts(now, rows[i])
  {
    forall p | p in now && p !in before
      ensures now[p].name != rows[i].name && now[p].team != rows[i].team
    {
      var j := p - from;
      assert now[p] == rows[j];
    }
  }

  // ---------------------------------------------------------------- inserting while ignoring conflicts

  /**
   * `after` is `before` after `bulk_create(rows, ignore_conflicts=True)`: no
   * row is changed or removed, each added row is one of `rows` whose key was
   * absent and took a fresh primary key from `from` up to `to`, and afterwards
   * every key of `rows` is present.
   */
  ghost predicate InsertedIgnoring<R, K>(before: map<Pk, R>, after: map<Pk, R>, from: nat, to: nat,
                                             rows: seq<R>, key: R -> K) {
    && from <= to
    && (forall p :: p in before ==> p in after && after[p] == before[p])
    && (forall p :: p in after && p !in before ==>
          from <= p < to && after[p] in rows && !HasKey(before, key, key(after[p])))
    && (forall r :: r in rows ==> HasKey(after, key, key(r)))
  }

  /**
   * The same as a set of rows, without the keys handed out: nothing changed or
   * removed, every added row is one of `rows` whose key was absent, and every
   * key of `rows` is present afterwards.
   */
  ghost predicate InsertedRows<R, K>(before: map<Pk, R>, after: map<Pk, R>, rows: set<R>, key: R -> K) {
    && (forall p :: p in before ==> p in after && after[p] == before[p])
    && (forall p :: p in after && p !in before ==> after[p] in rows && !HasKey(before, key, key(after[p])))
    && (forall r :: r in rows ==> HasKey(after, key, key(r)))
  }

  lemma InsertedAsRows<R, K>(before: map<Pk, R>, after: map<Pk, R>, from: nat, to: nat,
                             rows: seq<R>, rowSet: set<R>, key: R -> K)
    requires InsertedIgnoring(before, after, from, to, rows, key)
    requires forall r :: r in rows <==> r in rowSet
    ensures InsertedRows(before, after, rowSet, key)
  {
  }

  lemma InsertedNothing<R, K>(t: map<Pk, R>, n: nat, key: R -> K)
    ensures InsertedIgnoring(t, t, n, n, [], key)
  {
  }

  /** One more row inserted (or skipped on conflict) extends an ignoring insert. */
  lemma {:induction false} InsertedStep<R, K>(before: map<Pk, R>, mid: map<Pk, R>, after: map<Pk, R>,
                                                  from: nat, to: nat, to': nat, rows: seq<R>, i: nat, key: R -> K)
    requires i < |rows|
    requires InsertedIgnoring(before, mid, from, to, rows[..i], key)
    requires KeysBelow(mid.Keys, to)
    requires HasKey(mid, key, key(rows[i])) ==> after == mid && to' == to
    requires !HasKey(mid, key, key(rows[i])) ==> after == mid[to := rows[i]] && to' == to + 1
    ensures InsertedIgnoring(before, after, from, to', rows[..i + 1], key)
  {
    var r := rows[i];
    assert rows[..i + 1] == rows[..i] + [r];
    if !HasKey(mid, key, key(r)) {
      assert after[to] == r;
      forall x | x in rows[..i + 1]
        ensures HasKey(after, key, key(x))
      {
        if x in rows[..i] {
          var p :| p in mid && key(mid[p]) == key(x);
          assert p in after && after[p] == mid[p];
        }
      }
    }
  }

  /** Re-running an ignoring insert whose keys are all present changes nothing. */
  lemma InsertedIgnoringIdle<R, K>(before: map<Pk, R>, after: map<Pk, R>, from: nat, to: nat,
                                      rows: seq<R>, key: R -> K)
    requires InsertedIgnoring(before, after, from, to, rows, key)
    requires forall r :: r in rows ==> HasKey(before, key, key(r))
    ensures after == before
  {
    forall p | p in after
      ensures p in before
    {
      if p !in before {
        assert false;
      }
    }
  }

  /** The same for an insert described by its row set. */
  lemma InsertedRowsIdle<R, K>(before: map<Pk, R>, after: map<Pk, R>, rows: set<R>, key: R -> K)
    requires InsertedRows(before, after, rows, key)
    requires forall r :: r in rows ==> HasKey(before, key, key(r))
    ensures after == before
  {
    forall p | p in after
      ensures p in before
    {
      if p !in before {
        assert false;
      }
    }
  }

  /** Two ignoring inserts in a row are one ignoring insert of both row sets. */
  lemma InsertedChain<R, K>(a: map<Pk, R>, b: map<Pk, R>, c: map<Pk, R>, from: nat, mid: nat, to: nat,
                            rows1: seq<R>, rows2: seq<R>, key: R -> K)
    requires InsertedIgnoring(a, b, from, mid, rows1, key)
    requires InsertedIgnoring(b, c, mid, to, rows2, key)
    ensures InsertedIgnoring(a, c, from, to, rows1 + rows2, key)
  {
    forall r | r in rows1
      ensures HasKey(c, key, key(r))
    {
      var p :| p in b && key(b[p]) == key(r);
      assert c[p] == b[p];
    }
    forall p | p in c && p !in a
      ensures !HasKey(a, key, key(c[p]))
    {
      if p in b {
        assert c[p] == b[p];
      }
    }
  }

  /** A name row that is not a guest's conflicts exactly on its (name, team) key. */
  lemma OfficialNameConflict(names: map<Pk, TeamName>, n: TeamName)
    requires !n.guest
    ensures TeamNameConflicts(names, n) <==> HasKey(names, NameKey, NameKey(n))
  {
    if HasKey(names, NameKey, NameKey(n)) {
      var p :| p in names && NameKey(names[p]) == NameKey(n);
      assert (names[p].name, names[p].team) == (n.name, n.team);
    }
  }

  /** `rows` is the first row with its key at index `i`. */
  ghost predicate FirstWithKey<R, K>(rows: seq<R>, i: int, key: R -> K) {
    0 <= i < |rows| && forall j :: 0 <= j < i ==> key(rows[j]) != key(rows[i])
  }

  /**
   * Iterating over a set: Python visits the elements in an order it does not
   * specify, so any duplicate-free listing of the elements may come out.
   */
  method Enumerate<T>(s: set<T>) returns (xs: seq<T>)
    ensures |xs| == |s|
    ensures forall x :: x in xs <==> x in s
    ensures forall i, j :: 0 <= i < j < |xs| ==> xs[i] != xs[j]
  {
    xs := [];
    var rest := s;
    while rest != {}
      invariant rest <= s
      invariant forall x :: x in xs <==> x in s && x !in rest
      invariant forall i, j :: 0 <= i < j < |xs| ==> xs[i] != xs[j]
      invariant |xs| + |rest| == |s|
      decreases |rest|
    {
      var x :| x in rest;
      xs := xs + [x];
      rest := rest - {x};
    }
  }

  class Database {
    var venues: map<Url, Venue>
    var gameTypes: set<string>
    var games: map<Pk, Game>
    var quizmasters: set<string>
    var events: map<Pk, Event>
    var teams: map<Pk, Team>
    var teamNames: map<Pk, TeamName>
    var teps: map<Pk, TeamEventParticipation>
    var nextPk: nat

    /** The constraints of the schema, the foreign keys the engine follows, and fresh keys. */
    ghost predicate Valid()
      reads this`games, this`events, this`teams, this`teamNames, this`teps, this`nextPk
    {
      && GamesValid(games)
      && EventsUnique(events)
      && TeamIdsUnique(teams)
      && TeamNamesValid(teamNames)
      && TepsValid(teps)
      && EventFks(events, games)
      && NameFks(teamNames, teams)
      && TepFks(teps, teams, teamNames, events)
      && KeysBelow(games.Keys, nextPk) && KeysBelow(events.Keys, nextPk) && KeysBelow(teams.Keys, nextPk)
      && KeysBelow(teamNames.Keys, nextPk) && KeysBelow(teps.Keys, nextPk)
    }

    function Snapshot(): Tables
      reads this
    {
      Tables(venues, gameTypes, games, quizmasters, events, teams, teamNames, teps, nextPk)
    }

    constructor ()
      ensures Valid()
      ensures Snapshot() == Tables(map[], {}, map[], {}, map[], map[], map[], map[], 1)
    {
      venues, gameTypes, games, quizmasters := map[], {}, map[], {};
      events, teams, teamNames, teps := map[], map[], map[], map[];
      nextPk := 1;
    }

    /** Rolls every table back to `t`. */
    method Restore(t: Tables)
      modifies this
      ensures Snapshot() == t
    {
      venues, gameTypes, games, quizmasters := t.venues, t.gameTypes, t.games, t.quizmasters;
      events, teams, teamNames, teps := t.events, t.teams, t.teamNames, t.teps;
      nextPk := t.nextPk;
    }

    /** One row of `Game.objects.bulk_create(..., ignore_conflicts=True)`. */
    method InsertGame(g: Game) returns (inserted: bool)
      requires Valid() && GameRowOk(g)
      modifies this`games, this`nextPk
      ensures Valid()
      ensures inserted <==> !HasKey(old(games), GameRow, g)
      ensures games == if inserted then old(games)[old(nextPk) := g] else old(games)
      ensures nextPk == if inserted then old(nextPk) + 1 else old(nextPk)
    {
      GameConflictIsPresence(games, g);
      inserted := !GameConflicts(games, g);
      assert HasKey(games, GameRow, g) <==> g in games.Values by {
        if g in games.Values {
          var p :| p in games && games[p] == g;
          assert GameRow(games[p]) == g;
        }
      }
      if inserted {
        games := games[nextPk := g];
        nextPk := nextPk + 1;
        GamesValidIffDistinct(games);
        GamesValidIffDistinct(old(games));
      }
    }

    /** One row of `Event.objects.bulk_create(..., ignore_conflicts=True)`. */
    method InsertEvent(e: Event) returns (inserted: bool)
      requires Valid() && e.game in games
      modifies this`events, this`nextPk
      ensures Valid()
      ensures inserted <==> !HasKey(old(events), EventKey, EventKey(e))
      ensures events == if inserted then old(events)[old(nextPk) := e] else old(events)
      ensures nextPk == if inserted then old(nextPk) + 1 else old(nextPk)
    {
      inserted := !HasKey(events, EventKey, EventKey(e));
      if inserted {
        events := events[nextPk := e];
        nextPk := nextPk + 1;
      }
    }

    /** One row of `Team.objects.bulk_create(...)`; only a team id can conflict. */
    method InsertTeam(t: Team) returns (inserted: bool)
      requires Valid()
      modifies this`teams, this`nextPk
      ensures Valid()
      ensures inserted <==> !(t.teamId.Some? && HasKey(old(teams), TeamIdKey, t.teamId))
      ensures teams == if inserted then old(teams)[old(nextPk) := t] else old(teams)
      ensures nextPk == if inserted then old(nextPk) + 1 else old(nextPk)
    {
      inserted := !(t.teamId.Some? && HasKey(teams, TeamIdKey, t.teamId));
      if inserted {
        teams := teams[nextPk := t];
        nextPk := nextPk + 1;
      }
    }

    /**
     * One row of `TeamName.objects.bulk_create(...)`: a blank name violates a
     * check constraint (IntegrityError); a unique conflict is skipped when
     * conflicts are ignored and is an IntegrityError otherwise.
     */
    method InsertTeamName(n: TeamName, ignoreConflicts: bool) returns (r: Result<bool>)
      requires Valid() && n.team in teams
      modifies this`teamNames, this`nextPk
      ensures Valid()
      ensures r.Err? <==> n.name == "" || (!ignoreConflicts && TeamNameConflicts(old(teamNames), n))
      ensures r.Err? ==> r.error == IntegrityError
      ensures r.Ok? ==> (r.value <==> !TeamNameConflicts(old(teamNames), n))
      ensures teamNames == if r == Ok(true) then old(teamNames)[old(nextPk) := n] else old(teamNames)
      ensures nextPk == if r == Ok(true) then old(nextPk) + 1 else old(nextPk)
    {
      if n.name == "" {
        return Err(IntegrityError);
      }
      var conflict := TeamNameConflicts(teamNames, n);
      if conflict && !ignoreConflicts {
        return Err(IntegrityError);
      }
      if !conflict {
        teamNames := teamNames[nextPk := n];
        nextPk := nextPk + 1;
      }
      r := Ok(!conflict);
    }

    /** One row of `TeamEventParticipation.objects.bulk_create(..., ignore_conflicts=True)`. */
    method InsertTep(t: TeamEventParticipation) returns (inserted: bool)
      requires Valid()
      requires t.team in teams && t.teamName in teamNames && t.event in events
      requires t.score.Some? ==> -1 <= t.score.value <= 112
      modifies this`teps, this`nextPk
      ensures Valid()
      ensures inserted <==> !HasKey(old(teps), TepKey, TepKey(t))
      ensures teps == if inserted then old(teps)[old(nextPk) := t] else old(teps)
      ensures nextPk == if inserted then old(nextPk) + 1 else old(nextPk)
    {
      inserted := !HasKey(teps, TepKey, TepKey(t));
      if inserted {
        TepInsertKeepsValid(teps, teams, teamNames, events, nextPk, t);
        teps := teps[nextPk := t];
        nextPk := nextPk + 1;
      }
    }

    /** `Game.objects.bulk_create(rows, ignore_conflicts=True)`. */
    method BulkInsertGames(rows: seq<Game>)
      requires Valid() && forall r :: r in rows ==> GameRowOk(r)
      modifies this`games, this`nextPk
      ensures Valid()
      ensures InsertedIgnoring(old(games), games, old(nextPk), nextPk, rows, GameRow)
    {
      InsertedNothing(games, nextPk, GameRow);
      for i := 0 to |rows|
        invariant Valid()
        invariant InsertedIgnoring(old(games), games, old(nextPk), nextPk, rows[..i], GameRow)
      {
        ghost var mid, at := games, nextPk;
        var _ := InsertGame(rows[i]);
        InsertedStep(old(games), mid, games, old(nextPk), at, nextPk, rows, i, GameRow);
      }
      assert rows[..|rows|] == rows;
    }

    /**
     * `Event.objects.bulk_create(rows, ignore_conflicts=True)`: of several rows
     * with the same (game, date), the first one is inserted.
     */
    method BulkInsertEvents(rows: seq<Event>)
      requires Valid() && forall r :: r in rows ==> r.game in games
      modifies this`events, this`nextPk
      ensures Valid()
      ensures InsertedIgnoring(old(events), events, old(nextPk), nextPk, rows, EventKey)
      ensures forall p :: p in events && p !in old(events) ==>
                exists i :: FirstWithKey(rows, i, EventKey) && rows[i] == events[p]
    {
      InsertedNothing(events, nextPk, EventKey);
      for i := 0 to |rows|
        invariant Valid()
        invariant InsertedIgnoring(old(events), events, old(nextPk), nextPk, rows[..i], EventKey)
        invariant forall p :: p in events && p !in old(events) ==>
                    exists k :: FirstWithKey(rows, k, EventKey) && k < i && rows[k] == events[p]
      {
        ghost var mid, at := events, nextPk;
        var inserted := InsertEvent(rows[i]);
        InsertedStep(old(events), mid, events, old(nextPk), at, nextPk, rows, i, EventKey);
        if inserted {
          forall j | 0 <= j < i
            ensures EventKey(rows[j]) != EventKey(rows[i])
          {
            assert rows[j] in rows[..i];
          }
          assert FirstWithKey(rows, i, EventKey);
        }
      }
      assert rows[..|rows|] == rows;
    }

    /** `Team.objects.bulk_create(rows, ignore_conflicts=True)` for teams that carry a team id. */
    method BulkInsertTeams(rows: seq<Team>)
      requires Valid() && forall r :: r in rows ==> r.teamId.Some?
      modifies this`teams, this`nextPk
      ensures Valid()
      ensures InsertedIgnoring(old(teams), teams, old(nextPk), nextPk, rows, TeamIdKey)
    {
      InsertedNothing(teams, nextPk, TeamIdKey);
      for i := 0 to |rows|
        invariant Valid()
        invariant InsertedIgnoring(old(teams), teams, old(nextPk), nextPk, rows[..i], TeamIdKey)
      {
        ghost var mid, at := teams, nextPk;
        var _ := InsertTeam(rows[i]);
        InsertedStep(old(teams), mid, teams, old(nextPk), at, nextPk, rows, i, TeamIdKey);
      }
      assert rows[..|rows|] == rows;
    }

    /**
     * `Team.objects.bulk_create([Team() for _ in range(count)])`: `count` new
     * teams without a team id, under consecutive fresh keys.
     */
    method CreateBlankTeams(count: nat) returns (pks: seq<Pk>)
      requires Valid()
      modifies this`teams, this`nextPk
      ensures Valid()
      ensures |pks| == count && nextPk == old(nextPk) + count
      ensures forall i :: 0 <= i < count ==> pks[i] == old(nextPk) + i
      ensures teams == old(teams) + BlankTeams(old(nextPk), count)
    {
      var from := nextPk;
      pks := seq(count, i requires 0 <= i < count => from + i);
      BlankTeamsKeepValid(teams, nextPk, count);
      teams := teams + BlankTeams(nextPk, count);
      nextPk := nextPk + count;
    }

    /**
     * `TeamName.objects.bulk_create(rows, ignore_conflicts=True)` for names
     * that are not guests': a blank name still fails its check constraint.
     */
    method BulkInsertNames(rows: seq<TeamName>) returns (r: Result<()>)
      requires Valid() && forall n :: n in rows ==> !n.guest && n.team in teams
      modifies this`teamNames, this`nextPk
      ensures Valid()
      ensures r.Err? <==> exists n :: n in rows && n.name == ""
      ensures r.Err? ==> r.error == IntegrityError && teamNames == old(teamNames)
      ensures r.Ok? ==> InsertedIgnoring(old(teamNames), teamNames, old(nextPk), nextPk, rows, NameKey)
    {
      if exists n :: n in rows && n.name == "" {
        return Err(IntegrityError);
      }
      InsertedNothing(teamNames, nextPk, NameKey);
      for i := 0 to |rows|
        invariant Valid()
        invariant InsertedIgnoring(old(teamNames), teamNames, old(nextPk), nextPk, rows[..i], NameKey)
      {
        ghost var mid, at := teamNames, nextPk;
        OfficialNameConflict(teamNames, rows[i]);
        var res := InsertTeamName(rows[i], true);
        InsertedStep(old(teamNames), mid, teamNames, old(nextPk), at, nextPk, rows, i, NameKey);
      }
      assert rows[..|rows|] == rows;
      r := Ok(());
    }

    /** `TeamEventParticipation.objects.bulk_create(rows, ignore_conflicts=True)`. */
    method BulkInsertTeps(rows: seq<TeamEventParticipation>)
      requires Valid() && forall t :: t in rows ==> TepRowOk(t, teams, teamNames, events)
      modifies this`teps, this`nextPk
      ensures Valid()
      ensures InsertedIgnoring(old(teps), teps, old(nextPk), nextPk, rows, TepKey)
    {
      InsertedNothing(teps, nextPk, TepKey);
      for i := 0 to |rows|
        invariant Valid()
        invariant InsertedIgnoring(old(teps), teps, old(nextPk), nextPk, rows[..i], TepKey)
      {
        ghost var mid, at := teps, nextPk;
        assert TepRowOk(rows[i], teams, teamNames, events);
        var _ := InsertTep(rows[i]);
        InsertedStep(old(teps), mid, teps, old(nextPk), at, nextPk, rows, i, TepKey);
      }
      assert rows[..|rows|] == rows;
    }

    /** `event.save(update_fields=["end_datetime", "description", "quizmaster"])`. */
    method SaveEvent(pk: Pk, endDatetime: Option<Instant>, description: Option<string>, quizmaster: Option<string>)
      requires Valid() && pk in events
      modifies this`events
      ensures Valid()
      ensures events == old(events)[pk := old(events)[pk].(endDatetime := endDatetime, description := description,
                                                          quizmaster := quizmaster)]
    {
      events := events[pk := events[pk].(endDatetime := endDatetime, description := description, quizmaster := quizmaster)];
      assert events.Keys == old(events).Keys;
    }

    /** `tep.save(update_fields=["score"])`: the score must satisfy `valid_score`. */
    method SaveTepScore(pk: Pk, score: int)
      requires Valid() && pk in teps && -1 <= score <= 112
      modifies this`teps
      ensures Valid()
      ensures teps == old(teps)[pk := old(teps)[pk].(score := Some(score))]
    {
      TepScoreKeepsValid(teps, teams, teamNames, events, pk, score);
      teps := teps[pk := teps[pk].(score := Some(score))];
    }

    /**
     * `TeamName.objects.bulk_create(rows)` without ignoring conflicts, for
     * guest names that are not yet guest names, each on its own team that has
     * no name yet: only a blank name can fail (`team_name_not_blank`).
     */
    method BulkInsertGuestNames(rows: seq<TeamName>) returns (r: Result<()>)
      requires Valid() && GuestRowsFit(teamNames, teams, rows)
      modifies this`teamNames, this`nextPk
      ensures Valid()
      ensures r.Err? <==> exists i :: 0 <= i < |rows| && rows[i].name == ""
      ensures r.Err? ==> r.error == IntegrityError && teamNames == old(teamNames) && nextPk == old(nextPk)
      ensures r.Ok? ==> AppendedAt(old(teamNames), teamNames, old(nextPk), rows, |rows|) && nextPk == old(nextPk) + |rows|
    {
      if exists i :: 0 <= i < |rows| && rows[i].name == "" {
        return Err(IntegrityError);
      }
      for i := 0 to |rows|
        invariant Valid()
        invariant nextPk == old(nextPk) + i
        invariant KeysBelow(old(teamNames).Keys, old(nextPk))
        invariant AppendedAt(old(teamNames), teamNames, old(nextPk), rows, i)
      {
        ghost var mid := teamNames;
        GuestRowFits(old(teamNames), teamNames, teams, old(nextPk), rows, i);
        var res := InsertTeamName(rows[i], false);
        AppendedStep(old(teamNames), mid, teamNames, old(nextPk), rows, i);
      }
      r := Ok(());
    }

    /** `event.delete()`: its participations go with it (`on_delete=CASCADE`). */
    method DeleteEvent(pk: Pk)
      requires Valid() && pk in events
      modifies this`events, this`teps
      ensures Valid()
      ensures events == old(events) - {pk}
      ensures teps == WithoutEvent(old(teps), pk)
    {
      DeleteEventKeepsValid(events, teps, teams, teamNames, nextPk, pk);
      events := events - {pk};
      teps := WithoutEvent(teps, pk);
    }
  }
}
