/**
 * The relational schema the reconciliation engine writes: one datatype per
 * row, the uniqueness and check constraints the database enforces, what an
 * insert conflicts with, and the display strings of the models.
 *
 * Rows with a unique, never-renamed natural key are identified by it: a venue
 * by its URL, a game type and a quizmaster by their names. All other rows live
 * in tables keyed by primary key.
 */
module Schema {
  import opened Wrappers
  import opened Chrono
  import opened Text

  type Pk = nat
  type Url = string

  datatype Venue = Venue(name: string, lastScrapedAt: Option<Instant>)

  /** An official game has a day and a time; a custom game has neither. */
  datatype Game = Game(gameType: string, day: Option<int>, time: Option<Time>, venue: Url)

  /** `quizmaster` is declared non-null but placeholders are created without one. */
  datatype Event = Event(
    game: Pk,
    date: Date,
    endDatetime: Option<Instant>,
    description: Option<string>,
    quizmaster: Option<string>,
    theme: Option<Pk>)

  /** `teamId` is the venue system's id; None for a guest team. */
  datatype Team = Team(teamId: Option<nat>)

  datatype TeamName = TeamName(name: string, team: Pk, guest: bool)

  /** A team's participation in an event; `score` None means not yet known. */
  datatype TeamEventParticipation = Tep(
    team: Pk,
    teamName: Pk,
    event: Pk,
    score: Option<int>,
    table: Option<Pk>)

  /** Some row of `t` has unique key `k`. */
  predicate HasKey<R, K(==)>(t: map<Pk, R>, key: R -> K, k: K) {
    exists p :: p in t && key(t[p]) == k
  }

  /** The unique key of each table that an insert is checked against. */
  function GameRow(g: Game): Game { g }
  function EventKey(e: Event): (Pk, Date) { (e.game, e.date) }
  function TeamIdKey(t: Team): Option<nat> { t.teamId }
  function NameKey(n: TeamName): (string, Pk) { (n.name, n.team) }
  function TepKey(t: TeamEventParticipation): (Pk, Pk) { (t.team, t.event) }

  // ---------------------------------------------------------------- Game

  /** `day_range_0_to_6` and `day_time_both_null_or_notnull`. */
  predicate GameRowOk(g: Game) {
    && (g.day.None? || 0 <= g.day.value <= 6)
    && (g.day.None? <==> g.time.None?)
  }

  /** `unique_official_game`: (game_type, day, time, venue) where day is not null. */
  predicate OfficialGamesUnique(games: map<Pk, Game>) {
    forall p, q :: p in games && q in games && p != q && games[p].day.Some? && games[q].day.Some? ==>
      (games[p].gameType, games[p].day, games[p].time, games[p].venue)
        != (games[q].gameType, games[q].day, games[q].time, games[q].venue)
  }

  /** `unique_unofficial_game`: (game_type, venue) where day is null. */
  predicate CustomGamesUnique(games: map<Pk, Game>) {
    forall p, q :: p in games && q in games && p != q && games[p].day.None? && games[q].day.None? ==>
      (games[p].gameType, games[p].venue) != (games[q].gameType, games[q].venue)
  }

  predicate GamesValid(games: map<Pk, Game>) {
    && (forall p :: p in games ==> GameRowOk(games[p]))
    && OfficialGamesUnique(games)
    && CustomGamesUnique(games)
  }

  /** Would inserting `g` violate one of the two uniqueness constraints? */
  predicate GameConflicts(games: map<Pk, Game>, g: Game) {
    exists p :: p in games &&
      ((g.day.Some? && games[p].day.Some? &&
        (games[p].gameType, games[p].day, games[p].time, games[p].venue) == (g.gameType, g.day, g.time, g.venue))
       || (g.day.None? && games[p].day.None? &&
        (games[p].gameType, games[p].venue) == (g.gameType, g.venue)))
  }

  /**
   * Because a game's unique key covers every column of the row, the two
   * conditional constraints together say exactly that no row appears twice.
   */
  lemma GamesValidIffDistinct(games: map<Pk, Game>)
    requires forall p :: p in games ==> GameRowOk(games[p])
    ensures GamesValid(games) <==> forall p, q :: p in games && q in games && p != q ==> games[p] != games[q]
  {
  }

  /** ... and an insert conflicts exactly when the same row is already there. */
  lemma GameConflictIsPresence(games: map<Pk, Game>, g: Game)
    requires GamesValid(games) && GameRowOk(g)
    ensures GameConflicts(games, g) <==> g in games.Values
  {
    if g in games.Values {
      var p :| p in games && games[p] == g;
      assert GameConflicts(games, g);
    }
  }

  // ---------------------------------------------------------------- Event

  /** `unique_game_date_event`. */
  predicate EventsUnique(events: map<Pk, Event>) {
    forall p, q :: p in events && q in events && p != q ==>
      (events[p].game, events[p].date) != (events[q].game, events[q].date)
  }

  /** The primary key of the one event of `game` on `date`. */
  function EventAt(events: map<Pk, Event>, game: Pk, date: Date): (p: Pk)
    requires EventsUnique(events) && HasKey(events, EventKey, (game, date))
    ensures p in events && events[p].game == game && events[p].date == date
  {
    var p :| p in events && EventKey(events[p]) == (game, date);
    p
  }

  /**
   * The dates of the events held at the venue `url` (Event filtered on
   * `game__venue__url`); with `resolved`, only those with a quizmaster.
   */
  function VenueEventDates(games: map<Pk, Game>, events: map<Pk, Event>, url: Url, resolved: bool): set<Date> {
    set p | p in events && events[p].game in games && games[events[p].game].venue == url
            && (resolved ==> events[p].quizmaster.Some?) :: events[p].date
  }

  // ---------------------------------------------------------------- Team

  /** `team_id` is unique among the teams that have one. */
  predicate TeamIdsUnique(teams: map<Pk, Team>) {
    forall p, q :: p in teams && q in teams && p != q && teams[p].teamId.Some? ==>
      teams[p].teamId != teams[q].teamId
  }

  /** The primary key of the team with external id `id`. */
  function TeamWithId(teams: map<Pk, Team>, id: nat): (p: Pk)
    requires TeamIdsUnique(teams) && HasKey(teams, TeamIdKey, Some(id))
    ensures p in teams && teams[p].teamId == Some(id)
  {
    var p :| p in teams && TeamIdKey(teams[p]) == Some(id);
    p
  }

  // ---------------------------------------------------------------- TeamName

  /**
   * `unique_team_name` (name, team), `unique_guest_team_name` (name, among
   * guest rows), `guest_team_single_name` (team, among guest rows) and
   * `team_name_not_blank`.
   */
  predicate TeamNamesValid(names: map<Pk, TeamName>) {
    && (forall p :: p in names ==> names[p].name != "")
    && (forall p, q :: p in names && q in names && p != q ==>
          && (names[p].name, names[p].team) != (names[q].name, names[q].team)
          && (names[p].guest && names[q].guest ==> names[p].name != names[q].name)
          && (names[p].guest && names[q].guest ==> names[p].team != names[q].team))
  }

  /** Would inserting `n` violate one of the three uniqueness constraints? */
  predicate TeamNameConflicts(names: map<Pk, TeamName>, n: TeamName) {
    exists p :: p in names &&
      ((names[p].name, names[p].team) == (n.name, n.team)
       || (n.guest && names[p].guest && (names[p].name == n.name || names[p].team == n.team)))
  }

  /** The primary key of `team`'s name row `name`. */
  function NameOf(names: map<Pk, TeamName>, team: Pk, name: string): (p: Pk)
    requires TeamNamesValid(names) && HasKey(names, NameKey, (name, team))
    ensures p in names && names[p].team == team && names[p].name == name
  {
    var p :| p in names && NameKey(names[p]) == (name, team);
    p
  }

  predicate HasGuestName(names: map<Pk, TeamName>, name: string) {
    exists p :: p in names && names[p].guest && names[p].name == name
  }

  /** `team` carries the guest name `name`. */
  predicate GuestNameOn(names: map<Pk, TeamName>, name: string, team: Pk) {
    exists p :: p in names && names[p].guest && names[p].name == name && names[p].team == team
  }

  /** The team that owns the guest name `name`. */
  function GuestTeamNamed(names: map<Pk, TeamName>, name: string): (t: Pk)
    requires TeamNamesValid(names) && HasGuestName(names, name)
    ensures exists p :: p in names && names[p].guest && names[p].name == name && names[p].team == t
  {
    var p :| p in names && names[p].guest && names[p].name == name;
    names[p].team
  }

  // ---------------------------------------------------------------- TeamEventParticipation

  /** `unique_team_event_participation` and `valid_score` (-1..112 when present). */
  predicate TepsValid(teps: map<Pk, TeamEventParticipation>) {
    && (forall p :: p in teps && teps[p].score.Some? ==> -1 <= teps[p].score.value <= 112)
    && (forall p, q :: p in teps && q in teps && p != q ==>
          (teps[p].team, teps[p].event) != (teps[q].team, teps[q].event))
  }


  // ---------------------------------------------------------------- Round

  datatype Round = Round(number: int, name: string)

  /** `number` and `name` unique, `round_number_1_to_7`, `round_name_not_blank`. */
  predicate RoundsValid(rounds: map<Pk, Round>) {
    && (forall p :: p in rounds ==> 1 <= rounds[p].number <= 7 && rounds[p].name != "")
    && (forall p, q :: p in rounds && q in rounds && p != q ==>
          rounds[p].number != rounds[q].number && rounds[p].name != rounds[q].name)
  }

  function RoundNumbers(rounds: map<Pk, Round>): set<int> {
    set p | p in rounds :: rounds[p].number
  }

  lemma {:induction false} DistinctNumbersCount(rounds: map<Pk, Round>)
    requires forall p, q :: p in rounds && q in rounds && p != q ==> rounds[p].number != rounds[q].number
    ensures |RoundNumbers(rounds)| == |rounds|
    decreases |rounds|
  {
    if rounds != map[] {
      var k :| k in rounds;
      var rest := rounds - {k};
      DistinctNumbersCount(rest);
      forall n | n in RoundNumbers(rounds)
        ensures n in RoundNumbers(rest) + {rounds[k].number}
      {
        var p :| p in rounds && rounds[p].number == n;
        if p != k {
          assert p in rest;
        }
      }
      assert RoundNumbers(rounds) == RoundNumbers(rest) + {rounds[k].number};
      assert rounds[k].number !in RoundNumbers(rest);
      assert |rest| == |rounds| - 1;
    }
  }

  /** The round constraints leave room for at most seven rounds. */
  lemma AtMostSevenRounds(rounds: map<Pk, Round>)
    requires RoundsValid(rounds)
    ensures |rounds| <= 7
  {
    DistinctNumbersCount(rounds);
    var seven := {1, 2, 3, 4, 5, 6, 7};
    assert RoundNumbers(rounds) <= seven;
    assert |seven| == 7;
    assert |RoundNumbers(rounds)| <= |seven| by {
      SubsetCard(RoundNumbers(rounds), seven);
    }
  }

  lemma SubsetCard(a: set<int>, b: set<int>)
    requires a <= b
    ensures |a| <= |b|
  {
    assert b == a + (b - a);
  }

  // ---------------------------------------------------------------- display strings

  /**
   * `Team.__str__`: "<team_id or 'Guest'> | <first name in name order>", the
   * name cut to 97 characters plus "..." when longer than 100; ValueError
   * when the team has no names.
   */
  function TeamStr(team: Team, names: set<string>): (r: Result<string>)
    ensures r.Err? <==> names == {}
    ensures r.Err? ==> r.error == ValueError
    ensures r.Ok? ==> (exists n :: n in names && (forall m :: m in names && m != n ==> Below(n, m))
                         && r.value == (if team.teamId.Some? then NatText(team.teamId.value) else "Guest") + " | " + Truncate(n))
  {
    var account := if team.teamId.Some? then NatText(team.teamId.value) else "Guest";
    if names == {} then Err(ValueError)
    else Ok(account + " | " + Truncate(Least(names)))
  }

  /** The display cases exercised by the model tests. */
  lemma TeamStrExamples()
    ensures TeamStr(Team(Some(5678)), {"Test Team"}) == Ok("5678 | Test Team")
    ensures TeamStr(Team(None), {"Guest Team"}) == Ok("Guest | Guest Team")
    ensures TeamStr(Team(Some(1)), {}) == Err(ValueError)
  {
    assert NatText(5678) == "5678" by {
      assert DigitChar(5) == '5' && DigitChar(6) == '6' && DigitChar(7) == '7' && DigitChar(8) == '8';
      assert NatText(5) == "5";
      assert NatText(56) == NatText(5) + ['6'];
      assert NatText(567) == NatText(56) + ['7'];
    }
    assert Least({"Test Team"}) == "Test Team";
    assert "5678" + " | " + "Test Team" == "5678 | Test Team";
    assert Least({"Guest Team"}) == "Guest Team";
    assert "Guest" + " | " + "Guest Team" == "Guest | Guest Team";
  }

  /** A 300-character name shows as its first 97 characters and "...". */
  lemma TeamStrLongName(name: string)
    requires |name| == 300
    ensures TeamStr(Team(Some(1)), {name}) == Ok("1 | " + name[..97] + "...")
  {
    assert Least({name}) == name;
    assert DigitChar(1) == '1';
    assert NatText(1) == "1";
    assert "1" + " | " + (name[..97] + "...") == "1 | " + name[..97] + "...";
  }

  /** `Glossary.__str__`: "<acronym> | <definition>", long definitions cut to 97 + "...". */
  function GlossaryStr(acronym: string, definition: string): (r: string)
    ensures |definition| <= 100 ==> r == acronym + " | " + definition
    ensures |definition| > 100 ==> r == acronym + " | " + definition[..97] + "..."
    ensures |r| <= |acronym| + 3 + 100
  {
    acronym + " | " + Truncate(definition)
  }

  /**
   * `Table.__str__`: the name when it is set and non-empty, else Python's
   * `str()` of the table number, its canonical decimal digits.
   */
  function TableStr(tableId: nat, name: Option<string>): (r: string)
    ensures name.Some? && name.value != "" ==> r == name.value
    ensures !(name.Some? && name.value != "") ==>
      && 1 <= |r| && AllDigits(r) && (|r| > 1 ==> r[0] != '0') && DigitsValue(r) == tableId
      && ParseInt(r) == Some(tableId as int)
  {
    if name.Some? && name.value != "" then name.value
    else
      NatTextRoundTrip(tableId);
      IntTextRoundTrip(tableId);
      NatText(tableId)
  }

  const DayNames: seq<string> := ["Monday", "Tuesday", "Wednesday", "Thursday", "Friday", "Saturday", "Sunday"]

  /** Python's `str(time)`: HH:MM:SS. */
  function TimeText(t: Time): (r: string)
    ensures |r| == 8
  {
    Pad2(t.hour) + ":" + Pad2(t.minute) + ":00"
  }

  /**
   * `Game.__str__`: "<venue> | <type>", followed for an official game by
   * ", <Dayname>s at <HH:MM:SS>"; a custom game's string ends with its type.
   */
  function GameStr(venueName: string, typeName: string, g: Game): (r: string)
    requires GameRowOk(g)
    ensures |venueName| + 3 + |typeName| <= |r|
    ensures r[..|venueName| + 3 + |typeName|] == venueName + " | " + typeName
    ensures g.day.None? <==> |r| == |venueName| + 3 + |typeName|
  {
    venueName + " | " + typeName +
      (if g.day.Some? then ", " + DayNames[g.day.value] + "s at " + TimeText(g.time.value) else "")
  }

  /** Two equal concatenations whose tails have the same length agree part by part. */
  lemma SplitEqual(a: string, b: string, c: string, d: string)
    requires a + b == c + d && |b| == |d|
    ensures a == c && b == d
  {
    assert a == (a + b)[..|a|] && c == (c + d)[..|c|];
    assert b == (a + b)[|a|..] && d == (c + d)[|c|..];
  }

  /** Equal times print alike only when they are the same time. */
  lemma TimeTextInjective(t1: Time, t2: Time)
    requires TimeText(t1) == TimeText(t2)
    ensures t1 == t2
  {
    var a, b := TimeText(t1), TimeText(t2);
    assert a[0] == b[0] && a[1] == b[1] && a[3] == b[3] && a[4] == b[4];
    assert t1.hour / 10 == t2.hour / 10 && t1.hour % 10 == t2.hour % 10;
    assert t1.minute / 10 == t2.minute / 10 && t1.minute % 10 == t2.minute % 10;
  }

  /** No day name has a comma or a space, and no two day names are equal. */
  lemma DayNamesPlain()
    ensures forall d, i :: 0 <= d < 7 && 0 <= i < |DayNames[d]| ==> DayNames[d][i] != ',' && DayNames[d][i] != ' '
    ensures forall d, e :: 0 <= d < 7 && 0 <= e < 7 && d != e ==> DayNames[d] != DayNames[e]
  {
    forall d, e | 0 <= d < 7 && 0 <= e < 7 && d != e
      ensures DayNames[d] != DayNames[e]
    {
      assert DayNames[d][0] != DayNames[e][0] || DayNames[d][1] != DayNames[e][1];
    }
  }

  /** The comma of ", " before a final word `a`, counted from the end. */
  lemma CommaBeforeLast(x: string, a: string)
    ensures (x + ", " + a)[|x + ", " + a| - |a| - 2] == ','
    ensures (x + ", " + a)[|x + ", " + a| - |a| - 1] == ' '
    ensures forall i :: |x| + 2 <= i < |x + ", " + a| ==> (x + ", " + a)[i] == a[i - |x| - 2]
  {
  }

  /** Two strings ending in ", " and a word without commas or spaces end in the same word. */
  lemma {:induction false} CommaTail(x: string, y: string, a: string, b: string)
    requires x + ", " + a == y + ", " + b
    requires forall i :: 0 <= i < |a| ==> a[i] != ',' && a[i] != ' '
    requires forall i :: 0 <= i < |b| ==> b[i] != ',' && b[i] != ' '
    ensures x == y && a == b
  {
    if |a| != |b| {
      CommaBeforeLast(x, a);
      CommaBeforeLast(y, b);
      assert false;
    } else {
      SplitEqual(x + ", ", a, y + ", ", b);
      SplitEqual(x, ", ", y, ", ");
    }
  }

  /** ", <Dayname>" at the end of a string tells which day it names, and what precedes it. */
  lemma DaySuffixInjective(x: string, y: string, d1: int, d2: int)
    requires 0 <= d1 < 7 && 0 <= d2 < 7
    requires x + ", " + DayNames[d1] == y + ", " + DayNames[d2]
    ensures d1 == d2 && x == y
  {
    DayNamesPlain();
    CommaTail(x, y, DayNames[d1], DayNames[d2]);
  }

  /** An official game's string, in the parts the injectivity proof peels off. */
  lemma OfficialGameStrParts(venueName: string, typeName: string, g: Game)
    requires GameRowOk(g) && g.day.Some?
    ensures GameStr(venueName, typeName, g)
      == (venueName + " | ") + (((typeName + ", " + DayNames[g.day.value]) + "s at ") + TimeText(g.time.value))
  {
    var v, t, d, tt := venueName + " | ", typeName, ", " + DayNames[g.day.value], TimeText(g.time.value);
    assert GameStr(venueName, typeName, g) == v + t + (d + "s at " + tt);
    SeqAssoc4(v, t, d, "s at ", tt);
  }

  /** Regrouping a concatenation of five strings. */
  lemma SeqAssoc4(v: string, t: string, d: string, m: string, tt: string)
    ensures v + t + (d + m + tt) == v + (((t + d) + m) + tt)
  {
  }

  /**
   * The strings of two official games of one venue are equal only when the
   * games have the same type, day and time: under `unique_official_game`,
   * only when they are the same game.
   */
  lemma {:induction false} OfficialGameStrInjective(venueName: string, t1: string, g1: Game, t2: string, g2: Game)
    requires GameRowOk(g1) && GameRowOk(g2) && g1.day.Some? && g2.day.Some?
    requires GameStr(venueName, t1, g1) == GameStr(venueName, t2, g2)
    ensures t1 == t2 && g1.day == g2.day && g1.time == g2.time
  {
    var tt1, tt2 := TimeText(g1.time.value), TimeText(g2.time.value);
    var w1, w2 := t1 + ", " + DayNames[g1.day.value], t2 + ", " + DayNames[g2.day.value];
    OfficialGameStrParts(venueName, t1, g1);
    OfficialGameStrParts(venueName, t2, g2);
    SplitEqual(venueName + " | ", (w1 + "s at ") + tt1, venueName + " | ", (w2 + "s at ") + tt2);
    SplitEqual(w1 + "s at ", tt1, w2 + "s at ", tt2);
    TimeTextInjective(g1.time.value, g2.time.value);
    SplitEqual(w1, "s at ", w2, "s at ");
    DaySuffixInjective(t1, t2, g1.day.value, g2.day.value);
  }
}
