/**
 * Game resolution: the keys and rows the games step derives from a scraped
 * page, the lookup it reads back from the games table, and how a scraped
 * event is matched to one of the venue's games through that lookup.
 */
module Matching {
  import opened Wrappers
  import opened Chrono
  import opened Records
  import opened Schema

  /** A game lookup key: the game type's name and the weekday, None for a custom game. */
  type GameKey = (string, Option<int>)

  function KeyOfGame(g: Game): GameKey {
    (g.gameType, g.day)
  }

  /**
   * `_match_game_to_event(t, d)`: the lookup's entry for (t, d), else its entry
   * for the custom game (t, None), else KeyError.
   */
  function MatchGame(lookup: map<GameKey, Pk>, gameType: string, day: int): (r: Result<Pk>)
    ensures r.Ok? <==> (gameType, Some(day)) in lookup || (gameType, None) in lookup
    ensures r.Ok? ==> r.value in lookup.Values
    ensures r.Err? ==> r.error == KeyError
  {
    if (gameType, Some(day)) in lookup then Ok(lookup[(gameType, Some(day))])
    else if (gameType, None) in lookup then Ok(lookup[(gameType, None)])
    else Err(KeyError)
  }

  /** Every entry of the lookup is a game whose type and day are the entry's key. */
  ghost predicate LookupFaithful(lookup: map<GameKey, Pk>, games: map<Pk, Game>) {
    forall k :: k in lookup ==> lookup[k] in games && KeyOfGame(games[lookup[k]]) == k
  }

  /**
   * Matching never returns a game of another type; it returns a game on the
   * event's weekday or a custom game, and a custom game only when no official
   * game of that type and day is in the lookup.
   */
  lemma MatchedGameFits(lookup: map<GameKey, Pk>, games: map<Pk, Game>, gameType: string, day: int)
    requires LookupFaithful(lookup, games)
    requires MatchGame(lookup, gameType, day).Ok?
    ensures MatchGame(lookup, gameType, day).value in games
    ensures games[MatchGame(lookup, gameType, day).value].gameType == gameType
    ensures games[MatchGame(lookup, gameType, day).value].day in {Some(day), None}
    ensures games[MatchGame(lookup, gameType, day).value].day.None? ==> (gameType, Some(day)) !in lookup
  {
    var k := if (gameType, Some(day)) in lookup then (gameType, Some(day)) else (gameType, None);
    assert MatchGame(lookup, gameType, day).value == lookup[k];
    assert KeyOfGame(games[lookup[k]]) == k;
  }

  /** The three matching cases of the service tests. */
  lemma MatchGameExamples(official: Pk, custom: Pk)
    ensures MatchGame(map[("Official Game", Some(2)) := official], "Official Game", 2) == Ok(official)
    ensures MatchGame(map[("Custom Game", None) := custom], "Custom Game", 3) == Ok(custom)
    ensures MatchGame(map[("Custom Game", None) := custom], "Different Game", 4) == Err(KeyError)
  {
  }

  // ---------------------------------------------------------------- what the games step derives from a page

  /** The venue's official games as rows of the games table. */
  function OfficialRows(venue: VenueData, url: Url): set<Game> {
    set g | g in venue.games :: Game(g.gameType, Some(g.day), Some(g.time), url)
  }

  /** The (type, day) pairs of the official games. */
  function OfficialKeys(venue: VenueData): set<(string, int)> {
    set g | g in venue.games :: (g.gameType, g.day as int)
  }

  /** The types of the scraped events whose (type, weekday) is not an official game. */
  function CustomTypes(page: PageData): set<string> {
    set e | e in page.eventData && (e.gameType, Weekday(e.date)) !in OfficialKeys(page.venueData) :: e.gameType
  }

  /** One custom game row (no day, no time) per custom type. */
  function CustomRows(types: set<string>, url: Url): set<Game> {
    set t | t in types :: Game(t, None, None, url)
  }

  /** Every game type named on the page, official or custom. */
  function GameTypeNames(page: PageData): set<string> {
    (set g | g in page.venueData.games :: g.gameType) + (set e | e in page.eventData :: e.gameType)
  }

  /**
   * The read-back query has no condition at all: the page has no official
   * game and no custom game type (so, no event either).
   */
  predicate NoConditions(page: PageData) {
    page.venueData.games == [] && CustomTypes(page) == {}
  }

  /** The stored games that are the page's official rows or its custom rows at `url`. */
  function VenueGames(games: map<Pk, Game>, page: PageData, url: Url): (sel: set<Pk>)
    ensures sel <= games.Keys
    ensures forall p :: p in sel ==> games[p].venue == url
  {
    set p | p in games && (games[p] in OfficialRows(page.venueData, url)
                           || games[p] in CustomRows(CustomTypes(page), url))
  }

  /**
   * The games the read-back query selects. Its conditions are OR-ed onto an
   * empty `Q()`, which filters nothing: a page without conditions selects
   * every game of every venue.
   */
  function SelectedGames(games: map<Pk, Game>, page: PageData, url: Url): (sel: set<Pk>)
    ensures sel <= games.Keys
    ensures NoConditions(page) ==> sel == games.Keys
    ensures !NoConditions(page) ==> forall p :: p in sel ==> games[p].venue == url
    ensures forall p :: p in games && games[p] in OfficialRows(page.venueData, url) + CustomRows(CustomTypes(page), url) ==> p in sel
  {
    if NoConditions(page) then games.Keys else VenueGames(games, page, url)
  }

  /** Two selected games share a lookup key: the case that raises NotImplementedError. */
  ghost predicate Ambiguous(games: map<Pk, Game>, sel: set<Pk>)
    requires sel <= games.Keys
  {
    exists p, q :: p in sel && q in sel && p != q && KeyOfGame(games[p]) == KeyOfGame(games[q])
  }

  /** `lookup` holds exactly the keys of the selected games, each mapped to a game with that key. */
  ghost predicate LookupOf(lookup: map<GameKey, Pk>, games: map<Pk, Game>, sel: set<Pk>)
    requires sel <= games.Keys
  {
    && (forall k :: k in lookup ==> lookup[k] in sel && KeyOfGame(games[lookup[k]]) == k)
    && (forall p :: p in sel ==> KeyOfGame(games[p]) in lookup)
  }

  /** Every scraped event is matched by the lookup. */
  ghost predicate AllMatch(lookup: map<GameKey, Pk>, events: seq<EventData>) {
    forall e :: e in events ==> MatchGame(lookup, e.gameType, Weekday(e.date)).Ok?
  }

  /** The game a scraped event is matched to. */
  function MatchedPk(lookup: map<GameKey, Pk>, e: EventData): Pk
    requires MatchGame(lookup, e.gameType, Weekday(e.date)).Ok?
  {
    MatchGame(lookup, e.gameType, Weekday(e.date)).value
  }

  /**
   * Once the page's official and custom rows are all in the games table, the
   * lookup read back from them matches every scraped event: the KeyError of
   * `_match_game_to_event` cannot occur later in the same push.
   */
  lemma {:induction false} LookupCoversEvents(lookup: map<GameKey, Pk>, games: map<Pk, Game>, page: PageData, url: Url)
    requires OfficialRows(page.venueData, url) <= games.Values
    requires CustomRows(CustomTypes(page), url) <= games.Values
    requires LookupOf(lookup, games, SelectedGames(games, page, url))
    ensures AllMatch(lookup, page.eventData)
  {
    var sel := SelectedGames(games, page, url);
    forall e | e in page.eventData
      ensures MatchGame(lookup, e.gameType, Weekday(e.date)).Ok?
    {
      var w := Weekday(e.date);
      if (e.gameType, w) in OfficialKeys(page.venueData) {
        var g :| g in page.venueData.games && (g.gameType, g.day as int) == (e.gameType, w);
        var row := Game(g.gameType, Some(g.day), Some(g.time), url);
        assert row in OfficialRows(page.venueData, url);
        var p :| p in games && games[p] == row;
        assert p in sel;
        assert KeyOfGame(games[p]) == (e.gameType, Some(w));
      } else {
        assert e.gameType in CustomTypes(page);
        var row := Game(e.gameType, None, None, url);
        assert row in CustomRows(CustomTypes(page), url);
        var p :| p in games && games[p] == row;
        assert p in sel;
        assert KeyOfGame(games[p]) == (e.gameType, None);
      }
    }
  }

  /**
   * A lookup read back from the selected games is faithful. With conditions,
   * all its games are at the venue; without, it has the key of every stored
   * game of every venue.
   */
  lemma SelectedLookupFaithful(lookup: map<GameKey, Pk>, games: map<Pk, Game>, page: PageData, url: Url)
    requires LookupOf(lookup, games, SelectedGames(games, page, url))
    ensures LookupFaithful(lookup, games)
    ensures !NoConditions(page) ==> forall k :: k in lookup ==> games[lookup[k]].venue == url
    ensures NoConditions(page) ==> forall p :: p in games ==> KeyOfGame(games[p]) in lookup
  {
  }

  /** A scraped page with no games and no events. */
  function EmptyPage(): PageData {
    PageData(VenueData("Quiz Bar", []), [])
  }

  /** Two other venues, each with a "Trivia" game on Tuesday. */
  function TwoVenuesTrivia(): map<Pk, Game> {
    map[1 := Game("Trivia", Some(1), Some(Time(19, 0)), "a"), 2 := Game("Trivia", Some(1), Some(Time(20, 0)), "b")]
  }

  /**
   * As written, the empty page reads back the other venues' games and finds
   * two under ("Trivia", Tuesday): NotImplementedError. Its own games, which
   * are none, are not ambiguous.
   */
  lemma EmptyPageReadsEveryVenue()
    ensures NoConditions(EmptyPage())
    ensures Ambiguous(TwoVenuesTrivia(), SelectedGames(TwoVenuesTrivia(), EmptyPage(), "c"))
    ensures VenueGames(TwoVenuesTrivia(), EmptyPage(), "c") == {}
  {
    var games := TwoVenuesTrivia();
    assert 1 in games && 2 in games && KeyOfGame(games[1]) == KeyOfGame(games[2]);
    assert VenueGames(games, EmptyPage(), "c") == {};
  }

  /**
   * The read-back restricted to the venue's own rows: its lookup is faithful,
   * holds only games of the venue, and is empty for a page without conditions.
   */
  lemma VenueLookupFaithful(lookup: map<GameKey, Pk>, games: map<Pk, Game>, page: PageData, url: Url)
    requires LookupOf(lookup, games, VenueGames(games, page, url))
    ensures LookupFaithful(lookup, games)
    ensures forall k :: k in lookup ==> games[lookup[k]].venue == url
    ensures NoConditions(page) ==> lookup == map[]
  {
    if NoConditions(page) {
      assert VenueGames(games, page, url) == {};
    }
  }
}
