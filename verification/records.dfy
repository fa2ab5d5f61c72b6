/**
 * The scrape record types: the immutable values an extractor produces for one
 * venue page, with the range checks their constructors perform. A value of
 * these datatypes always satisfies the checks (the ranges are subset types);
 * `NewGameData` and `NewTeamData` are the checked constructors.
 */
module Records {
  import opened Wrappers
  import opened Chrono

  /** A weekday number, 0 (Monday) to 6 (Sunday). */
  type Day = d: int | 0 <= d <= 6

  /** A team's score; -1 marks a score still pending. */
  type Score = s: int | -1 <= s <= 112

  /** One of the venue's official recurring games. */
  datatype GameData = GameData(gameType: string, day: Day, time: Time)

  datatype VenueData = VenueData(name: string, games: seq<GameData>)

  /** A team's appearance in one scraped recap; `teamId` is None for a guest team. */
  datatype TeamData = TeamData(teamId: Option<nat>, name: string, score: Score)

  datatype EventData = EventData(
    date: Date,
    gameType: string,
    quizmaster: string,
    description: Option<string>,
    teams: seq<TeamData>)

  datatype PageData = PageData(venueData: VenueData, eventData: seq<EventData>)

  /** `GameData(type, day, time)`: raises ValueError unless 0 <= day <= 6. */
  function NewGameData(gameType: string, day: int, time: Time): (r: Result<GameData>)
    ensures r.Ok? <==> 0 <= day <= 6
    ensures r.Ok? ==> r.value.gameType == gameType && r.value.day == day && r.value.time == time
    ensures r.Err? ==> r.error == ValueError
  {
    if !(0 <= day <= 6) then Err(ValueError) else Ok(GameData(gameType, day, time))
  }

  /**
   * `TeamData(team_id, name, score)`: raises ValueError for a negative team
   * id (None and 0 are accepted) or a score outside -1..112.
   */
  function NewTeamData(teamId: Option<int>, name: string, score: int): (r: Result<TeamData>)
    ensures r.Ok? <==> (teamId.None? || teamId.value >= 0) && -1 <= score <= 112
    ensures r.Ok? ==> r.value.name == name && r.value.score == score
    ensures r.Ok? ==> (r.value.teamId.Some? <==> teamId.Some?)
    ensures r.Ok? && teamId.Some? ==> r.value.teamId.value == teamId.value
    ensures r.Err? ==> r.error == ValueError
  {
    if teamId.Some? && teamId.value < 0 then Err(ValueError)
    else if !(-1 <= score <= 112) then Err(ValueError)
    else Ok(TeamData(if teamId.Some? then Some(teamId.value as nat) else None, name, score))
  }

  /** The boundary cases of the team checks. */
  lemma TeamDataBoundaries()
    ensures NewTeamData(None, "A", -1).Ok? && NewTeamData(Some(0), "A", 112).Ok?
    ensures NewTeamData(Some(-1), "A", 0) == Err(ValueError)
    ensures NewTeamData(None, "A", 113) == Err(ValueError)
    ensures NewTeamData(None, "A", -2) == Err(ValueError)
  {
  }
}
