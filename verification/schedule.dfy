/**
 * The celery-beat schedule installed for official games: three crontab
 * schedules and three periodic tasks per game (a placeholder event an hour
 * before the game, a scraping window after it, and a re-enable at midnight
 * the day after), created with get-or-create so that syncing twice changes
 * nothing.
 *
 * Crontab fields are the strings the schedule rows store; crontab numbers
 * the days of the week from Sunday = 0, while a game's `day` uses Python's
 * Monday = 0.
 */
module Schedule {
  import opened Wrappers
  import opened Text
  import opened Chrono
  import opened Schema

  /** A `CrontabSchedule` row. */
  datatype Crontab = Crontab(minute: string, hour: string, dayOfWeek: string, dayOfMonth: string, monthOfYear: string)

  /** The JSON keyword arguments each kind of periodic task carries. */
  datatype TaskKwargs =
    | PlaceholderArgs(gamePk: Pk)
    | ScrapeArgs(gamePk: Pk, url: Url, taskName: string)
    | ReenableArgs(gamePk: Pk, taskName: string)

  /** A `PeriodicTask` row; the table is keyed by the task's unique name. */
  datatype PeriodicTask = PeriodicTask(task: string, crontab: Crontab, kwargs: TaskKwargs, enabled: bool)

  /** The two tables of the beat scheduler. */
  datatype BeatState = BeatState(schedules: set<Crontab>, tasks: map<string, PeriodicTask>)

  /** A game handed to `sync`, with the name of its venue (its type is named by `gameType`). */
  datatype SyncedGame = SyncedGame(pk: Pk, game: Game, venueName: string)

  const PlaceholderTaskPath := "scraper.tasks.generate_placeholder_event"
  const ScrapeTaskPath := "scraper.tasks.auto_scrape"
  const ReenableTaskPath := "scraper.tasks.reenable_scraping"

  /** The `scrape_interval` `sync` is called with by default, in minutes. */
  const DefaultInterval := 2

  /** The latest start that still gets a scraping window: 21:30 is refused. */
  const LatestStart := Time(21, 30)

  // ---------------------------------------------------------------- crontab fields

  /** Crontab's day of the week of date `d`: Sunday is 0 (0001-01-01, day 1, was a Monday). */
  function CronWeekday(d: Date): (w: int)
    ensures 0 <= w <= 6
  {
    d % 7
  }

  /** Adding one to Python's weekday gives crontab's: the shift `sync` applies. */
  lemma CronWeekdayShift(d: Date)
    ensures CronWeekday(d) == (Weekday(d) + 1) % 7
    ensures CronWeekday(d + 1) == (Weekday(d) + 2) % 7
  {
  }

  /** The index of the first '-' in `s`, or `|s|` when there is none. */
  function DashAt(s: string): (k: nat)
    ensures k <= |s|
    ensures k < |s| ==> s[k] == '-'
    ensures forall i :: 0 <= i < k ==> s[i] != '-'
  {
    if s == [] || s[0] == '-' then 0 else 1 + DashAt(s[1..])
  }

  /** Reads a crontab range "<first>-<last>" of two decimal numbers. */
  function ParseRange(s: string): Option<(nat, nat)> {
    var k := DashAt(s);
    if 0 < k < |s| - 1 && AllDigits(s[..k]) && AllDigits(s[k + 1..]) then
      Some((DigitsValue(s[..k]), DigitsValue(s[k + 1..])))
    else None
  }

  lemma {:induction false} DashAfterDigits(x: string, rest: string)
    requires AllDigits(x)
    ensures DashAt(x + rest) == |x| + DashAt(rest)
    decreases |x|
  {
    if x == [] {
      assert x + rest == rest;
    } else {
      assert (x + rest)[1..] == x[1..] + rest;
      DashAfterDigits(x[1..], rest);
    }
  }

  lemma RangeOfDigits(x: string, y: string)
    requires 1 <= |x| && 1 <= |y| && AllDigits(x) && AllDigits(y)
    ensures ParseRange(x + "-" + y) == Some((DigitsValue(x), DigitsValue(y)))
  {
    var s := x + "-" + y;
    assert s == x + ("-" + y);
    DashAfterDigits(x, "-" + y);
    assert DashAt(s) == |x|;
    assert s[..|x|] == x;
    assert s[|x| + 1..] == y;
  }

  /** A range written as `f"{a}-{b}"` reads back as (a, b). */
  lemma RangeRoundTrip(a: nat, b: nat)
    ensures ParseRange(NatText(a) + "-" + NatText(b)) == Some((a, b))
  {
    RangeOfDigits(NatText(a), NatText(b));
    NatTextRoundTrip(a);
    NatTextRoundTrip(b);
  }

  /**
   * `_generate_crontab_hours`: the hours of the scraping window. It opens at
   * the first whole hour after the game starts and lasts two hours, three
   * when the game starts at half past or later; games from 21:30 on are
   * refused.
   */
  function CrontabHours(t: Time): (r: Result<string>)
    ensures r.Err? <==> !TimeBefore(t, LatestStart)
    ensures r.Err? ==> r.error == NotImplementedError
    ensures r.Ok? ==> ParseRange(r.value).Some?
    ensures r.Ok? ==> var (first, last) := ParseRange(r.value).value;
      && first == t.hour + 1
      && last - first + 1 == (if t.minute < 30 then 2 else 3)
      && last <= 23
  {
    if !TimeBefore(t, LatestStart) then Err(NotImplementedError)
    else
      var last := if t.minute < 30 then t.hour + 2 else t.hour + 3;
      RangeRoundTrip(t.hour + 1, last);
      Ok(NatText(t.hour + 1) + "-" + NatText(last))
  }

  /**
   * The 21:30 cut-off is exactly the condition for the window to fit in the
   * day: any later start would put its last hour past 23.
   */
  lemma CutoffIsTight(t: Time)
    ensures CrontabHours(t).Ok? <==> t.hour + (if t.minute < 30 then 2 else 3) <= 23
  {
  }

  /** The window opens within the hour after the start and runs until two hours after it at least. */
  lemma ScrapeWindowCoversGame(t: Time)
    requires CrontabHours(t).Ok?
    ensures var (first, last) := ParseRange(CrontabHours(t).value).value;
      && 0 < first * 60 - (t.hour * 60 + t.minute) <= 60
      && last * 60 + 59 - (t.hour * 60 + t.minute) >= 120
  {
  }

  lemma CrontabHoursNormal()
    ensures CrontabHours(Time(14, 0)) == Ok("15-16")
  {
    TwoDigits(1, 5);
    TwoDigits(1, 6);
    assert CrontabHours(Time(14, 0)) == Ok(NatText(15) + "-" + NatText(16));
    assert NatText(15) + "-" + NatText(16) == ['1', '5', '-', '1', '6'];
  }

  lemma CrontabHoursBeforeHalf()
    ensures CrontabHours(Time(9, 15)) == Ok("10-11")
  {
    TwoDigits(1, 0);
    TwoDigits(1, 1);
    assert CrontabHours(Time(9, 15)) == Ok(NatText(10) + "-" + NatText(11));
    assert NatText(10) + "-" + NatText(11) == ['1', '0', '-', '1', '1'];
  }

  lemma CrontabHoursAfterHalf()
    ensures CrontabHours(Time(17, 45)) == Ok("18-20")
  {
    TwoDigits(1, 8);
    TwoDigits(2, 0);
    assert CrontabHours(Time(17, 45)) == Ok(NatText(18) + "-" + NatText(20));
    assert NatText(18) + "-" + NatText(20) == ['1', '8', '-', '2', '0'];
  }

  lemma CrontabHoursLatest()
    ensures CrontabHours(Time(21, 15)) == Ok("22-23")
  {
    TwoDigits(2, 2);
    TwoDigits(2, 3);
    assert CrontabHours(Time(21, 15)) == Ok(NatText(22) + "-" + NatText(23));
    assert NatText(22) + "-" + NatText(23) == ['2', '2', '-', '2', '3'];
  }

  lemma CrontabHoursRefusals()
    ensures CrontabHours(Time(21, 30)) == Err(NotImplementedError)
    ensures CrontabHours(Time(21, 45)) == Err(NotImplementedError)
    ensures CrontabHours(Time(22, 0)) == Err(NotImplementedError)
    ensures CrontabHours(Time(23, 45)) == Err(NotImplementedError)
  {
  }

  lemma TwoDigits(a: int, b: int)
    requires 1 <= a <= 9 && 0 <= b <= 9
    ensures NatText(10 * a + b) == [DigitChar(a), DigitChar(b)]
    ensures DigitChar(0) == '0' && DigitChar(1) == '1' && DigitChar(2) == '2' && DigitChar(3) == '3'
    ensures DigitChar(5) == '5' && DigitChar(6) == '6' && DigitChar(8) == '8'
  {
    assert (10 * a + b) / 10 == a && (10 * a + b) % 10 == b;
  }

  // ---------------------------------------------------------------- the three schedules

  /** The placeholder schedule as written: the game's minute, `hour - 1`, on the game's day. */
  function PlaceholderCronAsWritten(day: int, t: Time): Crontab
    requires 0 <= day <= 6
  {
    Crontab(NatText(t.minute), IntText(t.hour - 1), NatText((day + 1) % 7), "*", "*")
  }

  /** A game at 00:xx gets hour field "-1", which is no hour at all. */
  lemma PlaceholderMidnightCounterexample()
    ensures ParseInt(PlaceholderCronAsWritten(0, Time(0, 15)).hour) == Some(-1)
  {
    IntTextRoundTrip(-1);
  }

  /**
   * The placeholder schedule one hour before the game: for a game in the
   * midnight hour that is 23:xx on the previous day.
   */
  function PlaceholderCron(day: int, t: Time): (c: Crontab)
    requires 0 <= day <= 6
    ensures c.minute == NatText(t.minute) && c.dayOfMonth == "*" && c.monthOfYear == "*"
  {
    if t.hour == 0 then Crontab(NatText(t.minute), "23", NatText(day), "*", "*")
    else PlaceholderCronAsWritten(day, t)
  }

  /** Minutes since Sunday 00:00 of a crontab weekday, hour and minute. */
  function WeekMinute(w: int, h: int, m: int): int {
    w * 1440 + h * 60 + m
  }

  /** The numbers the placeholder schedule's fields read back as. */
  lemma PlaceholderFields(day: int, t: Time)
    requires 0 <= day <= 6
    ensures var c := PlaceholderCron(day, t);
      && ParseInt(c.minute) == Some(t.minute as int)
      && ParseInt(c.hour) == Some(if t.hour == 0 then 23 else t.hour - 1)
      && ParseInt(c.dayOfWeek) == Some(if t.hour == 0 then day else (day + 1) % 7)
  {
    IntTextRoundTrip(t.minute);
    if t.hour == 0 {
      IntTextRoundTrip(day);
      TwoDigits(2, 3);
      IntTextRoundTrip(23);
    } else {
      IntTextRoundTrip(t.hour - 1);
      IntTextRoundTrip((day + 1) % 7);
    }
  }

  /**
   * On any date `d` the game is played, the placeholder fires at a valid hour
   * and weekday exactly sixty minutes before the game starts (modulo a week).
   */
  lemma PlaceholderAnHourBefore(day: int, t: Time, d: Date)
    requires 0 <= day <= 6 && Weekday(d) == day
    ensures var c := PlaceholderCron(day, t);
      && ParseInt(c.minute) == Some(t.minute as int)
      && ParseInt(c.hour).Some? && 0 <= ParseInt(c.hour).value <= 23
      && ParseInt(c.dayOfWeek).Some? && 0 <= ParseInt(c.dayOfWeek).value <= 6
      && WeekMinute(ParseInt(c.dayOfWeek).value, ParseInt(c.hour).value, t.minute)
         == (WeekMinute(CronWeekday(d), t.hour, t.minute) - 60) % (7 * 1440)
  {
    PlaceholderFields(day, t);
    CronWeekdayShift(d);
    AnHourEarlier(day, t.hour, t.minute);
  }

  /** The week-minute arithmetic behind the placeholder's hour and weekday. */
  lemma AnHourEarlier(day: int, hour: int, minute: int)
    requires 0 <= day <= 6 && 0 <= hour <= 23 && 0 <= minute <= 59
    ensures var h := if hour == 0 then 23 else hour - 1;
      var v := if hour == 0 then day else (day + 1) % 7;
      WeekMinute(v, h, minute) == (WeekMinute((day + 1) % 7, hour, minute) - 60) % (7 * 1440)
  {
    var before := WeekMinute((day + 1) % 7, hour, minute) - 60;
    if hour == 0 && day == 6 {
      assert before == minute - 60;
    } else if hour == 0 {
      assert before == day * 1440 + 1380 + minute;
    } else {
      assert 0 <= before < 7 * 1440;
    }
  }

  /** The scraping schedule: every `interval` minutes through the window, on the game's day. */
  function ScrapeCron(day: int, interval: int, hours: string): (c: Crontab)
    requires 0 <= day <= 6
    ensures c.hour == hours && c.dayOfMonth == "*" && c.monthOfYear == "*"
  {
    Crontab("*/" + IntText(interval), hours, NatText((day + 1) % 7), "*", "*")
  }

  /** On a date the game is played, the scraping window falls on that same date. */
  lemma ScrapeSameDay(day: int, interval: int, hours: string, d: Date)
    requires 0 <= day <= 6 && Weekday(d) == day
    ensures ParseInt(ScrapeCron(day, interval, hours).dayOfWeek) == Some(CronWeekday(d))
  {
    CronWeekdayShift(d);
    IntTextRoundTrip((day + 1) % 7);
  }

  /** The re-enable schedule: 00:00 at the start of the day after the game. */
  function ReenableCron(day: int): (c: Crontab)
    requires 0 <= day <= 6
    ensures c.minute == "0" && c.hour == "0" && c.dayOfMonth == "*" && c.monthOfYear == "*"
  {
    Crontab("0", "0", NatText((day + 2) % 7), "*", "*")
  }

  lemma ReenableNextDay(day: int, d: Date)
    requires 0 <= day <= 6 && Weekday(d) == day
    ensures ParseInt(ReenableCron(day).dayOfWeek) == Some(CronWeekday(d + 1))
  {
    CronWeekdayShift(d);
    IntTextRoundTrip((day + 2) % 7);
  }

  // ---------------------------------------------------------------- the three tasks

  /** A game `sync` accepts: official, and starting before 21:30. */
  predicate Ready(sg: SyncedGame) {
    && GameRowOk(sg.game)
    && sg.game.day.Some? && sg.game.time.Some?
    && TimeBefore(sg.game.time.value, LatestStart)
  }

  function GameLabel(sg: SyncedGame): string
    requires GameRowOk(sg.game)
  {
    GameStr(sg.venueName, sg.game.gameType, sg.game)
  }

  function PlaceholderName(sg: SyncedGame): string
    requires GameRowOk(sg.game)
  {
    GameLabel(sg) + " - Generate placeholder event"
  }

  /** Also the `task_name` the scrape and re-enable tasks pass on. */
  function ScrapeName(sg: SyncedGame): string
    requires GameRowOk(sg.game)
  {
    GameLabel(sg) + " - Auto scrape"
  }

  function ReenableName(sg: SyncedGame): string
    requires GameRowOk(sg.game)
  {
    GameLabel(sg) + " - Re-enable scraping"
  }

  /** The three task names a game's sync may add. */
  function TaskNames(sg: SyncedGame): set<string>
    requires GameRowOk(sg.game)
  {
    {PlaceholderName(sg), ScrapeName(sg), ReenableName(sg)}
  }

  /** The last character of a string that ends in `s`. */
  lemma LastOfAppend(l: string, s: string)
    requires |s| > 0
    ensures (l + s)[|l + s| - 1] == s[|s| - 1]
  {
  }

  /** Two task names built from labels are equal only with equal labels and the same task suffix. */
  lemma {:induction false} TaskSuffixesDiffer(l1: string, l2: string, s1: string, s2: string)
    requires s1 in {" - Generate placeholder event", " - Auto scrape", " - Re-enable scraping"}
    requires s2 in {" - Generate placeholder event", " - Auto scrape", " - Re-enable scraping"}
    requires l1 + s1 == l2 + s2
    ensures l1 == l2 && s1 == s2
  {
    LastOfAppend(l1, s1);
    LastOfAppend(l2, s2);
    if s1 != s2 {
      assert false;
    }
    SplitEqual(l1, s1, l2, s2);
  }

  /**
   * A task name identifies its game among the official games of one venue:
   * two such games that share a task name have the same type, day and time,
   * so under `unique_official_game` they are the same game and `sync` never
   * finds another game's task under one of a game's names.
   */
  lemma TaskNamesIdentifyGame(sg1: SyncedGame, sg2: SyncedGame, n: string)
    requires GameRowOk(sg1.game) && GameRowOk(sg2.game) && sg1.game.day.Some? && sg2.game.day.Some?
    requires sg1.venueName == sg2.venueName
    requires n in TaskNames(sg1) && n in TaskNames(sg2)
    ensures sg1.game.gameType == sg2.game.gameType && sg1.game.day == sg2.game.day && sg1.game.time == sg2.game.time
  {
    var s1 := if n == PlaceholderName(sg1) then " - Generate placeholder event"
              else if n == ScrapeName(sg1) then " - Auto scrape" else " - Re-enable scraping";
    var s2 := if n == PlaceholderName(sg2) then " - Generate placeholder event"
              else if n == ScrapeName(sg2) then " - Auto scrape" else " - Re-enable scraping";
    assert n == GameLabel(sg1) + s1 && n == GameLabel(sg2) + s2;
    TaskSuffixesDiffer(GameLabel(sg1), GameLabel(sg2), s1, s2);
    OfficialGameStrInjective(sg1.venueName, sg1.game.gameType, sg1.game, sg2.game.gameType, sg2.game);
  }

  /** The three schedules of a game. */
  function PlanSchedules(sg: SyncedGame, interval: int): set<Crontab>
    requires Ready(sg)
  {
    var day, t := sg.game.day.value, sg.game.time.value;
    {PlaceholderCronAsWritten(day, t), ScrapeCron(day, interval, CrontabHours(t).value), ReenableCron(day)}
  }

  /** The three tasks of a game, by name, in the order `sync` creates them. */
  function Plan(sg: SyncedGame, interval: int): (plan: seq<(string, PeriodicTask)>)
    requires Ready(sg)
    ensures |plan| == 3
    ensures forall j :: 0 <= j < |plan| ==> plan[j].0 in TaskNames(sg)
  {
    var day, t := sg.game.day.value, sg.game.time.value;
    var placeholderName, scrapeName, reenableName := PlaceholderName(sg), ScrapeName(sg), ReenableName(sg);
    var placeholder := PeriodicTask(PlaceholderTaskPath, PlaceholderCronAsWritten(day, t), PlaceholderArgs(sg.pk), true);
    var scrape := PeriodicTask(ScrapeTaskPath, ScrapeCron(day, interval, CrontabHours(t).value),
      ScrapeArgs(sg.pk, sg.game.venue, scrapeName), true);
    var reenable := PeriodicTask(ReenableTaskPath, ReenableCron(day), ReenableArgs(sg.pk, scrapeName), true);
    [(placeholderName, placeholder), (scrapeName, scrape), (reenableName, reenable)]
  }

  /**
   * The scrape task and the re-enable task both carry the scrape task's own
   * name, so that the one can switch itself off and the other switch it on.
   */
  lemma TasksNameTheScrapeTask(sg: SyncedGame, interval: int)
    requires Ready(sg)
    ensures var plan := Plan(sg, interval);
      && plan[1].1.task == ScrapeTaskPath && plan[2].1.task == ReenableTaskPath
      && plan[1].1.kwargs == ScrapeArgs(sg.pk, sg.game.venue, plan[1].0)
      && plan[2].1.kwargs == ReenableArgs(sg.pk, plan[1].0)
      && plan[1].0 == ScrapeName(sg) && plan[1].0 != plan[2].0
  {
  }

  /** `get_or_create` looks a task up by every field it is given: all but `enabled`. */
  predicate SameTask(a: PeriodicTask, b: PeriodicTask) {
    a.task == b.task && a.crontab == b.crontab && a.kwargs == b.kwargs
  }

  /** Every task of `plan` is present under its name. */
  predicate Holds(tasks: map<string, PeriodicTask>, plan: seq<(string, PeriodicTask)>) {
    forall j :: 0 <= j < |plan| ==> plan[j].0 in tasks && SameTask(tasks[plan[j].0], plan[j].1)
  }

  /** `st2` holds every schedule and every task of `st1`, the tasks unchanged. */
  predicate Extends(st1: BeatState, st2: BeatState) {
    && st1.schedules <= st2.schedules
    && forall n :: n in st1.tasks ==> n in st2.tasks && st2.tasks[n] == st1.tasks[n]
  }

  /**
   * `PeriodicTask.objects.get_or_create`: an existing task with the same
   * fields is returned as it is; one with the same unique name but other
   * fields makes the create that follows fail.
   */
  function GetOrCreate(tasks: map<string, PeriodicTask>, name: string, t: PeriodicTask)
    : (r: Result<map<string, PeriodicTask>>)
    ensures r.Err? <==> name in tasks && !SameTask(tasks[name], t)
    ensures r.Err? ==> r.error == IntegrityError
    ensures r.Ok? ==> name in r.value && SameTask(r.value[name], t)
    ensures r.Ok? ==> r.value.Keys == tasks.Keys + {name}
    ensures r.Ok? ==> forall n :: n in tasks ==> r.value[n] == tasks[n]
    ensures r.Ok? && name !in tasks ==> r.value[name] == t
  {
    if name in tasks then
      if SameTask(tasks[name], t) then Ok(tasks) else Err(IntegrityError)
    else Ok(tasks[name := t])
  }

  /**
   * The tasks of `plan` created in order, stopping at the first failure. A
   * plan already present leaves the table as it is.
   */
  function InstallAll(tasks: map<string, PeriodicTask>, plan: seq<(string, PeriodicTask)>)
    : (r: Result<map<string, PeriodicTask>>)
    ensures r.Err? ==> r.error == IntegrityError
    ensures r.Ok? ==> Holds(r.value, plan)
    ensures r.Ok? ==> forall n :: n in tasks ==> n in r.value && r.value[n] == tasks[n]
    ensures r.Ok? ==> forall n :: n in r.value && n !in tasks ==> exists j :: 0 <= j < |plan| && plan[j].0 == n
    ensures Holds(tasks, plan) ==> r == Ok(tasks)
    decreases |plan|
  {
    if plan == [] then Ok(tasks)
    else
      var first := GetOrCreate(tasks, plan[0].0, plan[0].1);
      if first.Err? then Err(first.error)
      else
        var rest := InstallAll(first.value, plan[1..]);
        assert forall j :: 1 <= j < |plan| ==> plan[j] == plan[1..][j - 1];
        rest
  }

  /** The schedules and tasks of one game are all present. */
  predicate Installed(st: BeatState, sg: SyncedGame, interval: int)
    requires Ready(sg)
  {
    PlanSchedules(sg, interval) <= st.schedules && Holds(st.tasks, Plan(sg, interval))
  }

  /** One iteration of the loop in `sync`. */
  function SyncGame(st: BeatState, sg: SyncedGame, interval: int): (r: Result<BeatState>)
    requires GameRowOk(sg.game)
    ensures r.Err? ==> r.error in {ValueError, NotImplementedError, IntegrityError}
    ensures r.Err? && r.error == ValueError <==> sg.game.day.None?
    ensures r.Err? && r.error == NotImplementedError <==> sg.game.day.Some? && !Ready(sg)
    ensures r.Ok? ==> Ready(sg) && Extends(st, r.value)
  {
    if sg.game.day.None? || sg.game.time.None? then Err(ValueError)
    else
      var hours := CrontabHours(sg.game.time.value);
      if hours.Err? then Err(hours.error)
      else
        var created := InstallAll(st.tasks, Plan(sg, interval));
        if created.Err? then Err(created.error)
        else Ok(BeatState(st.schedules + PlanSchedules(sg, interval), created.value))
  }

  /** A game synced without error has its schedules and tasks, and no other new task. */
  lemma SyncGameInstalls(st: BeatState, sg: SyncedGame, interval: int)
    requires GameRowOk(sg.game) && SyncGame(st, sg, interval).Ok?
    ensures Ready(sg) && Installed(SyncGame(st, sg, interval).value, sg, interval)
    ensures forall n :: n in SyncGame(st, sg, interval).value.tasks && n !in st.tasks ==> n in TaskNames(sg)
  {
  }

  predicate RowsOk(games: seq<SyncedGame>) {
    forall i :: 0 <= i < |games| ==> GameRowOk(games[i].game)
  }

  /** `sync` from the `i`-th game on: the games in order, stopping at the first exception. */
  function SyncFrom(st: BeatState, games: seq<SyncedGame>, i: nat, interval: int): (r: Result<BeatState>)
    requires RowsOk(games) && i <= |games|
    ensures r.Ok? ==> Extends(st, r.value)
    decreases |games| - i
  {
    if i == |games| then Ok(st)
    else
      var first := SyncGame(st, games[i], interval);
      if first.Err? then first else SyncFrom(first.value, games, i + 1, interval)
  }

  /** One game further into the loop of `sync`. */
  lemma SyncFromStep(before: BeatState, after: BeatState, games: seq<SyncedGame>, i: nat, interval: int, r: Result<()>)
    requires RowsOk(games) && i < |games|
    requires r.Ok? ==> SyncGame(before, games[i], interval) == Ok(after)
    requires r.Err? ==> SyncGame(before, games[i], interval) == Err(r.error)
    ensures r.Ok? ==> SyncFrom(before, games, i, interval) == SyncFrom(after, games, i + 1, interval)
    ensures r.Err? ==> SyncFrom(before, games, i, interval) == Err(r.error)
  {
  }

  lemma ExtendsTransitive(a: BeatState, b: BeatState, c: BeatState)
    requires Extends(a, b) && Extends(b, c)
    ensures Extends(a, c)
  {
  }

  lemma InstalledKept(st1: BeatState, st2: BeatState, sg: SyncedGame, interval: int)
    requires Ready(sg) && Installed(st1, sg, interval) && Extends(st1, st2)
    ensures Installed(st2, sg, interval)
  {
  }

  /** Every game of `games` from the `i`-th on is ready and installed in `st`. */
  predicate AllInstalled(st: BeatState, games: seq<SyncedGame>, i: nat, interval: int) {
    forall k :: i <= k < |games| ==> Ready(games[k]) && Installed(st, games[k], interval)
  }

  /** A sync that succeeds leaves every game it was given ready and installed. */
  lemma {:induction false} SyncInstallsAll(st: BeatState, games: seq<SyncedGame>, i: nat, interval: int)
    requires RowsOk(games) && i <= |games| && SyncFrom(st, games, i, interval).Ok?
    ensures AllInstalled(SyncFrom(st, games, i, interval).value, games, i, interval)
    decreases |games| - i
  {
    if i < |games| {
      var mid := SyncGame(st, games[i], interval).value;
      SyncInstallsAll(mid, games, i + 1, interval);
      SyncGameInstalls(st, games[i], interval);
      InstalledKept(mid, SyncFrom(mid, games, i + 1, interval).value, games[i], interval);
    }
  }

  /** Every task of `st2` that `st1` lacks is one of the own tasks of a game from the `i`-th on. */
  predicate OnlyGameTasks(st1: BeatState, st2: BeatState, games: seq<SyncedGame>, i: nat)
    requires RowsOk(games)
  {
    forall n :: n in st2.tasks && n !in st1.tasks ==> exists k :: i <= k < |games| && n in TaskNames(games[k])
  }

  /** A sync that succeeds adds no task other than the games' own. */
  lemma {:induction false} SyncAddsOnlyGameTasks(st: BeatState, games: seq<SyncedGame>, i: nat, interval: int)
    requires RowsOk(games) && i <= |games| && SyncFrom(st, games, i, interval).Ok?
    ensures OnlyGameTasks(st, SyncFrom(st, games, i, interval).value, games, i)
    decreases |games| - i
  {
    if i < |games| {
      var mid := SyncGame(st, games[i], interval).value;
      SyncAddsOnlyGameTasks(mid, games, i + 1, interval);
      SyncGameInstalls(st, games[i], interval);
      var st2 := SyncFrom(mid, games, i + 1, interval).value;
      forall n | n in st2.tasks && n !in st.tasks
        ensures exists k :: i <= k < |games| && n in TaskNames(games[k])
      {
        if n in mid.tasks {
          assert n in TaskNames(games[i]);
        }
      }
    }
  }

  /** Syncing games whose schedules and tasks are all present succeeds and changes nothing. */
  lemma {:induction false} SyncSettled(st: BeatState, games: seq<SyncedGame>, i: nat, interval: int)
    requires RowsOk(games) && i <= |games| && AllInstalled(st, games, i, interval)
    ensures SyncFrom(st, games, i, interval) == Ok(st)
    decreases |games| - i
  {
    if i < |games| {
      SyncGameSettled(st, games[i], interval);
      SyncSettled(st, games, i + 1, interval);
    }
  }

  lemma SyncGameSettled(st: BeatState, sg: SyncedGame, interval: int)
    requires Ready(sg) && Installed(st, sg, interval)
    ensures SyncGame(st, sg, interval) == Ok(st)
  {
    assert st.schedules + PlanSchedules(sg, interval) == st.schedules;
  }

  /** `sync` is idempotent: running it again on its own result changes nothing. */
  lemma SyncIdempotent(st: BeatState, games: seq<SyncedGame>, interval: int)
    requires RowsOk(games) && SyncFrom(st, games, 0, interval).Ok?
    ensures SyncFrom(SyncFrom(st, games, 0, interval).value, games, 0, interval) == SyncFrom(st, games, 0, interval)
  {
    SyncInstallsAll(st, games, 0, interval);
    SyncSettled(SyncFrom(st, games, 0, interval).value, games, 0, interval);
  }

  /** A sync fails with ValueError or NotImplementedError only because of a game that caused it. */
  lemma {:induction false} SyncErrorCause(st: BeatState, games: seq<SyncedGame>, i: nat, interval: int)
    requires RowsOk(games) && i <= |games| && SyncFrom(st, games, i, interval).Err?
    ensures SyncFrom(st, games, i, interval).error in {ValueError, NotImplementedError, IntegrityError}
    ensures SyncFrom(st, games, i, interval).error == ValueError ==>
      exists k :: i <= k < |games| && games[k].game.day.None?
    ensures SyncFrom(st, games, i, interval).error == NotImplementedError ==>
      exists k :: i <= k < |games| && games[k].game.day.Some? && !Ready(games[k])
    decreases |games| - i
  {
    var first := SyncGame(st, games[i], interval);
    if first.Ok? {
      SyncErrorCause(first.value, games, i + 1, interval);
    }
  }

  /** Games that all have a day make a sync fail only for a late start or a taken task name. */
  lemma SyncOfficialErrors(st: BeatState, games: seq<SyncedGame>, interval: int)
    requires RowsOk(games) && SyncFrom(st, games, 0, interval).Err?
    requires forall i :: 0 <= i < |games| ==> games[i].game.day.Some?
    ensures SyncFrom(st, games, 0, interval).error in {NotImplementedError, IntegrityError}
  {
    SyncErrorCause(st, games, 0, interval);
  }

  // ---------------------------------------------------------------- the scheduler tables

  class Beat {
    var schedules: set<Crontab>
    var tasks: map<string, PeriodicTask>

    function State(): BeatState
      reads this
    {
      BeatState(schedules, tasks)
    }

    constructor ()
      ensures State() == BeatState({}, map[])
    {
      schedules, tasks := {}, map[];
    }

    /** Rolls both tables back to `st`, as a failed transaction does. */
    method Restore(st: BeatState)
      modifies this
      ensures State() == st
    {
      schedules, tasks := st.schedules, st.tasks;
    }

    /** `CrontabSchedule.objects.get_or_create`. */
    method GetOrCreateSchedule(c: Crontab)
      modifies this`schedules
      ensures schedules == old(schedules) + {c}
    {
      schedules := schedules + {c};
    }

    method GetOrCreateTask(name: string, t: PeriodicTask) returns (r: Result<()>)
      modifies this`tasks
      ensures r.Ok? <==> GetOrCreate(old(tasks), name, t).Ok?
      ensures r.Err? ==> r.error == IntegrityError && tasks == old(tasks)
      ensures r.Ok? ==> tasks == GetOrCreate(old(tasks), name, t).value
    {
      if name in tasks {
        if SameTask(tasks[name], t) {
          r := Ok(());
        } else {
          r := Err(IntegrityError);
        }
      } else {
        tasks := tasks[name := t];
        r := Ok(());
      }
    }

    /** `PeriodicTask.objects.filter(name=name).update(enabled=enabled)`. */
    method SetEnabled(name: string, enabled: bool)
      modifies this`tasks
      ensures tasks.Keys == old(tasks.Keys)
      ensures forall n :: n in tasks ==> tasks[n] == if n == name then old(tasks[n]).(enabled := enabled) else old(tasks[n])
    {
      if name in tasks {
        tasks := tasks[name := tasks[name].(enabled := enabled)];
      }
    }

    /**
     * One game of `sync`: its three schedules, then its three tasks. The
     * placeholder schedule is written before the window is computed, so a
     * game refused for starting too late leaves it behind.
     */
    method SyncOne(sg: SyncedGame, interval: int) returns (r: Result<()>)
      requires GameRowOk(sg.game)
      modifies this
      ensures r.Ok? ==> SyncGame(old(State()), sg, interval) == Ok(State())
      ensures r.Err? ==> SyncGame(old(State()), sg, interval) == Err(r.error)
      ensures Extends(old(State()), State())
    {
      if sg.game.day.None? || sg.game.time.None? {
        return Err(ValueError);
      }
      var day, t := sg.game.day.value, sg.game.time.value;
      GetOrCreateSchedule(PlaceholderCronAsWritten(day, t));
      var hours := CrontabHours(t);
      if hours.Err? {
        return Err(hours.error);
      }
      GetOrCreateSchedule(ScrapeCron(day, interval, hours.value));
      GetOrCreateSchedule(ReenableCron(day));
      assert schedules == old(schedules) + PlanSchedules(sg, interval);
      r := CreateTasks(Plan(sg, interval));
    }

    /** The three `PeriodicTask.objects.get_or_create` calls of one game, in order. */
    method CreateTasks(plan: seq<(string, PeriodicTask)>) returns (r: Result<()>)
      requires |plan| == 3
      modifies this`tasks
      ensures r.Ok? <==> InstallAll(old(tasks), plan).Ok?
      ensures r.Ok? ==> tasks == InstallAll(old(tasks), plan).value
      ensures r.Err? ==> r.error == IntegrityError
      ensures forall n :: n in old(tasks) ==> n in tasks && tasks[n] == old(tasks)[n]
    {
      r := GetOrCreateTask(plan[0].0, plan[0].1);
      if r.Err? {
        return;
      }
      assert InstallAll(old(tasks), plan) == InstallAll(tasks, plan[1..]);
      ghost var t1 := tasks;
      r := GetOrCreateTask(plan[1].0, plan[1].1);
      if r.Err? {
        return;
      }
      assert plan[1..][1..] == plan[2..];
      assert InstallAll(t1, plan[1..]) == InstallAll(tasks, plan[2..]);
      ghost var t2 := tasks;
      r := GetOrCreateTask(plan[2].0, plan[2].1);
      if r.Ok? {
        assert plan[2..][1..] == [];
        assert InstallAll(t2, plan[2..]) == Ok(tasks);
      }
    }

    /** `sync(games, scrape_interval)`; the count of synced games only goes to the log. */
    method Sync(games: seq<SyncedGame>, interval: int) returns (r: Result<()>)
      requires RowsOk(games)
      modifies this
      ensures r.Ok? ==> SyncFrom(old(State()), games, 0, interval) == Ok(State())
      ensures r.Err? ==> SyncFrom(old(State()), games, 0, interval) == Err(r.error)
      ensures Extends(old(State()), State())
    {
      ghost var start := State();
      var i := 0;
      r := Ok(());
      while i < |games|
        invariant 0 <= i <= |games|
        invariant SyncFrom(start, games, 0, interval) == SyncFrom(State(), games, i, interval)
        invariant Extends(start, State())
        invariant r.Ok?
      {
        ghost var before := State();
        r := SyncOne(games[i], interval);
        ExtendsTransitive(start, before, State());
        SyncFromStep(before, State(), games, i, interval, r);
        if r.Err? {
          return;
        }
        i := i + 1;
      }
    }
  }
}
