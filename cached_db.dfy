/**
 * The bot's in-memory copy of its five database tables (`DbCache`): one list per
 * table, queried by comprehensions and early-return loops and updated in place.
 * Timestamps (`created_at`) are instants in microseconds supplied by the caller.
 */
module CachedDb {
  import opened Wrappers
  import opened Text
  import opened Dates
  import opened Collections
  import opened Sorting

  datatype User = User(
    userId: int, username: string, nickname: string, userMoji: string, dob: string,
    timezone: string, email: string, userStatus: string,
    lastBornOn: Date, lastDiedOn: Option<Date>, createdAt: int)

  datatype Habit = Habit(
    habitId: int, userId: int, username: string, yearMonth: string,
    habitText: string, habitType: string, createdAt: int)

  /** A row of `core_habit_log`; `forDate` is `str(for_date)`, the only form the queries read. */
  datatype CoreLogRow = CoreLogRow(
    coreLogId: int, forDate: string, yearMonth: string, userId: int, username: string,
    habitId: int, habitText: string, habitStatus: string, markedBy: string, createdAt: int)

  datatype DndEntry = DndEntry(
    dndLogId: int, yearMonth: string, username: string, userId: int, habitId: int,
    habitText: string, startDate: Date, endDate: Date, createdAt: int)

  /** A row of `daily_score_log`; `forDate` is `str(for_date)`. */
  datatype ScoreRow = ScoreRow(
    forDate: string, userId: int, username: string, score: int, scoreType: string)

  /** One check-in handed to `log_checkin_to_db`; the database assigns id and timestamp. */
  datatype Checkin = Checkin(
    forDate: string, yearMonth: string, userId: int, username: string,
    habitId: int, habitText: string, habitStatus: string, markedBy: string)

  /** The status the rest-day rule counts as done. */
  const Done: string := "\U{2705}"

  /** Python's truthiness of an optional string argument. */
  predicate Truthy(o: Option<string>)
  {
    o.Some? && o.value != ""
  }

  /** Some DND row of `log` covers date `d` for this user and habit, both ends inclusive. */
  predicate InDnd(log: seq<DndEntry>, userId: int, d: Date, habitId: int)
  {
    exists i :: 0 <= i < |log| && Covers(log[i], userId, d, habitId)
  }

  predicate Covers(e: DndEntry, userId: int, d: Date, habitId: int)
  {
    e.userId == userId && e.habitId == habitId && AtOrBefore(e.startDate, d) && AtOrBefore(d, e.endDate)
  }

  /** Rows of other users or other habits never decide DND membership. */
  lemma {:induction false} InDndOnlyOwnRows(log: seq<DndEntry>, e: DndEntry, userId: int, d: Date, habitId: int)
    requires e.userId != userId || e.habitId != habitId
    ensures InDnd(log + [e], userId, d, habitId) <==> InDnd(log, userId, d, habitId)
  {
    var l := log + [e];
    if InDnd(l, userId, d, habitId) {
      var i :| 0 <= i < |l| && Covers(l[i], userId, d, habitId);
      assert i < |log| && log[i] == l[i];
    }
    if InDnd(log, userId, d, habitId) {
      var i :| 0 <= i < |log| && Covers(log[i], userId, d, habitId);
      assert l[i] == log[i];
    }
  }

  /** The score row that marks a finished check-in of `userId` for the date text `forDate`. */
  predicate IsCoreScore(row: ScoreRow, userId: int, forDate: string)
  {
    row.userId == userId && row.forDate == forDate && Strip(row.scoreType) == "core"
  }

  predicate CheckedIn(log: seq<ScoreRow>, userId: int, forDate: string)
  {
    exists i :: 0 <= i < |log| && IsCoreScore(log[i], userId, forDate)
  }

  /** The check-ins of this user and habit on dates before `checkDate`, compared as text. */
  function PriorCheckins(log: seq<CoreLogRow>, userId: int, habitId: int, checkDate: string): (r: seq<CoreLogRow>)
    ensures forall row :: row in r <==>
      row in log && row.userId == userId && row.habitId == habitId && StrLess(row.forDate, checkDate)
  {
    var p := (row: CoreLogRow) => row.userId == userId && row.habitId == habitId && StrLess(row.forDate, checkDate);
    FilterMembers(log, p);
    Filter(log, p)
  }

  /**
   * The six most recent prior check-ins (fewer when there are fewer), newest first.
   * That they are the newest is `LastSixKeepsNewest`; among equal dates the sort is
   * stable (`Sorting.SortDescStable`), so the earlier-logged row comes first.
   */
  function LastSix(log: seq<CoreLogRow>, userId: int, habitId: int, checkDate: string): (r: seq<CoreLogRow>)
    ensures |r| <= 6
    ensures |r| == 6 <==> |PriorCheckins(log, userId, habitId, checkDate)| >= 6
    ensures forall row :: row in r ==> row in PriorCheckins(log, userId, habitId, checkDate)
    ensures SortedDesc(r, (row: CoreLogRow) => row.forDate)
  {
    var prior := PriorCheckins(log, userId, habitId, checkDate);
    var sorted := SortDesc(prior, (row: CoreLogRow) => row.forDate);
    forall row | row in sorted
      ensures row in prior
    {
      assert row in multiset(sorted);
    }
    Take(sorted, 6)
  }

  /** `kept` is drawn from `prior`, and no row of `prior` left out is newer than one kept. */
  predicate KeepsNewest(prior: seq<CoreLogRow>, kept: seq<CoreLogRow>)
  {
    multiset(kept) <= multiset(prior) &&
    forall x, y :: x in kept && y in multiset(prior) - multiset(kept) ==> !StrLess(x.forDate, y.forDate)
  }

  /** The rows `LastSix` keeps are prior check-ins, and none left out is newer than one kept. */
  lemma LastSixKeepsNewest(log: seq<CoreLogRow>, userId: int, habitId: int, checkDate: string)
    ensures KeepsNewest(PriorCheckins(log, userId, habitId, checkDate), LastSix(log, userId, habitId, checkDate))
  {
    var prior := PriorCheckins(log, userId, habitId, checkDate);
    var key := (row: CoreLogRow) => row.forDate;
    var sorted := SortDesc(prior, key);
    var r := LastSix(log, userId, habitId, checkDate);
    assert r == Take(sorted, 6);
    TakeHoldsLargest(sorted, key, 6);
    forall x, y | x in r && y in multiset(prior) - multiset(r)
      ensures !StrLess(x.forDate, y.forDate)
    {
      assert key(x) == x.forDate && key(y) == y.forDate;
    }
  }

  /** `check_rest_day_eligibility`: the six most recent prior check-ins are all done. */
  predicate RestDayEligible(log: seq<CoreLogRow>, userId: int, habitId: int, checkDate: string)
  {
    var lastSix := LastSix(log, userId, habitId, checkDate);
    |lastSix| == 6 && forall row :: row in lastSix ==> row.habitStatus == Done
  }

  /** With exactly six prior check-ins, the rest day is earned iff all six are done. */
  lemma RestDayExactlySix(log: seq<CoreLogRow>, userId: int, habitId: int, checkDate: string)
    requires |PriorCheckins(log, userId, habitId, checkDate)| == 6
    ensures RestDayEligible(log, userId, habitId, checkDate)
        <==> forall row :: row in PriorCheckins(log, userId, habitId, checkDate) ==> row.habitStatus == Done
  {
    var prior := PriorCheckins(log, userId, habitId, checkDate);
    var sorted := SortDesc(prior, (row: CoreLogRow) => row.forDate);
    assert LastSix(log, userId, habitId, checkDate) == sorted;
    forall row | row in prior
      ensures row in sorted
    {
      assert row in multiset(prior);
    }
  }

  /** How many of the check-ins `prior` are on a date strictly after the date of `row`. */
  function NewerCount(prior: seq<CoreLogRow>, row: CoreLogRow): nat
  {
    |Filter(prior, (y: CoreLogRow) => StrLess(row.forDate, y.forDate))|
  }

  /** Check-ins on the same date agree in status. */
  predicate TiesAgree(prior: seq<CoreLogRow>)
  {
    forall a, b :: a in prior && b in prior && a.forDate == b.forDate ==> a.habitStatus == b.habitStatus
  }

  /** Every check-in with fewer than six newer ones is done. */
  predicate NewestDone(prior: seq<CoreLogRow>)
  {
    forall y :: y in prior && NewerCount(prior, y) < 6 ==> y.habitStatus == Done
  }

  /**
   * The rest day as a rule over all prior check-ins, without the sort: at least six of
   * them, and every one with fewer than six newer check-ins is done.  The rule holds as
   * stated whenever check-ins on the same date agree in status; otherwise the stable
   * sort decides which of the tied rows counts.
   */
  lemma RestDayIffNewestDone(log: seq<CoreLogRow>, userId: int, habitId: int, checkDate: string)
    requires TiesAgree(PriorCheckins(log, userId, habitId, checkDate))
    ensures RestDayEligible(log, userId, habitId, checkDate) <==>
      |PriorCheckins(log, userId, habitId, checkDate)| >= 6 && NewestDone(PriorCheckins(log, userId, habitId, checkDate))
  {
    var prior := PriorCheckins(log, userId, habitId, checkDate);
    if |prior| >= 6 {
      LastSixKeepsNewest(log, userId, habitId, checkDate);
      NewestRule(prior, LastSix(log, userId, habitId, checkDate));
    }
  }

  /** With six rows kept out of the newest, they are all done iff the rule holds of `prior`. */
  lemma NewestRule(prior: seq<CoreLogRow>, kept: seq<CoreLogRow>)
    requires KeepsNewest(prior, kept) && TiesAgree(prior) && |kept| == 6
    ensures (forall x :: x in kept ==> x.habitStatus == Done) <==> NewestDone(prior)
  {
    if NewestDone(prior) {
      forall x | x in kept
        ensures x.habitStatus == Done
      {
        assert x in multiset(kept);
        KeptHasFewNewer(prior, kept, x);
      }
    }
    if forall x :: x in kept ==> x.habitStatus == Done {
      forall y | y in prior && NewerCount(prior, y) < 6
        ensures y.habitStatus == Done
      {
        if y !in kept && y.habitStatus != Done {
          DroppedHasManyNewer(prior, kept, y);
        }
      }
    }
  }

  /** A kept row has only kept rows newer than itself, so at most `|kept| - 1` of them. */
  lemma KeptHasFewNewer(prior: seq<CoreLogRow>, kept: seq<CoreLogRow>, x: CoreLogRow)
    requires KeepsNewest(prior, kept) && x in kept
    ensures NewerCount(prior, x) < |kept|
  {
    var p := (y: CoreLogRow) => StrLess(x.forDate, y.forDate);
    var others := multiset(kept) - multiset{x};
    forall z
      ensures multiset(Filter(prior, p))[z] <= others[z]
    {
      FilterCount(prior, p, z);
      if p(z) {
        StrLessAsymmetric(x.forDate, x.forDate);
        assert z in multiset(prior) - multiset(kept) ==> !StrLess(x.forDate, z.forDate);
      }
    }
    SubMultisetSize(multiset(Filter(prior, p)), others);
    assert multiset(kept) == others + multiset{x};
  }

  /**
   * A row left out whose status differs from every kept row's is older than all of them
   * (ties agree), so it has at least `|kept|` newer rows.
   */
  lemma DroppedHasManyNewer(prior: seq<CoreLogRow>, kept: seq<CoreLogRow>, y: CoreLogRow)
    requires KeepsNewest(prior, kept) && TiesAgree(prior)
    requires y in prior && y !in kept
    requires forall x :: x in kept ==> x.habitStatus != y.habitStatus
    ensures NewerCount(prior, y) >= |kept|
  {
    assert y in multiset(prior) - multiset(kept);
    var p := (z: CoreLogRow) => StrLess(y.forDate, z.forDate);
    forall z
      ensures multiset(kept)[z] <= multiset(Filter(prior, p))[z]
    {
      FilterCount(prior, p, z);
      if z in kept {
        assert z in multiset(kept);
        StrLessTotal(y.forDate, z.forDate);
      }
    }
    SubMultisetSize(multiset(kept), multiset(Filter(prior, p)));
  }

  /** Check-ins of other users or habits, or on or after the date, do not affect eligibility. */
  lemma RestDayIgnoresUnrelated(log: seq<CoreLogRow>, row: CoreLogRow, userId: int, habitId: int, checkDate: string)
    requires row.userId != userId || row.habitId != habitId || !StrLess(row.forDate, checkDate)
    ensures RestDayEligible(log + [row], userId, habitId, checkDate) == RestDayEligible(log, userId, habitId, checkDate)
  {
    var p := (r: CoreLogRow) => r.userId == userId && r.habitId == habitId && StrLess(r.forDate, checkDate);
    FilterConcat(log, [row], p);
    assert Filter([row], p) == [];
    assert PriorCheckins(log + [row], userId, habitId, checkDate) == PriorCheckins(log, userId, habitId, checkDate);
  }

  /** The latest `created_at` among `hs`; Python's `max` keeps the first of equal maxima. */
  function LatestCreatedAt(hs: seq<Habit>): (t: int)
    requires hs != []
    ensures exists i :: 0 <= i < |hs| && hs[i].createdAt == t
    ensures forall i :: 0 <= i < |hs| ==> hs[i].createdAt <= t
  {
    if |hs| == 1 then hs[0].createdAt
    else
      var rest := LatestCreatedAt(hs[1..]);
      assert forall i :: 1 <= i < |hs| ==> hs[i] == hs[1..][i - 1];
      if hs[0].createdAt >= rest then hs[0].createdAt else rest
  }

  class DbCache {
    var users: seq<User>
    var habits: seq<Habit>
    var coreHabitLog: seq<CoreLogRow>
    var dndLog: seq<DndEntry>
    var dailyScoreLog: seq<ScoreRow>

    /** The cache as `_load_all` fills it from a snapshot of the five tables. */
    constructor(users: seq<User>, habits: seq<Habit>, coreHabitLog: seq<CoreLogRow>,
                dndLog: seq<DndEntry>, dailyScoreLog: seq<ScoreRow>)
      ensures this.users == users && this.habits == habits && this.coreHabitLog == coreHabitLog
      ensures this.dndLog == dndLog && this.dailyScoreLog == dailyScoreLog
    {
      this.users := users;
      this.habits := habits;
      this.coreHabitLog := coreHabitLog;
      this.dndLog := dndLog;
      this.dailyScoreLog := dailyScoreLog;
    }

    /** `add_user`: appends the new active-by-default profile, born `today`. */
    method AddUser(userId: int, username: string, nickname: string, userMoji: string, dob: string,
                   timezone: string, email: string, userStatus: string, today: Date, now: int)
      modifies this
      ensures users == old(users) + [User(userId, username, nickname, userMoji, dob, timezone, email,
                                          userStatus, today, None, now)]
      ensures habits == old(habits) && coreHabitLog == old(coreHabitLog)
      ensures dndLog == old(dndLog) && dailyScoreLog == old(dailyScoreLog)
    {
      users := users + [User(userId, username, nickname, userMoji, dob, timezone, email,
                             userStatus, today, None, now)];
    }

    /** `update_user`: rewrites the profile of the first user with the id. */
    method UpdateUser(userId: int, nickname: string, userMoji: string, dob: string,
                      timezone: string, email: string, today: Date) returns (found: bool)
      modifies this
      ensures var i := FirstIndex(old(users), (u: User) => u.userId == userId);
        found == i.Some?
        && users == (if i.None? then old(users)
                     else old(users)[i.value := old(users)[i.value].(nickname := nickname, userMoji := userMoji,
                          dob := dob, timezone := timezone, email := email, lastBornOn := today)])
      ensures habits == old(habits) && coreHabitLog == old(coreHabitLog)
      ensures dndLog == old(dndLog) && dailyScoreLog == old(dailyScoreLog)
    {
      var i := 0;
      while i < |users|
        invariant 0 <= i <= |users| && users == old(users)
        invariant forall j :: 0 <= j < i ==> users[j].userId != userId
      {
        if users[i].userId == userId {
          users := users[i := users[i].(nickname := nickname, userMoji := userMoji, dob := dob,
                                        timezone := timezone, email := email, lastBornOn := today)];
          return true;
        }
        i := i + 1;
      }
      return false;
    }

    /** `get_user_by_id`: the first user with the id, if any. */
    method GetUserById(userId: int) returns (r: Option<User>)
      ensures r.None? <==> forall j :: 0 <= j < |users| ==> users[j].userId != userId
      ensures r.Some? ==>
        exists j :: 0 <= j < |users| && users[j] == r.value && r.value.userId == userId
          && forall k :: 0 <= k < j ==> users[k].userId != userId
    {
      var i := 0;
      while i < |users|
        invariant 0 <= i <= |users|
        invariant forall j :: 0 <= j < i ==> users[j].userId != userId
      {
        if users[i].userId == userId {
          return Some(users[i]);
        }
        i := i + 1;
      }
      return None;
    }

    /** `add_habit_to_cache`: appends the habit with id one past the current count. */
    method AddHabitToCache(userId: int, username: string, yearMonth: string, habitText: string,
                           habitType: string, now: int)
      modifies this
      ensures habits == old(habits) + [Habit(|old(habits)| + 1, userId, username, yearMonth,
                                             habitText, habitType, now)]
      ensures users == old(users) && coreHabitLog == old(coreHabitLog)
      ensures dndLog == old(dndLog) && dailyScoreLog == old(dailyScoreLog)
    {
      habits := habits + [Habit(|habits| + 1, userId, username, yearMonth, habitText, habitType, now)];
    }

    /** `get_user_habits_for_month`: year-months compared after stripping both sides. */
    function UserHabitsForMonth(userId: int, yearMonth: string): (r: seq<Habit>)
      reads this
      ensures forall h :: h in r <==> h in habits && h.userId == userId && Strip(h.yearMonth) == Strip(yearMonth)
    {
      var p := (h: Habit) => h.userId == userId && Strip(h.yearMonth) == Strip(yearMonth);
      FilterMembers(habits, p);
      Filter(habits, p)
    }

    /** `has_existing_core_habits`: exact year-month comparison, type `core`. */
    function HasExistingCoreHabits(userId: int, yearMonth: string): (r: bool)
      reads this
      ensures r <==> exists h :: h in habits && h.userId == userId && h.yearMonth == yearMonth && h.habitType == "core"
    {
      var p := (h: Habit) => h.userId == userId && h.yearMonth == yearMonth && h.habitType == "core";
      FilterMembers(habits, p);
      var matching := Filter(habits, p);
      assert matching != [] ==> matching[0] in matching;
      matching != []
    }

    /** `has_already_checked_in`: a pure scan of `daily_score_log` for a stripped `core` row. */
    method HasAlreadyCheckedIn(userId: int, forDate: string) returns (r: bool)
      ensures r <==> CheckedIn(dailyScoreLog, userId, forDate)
    {
      var i := 0;
      while i < |dailyScoreLog|
        invariant 0 <= i <= |dailyScoreLog|
        invariant forall j :: 0 <= j < i ==> !IsCoreScore(dailyScoreLog[j], userId, forDate)
      {
        var row := dailyScoreLog[i];
        if row.userId == userId && row.forDate == forDate && Strip(row.scoreType) == "core" {
          return true;
        }
        i := i + 1;
      }
      return false;
    }

    /** `get_user_checkin_summary`: unlike the check above, the score type is not stripped. */
    function UserCheckinSummary(userId: int, forDate: string): (r: seq<ScoreRow>)
      reads this
      ensures forall row :: row in r <==>
        row in dailyScoreLog && row.userId == userId && row.forDate == forDate && row.scoreType == "core"
    {
      var p := (row: ScoreRow) => row.userId == userId && row.forDate == forDate && row.scoreType == "core";
      FilterMembers(dailyScoreLog, p);
      Filter(dailyScoreLog, p)
    }

    /** `log_checkin_to_cache`: appends one check-in row; the score log is not touched. */
    method LogCheckinToCache(forDate: string, yearMonth: string, userId: int, username: string,
                             habitId: int, habitText: string, habitStatus: string, markedBy: string, now: int)
      modifies this
      ensures coreHabitLog == old(coreHabitLog) + [CoreLogRow(|old(coreHabitLog)| + 1, forDate, yearMonth,
                              userId, username, habitId, habitText, habitStatus, markedBy, now)]
      ensures users == old(users) && habits == old(habits)
      ensures dndLog == old(dndLog) && dailyScoreLog == old(dailyScoreLog)
    {
      coreHabitLog := coreHabitLog + [CoreLogRow(|coreHabitLog| + 1, forDate, yearMonth, userId, username,
                                                 habitId, habitText, habitStatus, markedBy, now)];
    }

    /** `add_dnd_period_to_cache`: appends the period under a new id (corrected: see `NextDndId`). */
    method AddDndPeriodToCache(yearMonth: string, username: string, userId: int, habitId: int,
                               habitText: string, startDate: string, endDate: string, now: int)
      returns (id: int)
      requires ParseIsoDate(startDate).Some? && ParseIsoDate(endDate).Some?
      modifies this`dndLog
      ensures id == NextDndId(old(dndLog))
      ensures forall j :: 0 <= j < |old(dndLog)| ==> old(dndLog)[j].dndLogId != id
      ensures dndLog == old(dndLog) + [DndEntry(id, yearMonth, username, userId, habitId, habitText,
                                                ParseIsoDate(startDate).value, ParseIsoDate(endDate).value, now)]
    {
      NextDndIdFresh(dndLog);
      id := AppendDndPeriod(yearMonth, username, userId, habitId, habitText,
                            ParseIsoDate(startDate).value, ParseIsoDate(endDate).value, now);
    }

    /** The row `add_dnd_period_to_cache` appends once both dates are read: a new id, at the end. */
    method AppendDndPeriod(yearMonth: string, username: string, userId: int, habitId: int,
                           habitText: string, start: Date, end: Date, now: int)
      returns (id: int)
      modifies this`dndLog
      ensures id == NextDndId(old(dndLog))
      ensures dndLog == old(dndLog) + [DndEntry(id, yearMonth, username, userId, habitId, habitText, start, end, now)]
    {
      id := NextDndId(dndLog);
      dndLog := dndLog + [DndEntry(id, yearMonth, username, userId, habitId, habitText, start, end, now)];
    }

    /** `get_dnd_entries_for_user`. */
    function DndEntriesForUser(userId: int): (r: seq<DndEntry>)
      reads this
      ensures forall e :: e in r <==> e in dndLog && e.userId == userId
    {
      var p := (e: DndEntry) => e.userId == userId;
      FilterMembers(dndLog, p);
      Filter(dndLog, p)
    }

    /** `is_date_in_dnd_period`: the date text must parse, as `strptime` demands. */
    method IsDateInDndPeriod(userId: int, checkDate: string, habitId: int) returns (r: bool)
      requires ParseIsoDate(checkDate).Some?
      ensures r <==> InDnd(dndLog, userId, ParseIsoDate(checkDate).value, habitId)
    {
      r := IsInDndPeriodOn(userId, ParseIsoDate(checkDate).value, habitId);
    }

    /** The scan of `is_date_in_dnd_period` once the date text is read: the user's rows of the habit, in order. */
    method IsInDndPeriodOn(userId: int, d: Date, habitId: int) returns (r: bool)
      ensures r <==> InDnd(dndLog, userId, d, habitId)
    {
      var i := 0;
      while i < |dndLog|
        invariant 0 <= i <= |dndLog|
        invariant forall j :: 0 <= j < i ==> !Covers(dndLog[j], userId, d, habitId)
      {
        var row := dndLog[i];
        if row.userId == userId && row.habitId == habitId {
          if AtOrBefore(row.startDate, d) && AtOrBefore(d, row.endDate) {
            return true;
          }
        }
        i := i + 1;
      }
      return false;
    }

    /** `get_streak_summary`: the day's `streak` rows. */
    function StreakSummary(forDate: Date): (r: seq<ScoreRow>)
      requires Valid(forDate)
      reads this
      ensures forall row :: row in r <==>
        row in dailyScoreLog && row.forDate == FormatIsoDate(forDate) && row.scoreType == "streak"
    {
      var p := (row: ScoreRow) => row.forDate == FormatIsoDate(forDate) && row.scoreType == "streak";
      FilterMembers(dailyScoreLog, p);
      Filter(dailyScoreLog, p)
    }

    /** `get_user_habits_for_date`: the habits of the date's `%Y%m` month. */
    function HabitsForDate(userId: int, d: Date): (r: seq<Habit>)
      requires Valid(d)
      reads this
      ensures forall h :: h in r <==> h in habits && h.userId == userId && h.yearMonth == FormatYearMonth(d)
    {
      var p := (h: Habit) => h.userId == userId && h.yearMonth == FormatYearMonth(d);
      FilterMembers(habits, p);
      Filter(habits, p)
    }

    /** `check_rest_day_eligibility` over the cached check-in log. */
    function CheckRestDayEligibility(userId: int, habitId: int, checkDate: string): (r: bool)
      reads this
      ensures r <==> |PriorCheckins(coreHabitLog, userId, habitId, checkDate)| >= 6
                     && forall row :: row in LastSix(coreHabitLog, userId, habitId, checkDate) ==> row.habitStatus == Done
      ensures (|PriorCheckins(coreHabitLog, userId, habitId, checkDate)| >= 6
               && forall row :: row in PriorCheckins(coreHabitLog, userId, habitId, checkDate) ==> row.habitStatus == Done)
              ==> r
    {
      RestDayEligible(coreHabitLog, userId, habitId, checkDate)
    }

    /** `get_habit_timestamp`: the latest creation instant of the month's habits, if any. */
    function HabitTimestamp(userId: int, yearMonth: string): (r: Option<int>)
      reads this
      ensures r.None? <==> forall h :: h in habits ==> !(h.userId == userId && h.yearMonth == yearMonth)
      ensures r.Some? ==>
        exists h :: h in habits && h.userId == userId && h.yearMonth == yearMonth && h.createdAt == r.value
      ensures r.Some? ==>
        forall h :: h in habits && h.userId == userId && h.yearMonth == yearMonth ==> h.createdAt <= r.value
    {
      var p := (h: Habit) => h.userId == userId && h.yearMonth == yearMonth;
      FilterMembers(habits, p);
      var hs := Filter(habits, p);
      if hs == [] then None
      else
        var t := LatestCreatedAt(hs);
        var i :| 0 <= i < |hs| && hs[i].createdAt == t;
        assert hs[i] in hs;
        assert forall h :: h in hs ==> exists j :: 0 <= j < |hs| && hs[j] == h;
        Some(t)
    }

    /** `delete_dnd_entry_from_cache`: removes the first entry with the id. */
    method DeleteDndEntryFromCache(dndLogId: int) returns (found: bool)
      modifies this`dndLog
      ensures found <==> exists j :: 0 <= j < |old(dndLog)| && old(dndLog)[j].dndLogId == dndLogId
      ensures dndLog == WithoutEntry(old(dndLog), dndLogId)
    {
      var i := 0;
      while i < |dndLog|
        invariant 0 <= i <= |dndLog| && dndLog == old(dndLog)
        invariant forall j :: 0 <= j < i ==> dndLog[j].dndLogId != dndLogId
      {
        if dndLog[i].dndLogId == dndLogId {
          WithoutEntryAt(dndLog, dndLogId, i);
          dndLog := dndLog[..i] + dndLog[i + 1..];
          return true;
        }
        i := i + 1;
      }
      return false;
    }

    /** `update_dnd_entry_to_cache`: on the first entry with the id, sets only the truthy fields. */
    method UpdateDndEntryToCache(dndLogId: int, newHabitText: Option<string>, newStartDate: Option<string>,
                                 newEndDate: Option<string>) returns (found: bool)
      requires Truthy(newStartDate) ==> ParseIsoDate(newStartDate.value).Some?
      requires Truthy(newEndDate) ==> ParseIsoDate(newEndDate.value).Some?
      modifies this`dndLog
      ensures found <==> exists j :: 0 <= j < |old(dndLog)| && old(dndLog)[j].dndLogId == dndLogId
      ensures dndLog == WithEdit(old(dndLog), dndLogId, newHabitText, newStartDate, newEndDate)
    {
      var i := 0;
      while i < |dndLog|
        invariant 0 <= i <= |dndLog| && dndLog == old(dndLog)
        invariant forall j :: 0 <= j < i ==> dndLog[j].dndLogId != dndLogId
      {
        if dndLog[i].dndLogId == dndLogId {
          var row := dndLog[i];
          if Truthy(newHabitText) {
            row := row.(habitText := newHabitText.value);
          }
          if Truthy(newStartDate) {
            row := row.(startDate := ParseIsoDate(newStartDate.value).value);
          }
          if Truthy(newEndDate) {
            row := row.(endDate := ParseIsoDate(newEndDate.value).value);
          }
          WithEditAt(dndLog, dndLogId, newHabitText, newStartDate, newEndDate, i);
          dndLog := dndLog[i := row];
          return true;
        }
        i := i + 1;
      }
      return false;
    }
  }

  /** The largest id in the DND log; 0 for an empty log. */
  function MaxDndId(log: seq<DndEntry>): (m: int)
    ensures m >= 0
  {
    if log == [] then 0
    else
      var n := |log| - 1;
      var m := MaxDndId(log[..n]);
      if log[n].dndLogId >= m then log[n].dndLogId else m
  }

  /** No row of the log has an id above `MaxDndId`. */
  lemma {:induction false} MaxDndIdBounds(log: seq<DndEntry>)
    ensures forall j :: 0 <= j < |log| ==> log[j].dndLogId <= MaxDndId(log)
  {
    if log != [] {
      var n := |log| - 1;
      MaxDndIdBounds(log[..n]);
      assert forall j :: 0 <= j < n ==> log[j] == log[..n][j];
    }
  }

  /** `add_dnd_period_to_cache` as written: the new id is one past the log length. */
  function SourceDndId(log: seq<DndEntry>): (id: int)
    ensures id > |log|
  {
    |log| + 1
  }

  /**
   * The id a new DND row takes: one past the largest id (see `NextDndIdFresh`).  It stands
   * for the id the database assigns when the queue is flushed and the cache reloaded.
   */
  function NextDndId(log: seq<DndEntry>): (id: int)
    ensures id >= 1
  {
    MaxDndId(log) + 1
  }

  /** No row of the log carries the id `NextDndId` hands out. */
  lemma NextDndIdFresh(log: seq<DndEntry>)
    ensures forall j :: 0 <= j < |log| ==> log[j].dndLogId < NextDndId(log)
  {
    MaxDndIdBounds(log);
  }

  /** Appending a row whose id is at least every id of the log makes that id the largest. */
  lemma MaxDndIdSnoc(log: seq<DndEntry>, e: DndEntry)
    requires e.dndLogId >= MaxDndId(log)
    ensures MaxDndId(log + [e]) == e.dndLogId
  {
    assert (log + [e])[..|log|] == log;
  }

  /** Where the log holds the ids 1, 2, ... in order, as a fresh load does, both rules give the same id. */
  lemma {:induction false} NextDndIdAgrees(log: seq<DndEntry>)
    requires forall j :: 0 <= j < |log| ==> log[j].dndLogId == j + 1
    ensures NextDndId(log) == SourceDndId(log)
  {
    if log != [] {
      var n := |log| - 1;
      NextDndIdAgrees(log[..n]);
    }
  }

  /** A DND row for the collision example; only its id matters. */
  function SampleDnd(id: int): (e: DndEntry)
    ensures e.dndLogId == id
  {
    DndEntry(id, "202401", "u", 1, 1, "h", Date(2024, 1, 1), Date(2024, 1, 1), 0)
  }

  /**
   * After rows 1 and 2 are loaded and row 1 is deleted, the source's rule hands out id 2 again, the id
   * of the row still in the log; the corrected rule does not.
   */
  lemma SourceDndIdCollides()
    ensures var log := WithoutEntry([SampleDnd(1), SampleDnd(2)], 1);
      log == [SampleDnd(2)] && SourceDndId(log) == log[0].dndLogId && NextDndId(log) != log[0].dndLogId
  {
    var log := WithoutEntry([SampleDnd(1), SampleDnd(2)], 1);
    assert log == [SampleDnd(1), SampleDnd(2)][1..];
  }

  /** The log after removing its first entry with the id; unchanged when there is none. */
  function WithoutEntry(log: seq<DndEntry>, dndLogId: int): (r: seq<DndEntry>)
    ensures (forall j :: 0 <= j < |log| ==> log[j].dndLogId != dndLogId) ==> r == log
    ensures (exists j :: 0 <= j < |log| && log[j].dndLogId == dndLogId) ==> |r| == |log| - 1
  {
    if log == [] then []
    else if log[0].dndLogId == dndLogId then log[1..]
    else [log[0]] + WithoutEntry(log[1..], dndLogId)
  }

  /** Removing by id cuts out exactly the first entry carrying the id. */
  lemma {:induction false} WithoutEntryAt(log: seq<DndEntry>, dndLogId: int, i: nat)
    requires i < |log| && log[i].dndLogId == dndLogId
    requires forall j :: 0 <= j < i ==> log[j].dndLogId != dndLogId
    ensures WithoutEntry(log, dndLogId) == log[..i] + log[i + 1..]
  {
    if i > 0 {
      WithoutEntryAt(log[1..], dndLogId, i - 1);
      assert log[1..][..i - 1] + log[1..][i..] == (log[..i] + log[i + 1..])[1..];
    }
  }

  /** The log after editing its first entry with the id; unchanged when there is none. */
  function WithEdit(log: seq<DndEntry>, dndLogId: int, newHabitText: Option<string>, newStartDate: Option<string>,
                    newEndDate: Option<string>): (r: seq<DndEntry>)
    requires Truthy(newStartDate) ==> ParseIsoDate(newStartDate.value).Some?
    requires Truthy(newEndDate) ==> ParseIsoDate(newEndDate.value).Some?
    ensures |r| == |log|
    ensures (forall j :: 0 <= j < |log| ==> log[j].dndLogId != dndLogId) ==> r == log
  {
    if log == [] then []
    else if log[0].dndLogId == dndLogId then [Edited(log[0], newHabitText, newStartDate, newEndDate)] + log[1..]
    else [log[0]] + WithEdit(log[1..], dndLogId, newHabitText, newStartDate, newEndDate)
  }

  /** Editing by id rewrites exactly the first entry carrying the id. */
  lemma {:induction false} WithEditAt(log: seq<DndEntry>, dndLogId: int, newHabitText: Option<string>,
                                      newStartDate: Option<string>, newEndDate: Option<string>, i: nat)
    requires Truthy(newStartDate) ==> ParseIsoDate(newStartDate.value).Some?
    requires Truthy(newEndDate) ==> ParseIsoDate(newEndDate.value).Some?
    requires i < |log| && log[i].dndLogId == dndLogId
    requires forall j :: 0 <= j < i ==> log[j].dndLogId != dndLogId
    ensures WithEdit(log, dndLogId, newHabitText, newStartDate, newEndDate)
         == log[i := Edited(log[i], newHabitText, newStartDate, newEndDate)]
  {
    if i > 0 {
      WithEditAt(log[1..], dndLogId, newHabitText, newStartDate, newEndDate, i - 1);
      assert log[1..][i - 1 := Edited(log[i], newHabitText, newStartDate, newEndDate)]
          == log[i := Edited(log[i], newHabitText, newStartDate, newEndDate)][1..];
    }
  }

  /** An entry after `update_dnd_entry_to_cache`: each field replaced only when its new value is truthy. */
  function Edited(e: DndEntry, newHabitText: Option<string>, newStartDate: Option<string>,
                  newEndDate: Option<string>): (r: DndEntry)
    requires Truthy(newStartDate) ==> ParseIsoDate(newStartDate.value).Some?
    requires Truthy(newEndDate) ==> ParseIsoDate(newEndDate.value).Some?
    ensures r.dndLogId == e.dndLogId && r.userId == e.userId && r.habitId == e.habitId
    ensures r.yearMonth == e.yearMonth && r.username == e.username && r.createdAt == e.createdAt
    ensures r.habitText == if Truthy(newHabitText) then newHabitText.value else e.habitText
    ensures r.startDate == if Truthy(newStartDate) then ParseIsoDate(newStartDate.value).value else e.startDate
    ensures r.endDate == if Truthy(newEndDate) then ParseIsoDate(newEndDate.value).value else e.endDate
  {
    e.(habitText := if Truthy(newHabitText) then newHabitText.value else e.habitText,
       startDate := if Truthy(newStartDate) then ParseIsoDate(newStartDate.value).value else e.startDate,
       endDate := if Truthy(newEndDate) then ParseIsoDate(newEndDate.value).value else e.endDate)
  }
}
