/**
 * The reminder and auto-mark scheduler: per-user reminder counters, the 24-hour
 * auto-mark stamp, the daily reset and the channel summary.  The clock and the
 * time zones are inputs: the instant `now` in microseconds, each user's local date
 * and minute of day, and the India Standard Time date, hour and minute.
 */
module Scheduler {
  import opened Wrappers
  import opened Text
  import opened Dates
  import opened Collections
  import opened CachedDb

  /** `parse_hhmm`: `int` of the first two characters and `int` of the rest. */
  function ParseHHMM(s: string): (r: Option<(int, int)>)
    ensures r.Some? ==> |s| >= 3
  {
    var h := PyInt(Slice(s, 0, 2));
    var m := PyInt(Drop(s, 2));
    if h.Some? && m.Some? then Some((h.value, m.value)) else None
  }

  lemma PyIntPad2(n: nat)
    requires n < 100
    ensures PyInt(Pad2(n)) == Some(n)
  {
    Pad2Value(n);
    PyIntOfDigits(Pad2(n));
  }

  /** Four-digit `HHMM` text parses back to its hour and minute. */
  lemma ParseHHMMRoundTrip(h: nat, m: nat)
    requires h < 100 && m < 100
    ensures ParseHHMM(Pad2(h) + Pad2(m)) == Some((h, m))
  {
    var s := Pad2(h) + Pad2(m);
    assert Slice(s, 0, 2) == Pad2(h);
    assert Drop(s, 2) == Pad2(m);
    PyIntPad2(h);
    PyIntPad2(m);
  }

  /** Three-character text splits after two characters: `"900"` is 90 hours and 0 minutes. */
  lemma ParseHHMMThreeDigits()
    ensures ParseHHMM("900") == Some((90, 0))
  {
    assert Slice("900", 0, 2) == "90" == Pad2(90);
    assert Drop("900", 2) == "0";
    PyIntPad2(90);
    PyIntOfDigits("0");
  }

  function MinutesOfDay(hm: (int, int)): int
  {
    hm.0 * 60 + hm.1
  }

  /** The interval arithmetic of `scheduler_loop`: `HH` hours and `MM` minutes of `HHMMSSS`, in seconds. */
  function SleepSeconds(interval: string): Option<int>
  {
    var h := PyInt(Slice(interval, 0, 2));
    var m := PyInt(Slice(interval, 2, 4));
    if h.Some? && m.Some? then Some(h.value * 3600 + m.value * 60) else None
  }

  /** The sleep is the hours and minutes of the interval; the trailing seconds digits are ignored. */
  lemma SleepSecondsValue(h: nat, m: nat, rest: string)
    requires h < 100 && m < 100
    ensures SleepSeconds(Pad2(h) + Pad2(m) + rest) == Some(h * 3600 + m * 60)
  {
    var s := Pad2(h) + Pad2(m) + rest;
    assert Slice(s, 0, 2) == Pad2(h);
    assert Slice(s, 2, 4) == Pad2(m);
    PyIntPad2(h);
    PyIntPad2(m);
    SleepOfFields(s, h, m);
  }

  lemma SleepOfFields(interval: string, h: int, m: int)
    requires PyInt(Slice(interval, 0, 2)) == Some(h) && PyInt(Slice(interval, 2, 4)) == Some(m)
    ensures SleepSeconds(interval) == Some(h * 3600 + m * 60)
  {
  }

  /** The default interval `"0030000"` sleeps half an hour. */
  lemma DefaultSleepIsHalfHour()
    ensures SleepSeconds("0030000") == Some(1800)
  {
    assert "0030000" == Pad2(0) + Pad2(30) + "000";
    SleepSecondsValue(0, 30, "000");
  }

  const DayNames: seq<string> := ["Monday", "Tuesday", "Wednesday", "Thursday", "Friday", "Saturday", "Sunday"]

  const LastReminderBanner: string := "**LAST REMINDER**\n"
  const ReminderLead: string := "\U{23F0} Time to checkin for yesterday i.e. "
  const ReminderTail: string := ".\n\nUse /checkin to get started!"
  const WarningLead: string := "\nAll habits will be marked X in "
  const WarningMid: string := " minutes. Checkin now @"

  /** The reminder proper: yesterday's weekday name, a comma, then yesterday's ISO date. */
  function ReminderBase(yesterday: Date): (r: string)
    requires Valid(yesterday)
    ensures |r| > 0 && r[0] == '\U{23F0}'
  {
    ReminderLead + (DayNames[Weekday(yesterday)] + ("," + FormatIsoDate(yesterday) + ReminderTail))
  }

  /** Where each part of the reminder proper sits: the weekday name after the lead, then a comma and the date. */
  lemma ReminderBaseLayout(yesterday: Date)
    requires Valid(yesterday)
    ensures var r := ReminderBase(yesterday);
      var k := |ReminderLead| + |DayNames[Weekday(yesterday)]|;
      |r| == k + 11 + |ReminderTail|
      && r[..|ReminderLead|] == ReminderLead && r[|ReminderLead|..k] == DayNames[Weekday(yesterday)]
      && r[k] == ',' && r[k + 1..k + 11] == FormatIsoDate(yesterday) && r[k + 11..] == ReminderTail
  {
    var day, date := DayNames[Weekday(yesterday)], FormatIsoDate(yesterday);
    var rest := "," + date + ReminderTail;
    JoinPieces(ReminderLead, [], day + rest);
    JoinPieces(day, [], rest);
    JoinPieces(",", date, ReminderTail);
    var r := ReminderBase(yesterday);
    var k := |ReminderLead| + |day|;
    assert r[|ReminderLead|..] == day + rest;
    assert r[k..] == rest;
  }

  /** Different days get different reminders: the reminder names the day it asks about. */
  lemma ReminderBaseNamesDay(a: Date, b: Date)
    requires Valid(a) && Valid(b) && ReminderBase(a) == ReminderBase(b)
    ensures a == b
  {
    ReminderBaseLayout(a);
    ReminderBaseLayout(b);
    var ka := |ReminderLead| + |DayNames[Weekday(a)]|;
    var kb := |ReminderLead| + |DayNames[Weekday(b)]|;
    assert ka == kb;
    assert FormatIsoDate(a) == FormatIsoDate(b);
    IsoTextOrder(a, b);
  }

  /** Python's `f"{x}"` of an optional integer: `None` prints as `None`. */
  function OptIntText(x: Option<int>): string
  {
    if x.Some? then IntToString(x.value) else "None"
  }

  /** `format_reminder_message`: reminder 3 is the last one and carries the auto-mark warning. */
  function FormatReminderMessage(username: string, yesterday: Date, reminderCount: int,
                                 minutesRemaining: Option<int>): (r: string)
    requires Valid(yesterday)
    ensures reminderCount == 3 <==> |r| >= |LastReminderBanner| && r[..|LastReminderBanner|] == LastReminderBanner
    ensures reminderCount != 3 ==> r == ReminderBase(yesterday)
    ensures reminderCount == 3 ==> r == LastReminder(ReminderBase(yesterday), OptIntText(minutesRemaining), username)
  {
    var base := ReminderBase(yesterday);
    if reminderCount == 3 then
      LastReminder(base, OptIntText(minutesRemaining), username)
    else
      assert base[0] != LastReminderBanner[0];
      base
  }

  /** The third reminder: banner, the reminder proper, then the warning with the minutes left and the `@` mention. */
  function LastReminder(base: string, minutes: string, username: string): (r: string)
  {
    LastReminderBanner + base + (WarningLead + minutes + (WarningMid + username + "!"))
  }

  /** Where each part of the third reminder sits: the reminder proper after the banner, then the minutes, then the user. */
  lemma LastReminderLayout(base: string, minutes: string, username: string)
    ensures var r := LastReminder(base, minutes, username);
      var b := |LastReminderBanner| + |base|;
      var m := b + |WarningLead|;
      var u := m + |minutes| + |WarningMid|;
      |r| == u + |username| + 1
      && r[..|LastReminderBanner|] == LastReminderBanner && r[|LastReminderBanner|..b] == base
      && r[b..m] == WarningLead && r[m..m + |minutes|] == minutes && r[m + |minutes|..u] == WarningMid
      && r[u..|r| - 1] == username && r[|r| - 1] == '!'
  {
    var r := LastReminder(base, minutes, username);
    var tail := WarningMid + username + "!";
    var w := WarningLead + minutes + tail;
    var b := |LastReminderBanner| + |base|;
    JoinPieces(LastReminderBanner, base, w);
    JoinPieces(WarningLead, minutes, tail);
    JoinPieces(WarningMid, username, "!");
    var m := b + |WarningLead|;
    assert r[b..m] == w[..|WarningLead|];
    assert r[m..m + |minutes|] == w[|WarningLead|..|WarningLead| + |minutes|];
    assert r[m + |minutes|..] == tail;
  }

  /** The circles of a streak line: one per point of a positive score, a tombstone below zero. */
  function StreakEmoji(score: int): (r: string)
    ensures score > 0 ==> |r| == score && forall i :: 0 <= i < |r| ==> r[i] == '\U{1F535}'
    ensures score < 0 ==> r == "\U{1FAA6}"
    ensures score == 0 ==> r == ""
  {
    if score > 0 then Repeat('\U{1F535}', score)
    else if score < 0 then "\U{1FAA6}"
    else ""
  }

  function StreakLine(row: ScoreRow): string
  {
    "\U{1F464} " + row.username + ": " + StreakEmoji(row.score)
  }

  function StreakHeader(dayNumber: int): string
  {
    "\U{1F40D} Day " + IntToString(dayNumber) + " log"
  }

  /** `format_streak_summary`: a header, a blank line, one line per row, and a closing line. */
  function FormatStreakSummary(rows: seq<ScoreRow>, dayNumber: int): string
  {
    Join([StreakHeader(dayNumber), ""] + Map(rows, StreakLine) + ["\nLet's do this!"], '\n')
  }

  lemma StreakLineSingle(row: ScoreRow)
    requires '\n' !in row.username
    ensures '\n' !in StreakLine(row)
  {
    var e := StreakEmoji(row.score);
    assert '\n' !in e;
    assert StreakLine(row) == "\U{1F464} " + row.username + ": " + e;
  }

  lemma StreakHeaderSingle(dayNumber: int)
    ensures '\n' !in StreakHeader(dayNumber)
  {
    var n := IntToString(dayNumber);
    assert forall c :: c in n ==> c == '-' || IsAsciiDigit(c);
  }

  /** A last piece that starts with the separator reads as an empty piece followed by the rest. */
  lemma JoinLeadingSep(body: seq<string>, rest: string, sep: char)
    requires |body| >= 1
    ensures Join(body + [[sep] + rest], sep) == Join(body + ["", rest], sep)
  {
    JoinSnoc(body, [sep] + rest, sep);
    JoinSnoc(body, "", sep);
    JoinSnoc(body + [""], rest, sep);
    assert body + [""] + [rest] == body + ["", rest];
  }

  /** No line of the summary holds a line break of its own. */
  lemma SummaryLinesSingle(rows: seq<ScoreRow>, dayNumber: int)
    requires forall i :: 0 <= i < |rows| ==> '\n' !in rows[i].username
    ensures var pieces := [StreakHeader(dayNumber), ""] + Map(rows, StreakLine) + ["", "Let's do this!"];
      forall i :: 0 <= i < |pieces| ==> '\n' !in pieces[i]
  {
    var lines := Map(rows, StreakLine);
    var pieces := [StreakHeader(dayNumber), ""] + lines + ["", "Let's do this!"];
    forall i | 0 <= i < |pieces|
      ensures '\n' !in pieces[i]
    {
      if 2 <= i < 2 + |lines| {
        assert pieces[i] == lines[i - 2] == StreakLine(rows[i - 2]);
        StreakLineSingle(rows[i - 2]);
      } else if i == 0 {
        StreakHeaderSingle(dayNumber);
      }
    }
  }

  /** Read line by line, the summary is the header, a blank, each row's line in order, a blank, the sign-off. */
  lemma StreakSummaryLines(rows: seq<ScoreRow>, dayNumber: int)
    requires forall i :: 0 <= i < |rows| ==> '\n' !in rows[i].username
    ensures Split(FormatStreakSummary(rows, dayNumber), '\n')
            == [StreakHeader(dayNumber), ""] + Map(rows, StreakLine) + ["", "Let's do this!"]
  {
    var lines := Map(rows, StreakLine);
    var body := [StreakHeader(dayNumber), ""] + lines;
    var pieces := body + ["", "Let's do this!"];
    assert "\nLet's do this!" == ['\n'] + "Let's do this!";
    SummaryLinesSingle(rows, dayNumber);
    calc {
      Split(FormatStreakSummary(rows, dayNumber), '\n');
      Split(Join(body + [['\n'] + "Let's do this!"], '\n'), '\n');
      { JoinLeadingSep(body, "Let's do this!", '\n'); }
      Split(Join(pieces, '\n'), '\n');
      { JoinSplit(pieces, '\n'); }
      pieces;
    }
  }

  /** The statuses the scheduler writes: `⛔` for a habit in a DND window, `❌` for a miss. */
  const DndMark: string := "\U{26D4}"
  const FailMark: string := "\U{274C}"

  /** The scheduler's settings once their `HHMM` texts have been through `parse_hhmm`. */
  datatype Config = Config(start: (int, int), automark: (int, int), update: (int, int), recheckMin: int)

  /** Parses the three configured times; `parse_hhmm` raises on text it cannot read, here `None`. */
  function ParseConfig(startHHMM: string, automarkHHMM: string, timeForUpdate: string, recheckMin: int)
    : (r: Option<Config>)
    ensures r.Some? <==>
      ParseHHMM(startHHMM).Some? && ParseHHMM(automarkHHMM).Some? && ParseHHMM(timeForUpdate).Some?
    ensures r.Some? ==>
      r.value.start == ParseHHMM(startHHMM).value && r.value.automark == ParseHHMM(automarkHHMM).value
      && r.value.update == ParseHHMM(timeForUpdate).value && r.value.recheckMin == recheckMin
  {
    var s := ParseHHMM(startHHMM);
    var a := ParseHHMM(automarkHHMM);
    var u := ParseHHMM(timeForUpdate);
    if s.Some? && a.Some? && u.Some? then Some(Config(s.value, a.value, u.value, recheckMin)) else None
  }

  function StartMinutes(cfg: Config): int
  {
    MinutesOfDay(cfg.start)
  }

  function AutomarkMinutes(cfg: Config): int
  {
    MinutesOfDay(cfg.automark)
  }

  const DayMicros: int := 86400 * 1000000
  const MinuteMicros: int := 60 * 1000000

  /** The name used in messages: the stored username, else the id as text. */
  function DisplayName(user: User): string
  {
    if user.username != "" then user.username else IntToString(user.userId)
  }

  function FirstOfMonth(d: Date): (r: Date)
    requires Valid(d)
    ensures Valid(r) && FormatYearMonth(r) == FormatYearMonth(d)
    ensures r.year == d.year && r.month == d.month && r.day == 1
    ensures AtOrBefore(r, d)
  {
    Date(d.year, d.month, 1)
  }

  /** The user's core habits for the month of `yesterday`, in stored order. */
  function CoreHabits(db: DbCache, userId: int, yesterday: Date): seq<Habit>
    requires Valid(yesterday)
    reads db
  {
    Filter(db.HabitsForDate(userId, FirstOfMonth(yesterday)), (h: Habit) => h.habitType == "core")
  }

  /** A user the tick looks at: an id that is not 0, core habits this month, and no check-in for yesterday. */
  predicate Eligible(db: DbCache, user: User, yesterday: Date)
    requires Valid(yesterday)
    reads db
  {
    user.userId != 0 && CoreHabits(db, user.userId, yesterday) != []
    && !CheckedIn(db.dailyScoreLog, user.userId, FormatIsoDate(yesterday))
  }

  function AutoStatus(log: seq<DndEntry>, userId: int, d: Date, habitId: int): string
  {
    if InDnd(log, userId, d, habitId) then DndMark else FailMark
  }

  /** The core habits that fall in a DND window on `d`, in order. */
  function DndHabits(log: seq<DndEntry>, userId: int, d: Date, core: seq<Habit>): seq<Habit>
  {
    if core == [] then []
    else
      var last := core[|core| - 1];
      DndHabits(log, userId, d, core[..|core| - 1]) + (if InDnd(log, userId, d, last.habitId) then [last] else [])
  }

  /** The core habits that do not, in order. */
  function MissedHabits(log: seq<DndEntry>, userId: int, d: Date, core: seq<Habit>): seq<Habit>
  {
    if core == [] then []
    else
      var last := core[|core| - 1];
      MissedHabits(log, userId, d, core[..|core| - 1]) + (if InDnd(log, userId, d, last.habitId) then [] else [last])
  }

  /** The DND habits are the core habits in a DND window on `d`; the missed ones are the others. */
  lemma {:induction false} DndMissedMembers(log: seq<DndEntry>, userId: int, d: Date, core: seq<Habit>)
    ensures forall h :: h in DndHabits(log, userId, d, core) <==> h in core && InDnd(log, userId, d, h.habitId)
    ensures forall h :: h in MissedHabits(log, userId, d, core) <==> h in core && !InDnd(log, userId, d, h.habitId)
  {
    if core != [] {
      var front := core[..|core| - 1];
      DndMissedMembers(log, userId, d, front);
      assert core == front + [core[|core| - 1]];
    }
  }

  /** Every core habit is either in a DND window or missed, never both. */
  lemma {:induction false} DndMissedPartition(log: seq<DndEntry>, userId: int, d: Date, core: seq<Habit>)
    ensures |DndHabits(log, userId, d, core)| + |MissedHabits(log, userId, d, core)| == |core|
  {
    if core != [] {
      DndMissedPartition(log, userId, d, core[..|core| - 1]);
    }
  }

  /** The rows an auto-mark writes: one per core habit, in order, marked by `auto`. */
  function AutoMarkRows(log: seq<DndEntry>, userId: int, username: string, core: seq<Habit>, y: Date): (r: seq<Checkin>)
    requires Valid(y)
  {
    seq(|core|, i requires 0 <= i < |core| =>
      Checkin(FormatIsoDate(y), FormatYearMonth(y), userId, username, core[i].habitId, core[i].habitText,
              AutoStatus(log, userId, y, core[i].habitId), "auto"))
  }

  function AutoMarkMessage(failed: int, dnd: int): string
  {
    if dnd > 0 && failed > 0 then
      "\U{26D4} Missed check-in. " + IntToString(failed) + " \U{274C} logged, " + IntToString(dnd)
      + " \U{26D4} (DND). Snake shrank by " + IntToString(failed) + "!"
    else if dnd > 0 && failed == 0 then
      "\U{26D4} Missed check-in. All " + IntToString(dnd) + " habits were on DND (\U{26D4}). No snake impact!"
    else
      "\U{26D4} Missed check-in. " + IntToString(failed) + " \U{274C} logged. Snake shrank by " + IntToString(failed) + "!"
  }

  /** What one tick did for one user. */
  datatype Action =
    | Skip
    | AutoMark(rows: seq<Checkin>, dndCount: nat, failedCount: nat, message: string)
    | Remind(count: int, message: string)
    | Wait

  /** `daily_reset_if_needed` as written: whether the counters are cleared, and the new `summary_sent_today`. */
  function DailyResetAsWritten(summarySentToday: Option<Date>, today: Date): (r: (bool, Option<Date>))
    ensures r.0 <==> summarySentToday.Some? && summarySentToday.value != today
    ensures r.1 == Some(today)
  {
    if summarySentToday.Some? && summarySentToday.value != today then (true, Some(today))
    else if summarySentToday.None? then (false, Some(today))
    else (false, summarySentToday)
  }

  /** The guard of the channel summary: the configured minute, and no summary yet today. */
  predicate SummaryGuard(summarySentToday: Option<Date>, today: Date, atSummaryMinute: bool)
  {
    atSummaryMinute && summarySentToday != Some(today)
  }

  /**
   * As written, the reset runs first and stamps today, so the summary guard that follows
   * is false whatever the state and the clock: the summary is never posted.
   */
  lemma {:induction false} SummaryNeverPostedAsWritten(summarySentToday: Option<Date>, today: Date)
    ensures !SummaryGuard(DailyResetAsWritten(summarySentToday, today).1, today, true)
  {
    var r := DailyResetAsWritten(summarySentToday, today);
    assert r.1 == Some(today);
  }

  /** The three early `continue`s of the user loop: no id, no core habits this month, already checked in. */
  method CheckEligible(db: DbCache, user: User, yesterday: Date) returns (r: bool)
    requires Valid(yesterday)
    ensures r <==> Eligible(db, user, yesterday)
  {
    if user.userId == 0 {
      return false;
    }
    if CoreHabits(db, user.userId, yesterday) == [] {
      return false;
    }
    var checked := db.HasAlreadyCheckedIn(user.userId, FormatIsoDate(yesterday));
    r := !checked;
  }

  /** The first loop of the auto-mark branch: each core habit's status for `d`, and the two counts. */
  method ClassifyHabits(db: DbCache, userId: int, d: Date, core: seq<Habit>)
    returns (responses: seq<string>, dndCount: nat, failedCount: nat)
    requires Valid(d)
    ensures |responses| == |core|
    ensures forall j :: 0 <= j < |core| ==> responses[j] == AutoStatus(db.dndLog, userId, d, core[j].habitId)
    ensures dndCount == |DndHabits(db.dndLog, userId, d, core)|
    ensures failedCount == |MissedHabits(db.dndLog, userId, d, core)|
    ensures dndCount + failedCount == |core|
  {
    var log := db.dndLog;
    responses := [];
    dndCount, failedCount := 0, 0;
    var i := 0;
    while i < |core|
      invariant 0 <= i <= |core| && |responses| == i
      invariant forall j :: 0 <= j < i ==> responses[j] == AutoStatus(log, userId, d, core[j].habitId)
      invariant dndCount == |DndHabits(log, userId, d, core[..i])|
      invariant failedCount == |MissedHabits(log, userId, d, core[..i])|
    {
      ClassifyStep(log, userId, d, core, i);
      var isDnd := db.IsInDndPeriodOn(userId, d, core[i].habitId);
      if isDnd {
        responses := responses + [DndMark];
        dndCount := dndCount + 1;
      } else {
        responses := responses + [FailMark];
        failedCount := failedCount + 1;
      }
      i := i + 1;
    }
    assert core[..|core|] == core;
    DndMissedPartition(log, userId, d, core);
  }

  /** One more habit adds one to exactly one of the two counts. */
  lemma ClassifyStep(log: seq<DndEntry>, userId: int, d: Date, core: seq<Habit>, i: nat)
    requires i < |core|
    ensures var inDnd := InDnd(log, userId, d, core[i].habitId);
      |DndHabits(log, userId, d, core[..i + 1])| == |DndHabits(log, userId, d, core[..i])| + (if inDnd then 1 else 0)
      && |MissedHabits(log, userId, d, core[..i + 1])| == |MissedHabits(log, userId, d, core[..i])| + (if inDnd then 0 else 1)
  {
    assert core[..i + 1][..i] == core[..i];
  }

  /** The second loop: each core habit zipped with its status into a row for `d`. */
  method BuildAutoRows(log: seq<DndEntry>, userId: int, username: string, core: seq<Habit>, d: Date,
                       responses: seq<string>)
    returns (rows: seq<Checkin>)
    requires Valid(d) && |responses| == |core|
    requires forall j :: 0 <= j < |core| ==> responses[j] == AutoStatus(log, userId, d, core[j].habitId)
    ensures rows == AutoMarkRows(log, userId, username, core, d)
  {
    var dateStr := FormatIsoDate(d);
    var ym := FormatYearMonth(d);
    rows := [];
    var k := 0;
    while k < |core|
      invariant 0 <= k <= |core| && |rows| == k
      invariant rows == AutoMarkRows(log, userId, username, core, d)[..k]
    {
      rows := rows + [Checkin(dateStr, ym, userId, username, core[k].habitId, core[k].habitText, responses[k], "auto")];
      k := k + 1;
    }
  }

  class ReminderState {
    var reminderCounts: map<int, int>
    var lastReminderTime: map<int, int>
    var lastAutoXSent: map<int, int>
    /** The day the channel summary was last posted. */
    var summarySentToday: Option<Date>
    /** The day the counters were last reset; kept apart from the summary stamp. */
    var lastResetDay: Option<Date>
    /** Batches handed to `log_checkin_to_db`, oldest first. */
    var dbWrites: seq<seq<Checkin>>

    constructor()
      ensures reminderCounts == map[] && lastReminderTime == map[] && lastAutoXSent == map[]
      ensures summarySentToday == None && lastResetDay == None && dbWrites == []
    {
      reminderCounts := map[];
      lastReminderTime := map[];
      lastAutoXSent := map[];
      summarySentToday := None;
      lastResetDay := None;
      dbWrites := [];
    }

    /** Every stored reminder count is 1, 2 or 3. */
    predicate CountsBounded()
      reads this
    {
      forall u :: u in reminderCounts ==> 1 <= reminderCounts[u] <= 3
    }

    /** `reset_reminder_count`: forgets the user's counter and last reminder time, nobody else's. */
    method ResetReminderCount(userId: int)
      modifies this`reminderCounts, this`lastReminderTime
      ensures reminderCounts == old(reminderCounts) - {userId}
      ensures lastReminderTime == old(lastReminderTime) - {userId}
      ensures old(CountsBounded()) ==> CountsBounded()
    {
      if userId in reminderCounts {
        reminderCounts := reminderCounts - {userId};
      }
      if userId in lastReminderTime {
        lastReminderTime := lastReminderTime - {userId};
      }
    }

    /** `daily_reset_if_needed`: on a new day the counters start again; the auto-mark stamps stay. */
    method DailyResetIfNeeded(today: Date)
      modifies this
      ensures lastResetDay == Some(today)
      ensures if old(lastResetDay).Some? && old(lastResetDay).value != today
              then reminderCounts == map[] && lastReminderTime == map[]
              else reminderCounts == old(reminderCounts) && lastReminderTime == old(lastReminderTime)
      ensures lastAutoXSent == old(lastAutoXSent) && summarySentToday == old(summarySentToday)
      ensures dbWrites == old(dbWrites)
      ensures old(CountsBounded()) ==> CountsBounded()
    {
      if lastResetDay.Some? && lastResetDay.value != today {
        reminderCounts := map[];
        lastReminderTime := map[];
        lastResetDay := Some(today);
      }
      if lastResetDay.None? {
        lastResetDay := Some(today);
      }
    }

    /** The start of `check_and_prompt`: the daily reset, then the channel summary once a day. */
    method TickPrelude(db: DbCache, istToday: Date, istHour: int, istMinute: int, cfg: Config, dayNumber: int)
      returns (summary: Option<string>)
      requires Valid(istToday)
      modifies this
      ensures var at := (istHour, istMinute) == cfg.update;
        summary.Some? <==> SummaryGuard(old(summarySentToday), istToday, at)
      ensures summary.Some? ==> summary.value == FormatStreakSummary(db.StreakSummary(istToday), dayNumber)
      ensures summarySentToday == if summary.Some? then Some(istToday) else old(summarySentToday)
      ensures (istHour, istMinute) == cfg.update ==> summarySentToday == Some(istToday)
      ensures lastResetDay == Some(istToday) && lastAutoXSent == old(lastAutoXSent) && dbWrites == old(dbWrites)
      ensures old(CountsBounded()) ==> CountsBounded()
    {
      DailyResetIfNeeded(istToday);
      summary := None;
      if (istHour, istMinute) == cfg.update && summarySentToday != Some(istToday) {
        summary := Some(FormatStreakSummary(db.StreakSummary(istToday), dayNumber));
        summarySentToday := Some(istToday);
      }
    }

    /** The auto-mark branch: stamp first, classify each core habit, write the rows, reset the reminders. */
    method AutoMarkUser(db: DbCache, userId: int, username: string, core: seq<Habit>, yesterday: Date, now: int)
      returns (a: Action)
      requires Valid(yesterday) && core != []
      modifies this
      ensures a.AutoMark?
      ensures a.rows == AutoMarkRows(db.dndLog, userId, username, core, yesterday)
      ensures a.dndCount == |DndHabits(db.dndLog, userId, yesterday, core)|
      ensures a.failedCount == |MissedHabits(db.dndLog, userId, yesterday, core)|
      ensures a.dndCount + a.failedCount == |a.rows|
      ensures a.message == AutoMarkMessage(a.failedCount, a.dndCount)
      ensures lastAutoXSent == old(lastAutoXSent)[userId := now]
      ensures dbWrites == old(dbWrites) + [a.rows]
      ensures reminderCounts == old(reminderCounts) - {userId}
      ensures lastReminderTime == old(lastReminderTime) - {userId}
      ensures summarySentToday == old(summarySentToday) && lastResetDay == old(lastResetDay)
      ensures old(CountsBounded()) ==> CountsBounded()
    {
      lastAutoXSent := lastAutoXSent[userId := now];
      var responses, dndCount, failedCount := ClassifyHabits(db, userId, yesterday, core);
      var checkins := BuildAutoRows(db.dndLog, userId, username, core, yesterday, responses);
      dbWrites := dbWrites + [checkins];
      var message := AutoMarkMessage(failedCount, dndCount);
      ResetReminderCount(userId);
      a := AutoMark(checkins, dndCount, failedCount, message);
    }

    /** How many reminders the user has had today. */
    function CountOf(userId: int): int
      reads this
    {
      if userId in reminderCounts then reminderCounts[userId] else 0
    }

    /** Past the auto-mark minute, and no auto-mark for this user in the last 24 hours. */
    predicate AutoMarkDue(cfg: Config, userId: int, now: int, localMinutes: int)
      reads this
    {
      localMinutes >= AutomarkMinutes(cfg)
      && (userId !in lastAutoXSent || now - lastAutoXSent[userId] > DayMicros)
    }

    /** Inside the reminder window, fewer than three reminders, and the cooldown has passed. */
    predicate ReminderDue(cfg: Config, userId: int, now: int, localMinutes: int)
      reads this
    {
      StartMinutes(cfg) <= localMinutes < AutomarkMinutes(cfg) && CountOf(userId) < 3
      && (userId in lastReminderTime ==> now - lastReminderTime[userId] >= cfg.recheckMin * MinuteMicros)
    }

    /** The reminder branch: count one more reminder and stamp its time. */
    method RemindUser(username: string, userId: int, yesterday: Date, cfg: Config, now: int, localMinutes: int)
      returns (a: Action)
      requires Valid(yesterday) && CountOf(userId) < 3
      modifies this
      ensures a.Remind? && a.count == old(CountOf(userId)) + 1
      ensures a.message == FormatReminderMessage(username, yesterday, a.count,
                             if a.count == 3 then Some(AutomarkMinutes(cfg) - localMinutes) else None)
      ensures reminderCounts == old(reminderCounts)[userId := a.count]
      ensures lastReminderTime == old(lastReminderTime)[userId := now]
      ensures lastAutoXSent == old(lastAutoXSent) && dbWrites == old(dbWrites)
      ensures summarySentToday == old(summarySentToday) && lastResetDay == old(lastResetDay)
      ensures old(CountsBounded()) ==> CountsBounded()
    {
      var count := CountOf(userId) + 1;
      var message := FormatReminderMessage(username, yesterday, count,
                                           if count == 3 then Some(AutomarkMinutes(cfg) - localMinutes) else None);
      reminderCounts := reminderCounts[userId := count];
      lastReminderTime := lastReminderTime[userId := now];
      a := Remind(count, message);
    }

    /** One user's turn in the `for user in users` loop of `check_and_prompt`. */
    method UserTick(db: DbCache, user: User, cfg: Config, now: int, localDate: Date, localMinutes: int)
      returns (a: Action)
      requires Valid(localDate) && localDate != MinDate
      modifies this
      ensures !Eligible(db, user, PrevDay(localDate)) ==> a == Skip
      ensures a.AutoMark? <==>
        Eligible(db, user, PrevDay(localDate)) && old(AutoMarkDue(cfg, user.userId, now, localMinutes))
      ensures a.AutoMark? ==>
        a.rows == AutoMarkRows(db.dndLog, user.userId, DisplayName(user),
                               CoreHabits(db, user.userId, PrevDay(localDate)), PrevDay(localDate))
        && a.dndCount + a.failedCount == |a.rows|
        && lastAutoXSent == old(lastAutoXSent)[user.userId := now]
        && dbWrites == old(dbWrites) + [a.rows]
        && reminderCounts == old(reminderCounts) - {user.userId}
        && lastReminderTime == old(lastReminderTime) - {user.userId}
      ensures a.Remind? <==>
        Eligible(db, user, PrevDay(localDate)) && old(ReminderDue(cfg, user.userId, now, localMinutes))
      ensures a.Remind? ==>
        a.count == old(CountOf(user.userId)) + 1
        && a.message == FormatReminderMessage(DisplayName(user), PrevDay(localDate), a.count,
                          if a.count == 3 then Some(AutomarkMinutes(cfg) - localMinutes) else None)
        && reminderCounts == old(reminderCounts)[user.userId := a.count]
        && lastReminderTime == old(lastReminderTime)[user.userId := now]
        && lastAutoXSent == old(lastAutoXSent) && dbWrites == old(dbWrites)
      ensures !a.AutoMark? && !a.Remind? ==>
        reminderCounts == old(reminderCounts) && lastReminderTime == old(lastReminderTime)
        && lastAutoXSent == old(lastAutoXSent) && dbWrites == old(dbWrites)
      ensures a.AutoMark? ==> localMinutes >= AutomarkMinutes(cfg)
      ensures a.Remind? ==> localMinutes < AutomarkMinutes(cfg) && a.count <= 3
      ensures a.Remind? && old(CountsBounded()) ==> 1 <= a.count
      ensures summarySentToday == old(summarySentToday) && lastResetDay == old(lastResetDay)
      ensures old(CountsBounded()) ==> CountsBounded()
    {
      var userId := user.userId;
      var yesterday := PrevDay(localDate);
      var eligible := CheckEligible(db, user, yesterday);
      if !eligible {
        return Skip;
      }
      var username := DisplayName(user);
      var dateStr := FormatIsoDate(yesterday);
      if localMinutes >= AutomarkMinutes(cfg) {
        if AutoMarkDue(cfg, userId, now, localMinutes) {
          var recheck := db.HasAlreadyCheckedIn(userId, dateStr);
          if !recheck {
            a := AutoMarkUser(db, userId, username, CoreHabits(db, userId, yesterday), yesterday, now);
            return;
          }
        }
        return Wait;
      }
      if !ReminderDue(cfg, userId, now, localMinutes) {
        return Wait;
      }
      var recheck := db.HasAlreadyCheckedIn(userId, dateStr);
      if recheck {
        return Skip;
      }
      a := RemindUser(username, userId, yesterday, cfg, now, localMinutes);
    }

    /**
     * `check_and_prompt`: the prelude, then one decision per user in list order, against the
     * snapshot `db` taken at the start of the tick.
     */
    method CheckAndPrompt(db: DbCache, users: seq<User>, cfg: Config, now: int,
                          istToday: Date, istHour: int, istMinute: int, dayNumber: int,
                          localDates: seq<Date>, localMinutes: seq<int>)
      returns (summary: Option<string>, actions: seq<Action>)
      requires Valid(istToday)
      requires |localDates| == |users| == |localMinutes|
      requires forall i :: 0 <= i < |users| ==> Valid(localDates[i]) && localDates[i] != MinDate
      requires CountsBounded()
      modifies this
      ensures summary.Some? <==> SummaryGuard(old(summarySentToday), istToday, (istHour, istMinute) == cfg.update)
      ensures |actions| == |users|
      ensures forall i :: 0 <= i < |users| && actions[i].Remind? ==> 1 <= actions[i].count <= 3
      ensures CountsBounded()
    {
      summary := TickPrelude(db, istToday, istHour, istMinute, cfg, dayNumber);
      actions := [];
      var i := 0;
      while i < |users|
        invariant 0 <= i <= |users| && |actions| == i
        invariant forall j :: 0 <= j < i && actions[j].Remind? ==> 1 <= actions[j].count <= 3
        invariant CountsBounded()
      {
        var a := UserTick(db, users[i], cfg, now, localDates[i], localMinutes[i]);
        actions := actions + [a];
        i := i + 1;
      }
    }
  }
}
