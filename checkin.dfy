/**
 * The `/checkin` conversation: choosing the date, masking the habits that fall in a
 * DND window, asking the remaining habits one at a time, committing one row per habit,
 * and offering the other date once.  The handlers read the snapshot of the cache taken
 * when the conversation started; rows they write go to `dbWrites`, in order.
 */
module Checkin {
  import opened Wrappers
  import opened Text
  import opened Dates
  import opened Collections
  import opened CachedDb
  import opened Scheduler

  /*
   * The status tokens as the handler spells them: the UTF-8 bytes of the emoji read back
   * as Windows-1252 text.  They are compared literally, exactly as written.
   */
  const ManualDone: string := "\U{E2}\U{153}\U{2026}"
  const ManualMissed: string := "\U{E2}\U{152}"
  const ManualRest: string := "\U{E2}\U{AD}\U{EF}\U{B8}"
  const ManualDnd: string := "\U{E2}\U{203A}\U{201D}"
  const EyesMark: string := "\U{F0}\U{178}\U{2018}\U{20AC}"
  const SnakeMark: string := "\U{F0}\U{178}"

  /**
   * The manual `done` token is not the cache's `Done`, so rows written by this conversation
   * never make up a run of six done days: the rest day is only ever earned from rows written
   * with the real emoji by other means.
   */
  lemma ManualRowsNeverEarnRestDay(log: seq<CoreLogRow>, userId: int, habitId: int, checkDate: string)
    requires forall row :: row in log && row.userId == userId && row.habitId == habitId ==>
      row.habitStatus in {ManualDone, ManualMissed, ManualRest, ManualDnd}
    ensures !RestDayEligible(log, userId, habitId, checkDate)
  {
    var lastSix := LastSix(log, userId, habitId, checkDate);
    if |lastSix| == 6 {
      var row := lastSix[0];
      assert row in lastSix;
      assert row in PriorCheckins(log, userId, habitId, checkDate);
      assert row.habitStatus != Done;
    }
  }

  // ---------------------------------------------------------------- formatters

  const DayAbbrs: seq<string> := ["Mon", "Tue", "Wed", "Thu", "Fri", "Sat", "Sun"]

  /** The English ordinal suffix of a day of the month. */
  function OrdinalSuffix(day: int): (r: string)
    ensures 1 <= day <= 31 ==> (r == "st" <==> day == 1 || day == 21 || day == 31)
    ensures 1 <= day <= 31 ==> (r == "nd" <==> day == 2 || day == 22)
    ensures 1 <= day <= 31 ==> (r == "rd" <==> day == 3 || day == 23)
    ensures 1 <= day <= 31 ==> (r == "th" <==> !(day in {1, 2, 3, 21, 22, 23, 31}))
  {
    if 11 <= day <= 13 then "th"
    else if day % 10 == 1 then "st"
    else if day % 10 == 2 then "nd"
    else if day % 10 == 3 then "rd"
    else "th"
  }

  /** `format_date_button`: `[21st March, Fri]`. */
  function FormatDateButton(d: Date): (r: string)
    requires Valid(d)
    ensures |r| > 1 + |IntToString(d.day)| && r[0] == '[' && r[|r| - 1] == ']'
    ensures r[1..1 + |IntToString(d.day)|] == IntToString(d.day)
    ensures r[1 + |IntToString(d.day)|..|r| - 1]
            == OrdinalSuffix(d.day) + " " + MonthNames[d.month - 1] + ", " + DayAbbrs[Weekday(d)]
    ensures r[|r| - 4..|r| - 1] == DayAbbrs[Weekday(d)]
  {
    var dayText := IntToString(d.day);
    var rest := OrdinalSuffix(d.day) + " " + MonthNames[d.month - 1] + ", " + DayAbbrs[Weekday(d)];
    var r := "[" + (dayText + rest) + "]";
    assert r[1..1 + |dayText|] == (dayText + rest)[..|dayText|] == dayText;
    assert r[1 + |dayText|..|r| - 1] == (dayText + rest)[|dayText|..] == rest;
    r
  }

  /** The two buttons `/checkin` can offer, yesterday's and today's, never read the same. */
  lemma DateButtonsDiffer(d: Date)
    requires Valid(d) && d != MinDate
    ensures FormatDateButton(PrevDay(d)) != FormatDateButton(d)
  {
    var y := PrevDay(d);
    WeekdayOfPrevDay(d);
    DayAbbrsDistinct(Weekday(y), Weekday(d));
    var a, b := FormatDateButton(y), FormatDateButton(d);
    assert a[|a| - 4..|a| - 1] == DayAbbrs[Weekday(y)];
    assert b[|b| - 4..|b| - 1] == DayAbbrs[Weekday(d)];
  }

  /** The seven day abbreviations are pairwise different. */
  lemma DayAbbrsDistinct(i: int, j: int)
    requires 0 <= i < 7 && 0 <= j < 7 && i != j
    ensures DayAbbrs[i] != DayAbbrs[j]
  {
    assert DayAbbrs[i][1..] != DayAbbrs[j][1..] || DayAbbrs[i][0] != DayAbbrs[j][0];
  }

  /** The snake change of an announcement: `+1` with no misses, else minus the misses. */
  function SnakeDelta(missed: nat): string
  {
    if missed == 0 then "+1" else "-" + NatToString(missed)
  }

  /** Read back as a number, the delta is one growth step with no misses, else minus the misses. */
  lemma SnakeDeltaValue(missed: nat)
    ensures PyInt(SnakeDelta(missed)) == Some(if missed == 0 then 1 else -(missed as int))
  {
    if missed == 0 {
      StripOfStripped("+1");
      assert "+1"[1..] == "1";
      PyIntOfDigits("1");
    } else {
      NatToStringValue(missed);
      PyIntOfNegDigits(NatToString(missed));
    }
  }

  function HasStatus(status: string): ((string, string)) -> bool
  {
    (p: (string, string)) => p.1 == status
  }

  /** The lines for one status: the token, a space, the habit text, in summary order. */
  function Tagged(summary: seq<(string, string)>, status: string): seq<string>
  {
    Map(Filter(summary, HasStatus(status)), (p: (string, string)) => status + " " + p.0)
  }

  /** The body of the announcement: DND lines, then done, missed and rest-day lines. */
  function AnnouncementLines(summary: seq<(string, string)>): seq<string>
  {
    Tagged(summary, ManualDnd) + Tagged(summary, ManualDone) + Tagged(summary, ManualMissed)
    + Tagged(summary, ManualRest)
  }

  function MissedCount(summary: seq<(string, string)>): nat
  {
    |Filter(summary, HasStatus(ManualMissed))|
  }

  /** The headline of the announcement: who checked in, and for which date. */
  function CheckinHeadline(username: string, d: Date): string
    requires Valid(d)
  {
    EyesMark + " " + username + " Check-in Complete for " + FormatIsoDate(d) + "!"
  }

  /** The closing line: the snake grows by one with no misses, else shrinks by the misses. */
  function SnakeLine(missed: nat): string
  {
    if missed == 0 then SnakeMark + " Snake grew by " + SnakeDelta(missed)
    else SnakeMark + " Snake shrank by " + SnakeDelta(missed)
  }

  /** `format_checkin_announcement`. */
  function FormatCheckinAnnouncement(username: string, d: Date, summary: seq<(string, string)>): string
    requires Valid(d)
  {
    CheckinHeadline(username, d) + "\n\n" + JoinAll(AnnouncementLines(summary), '\n')
    + "\n" + SnakeLine(MissedCount(summary))
  }

  /**
   * Read line by line, the announcement is the headline, a blank line, the habit lines
   * (DND, done, missed, rest day; one empty line when there are none) and the snake line,
   * which says the snake grew by +1 exactly when nothing was missed.
   */
  lemma CheckinAnnouncementLines(username: string, d: Date, summary: seq<(string, string)>)
    requires Valid(d)
    requires '\n' !in username
    requires forall i :: 0 <= i < |summary| ==> '\n' !in summary[i].0
    ensures Split(FormatCheckinAnnouncement(username, d, summary), '\n')
            == [CheckinHeadline(username, d), ""] + LinePieces(AnnouncementLines(summary))
               + [SnakeLine(MissedCount(summary))]
    ensures SnakeLine(MissedCount(summary)) == SnakeMark + " Snake grew by +1" <==> MissedCount(summary) == 0
    ensures MissedCount(summary) > 0 ==>
      SnakeLine(MissedCount(summary)) == SnakeMark + " Snake shrank by -" + NatToString(MissedCount(summary))
  {
    var missed := MissedCount(summary);
    HeadlineSingle(username, d);
    SnakeLineSingle(missed);
    AnnouncementLinesSingle(summary);
    SplitMessage(CheckinHeadline(username, d), AnnouncementLines(summary), [SnakeLine(missed)]);
    SnakeLineGrewIff(missed);
  }

  /** The snake line reads "grew by +1" exactly when nothing was missed, else "shrank by -k". */
  lemma SnakeLineGrewIff(missed: nat)
    ensures SnakeLine(missed) == SnakeMark + " Snake grew by +1" <==> missed == 0
    ensures missed > 0 ==> SnakeLine(missed) == SnakeMark + " Snake shrank by -" + NatToString(missed)
  {
    if missed > 0 {
      var grew := SnakeMark + " Snake grew by +1";
      var last := SnakeLine(missed);
      assert last[|SnakeMark| + 7] == 's' && grew[|SnakeMark| + 7] == 'g';
    }
  }

  lemma HeadlineSingle(username: string, d: Date)
    requires Valid(d) && '\n' !in username
    ensures '\n' !in CheckinHeadline(username, d)
  {
    var iso := FormatIsoDate(d);
    assert iso == Pad4(d.year) + "-" + Pad2(d.month) + "-" + Pad2(d.day);
    assert forall i :: 0 <= i < |iso| ==> iso[i] != '\n';
  }

  lemma SnakeLineSingle(missed: nat)
    ensures '\n' !in SnakeLine(missed)
  {
    DigitsNoBreak(NatToString(missed));
    var delta := SnakeDelta(missed);
    assert '\n' !in delta;
    if missed == 0 {
      NoBreakJoin3(SnakeMark, " Snake grew by ", delta);
    } else {
      NoBreakJoin3(SnakeMark, " Snake shrank by ", delta);
    }
  }

  /** With habit texts on one line each, no habit line of the announcement breaks. */
  lemma AnnouncementLinesSingle(summary: seq<(string, string)>)
    requires forall i :: 0 <= i < |summary| ==> '\n' !in summary[i].0
    ensures forall i :: 0 <= i < |AnnouncementLines(summary)| ==> '\n' !in AnnouncementLines(summary)[i]
  {
    TaggedSingle(summary, ManualDnd);
    TaggedSingle(summary, ManualDone);
    TaggedSingle(summary, ManualMissed);
    TaggedSingle(summary, ManualRest);
  }

  lemma TaggedSingle(summary: seq<(string, string)>, status: string)
    requires '\n' !in status
    requires forall i :: 0 <= i < |summary| ==> '\n' !in summary[i].0
    ensures forall i :: 0 <= i < |Tagged(summary, status)| ==> '\n' !in Tagged(summary, status)[i]
  {
    var kept := Filter(summary, HasStatus(status));
    FilterMembers(summary, HasStatus(status));
    forall i | 0 <= i < |kept|
      ensures '\n' !in kept[i].0
    {
      assert kept[i] in summary;
    }
  }

  /** When every status is one of the four tokens, each habit gets exactly one line. */
  lemma {:induction false} AnnouncementLineCount(summary: seq<(string, string)>)
    requires forall i :: 0 <= i < |summary| ==> summary[i].1 in {ManualDnd, ManualDone, ManualMissed, ManualRest}
    ensures |AnnouncementLines(summary)| == |summary|
  {
    if summary != [] {
      AnnouncementLineCount(summary[1..]);
    }
  }

  /** `send_checkin_announcement` stays silent when every status is DND, and so for an empty summary. */
  function ShouldAnnounce(summary: seq<(string, string)>): (r: bool)
    ensures r ==> summary != []
    ensures r <==> exists i :: 0 <= i < |summary| && summary[i].1 != ManualDnd
  {
    !(forall i :: 0 <= i < |summary| ==> summary[i].1 == ManualDnd)
  }

  // ---------------------------------------------------------------- callback data

  /** The button data of the date choice. */
  function DateCallback(d: Date): string
    requires Valid(d)
  {
    "date_select|" + FormatIsoDate(d)
  }

  /** `_, value = data.split("|")`: exactly two pieces, else `ValueError`. */
  function CallbackValue(data: string): (r: Option<string>)
    ensures r.None? <==> |Split(data, '|')| != 2
    ensures r.Some? ==> r.value == Split(data, '|')[1] && '|' !in r.value
  {
    var pieces := Split(data, '|');
    if |pieces| == 2 then
      SplitPiecesLackSeparator(data, '|');
      Some(pieces[1])
    else None
  }

  /** The date button reads back as the date it offered. */
  lemma DateCallbackRoundTrip(d: Date)
    requires Valid(d)
    ensures CallbackValue(DateCallback(d)).Some?
    ensures ParseIsoDate(CallbackValue(DateCallback(d)).value) == Some(d)
  {
    var iso := FormatIsoDate(d);
    IsoTextChars(d);
    assert '|' !in iso;
    assert "date_select|" + iso == "date_select" + ['|'] + iso;
    SplitCons("date_select", iso, '|');
    assert Split(iso, '|') == [iso];
    ParseFormatIsoDate(d);
  }

  // ---------------------------------------------------------------- sessions

  datatype Step = End | DateSelection | HabitCheckin | DualCheckinPrompt | Crash

  /** A question about one habit and the buttons it offers. */
  datatype Question = Question(habitId: int, habitText: string, buttons: seq<string>)

  /** The answer buttons: done and missed always, the rest day when earned. */
  function Buttons(restDay: bool): (r: seq<string>)
    ensures ManualDone in r && ManualMissed in r
    ensures ManualRest in r <==> restDay
  {
    [ManualDone, ManualMissed] + (if restDay then [ManualRest] else [])
  }

  /** One user's entry of `user_checkin_states`. */
  datatype Session = Session(habits: seq<(int, string)>, responses: seq<string>, idx: int, date: Date,
                             username: string, dualAvailable: bool, dndMask: seq<bool>)

  /** One response per habit before the cursor; masked habits before it answered `⛔`. */
  predicate SessionShape(s: Session)
  {
    Valid(s.date) && |s.dndMask| == |s.habits| && 0 <= s.idx <= |s.habits| && |s.responses| == s.idx
    && forall j :: 0 <= j < s.idx && s.dndMask[j] ==> s.responses[j] == ManualDnd
  }

  /** Every habit of the session is in a DND window (true of an empty session). */
  predicate AllMasked(s: Session)
  {
    forall i :: 0 <= i < |s.dndMask| ==> s.dndMask[i]
  }

  /** Between two messages a session is finished or waits on a habit that is not masked. */
  predicate SessionOk(s: Session)
  {
    SessionShape(s) && (s.idx < |s.habits| ==> !s.dndMask[s.idx])
  }

  /** The cursor moved past masked habits, each answered `⛔`, as `ask_next_habit` does before asking. */
  function AutoFill(s: Session): (r: Session)
    requires SessionShape(s)
    ensures SessionOk(r)
    ensures r.habits == s.habits && r.dndMask == s.dndMask && r.date == s.date
    ensures r.username == s.username && r.dualAvailable == s.dualAvailable
    ensures s.idx <= r.idx && r.responses[..s.idx] == s.responses
    ensures forall j :: s.idx <= j < r.idx ==> s.dndMask[j] && r.responses[j] == ManualDnd
    decreases |s.habits| - s.idx
  {
    if s.idx < |s.habits| && s.dndMask[s.idx] then
      AutoFill(s.(responses := s.responses + [ManualDnd], idx := s.idx + 1))
    else s
  }

  /** The `(habit_id, habit_text)` pairs of the month's habits, in stored order. */
  function HabitPairs(hs: seq<Habit>): seq<(int, string)>
  {
    seq(|hs|, i requires 0 <= i < |hs| => (hs[i].habitId, hs[i].habitText))
  }

  function MaskFor(log: seq<DndEntry>, userId: int, d: Date, habits: seq<(int, string)>): seq<bool>
  {
    seq(|habits|, i requires 0 <= i < |habits| => InDnd(log, userId, d, habits[i].0))
  }

  /** The texts of the habits in a DND window on `d`, in order. */
  function DndTexts(log: seq<DndEntry>, userId: int, d: Date, habits: seq<(int, string)>): (r: seq<string>)
  {
    if habits == [] then []
    else
      var last := habits[|habits| - 1];
      DndTexts(log, userId, d, habits[..|habits| - 1]) + (if InDnd(log, userId, d, last.0) then [last.1] else [])
  }

  /** The texts of the habits to ask about, in order. */
  function AvailableTexts(log: seq<DndEntry>, userId: int, d: Date, habits: seq<(int, string)>): (r: seq<string>)
  {
    if habits == [] then []
    else
      var last := habits[|habits| - 1];
      AvailableTexts(log, userId, d, habits[..|habits| - 1]) + (if InDnd(log, userId, d, last.0) then [] else [last.1])
  }

  /** The masked and the available habits split the habit list. */
  lemma {:induction false} DndAvailablePartition(log: seq<DndEntry>, userId: int, d: Date, habits: seq<(int, string)>)
    ensures |DndTexts(log, userId, d, habits)| + |AvailableTexts(log, userId, d, habits)| == |habits|
    ensures AvailableTexts(log, userId, d, habits) == [] <==>
      forall i :: 0 <= i < |habits| ==> InDnd(log, userId, d, habits[i].0)
  {
    if habits != [] {
      var front := habits[..|habits| - 1];
      DndAvailablePartition(log, userId, d, front);
      assert forall i :: 0 <= i < |front| ==> front[i] == habits[i];
    }
  }

  /** Nothing is left to ask exactly when every habit is masked, and then some habit is in DND. */
  lemma AllMaskedIff(log: seq<DndEntry>, userId: int, d: Date, habits: seq<(int, string)>)
    ensures AvailableTexts(log, userId, d, habits) == [] <==>
      forall i :: 0 <= i < |habits| ==> MaskFor(log, userId, d, habits)[i]
    ensures habits != [] && AvailableTexts(log, userId, d, habits) == [] ==> DndTexts(log, userId, d, habits) != []
  {
    DndAvailablePartition(log, userId, d, habits);
    var mask := MaskFor(log, userId, d, habits);
    assert forall i :: 0 <= i < |habits| ==> mask[i] == InDnd(log, userId, d, habits[i].0);
  }

  /** The loop of `start_habit_checkin` that builds the mask and the two text lists. */
  method BuildDndMask(db: DbCache, userId: int, d: Date, habits: seq<(int, string)>)
    returns (mask: seq<bool>, dnd: seq<string>, available: seq<string>)
    requires Valid(d)
    ensures mask == MaskFor(db.dndLog, userId, d, habits)
    ensures dnd == DndTexts(db.dndLog, userId, d, habits)
    ensures available == AvailableTexts(db.dndLog, userId, d, habits)
  {
    mask, dnd, available := [], [], [];
    var i := 0;
    while i < |habits|
      invariant 0 <= i <= |habits|
      invariant mask == MaskFor(db.dndLog, userId, d, habits[..i])
      invariant dnd == DndTexts(db.dndLog, userId, d, habits[..i])
      invariant available == AvailableTexts(db.dndLog, userId, d, habits[..i])
    {
      assert habits[..i + 1][..i] == habits[..i];
      var inDnd := db.IsInDndPeriodOn(userId, d, habits[i].0);
      if inDnd {
        dnd := dnd + [habits[i].1];
        mask := mask + [true];
      } else {
        available := available + [habits[i].1];
        mask := mask + [false];
      }
      i := i + 1;
    }
    assert habits[..|habits|] == habits;
  }

  /** The rows `log_and_announce_checkin` hands to the database: `zip` stops at the shorter list. */
  function ManualRows(userId: int, username: string, habits: seq<(int, string)>, responses: seq<string>, d: Date)
    : (rows: seq<Checkin>)
    requires Valid(d)
    ensures |rows| == if |habits| <= |responses| then |habits| else |responses|
    ensures forall i :: 0 <= i < |rows| ==>
      (rows[i].habitId == habits[i].0 && rows[i].habitText == habits[i].1 && rows[i].habitStatus == responses[i]
       && rows[i].userId == userId && rows[i].forDate == FormatIsoDate(d) && rows[i].markedBy == "manual")
  {
    var n := if |habits| <= |responses| then |habits| else |responses|;
    if n == 0 then []
    else
      ManualRows(userId, username, habits[..n - 1], responses[..n - 1], d)
      + [Checkin(FormatIsoDate(d), FormatYearMonth(d), userId, username, habits[n - 1].0, habits[n - 1].1,
                 responses[n - 1], "manual")]
  }

  /** The `for (habit_id, habit_text), status in zip(habits, responses)` loop. */
  method LogRows(userId: int, username: string, habits: seq<(int, string)>, responses: seq<string>, d: Date)
    returns (rows: seq<Checkin>)
    requires Valid(d)
    ensures rows == ManualRows(userId, username, habits, responses, d)
  {
    var forDate := FormatIsoDate(d);
    var yearMonth := FormatYearMonth(d);
    rows := [];
    var i := 0;
    while i < |habits| && i < |responses|
      invariant 0 <= i <= |habits| && i <= |responses|
      invariant rows == ManualRows(userId, username, habits[..i], responses[..i], d)
    {
      assert habits[..i + 1][..i] == habits[..i] && responses[..i + 1][..i] == responses[..i];
      rows := rows + [Checkin(forDate, yearMonth, userId, username, habits[i].0, habits[i].1, responses[i], "manual")];
      i := i + 1;
    }
    ManualRowsPrefix(userId, username, habits, responses, d);
  }

  /** `zip` only looks at the common prefix of its two lists. */
  lemma ManualRowsPrefix(userId: int, username: string, habits: seq<(int, string)>, responses: seq<string>, d: Date)
    requires Valid(d)
    ensures var n := if |habits| <= |responses| then |habits| else |responses|;
      ManualRows(userId, username, habits[..n], responses[..n], d) == ManualRows(userId, username, habits, responses, d)
  {
    var n := if |habits| <= |responses| then |habits| else |responses|;
    if n > 0 {
      assert habits[..n][..n - 1] == habits[..n - 1] && responses[..n][..n - 1] == responses[..n - 1];
    }
  }

  /** A finished session commits one row per habit, and masked habits commit `⛔`. */
  lemma CommittedRows(userId: int, s: Session)
    requires SessionOk(s) && s.idx == |s.habits|
    ensures |ManualRows(userId, s.username, s.habits, s.responses, s.date)| == |s.habits|
    ensures forall i :: 0 <= i < |s.habits| ==>
      ManualRows(userId, s.username, s.habits, s.responses, s.date)[i].habitStatus == s.responses[i]
    ensures forall i :: 0 <= i < |s.habits| && s.dndMask[i] ==>
      ManualRows(userId, s.username, s.habits, s.responses, s.date)[i].habitStatus == ManualDnd
  {
  }

  /** The statuses the all-DND branch logs, one `⛔` per habit. */
  function AllDnd(n: nat): (r: seq<string>)
    ensures |r| == n && forall i :: 0 <= i < n ==> r[i] == ManualDnd
  {
    seq(n, _ => ManualDnd)
  }

  /**
   * The all-DND branch as written passes the habit TEXTS where `(habit_id, habit_text)`
   * pairs are unpacked.  Python unpacks a string of exactly two characters into those two
   * characters, and raises `ValueError` for any other length, before anything is written.
   */
  function AllDndPairsAsWritten(texts: seq<string>): (r: Option<seq<(string, string)>>)
    ensures r.Some? <==> forall i :: 0 <= i < |texts| ==> |texts[i]| == 2
    ensures r.Some? ==> |r.value| == |texts|
  {
    if texts == [] then Some([])
    else if |texts[0]| != 2 then None
    else
      var rest := AllDndPairsAsWritten(texts[1..]);
      assert forall i :: 1 <= i < |texts| ==> texts[i] == texts[1..][i - 1];
      if rest.None? then None else Some([(texts[0][..1], texts[0][1..])] + rest.value)
  }

  /** A habit named `Run` in a DND window makes the all-DND branch raise: nothing is logged. */
  lemma AllDndAsWrittenFails()
    ensures AllDndPairsAsWritten(["Run"]) == None
    ensures AllDndPairsAsWritten(["Go"]) == Some([("G", "o")])
  {
    assert |"Run"| != 2;
    var t := ["Go"];
    assert |t[0]| == 2 && t[1..] == [];
    assert AllDndPairsAsWritten(t[1..]) == Some([]);
    assert t[0][..1] == "G" && t[0][1..] == "o";
    assert AllDndPairsAsWritten(t) == Some([(t[0][..1], t[0][1..])] + []);
    assert (t[0][..1], t[0][1..]) == ("G", "o");
    assert [(t[0][..1], t[0][1..])] + [] == [("G", "o")];
  }

  /** The session after an answer: the answer is recorded at the cursor, then masked habits are skipped. */
  function Answer(s: Session, status: string): (r: Session)
    requires SessionOk(s) && s.idx < |s.habits|
    ensures SessionOk(r) && r.idx > s.idx
    ensures |r.responses| == r.idx && r.responses[..s.idx] == s.responses && r.responses[s.idx] == status
    ensures forall j :: s.idx < j < r.idx ==> r.dndMask[j] && r.responses[j] == ManualDnd
  {
    var next := s.(responses := s.responses + [status], idx := s.idx + 1);
    var r := AutoFill(next);
    assert r.responses[..next.idx] == next.responses;
    assert r.responses[..s.idx] == r.responses[..next.idx][..s.idx];
    r
  }

  /** Recording an answer at the cursor of a session waiting on a habit keeps the session's shape. */
  lemma RecordKeepsShape(s: Session, status: string)
    requires SessionOk(s) && s.idx < |s.habits|
    ensures SessionShape(s.(responses := s.responses + [status], idx := s.idx + 1))
  {
    var next := s.(responses := s.responses + [status], idx := s.idx + 1);
    assert forall j :: 0 <= j < s.idx ==> next.responses[j] == s.responses[j];
  }

  /** A fresh session with some habit not masked stops the cursor on a habit to ask. */
  lemma AutoFillStopsOnAvailable(s: Session, i: int)
    requires SessionShape(s) && s.idx == 0 && 0 <= i < |s.habits| && !s.dndMask[i]
    ensures AutoFill(s).idx < |s.habits|
  {
  }

  /** The conversation's view of one user's habits for a month, as the session starts them. */
  function NewSession(db: DbCache, userId: int, d: Date, username: string, dual: bool): (s: Session)
    requires Valid(d)
    reads db
    ensures SessionShape(s)
  {
    var habits := HabitPairs(db.UserHabitsForMonth(userId, FormatYearMonth(d)));
    Session(habits, [], 0, d, username, dual, MaskFor(db.dndLog, userId, d, habits))
  }

  class Conversation {
    /** The snapshot stored in `context.user_data['db']` when the conversation started. */
    var db: DbCache
    /** `user_checkin_states`. */
    var states: map<int, Session>
    /** Batches handed to `log_checkin_to_db`, oldest first. */
    var dbWrites: seq<seq<Checkin>>
    /** The scheduler's reminder state, reset on a check-in for yesterday. */
    const reminders: ReminderState

    constructor(db: DbCache, reminders: ReminderState)
      ensures this.db == db && this.reminders == reminders && states == map[] && dbWrites == []
    {
      this.db := db;
      this.reminders := reminders;
      states := map[];
      dbWrites := [];
    }

    /** Every stored session is between two messages. */
    predicate Valid()
      reads this
    {
      forall u :: u in states ==> SessionOk(states[u])
    }

    /** The habit under the cursor of `r` is asked with the snapshot's rest-day choice; nothing is written or reset. */
    twostate predicate Asked(userId: int, r: Session, new step: Step, new q: Option<Question>, new offer: Option<Date>)
      requires Dates.Valid(r.date) && 0 <= r.idx < |r.habits|
      reads this, reminders, db
    {
      step == HabitCheckin && offer == None && dbWrites == old(dbWrites)
      && q == Some(Question(r.habits[r.idx].0, r.habits[r.idx].1,
                            Buttons(old(db.CheckRestDayEligibility(userId, r.habits[r.idx].0, FormatIsoDate(r.date))))))
      && unchanged(reminders)
    }

    /**
     * Session `r` is committed as `complete_checkin` does: its rows are written, the reminders are reset
     * exactly when it was for yesterday, and the other date is offered exactly when the session allows a
     * second one and the snapshot has no check-in for that date.
     */
    twostate predicate Committed(userId: int, r: Session, today: Date, new step: Step, new offer: Option<Date>)
      requires Dates.Valid(r.date) && Dates.Valid(today) && today != MinDate
      reads this, reminders, db
    {
      dbWrites == old(dbWrites) + [ManualRows(userId, r.username, r.habits, r.responses, r.date)]
      && (if r.date == PrevDay(today) then
            reminders.reminderCounts == old(reminders.reminderCounts) - {userId}
            && reminders.lastReminderTime == old(reminders.lastReminderTime) - {userId}
          else
            reminders.reminderCounts == old(reminders.reminderCounts)
            && reminders.lastReminderTime == old(reminders.lastReminderTime))
      && (if !r.dualAvailable then step == End && offer == None
          else
            var other := if r.date == today then PrevDay(today) else today;
            if old(CheckedIn(db.dailyScoreLog, userId, FormatIsoDate(other))) then step == End && offer == None
            else step == DualCheckinPrompt && offer == Some(other))
    }

    /** `start_checkin`: yesterday first, else today, else nothing left to check in. */
    method StartCheckin(snapshot: DbCache, userId: int, today: Date) returns (step: Step, selected: Option<Date>)
      requires Dates.Valid(today) && today != MinDate
      modifies this`db
      ensures db == snapshot
      ensures var hasToday := CheckedIn(snapshot.dailyScoreLog, userId, FormatIsoDate(today));
        var hasYesterday := CheckedIn(snapshot.dailyScoreLog, userId, FormatIsoDate(PrevDay(today)));
        if hasToday && hasYesterday then step == End && selected == None
        else step == DateSelection && selected == Some(if !hasYesterday then PrevDay(today) else today)
    {
      db := snapshot;
      var yesterday := PrevDay(today);
      var hasToday := db.HasAlreadyCheckedIn(userId, FormatIsoDate(today));
      var hasYesterday := db.HasAlreadyCheckedIn(userId, FormatIsoDate(yesterday));
      if hasToday && hasYesterday {
        return End, None;
      }
      if !hasYesterday {
        selected := Some(yesterday);
      } else {
        selected := Some(today);
      }
      step := DateSelection;
    }

    /** `prompt_dual_checkin`: offer the other date unless it is already checked in. */
    method PromptDualCheckin(userId: int, s: Session, today: Date) returns (step: Step, offer: Option<Date>)
      requires Dates.Valid(today) && today != MinDate
      ensures var other := if s.date == today then PrevDay(today) else today;
        if CheckedIn(db.dailyScoreLog, userId, FormatIsoDate(other)) then step == End && offer == None
        else step == DualCheckinPrompt && offer == Some(other)
    {
      var other := if s.date == today then PrevDay(today) else today;
      var done := db.HasAlreadyCheckedIn(userId, FormatIsoDate(other));
      if done {
        return End, None;
      }
      step, offer := DualCheckinPrompt, Some(other);
    }

    /** `complete_checkin`, then the dual offer when the session allows one. */
    method Finish(userId: int, s: Session, today: Date) returns (step: Step, offer: Option<Date>)
      requires SessionOk(s) && s.idx == |s.habits| && Dates.Valid(today) && today != MinDate
      modifies this`dbWrites, reminders`reminderCounts, reminders`lastReminderTime
      ensures Committed(userId, s, today, step, offer)
    {
      var rows := LogRows(userId, s.username, s.habits, s.responses, s.date);
      dbWrites := dbWrites + [rows];
      if s.date == PrevDay(today) {
        reminders.ResetReminderCount(userId);
      }
      if s.dualAvailable {
        step, offer := PromptDualCheckin(userId, s, today);
      } else {
        step, offer := End, None;
      }
    }

    /** `ask_next_habit` on session `s`: answer masked habits with `⛔`, store it, then ask the next one or commit. */
    method AskNextHabit(userId: int, s: Session, today: Date) returns (step: Step, q: Option<Question>, offer: Option<Date>)
      requires Valid() && SessionShape(s) && s.idx < |s.habits|
      requires Dates.Valid(today) && today != MinDate
      modifies this`states, this`dbWrites, reminders`reminderCounts, reminders`lastReminderTime
      ensures Valid()
      ensures var r := AutoFill(s);
        states == old(states)[userId := r]
        && (r.idx < |r.habits| ==> Asked(userId, r, step, q, offer))
        && (r.idx == |r.habits| ==> q == None && Committed(userId, r, today, step, offer))
    {
      var cur := s;
      while cur.idx < |cur.habits| && cur.dndMask[cur.idx]
        invariant SessionShape(cur) && AutoFill(cur) == AutoFill(s)
        decreases |cur.habits| - cur.idx
      {
        cur := cur.(responses := cur.responses + [ManualDnd], idx := cur.idx + 1);
      }
      assert AutoFill(cur) == cur;
      step, q, offer := Present(userId, cur, today);
    }

    /** Store a session that waits on an unmasked habit or is finished; ask that habit, or commit the session. */
    method Present(userId: int, r: Session, today: Date) returns (step: Step, q: Option<Question>, offer: Option<Date>)
      requires Valid() && SessionOk(r)
      requires Dates.Valid(today) && today != MinDate
      modifies this`states, this`dbWrites, reminders`reminderCounts, reminders`lastReminderTime
      ensures Valid()
      ensures states == old(states)[userId := r]
      ensures r.idx < |r.habits| ==> Asked(userId, r, step, q, offer)
      ensures r.idx == |r.habits| ==> q == None && Committed(userId, r, today, step, offer)
    {
      states := states[userId := r];
      if r.idx == |r.habits| {
        step, offer := Finish(userId, r, today);
        q := None;
      } else {
        var habitId := r.habits[r.idx].0;
        var restDay := db.CheckRestDayEligibility(userId, habitId, FormatIsoDate(r.date));
        step, q, offer := HabitCheckin, Some(Question(habitId, r.habits[r.idx].1, Buttons(restDay))), None;
      }
    }

    /** `start_habit_checkin`: no habits ends; all masked logs `⛔` for each and ends; otherwise ask. */
    method StartHabitCheckin(userId: int, d: Date, username: string, dual: bool, today: Date)
      returns (step: Step, q: Option<Question>, offer: Option<Date>)
      requires Valid() && Dates.Valid(d) && Dates.Valid(today) && today != MinDate
      modifies this`states, this`dbWrites, reminders`reminderCounts, reminders`lastReminderTime
      ensures Valid() && unchanged(reminders)
      ensures var s := old(NewSession(db, userId, d, username, dual));
        s.habits == [] ==> step == End && states == old(states) && dbWrites == old(dbWrites)
      ensures var s := old(NewSession(db, userId, d, username, dual));
        s.habits != [] && AllMasked(s) ==>
          step == End && states == old(states)
          && dbWrites == old(dbWrites) + [ManualRows(userId, username, s.habits, AllDnd(|s.habits|), d)]
      ensures var s := old(NewSession(db, userId, d, username, dual));
        !AllMasked(s) ==>
          step == HabitCheckin && q.Some? && dbWrites == old(dbWrites)
          && states == old(states)[userId := AutoFill(s)] && AutoFill(s).idx < |s.habits|
    {
      ghost var s0 := NewSession(db, userId, d, username, dual);
      var habits := HabitPairs(db.UserHabitsForMonth(userId, FormatYearMonth(d)));
      if habits == [] {
        return End, None, None;
      }
      step, q, offer := StartOnHabits(userId, habits, d, username, dual, today);
      assert s0 == Session(habits, [], 0, d, username, dual, MaskFor(db.dndLog, userId, d, habits));
    }

    /** `start_habit_checkin` once the month has habits: mask them, then log all `⛔` or ask. */
    method StartOnHabits(userId: int, habits: seq<(int, string)>, d: Date, username: string, dual: bool, today: Date)
      returns (step: Step, q: Option<Question>, offer: Option<Date>)
      requires Valid() && habits != [] && Dates.Valid(d) && Dates.Valid(today) && today != MinDate
      modifies this`states, this`dbWrites, reminders`reminderCounts, reminders`lastReminderTime
      ensures Valid() && unchanged(reminders)
      ensures var s := Session(habits, [], 0, d, username, dual, old(MaskFor(db.dndLog, userId, d, habits)));
        AllMasked(s) ==>
          step == End && states == old(states)
          && dbWrites == old(dbWrites) + [ManualRows(userId, username, habits, AllDnd(|habits|), d)]
      ensures var s := Session(habits, [], 0, d, username, dual, old(MaskFor(db.dndLog, userId, d, habits)));
        !AllMasked(s) ==>
          step == HabitCheckin && q.Some? && dbWrites == old(dbWrites)
          && states == old(states)[userId := AutoFill(s)] && AutoFill(s).idx < |habits|
    {
      var mask, dnd, available := BuildDndMask(db, userId, d, habits);
      AllMaskedIff(db.dndLog, userId, d, habits);
      if available == [] && dnd != [] {
        LogAllDnd(userId, username, habits, d);
        return End, None, None;
      }
      var s := Session(habits, [], 0, d, username, dual, mask);
      var k :| 0 <= k < |habits| && !mask[k];
      step, q, offer := OpenSession(userId, s, k, today);
    }

    /** The all-DND branch of `start_habit_checkin`: one `⛔` row per habit. */
    method LogAllDnd(userId: int, username: string, habits: seq<(int, string)>, d: Date)
      requires Dates.Valid(d)
      modifies this`dbWrites
      ensures dbWrites == old(dbWrites) + [ManualRows(userId, username, habits, AllDnd(|habits|), d)]
    {
      var rows := LogRows(userId, username, habits, AllDnd(|habits|), d);
      dbWrites := dbWrites + [rows];
    }

    /** Store a fresh session and ask its first habit that is not masked. */
    method OpenSession(userId: int, s: Session, k: int, today: Date)
      returns (step: Step, q: Option<Question>, offer: Option<Date>)
      requires Valid() && SessionShape(s) && s.idx == 0 && 0 <= k < |s.habits| && !s.dndMask[k]
      requires Dates.Valid(today) && today != MinDate
      modifies this`states, this`dbWrites, reminders`reminderCounts, reminders`lastReminderTime
      ensures Valid() && unchanged(reminders)
      ensures step == HabitCheckin && q.Some? && dbWrites == old(dbWrites)
      ensures states == old(states)[userId := AutoFill(s)] && AutoFill(s).idx < |s.habits|
    {
      AutoFillStopsOnAvailable(s, k);
      step, q, offer := Advance(userId, s, today);
    }

    /** Store the session, then ask its next habit, or commit it when no habit is left to ask. */
    method Advance(userId: int, s: Session, today: Date)
      returns (step: Step, q: Option<Question>, offer: Option<Date>)
      requires Valid() && SessionShape(s) && Dates.Valid(today) && today != MinDate
      modifies this`states, this`dbWrites, reminders`reminderCounts, reminders`lastReminderTime
      ensures Valid()
      ensures states == old(states)[userId := AutoFill(s)]
      ensures var r := AutoFill(s);
        (r.idx < |r.habits| ==> Asked(userId, r, step, q, offer))
        && (r.idx == |r.habits| ==> q == None && Committed(userId, r, today, step, offer))
    {
      if s.idx < |s.habits| {
        step, q, offer := AskNextHabit(userId, s, today);
      } else {
        assert AutoFill(s) == s;
        step, q, offer := Present(userId, s, today);
      }
    }

    /** The answer to the habit under the cursor: record it, move on, then ask or commit. */
    method RecordAnswer(userId: int, status: string, today: Date)
      returns (step: Step, q: Option<Question>, offer: Option<Date>)
      requires Valid() && userId in states && states[userId].idx < |states[userId].habits|
      requires Dates.Valid(today) && today != MinDate
      modifies this`states, this`dbWrites, reminders`reminderCounts, reminders`lastReminderTime
      ensures Valid()
      ensures states == old(states)[userId := Answer(old(states[userId]), status)]
      ensures var r := Answer(old(states[userId]), status);
        (r.idx < |r.habits| ==> Asked(userId, r, step, q, offer))
        && (r.idx == |r.habits| ==> q == None && Committed(userId, r, today, step, offer))
    {
      var s := states[userId];
      RecordKeepsShape(s, status);
      s := s.(responses := s.responses + [status], idx := s.idx + 1);
      assert Answer(old(states[userId]), status) == AutoFill(s);
      step, q, offer := Advance(userId, s, today);
    }

    /** `handle_habit_response`: no session ends; unreadable data or a finished session raises. */
    method HandleHabitResponse(userId: int, data: string, today: Date)
      returns (step: Step, q: Option<Question>, offer: Option<Date>)
      requires Valid() && Dates.Valid(today) && today != MinDate
      modifies this`states, this`dbWrites, reminders`reminderCounts, reminders`lastReminderTime
      ensures Valid()
      ensures userId !in old(states) ==>
        step == End && q == None && offer == None
        && states == old(states) && dbWrites == old(dbWrites) && unchanged(reminders)
      ensures userId in old(states) && (CallbackValue(data).None? || old(states[userId]).idx == |old(states[userId]).habits|) ==>
        step == Crash && q == None && offer == None
        && states == old(states) && dbWrites == old(dbWrites) && unchanged(reminders)
      ensures userId in old(states) && CallbackValue(data).Some? && old(states[userId]).idx < |old(states[userId]).habits| ==>
        var r := Answer(old(states[userId]), CallbackValue(data).value);
        states == old(states)[userId := r]
        && (r.idx < |r.habits| ==> Asked(userId, r, step, q, offer))
        && (r.idx == |r.habits| ==> q == None && Committed(userId, r, today, step, offer))
    {
      if userId !in states {
        return End, None, None;
      }
      var status := CallbackValue(data);
      if status.None? || states[userId].idx >= |states[userId].habits| {
        return Crash, None, None;
      }
      step, q, offer := RecordAnswer(userId, status.value, today);
    }

    /** `handle_date_selection`: read the chosen date back, then start; the step is always `HabitCheckin`. */
    method HandleDateSelection(userId: int, username: string, data: string, today: Date)
      returns (step: Step, q: Option<Question>, offer: Option<Date>)
      requires Valid() && Dates.Valid(today) && today != MinDate
      modifies this`states, this`dbWrites, reminders`reminderCounts, reminders`lastReminderTime
      ensures Valid()
      ensures CallbackValue(data).None? || ParseIsoDate(CallbackValue(data).value).None? ==>
        step == Crash && states == old(states) && dbWrites == old(dbWrites)
      ensures CallbackValue(data).Some? && ParseIsoDate(CallbackValue(data).value).Some? ==>
        var d := ParseIsoDate(CallbackValue(data).value).value;
        var other := if d == today then PrevDay(today) else today;
        var s := old(NewSession(db, userId, d, username, !CheckedIn(db.dailyScoreLog, userId, FormatIsoDate(other))));
        step == HabitCheckin
        && (s.habits == [] ==> states == old(states) && dbWrites == old(dbWrites))
        && (s.habits != [] && AllMasked(s) ==>
              states == old(states)
              && dbWrites == old(dbWrites) + [ManualRows(userId, username, s.habits, AllDnd(|s.habits|), d)])
        && (!AllMasked(s) ==>
              q.Some? && dbWrites == old(dbWrites) && states == old(states)[userId := AutoFill(s)])
    {
      var value := CallbackValue(data);
      if value.None? {
        return Crash, None, None;
      }
      var parsed := ParseIsoDate(value.value);
      if parsed.None? {
        return Crash, None, None;
      }
      var selected := parsed.value;
      var other := if selected == today then PrevDay(today) else today;
      var hasOther := db.HasAlreadyCheckedIn(userId, FormatIsoDate(other));
      var _, q', offer' := StartHabitCheckin(userId, selected, username, !hasOther, today);
      step, q, offer := HabitCheckin, q', offer';
    }

    /** `handle_dual_checkin_response`: on `yes`, a second session for the other date, without a further offer. */
    method HandleDualCheckinResponse(userId: int, data: string, today: Date)
      returns (step: Step, q: Option<Question>, offer: Option<Date>)
      requires Valid() && Dates.Valid(today) && today != MinDate
      modifies this`states, this`dbWrites, reminders`reminderCounts, reminders`lastReminderTime
      ensures Valid()
      ensures CallbackValue(data).None? ==> step == Crash && states == old(states) && dbWrites == old(dbWrites)
      ensures CallbackValue(data) == Some("no") ==> step == End && states == old(states) && dbWrites == old(dbWrites)
      ensures CallbackValue(data).Some? && CallbackValue(data).value != "no" ==>
        var other := if old(CheckedIn(db.dailyScoreLog, userId, FormatIsoDate(today))) then PrevDay(today) else today;
        if old(CheckedIn(db.dailyScoreLog, userId, FormatIsoDate(other)))
           || userId !in old(states) || old(states[userId].username) == ""
        then step == End && states == old(states) && dbWrites == old(dbWrites)
        else
          var s := old(NewSession(db, userId, other, states[userId].username, false));
          step == HabitCheckin
          && (s.habits == [] ==> states == old(states) && dbWrites == old(dbWrites))
          && (s.habits != [] && AllMasked(s) ==>
                states == old(states)
                && dbWrites == old(dbWrites) + [ManualRows(userId, s.username, s.habits, AllDnd(|s.habits|), other)])
          && (!AllMasked(s) ==>
                q.Some? && dbWrites == old(dbWrites) && states == old(states)[userId := AutoFill(s)])
    {
      var value := CallbackValue(data);
      if value.None? {
        return Crash, None, None;
      }
      if value.value == "no" {
        return End, None, None;
      }
      var yesterday := PrevDay(today);
      var hasToday := db.HasAlreadyCheckedIn(userId, FormatIsoDate(today));
      var other := if hasToday then yesterday else today;
      var hasOther := db.HasAlreadyCheckedIn(userId, FormatIsoDate(other));
      if hasOther {
        return End, None, None;
      }
      if userId !in states || states[userId].username == "" {
        return End, None, None;
      }
      step, q, offer := StartSecondSession(userId, other, today);
    }

    /** The second session, under the username of the first, with no further offer. */
    method StartSecondSession(userId: int, other: Date, today: Date)
      returns (step: Step, q: Option<Question>, offer: Option<Date>)
      requires Valid() && userId in states && Dates.Valid(other) && Dates.Valid(today) && today != MinDate
      modifies this`states, this`dbWrites, reminders`reminderCounts, reminders`lastReminderTime
      ensures Valid() && step == HabitCheckin
      ensures var s := old(NewSession(db, userId, other, states[userId].username, false));
        (s.habits == [] ==> states == old(states) && dbWrites == old(dbWrites))
        && (s.habits != [] && AllMasked(s) ==>
              states == old(states)
              && dbWrites == old(dbWrites) + [ManualRows(userId, s.username, s.habits, AllDnd(|s.habits|), other)])
        && (!AllMasked(s) ==>
              q.Some? && dbWrites == old(dbWrites) && states == old(states)[userId := AutoFill(s)])
    {
      var _, q', offer' := StartHabitCheckin(userId, other, states[userId].username, false, today);
      step, q, offer := HabitCheckin, q', offer';
    }
  }
}
