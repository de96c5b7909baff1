/**
 * The `/dnd` conversation: listing, adding, editing and deleting Do Not Disturb
 * periods.  Each change goes to the cached tables at once and to a per-user queue of
 * pending database operations, which is handed to the database, in order, when the
 * session ends or an addition is confirmed.
 */
module Dnd {
  import opened Wrappers
  import opened Text
  import opened Dates
  import opened CachedDb
  import Checkin

  /** An entry of `pending_dnd_changes`: the operation and the arguments it is replayed with. */
  datatype PendingOp =
    | Add(yearMonth: string, username: string, userId: int, habitId: int, habitText: string,
          startDate: string, endDate: string)
    | Edit(dndLogId: int, newHabitText: Option<string>, newStartDate: Option<string>, newEndDate: Option<string>)
    | Delete(dndLogId: int)

  /**
   * The conversation state a handler moves to.  `Stay` is a handler returning `None`
   * (the conversation keeps its state); `Crash` is an exception the handler does not catch.
   */
  datatype Step = End | DndList | HabitSelection | DateInput | Confirmation
                | EditSelect | EditAction | EditDates | EditHabit | EditContinue | Stay | Crash

  /** The number-emoji buttons of the add flow; there are ten of them. */
  const EmojiButtons: nat := 10

  /** `calculate_days_difference`: both ends counted; `None` where `strptime` raises. */
  function DaysDifference(startDate: string, endDate: string): (r: Option<int>)
    ensures r.Some? <==> ParseIsoDate(startDate).Some? && ParseIsoDate(endDate).Some?
  {
    match (ParseIsoDate(startDate), ParseIsoDate(endDate))
    case (Some(s), Some(e)) => Some(DaysBetween(s, e) + 1)
    case _ => None
  }

  /** A period counts at least one day exactly when it does not end before it starts, one day when it is a single date. */
  lemma DaysDifferencePositive(startDate: string, endDate: string)
    requires DaysDifference(startDate, endDate).Some?
    ensures var s, e := ParseIsoDate(startDate).value, ParseIsoDate(endDate).value;
      (DaysDifference(startDate, endDate).value >= 1 <==> AtOrBefore(s, e))
      && (DaysDifference(startDate, endDate).value == 1 <==> s == e)
  {
    OrdinalOrder(ParseIsoDate(startDate).value, ParseIsoDate(endDate).value);
  }

  /** What a "START END" message reads as; only `Period` is accepted. */
  datatype DatePair =
    | WrongCount
    | BadDate
    | Reversed
    | Period(startText: string, endText: string, start: Date, end: Date)

  /**
   * The check shared by `handle_date_input` and `dnd_edit_dates`: exactly two
   * whitespace-separated tokens, both `%Y-%m-%d` dates, the first not after the second.
   */
  function ReadDatePair(text: string): (r: DatePair)
    ensures r.WrongCount? <==> |Words(Strip(text))| != 2
    ensures r.Period? <==> PeriodText(Words(Strip(text)))
    ensures r.Period? ==> Words(Strip(text)) == [r.startText, r.endText]
    ensures r.Period? ==> ParseIsoDate(r.startText) == Some(r.start) && ParseIsoDate(r.endText) == Some(r.end)
    ensures r.Period? ==> AtOrBefore(r.start, r.end)
  {
    var w := Words(Strip(text));
    if |w| != 2 then WrongCount
    else
      var a, b := ParseIsoDate(w[0]), ParseIsoDate(w[1]);
      if a.None? || b.None? then BadDate
      else if Before(b.value, a.value) then Reversed
      else Period(w[0], w[1], a.value, b.value)
  }

  /** Two tokens, both dates, the first not after the second. */
  predicate PeriodText(w: seq<string>)
  {
    |w| == 2 && ParseIsoDate(w[0]).Some? && ParseIsoDate(w[1]).Some?
    && AtOrBefore(ParseIsoDate(w[0]).value, ParseIsoDate(w[1]).value)
  }

  /** An accepted period counts its days, both ends included: at least one. */
  lemma AcceptedPeriodLength(text: string)
    requires ReadDatePair(text).Period?
    ensures var p := ReadDatePair(text);
      DaysDifference(p.startText, p.endText) == Some(DayCount(p.start, p.end))
  {
    var p := ReadDatePair(text);
    ParsedPeriodLength(p.startText, p.endText, p.start, p.end);
  }

  /** Two texts that read as an ordered pair of dates are `DayCount` days apart, both ends included. */
  lemma ParsedPeriodLength(a: string, b: string, s: Date, e: Date)
    requires ParseIsoDate(a) == Some(s) && ParseIsoDate(b) == Some(e) && AtOrBefore(s, e)
    ensures DaysDifference(a, b) == Some(DayCount(s, e))
  {
    DayCountIsDaysBetween(s, e);
  }

  /** The example the bot prints, `START END` in `%Y-%m-%d`, is read back as that period. */
  lemma DatePairRoundTrip(s: Date, e: Date)
    requires Valid(s) && Valid(e) && AtOrBefore(s, e)
    ensures ReadDatePair(FormatIsoDate(s) + " " + FormatIsoDate(e))
         == Period(FormatIsoDate(s), FormatIsoDate(e), s, e)
  {
    var a, b := FormatIsoDate(s), FormatIsoDate(e);
    IsoTextHasNoSpace(s);
    IsoTextHasNoSpace(e);
    WordsOfTwo(a, b);
    ParseFormatIsoDate(s);
    ParseFormatIsoDate(e);
  }

  /** Two words joined by a space are split back into those two words. */
  lemma WordsOfTwo(a: string, b: string)
    requires a != "" && b != ""
    requires forall i :: 0 <= i < |a| ==> !IsSpace(a[i])
    requires forall i :: 0 <= i < |b| ==> !IsSpace(b[i])
    ensures Words(Strip(a + " " + b)) == [a, b]
  {
    var text := a + " " + b;
    assert text[0] == a[0] && text[|text| - 1] == b[|b| - 1];
    StripOfStripped(text);
    assert text == a + (" " + b);
    WordThenRest(a, " " + b);
    SpaceThenWords(b);
    WordsOfOne(b);
  }

  /** `strftime('%Y-%m-%d')` prints digits and dashes only. */
  lemma IsoTextHasNoSpace(d: Date)
    requires Valid(d)
    ensures forall i :: 0 <= i < |FormatIsoDate(d)| ==> !IsSpace(FormatIsoDate(d)[i])
  {
    IsoTextChars(d);
  }

  /** Python's `list.remove(x)`: drops the first occurrence. */
  function RemoveFirst(s: seq<int>, x: int): (r: seq<int>)
    requires x in s
    ensures multiset(r) == multiset(s) - multiset{x}
  {
    if s[0] == x then
      assert s == [s[0]] + s[1..];
      s[1..]
    else
      assert s == [s[0]] + s[1..];
      [s[0]] + RemoveFirst(s[1..], x)
  }

  /** The selection as it stands after a number button: removed when present, else appended. */
  function Toggle(selected: seq<int>, n: int): (r: seq<int>)
  {
    if n in selected then RemoveFirst(selected, n) else selected + [n]
  }

  /** No habit number is selected twice. */
  ghost predicate NoRepeats(s: seq<int>)
  {
    forall x :: multiset(s)[x] <= 1
  }

  /** A toggle flips exactly `n`'s membership and keeps the selection free of repeats. */
  lemma ToggleFlips(selected: seq<int>, n: int)
    requires NoRepeats(selected)
    ensures NoRepeats(Toggle(selected, n))
    ensures forall m :: m in Toggle(selected, n) <==> (if m == n then n !in selected else m in selected)
  {
    var r := Toggle(selected, n);
    assert forall m :: m in r <==> multiset(r)[m] > 0;
    assert forall m :: m in selected <==> multiset(selected)[m] > 0;
  }

  /** Pressing the same number twice gives the selection back (as a collection; a removed number comes back at the end). */
  lemma ToggleTwice(selected: seq<int>, n: int)
    requires NoRepeats(selected)
    ensures multiset(Toggle(Toggle(selected, n), n)) == multiset(selected)
    ensures n !in selected ==> Toggle(Toggle(selected, n), n) == selected
  {
    var once := Toggle(selected, n);
    assert n in selected <==> multiset(selected)[n] > 0;
    if n !in selected {
      assert n in once;
      var twice := Toggle(once, n);
      RemoveLast(selected, n);
    } else {
      assert multiset(once)[n] == 0;
      assert n !in once;
    }
  }

  /** Removing a number that occurs only at the end restores what came before it. */
  lemma {:induction false} RemoveLast(s: seq<int>, n: int)
    requires n !in s
    ensures RemoveFirst(s + [n], n) == s
  {
    if s != [] {
      assert (s + [n])[1..] == s[1..] + [n];
      RemoveLast(s[1..], n);
      assert s == [s[0]] + s[1..];
    }
  }

  /** The "all" button's selection, `list(range(1, n + 1))`. */
  function AllSelection(n: nat): (r: seq<int>)
    ensures |r| == n && NoRepeats(r)
    ensures forall i :: 0 <= i < n ==> r[i] == i + 1
  {
    var r := seq(n, i requires 0 <= i < n => i + 1);
    AscendingNoRepeats(r);
    r
  }

  lemma {:induction false} AscendingNoRepeats(r: seq<int>)
    requires forall i, j :: 0 <= i < j < |r| ==> r[i] < r[j]
    ensures NoRepeats(r)
  {
    if r != [] {
      AscendingNoRepeats(r[1..]);
      assert r == [r[0]] + r[1..];
      assert r[0] !in r[1..];
    }
  }

  /** Python's `s[k]`, negative indices counting from the end; `None` is IndexError. */
  function PyAt<T>(s: seq<T>, k: int): (r: Option<T>)
    ensures r.Some? <==> -|s| <= k < |s|
  {
    if 0 <= k < |s| then Some(s[k]) else if -|s| <= k < 0 then Some(s[|s| + k]) else None
  }

  /** `[habits[i - 1] for i in selected]`: the selected habits, or `None` when an index raises. */
  function SelectedHabits(habits: seq<Habit>, selected: seq<int>): (r: Option<seq<Habit>>)
    ensures r.Some? <==> forall k :: 0 <= k < |selected| ==> PyAt(habits, selected[k] - 1).Some?
    ensures r.Some? ==> |r.value| == |selected|
    ensures r.Some? ==> forall k :: 0 <= k < |selected| ==> r.value[k] == PyAt(habits, selected[k] - 1).value
  {
    if selected == [] then Some([])
    else
      var rest := SelectedHabits(habits, selected[..|selected| - 1]);
      var last := PyAt(habits, selected[|selected| - 1] - 1);
      if rest.None? || last.None? then None else Some(rest.value + [last.value])
  }

  /** Every number the "all" button selects names one of the habits, in order. */
  lemma AllSelectsEveryHabit(habits: seq<Habit>)
    ensures SelectedHabits(habits, AllSelection(|habits|)) == Some(habits)
  {
    var all := AllSelection(|habits|);
    SelectPrefix(habits, all);
    assert habits[..|all|] == habits;
  }

  /** The numbers `1, 2, ..., n` select the first `n` habits, in order. */
  lemma {:induction false} SelectPrefix(habits: seq<Habit>, sel: seq<int>)
    requires |sel| <= |habits|
    requires forall i :: 0 <= i < |sel| ==> sel[i] == i + 1
    ensures SelectedHabits(habits, sel) == Some(habits[..|sel|])
  {
    if sel != [] {
      var n := |sel| - 1;
      SelectPrefix(habits, sel[..n]);
      assert sel[n] - 1 == n;
      assert habits[..n + 1] == habits[..n] + [habits[n]];
    }
  }

  /** The cache rows a confirmation adds for `hs`, numbered on from `base`. */
  function PeriodEntries(base: int, hs: seq<Habit>, yearMonth: string, username: string, userId: int,
                         s: Date, e: Date, now: int): (r: seq<DndEntry>)
    ensures |r| == |hs|
    ensures forall k :: 0 <= k < |hs| ==>
              (r[k].dndLogId == base + k + 1 && r[k].userId == userId
               && r[k].habitId == hs[k].habitId && r[k].startDate == s && r[k].endDate == e)
  {
    if hs == [] then []
    else
      var n := |hs| - 1;
      PeriodEntries(base, hs[..n], yearMonth, username, userId, s, e, now)
      + [DndEntry(base + n + 1, yearMonth, username, userId, hs[n].habitId, hs[n].habitText, s, e, now)]
  }

  /** The operations a confirmation queues for `hs`. */
  function AddOps(hs: seq<Habit>, yearMonth: string, username: string, userId: int,
                  startDate: string, endDate: string): (r: seq<PendingOp>)
    ensures |r| == |hs|
    ensures forall k :: 0 <= k < |hs| ==> r[k].Add? && r[k].habitId == hs[k].habitId && r[k].userId == userId
  {
    if hs == [] then []
    else
      var n := |hs| - 1;
      AddOps(hs[..n], yearMonth, username, userId, startDate, endDate)
      + [Add(yearMonth, username, userId, hs[n].habitId, hs[n].habitText, startDate, endDate)]
  }

  /** Extending the selection by one habit appends that habit's row. */
  lemma PeriodEntriesSnoc(base: int, hs: seq<Habit>, i: nat, yearMonth: string, username: string, userId: int,
                          s: Date, e: Date, now: int)
    requires i < |hs|
    ensures PeriodEntries(base, hs[..i + 1], yearMonth, username, userId, s, e, now)
         == PeriodEntries(base, hs[..i], yearMonth, username, userId, s, e, now)
            + [DndEntry(base + i + 1, yearMonth, username, userId, hs[i].habitId, hs[i].habitText, s, e, now)]
  {
    assert hs[..i + 1][..i] == hs[..i];
  }

  /** The rows of a confirmation numbered on from the largest id leave the last of them the largest id. */
  lemma {:induction false} MaxAfterPeriod(log: seq<DndEntry>, hs: seq<Habit>, yearMonth: string, username: string,
                                          userId: int, s: Date, e: Date, now: int)
    ensures MaxDndId(log + PeriodEntries(MaxDndId(log), hs, yearMonth, username, userId, s, e, now)) == MaxDndId(log) + |hs|
  {
    var base := MaxDndId(log);
    if hs == [] {
      assert log + [] == log;
    } else {
      var n := |hs| - 1;
      var prefix := PeriodEntries(base, hs[..n], yearMonth, username, userId, s, e, now);
      var last := DndEntry(base + n + 1, yearMonth, username, userId, hs[n].habitId, hs[n].habitText, s, e, now);
      MaxAfterPeriod(log, hs[..n], yearMonth, username, userId, s, e, now);
      MaxDndIdSnoc(log + prefix, last);
      assert log + (prefix + [last]) == (log + prefix) + [last];
    }
  }

  /** Extending the selection by one habit appends that habit's queued addition. */
  lemma AddOpsSnoc(hs: seq<Habit>, i: nat, yearMonth: string, username: string, userId: int,
                   startDate: string, endDate: string)
    requires i < |hs|
    ensures AddOps(hs[..i + 1], yearMonth, username, userId, startDate, endDate)
         == AddOps(hs[..i], yearMonth, username, userId, startDate, endDate)
            + [Add(yearMonth, username, userId, hs[i].habitId, hs[i].habitText, startDate, endDate)]
  {
    assert hs[..i + 1][..i] == hs[..i];
  }

  /** After a confirmation, every selected habit is in DND on every day of the period, under ids no earlier row carries. */
  lemma ConfirmedPeriodCovers(log: seq<DndEntry>, hs: seq<Habit>, yearMonth: string, username: string,
                              userId: int, s: Date, e: Date, now: int)
    ensures forall k, d :: (0 <= k < |hs| && AtOrBefore(s, d) && AtOrBefore(d, e)
                            ==> InDnd(log + PeriodEntries(MaxDndId(log), hs, yearMonth, username, userId, s, e, now),
                                      userId, d, hs[k].habitId))
    ensures forall k, j :: (0 <= k < |hs| && 0 <= j < |log|
                            ==> PeriodEntries(MaxDndId(log), hs, yearMonth, username, userId, s, e, now)[k].dndLogId
                                != log[j].dndLogId)
  {
    var added := PeriodEntries(MaxDndId(log), hs, yearMonth, username, userId, s, e, now);
    MaxDndIdBounds(log);
    forall k, d | 0 <= k < |hs| && AtOrBefore(s, d) && AtOrBefore(d, e)
      ensures InDnd(log + added, userId, d, hs[k].habitId)
    {
      assert (log + added)[|log| + k] == added[k];
      assert Covers((log + added)[|log| + k], userId, d, hs[k].habitId);
    }
  }

  /** `pending_dnd_changes` read with `.get(..., [])`. */
  function Queue(pending: Option<seq<PendingOp>>): seq<PendingOp>
  {
    if pending.None? then [] else pending.value
  }

  /** One user's `/dnd` session: the `user_data` entries the handlers read and write. */
  class DndEditor {
    /** `user_data['db']`, the cache instance taken when the session started. */
    var db: DbCache
    /** `user_data['pending_dnd_changes']`; `None` until the first initialisation. */
    var pending: Option<seq<PendingOp>>
    /** Operations handed to the database, oldest first. */
    var dbCalls: seq<PendingOp>
    /** `user_data['habits']` and `user_data['selected_habits']` of the add flow (1-based numbers). */
    var habits: seq<Habit>
    var selected: seq<int>
    /** `user_data['start_date']` and `user_data['end_date']`, stored together. */
    var period: Option<(string, string)>
    /** `user_data['edit_idx']`, `user_data['edit_entry']` and `user_data['edit_habits']`. */
    var editIdx: Option<nat>
    var editEntry: Option<DndEntry>
    var editHabits: Option<seq<Habit>>

    constructor(db: DbCache)
      ensures this.db == db && pending == None && dbCalls == []
      ensures habits == [] && selected == [] && period == None
      ensures editIdx == None && editEntry == None && editHabits == None
    {
      this.db := db;
      pending := None;
      dbCalls := [];
      habits := [];
      selected := [];
      period := None;
      editIdx := None;
      editEntry := None;
      editHabits := None;
    }

    /** The stored period, when there is one, is made of dates `strptime` accepts. */
    predicate PeriodParses()
      reads this
    {
      period.Some? ==> ParseIsoDate(period.value.0).Some? && ParseIsoDate(period.value.1).Some?
    }

    /** `_init_pending_dnd_changes`: an empty queue only where there is none. */
    method InitPending()
      modifies this`pending
      ensures pending == if old(pending).None? then Some([]) else old(pending)
    {
      if pending.None? {
        pending := Some([]);
      }
    }

    /** `_record_pending`: the operation goes to the end of the queue. */
    method RecordPending(op: PendingOp)
      modifies this`pending
      ensures pending == Some(Queue(old(pending)) + [op])
    {
      InitPending();
      pending := Some(pending.value + [op]);
    }

    /** `_apply_pending_dnd_changes`: every queued operation goes to the database in queue order, then the queue is empty. */
    method ApplyPending()
      modifies this`pending, this`dbCalls
      ensures dbCalls == old(dbCalls) + Queue(old(pending))
      ensures pending == Some([])
    {
      var changes := Queue(pending);
      var i := 0;
      while i < |changes|
        invariant 0 <= i <= |changes|
        invariant dbCalls == old(dbCalls) + changes[..i]
      {
        assert changes[..i + 1] == changes[..i] + [changes[i]];
        dbCalls := dbCalls + [changes[i]];
        i := i + 1;
      }
      assert changes[..i] == changes;
      pending := Some([]);
    }

    /** `dnd_command`: a fresh cache instance and a queue, then the list of entries. */
    method DndCommand(snapshot: DbCache) returns (step: Step)
      modifies this`db, this`pending
      ensures step == DndList && db == snapshot
      ensures pending == if old(pending).None? then Some([]) else old(pending)
    {
      db := snapshot;
      InitPending();
      step := DndList;
    }

    /** `show_dnd_list`: the edit buttons when the user has entries, else the empty notice. */
    method ShowDndList(userId: int) returns (step: Step)
      ensures step == (if db.DndEntriesForUser(userId) == [] then EditContinue else EditSelect)
      ensures step == EditContinue <==> forall e :: e in db.dndLog ==> e.userId != userId
    {
      var entries := db.DndEntriesForUser(userId);
      if entries == [] {
        return EditContinue;
      }
      assert entries[0] in entries;
      return EditSelect;
    }

    /** `start_add_dnd_flow`: this month's habits become the choices; more than ten cannot be given buttons. */
    method StartAddFlow(userId: int, currentMonth: string) returns (step: Step)
      modifies this`habits, this`selected
      ensures var hs := old(db.UserHabitsForMonth(userId, currentMonth));
        hs == [] ==> step == End && habits == old(habits) && selected == old(selected)
      ensures var hs := old(db.UserHabitsForMonth(userId, currentMonth));
        hs != [] ==> habits == hs && selected == [] && step == (if |hs| > EmojiButtons then Crash else HabitSelection)
    {
      var hs := db.UserHabitsForMonth(userId, currentMonth);
      if hs == [] {
        return End;
      }
      habits := hs;
      selected := [];
      if |hs| > EmojiButtons {
        return Crash;
      }
      step := HabitSelection;
    }

    /** `dnd_list_entrypoint`: add, list for editing, or flush the queue and end. */
    method DndListEntry(data: string, userId: int, currentMonth: string) returns (step: Step)
      modifies this`habits, this`selected, this`pending, this`dbCalls
      ensures data == "dnd_done" ==> step == End && pending == Some([])
      ensures data == "dnd_done" ==> dbCalls == old(dbCalls) + Queue(old(pending))
      ensures data == "dnd_edit" ==> step == (if db.DndEntriesForUser(userId) == [] then EditContinue else EditSelect)
      ensures var hs := old(db.UserHabitsForMonth(userId, currentMonth));
        data == "dnd_add" ==>
          if hs == [] then step == End && habits == old(habits) && selected == old(selected)
          else habits == hs && selected == [] && step == (if |hs| > EmojiButtons then Crash else HabitSelection)
      ensures data != "dnd_add" ==> habits == old(habits) && selected == old(selected)
      ensures data !in {"dnd_add", "dnd_edit", "dnd_done"} ==> step == Stay
      ensures data != "dnd_done" ==> pending == old(pending) && dbCalls == old(dbCalls)
    {
      if data == "dnd_add" {
        step := StartAddFlow(userId, currentMonth);
      } else if data == "dnd_edit" {
        step := ShowDndList(userId);
      } else if data == "dnd_done" {
        ApplyPending();
        step := End;
      } else {
        step := Stay;
      }
    }

    /**
     * `handle_habit_selection`: cancel, "all", or toggle one number.  An empty
     * selection ends the flow; a number that names no habit raises when the
     * selection is listed.
     */
    method HandleHabitSelection(data: string) returns (step: Step)
      modifies this`selected
      ensures var v := Checkin.CallbackValue(data);
        if v.None? then step == Crash && selected == old(selected)
        else if v.value == "cancel" then step == End && selected == old(selected)
        else if v.value != "all" && PyInt(v.value).None? then step == Crash && selected == old(selected)
        else
          selected == (if v.value == "all" then AllSelection(|habits|) else Toggle(old(selected), PyInt(v.value).value))
          && step == (if selected == [] then End
                      else if SelectedHabits(habits, selected).None? then Crash
                      else DateInput)
    {
      var v := Checkin.CallbackValue(data);
      if v.None? {
        return Crash;
      }
      if v.value == "cancel" {
        return End;
      }
      if v.value == "all" {
        selected := AllSelection(|habits|);
      } else {
        var n := PyInt(v.value);
        if n.None? {
          return Crash;
        }
        selected := Toggle(selected, n.value);
      }
      if selected == [] {
        return End;
      }
      if SelectedHabits(habits, selected).None? {
        return Crash;
      }
      step := DateInput;
    }

    /** `handle_date_input`: only an accepted period is stored; the reply counts its days. */
    method HandleDateInput(text: string) returns (step: Step, days: Option<int>)
      modifies this`period
      requires PeriodParses()
      ensures PeriodParses()
      ensures var p := ReadDatePair(text);
        && (!p.Period? ==> step == DateInput && period == old(period) && days == None)
        && (p.Period? ==> period == Some((p.startText, p.endText)))
        && (p.Period? && old(SelectedHabits(habits, selected)).None? ==> step == Crash && days == None)
        && (p.Period? && old(SelectedHabits(habits, selected)).Some? ==>
              step == Confirmation && days == Some(DayCount(p.start, p.end)))
    {
      var p := ReadDatePair(text);
      step, days := StorePeriod(p);
    }

    /** The part of `handle_date_input` after the message is read: store an accepted period and count its days. */
    method StorePeriod(p: DatePair) returns (step: Step, days: Option<int>)
      modifies this`period
      requires PeriodParses()
      requires p.Period? ==> ParseIsoDate(p.startText) == Some(p.start) && ParseIsoDate(p.endText) == Some(p.end)
      requires p.Period? ==> AtOrBefore(p.start, p.end)
      ensures PeriodParses()
      ensures !p.Period? ==> step == DateInput && period == old(period) && days == None
      ensures p.Period? ==> period == Some((p.startText, p.endText))
      ensures p.Period? && old(SelectedHabits(habits, selected)).None? ==> step == Crash && days == None
      ensures p.Period? && old(SelectedHabits(habits, selected)).Some? ==>
        (step == Confirmation && days == Some(DayCount(p.start, p.end)))
    {
      if !p.Period? {
        return DateInput, None;
      }
      period := Some((p.startText, p.endText));
      if SelectedHabits(habits, selected).None? {
        return Crash, None;
      }
      DayCountIsDaysBetween(p.start, p.end);
      days := DaysDifference(p.startText, p.endText);
      step := Confirmation;
    }

    /**
     * `handle_confirmation`.  On confirm, one cache row and one queued addition per
     * selected habit, then the queue is flushed; `successCount` is the number of
     * selected habits.  The selection was listed before this state was entered, so
     * its numbers name habits.
     */
    method HandleConfirmation(action: string, userId: int, username: string, currentMonth: string, now: int)
      returns (step: Step, successCount: int)
      requires PeriodParses()
      requires action == "confirm_dnd" && period.Some? ==> SelectedHabits(habits, selected).Some?
      modifies this`pending, this`dbCalls, db`dndLog
      ensures action == "cancel_dnd" ==> step == End
      ensures action in {"edit_start", "edit_end"} ==> step == DateInput
      ensures action !in {"cancel_dnd", "edit_start", "edit_end", "confirm_dnd"} ==> step == Stay
      ensures action == "confirm_dnd" && old(period).None? ==> step == Crash
      ensures action != "confirm_dnd" || old(period).None? ==>
        successCount == 0 && pending == old(pending) && dbCalls == old(dbCalls) && db.dndLog == old(db.dndLog)
      ensures action == "confirm_dnd" && old(period).Some? ==>
        var hs := old(SelectedHabits(habits, selected)).value;
        var startDate := old(period).value.0;
        var endDate := old(period).value.1;
        step == End && successCount == |hs| && |hs| == old(|selected|)
        && db.dndLog == old(db.dndLog) + PeriodEntries(MaxDndId(old(db.dndLog)), hs, currentMonth, username, userId,
                                                      ParseIsoDate(startDate).value, ParseIsoDate(endDate).value, now)
        && dbCalls == old(dbCalls) + Queue(old(pending)) + AddOps(hs, currentMonth, username, userId, startDate, endDate)
        && pending == Some([])
    {
      successCount := 0;
      if action == "cancel_dnd" {
        return End, 0;
      } else if action == "edit_start" || action == "edit_end" {
        return DateInput, 0;
      } else if action != "confirm_dnd" {
        return Stay, 0;
      }
      if period.None? {
        return Crash, 0;
      }
      var hs := SelectedHabits(habits, selected).value;
      var (startDate, endDate) := period.value;
      successCount := ConfirmPeriod(hs, startDate, endDate, userId, username, currentMonth, now);
      step := End;
    }

    /** The confirm branch of `handle_confirmation`: add the period for every selected habit, then flush the queue. */
    method ConfirmPeriod(hs: seq<Habit>, startDate: string, endDate: string,
                         userId: int, username: string, currentMonth: string, now: int)
      returns (successCount: int)
      requires ParseIsoDate(startDate).Some? && ParseIsoDate(endDate).Some?
      modifies this`pending, this`dbCalls, db`dndLog
      ensures successCount == |hs|
      ensures db.dndLog == old(db.dndLog) + PeriodEntries(MaxDndId(old(db.dndLog)), hs, currentMonth, username, userId,
                                                       ParseIsoDate(startDate).value, ParseIsoDate(endDate).value, now)
      ensures dbCalls == old(dbCalls) + Queue(old(pending)) + AddOps(hs, currentMonth, username, userId, startDate, endDate)
      ensures pending == Some([])
    {
      successCount := AddPeriodForSelection(hs, startDate, endDate, ParseIsoDate(startDate).value,
                                            ParseIsoDate(endDate).value, userId, username, currentMonth, now);
      ApplyPending();
    }

    /**
     * The loop of `handle_confirmation`: for each selected habit, one cache row and one queued addition.
     * `s` and `e` are what `startDate` and `endDate` read as; the caller parses them once.
     */
    method AddPeriodForSelection(hs: seq<Habit>, startDate: string, endDate: string, s: Date, e: Date,
                                 userId: int, username: string, currentMonth: string, now: int)
      returns (successCount: int)
      modifies this`pending, db`dndLog
      ensures successCount == |hs|
      ensures db.dndLog == old(db.dndLog) + PeriodEntries(MaxDndId(old(db.dndLog)), hs, currentMonth, username, userId, s, e, now)
      ensures Queue(pending) == Queue(old(pending)) + AddOps(hs, currentMonth, username, userId, startDate, endDate)
    {
      var cache := db;
      var base := MaxDndId(cache.dndLog);
      var queued := Queue(pending);
      successCount := 0;
      var i := 0;
      while i < |hs|
        invariant 0 <= i <= |hs| && successCount == i
        invariant cache.dndLog == old(cache.dndLog) + PeriodEntries(base, hs[..i], currentMonth, username, userId, s, e, now)
        invariant Queue(pending) == queued + AddOps(hs[..i], currentMonth, username, userId, startDate, endDate)
      {
        AddOpsSnoc(hs, i, currentMonth, username, userId, startDate, endDate);
        AddOne(cache, hs, i, startDate, endDate, s, e, userId, username, currentMonth, now, old(cache.dndLog));
        successCount := successCount + 1;
        i := i + 1;
      }
      assert hs[..i] == hs;
    }

    /**
     * One pass of that loop, for `hs[i]`: the cache row, numbered on from the rows already added after
     * `prior`, and the queued addition.
     */
    method AddOne(cache: DbCache, hs: seq<Habit>, i: nat, startDate: string, endDate: string, s: Date, e: Date,
                  userId: int, username: string, currentMonth: string, now: int, ghost prior: seq<DndEntry>)
      requires i < |hs|
      requires cache.dndLog == prior + PeriodEntries(MaxDndId(prior), hs[..i], currentMonth, username, userId, s, e, now)
      modifies this`pending, cache`dndLog
      ensures cache.dndLog == prior + PeriodEntries(MaxDndId(prior), hs[..i + 1], currentMonth, username, userId, s, e, now)
      ensures Queue(pending) == Queue(old(pending))
        + [Add(currentMonth, username, userId, hs[i].habitId, hs[i].habitText, startDate, endDate)]
    {
      var base := MaxDndId(prior);
      var added := PeriodEntries(base, hs[..i], currentMonth, username, userId, s, e, now);
      MaxAfterPeriod(prior, hs[..i], currentMonth, username, userId, s, e, now);
      PeriodEntriesSnoc(base, hs, i, currentMonth, username, userId, s, e, now);
      var habit := hs[i];
      var id := cache.AppendDndPeriod(currentMonth, username, userId, habit.habitId, habit.habitText, s, e, now);
      assert id == base + i + 1;
      assert cache.dndLog == (prior + added) + [DndEntry(id, currentMonth, username, userId, habit.habitId, habit.habitText, s, e, now)];
      RecordPending(Add(currentMonth, username, userId, habit.habitId, habit.habitText, startDate, endDate));
    }

    /** `dnd_edit_select`: pick the entry to edit; an index past the list keeps the old choice and relists. */
    method HandleEditSelect(idx: nat, userId: int) returns (step: Step)
      modifies this`editIdx, this`editEntry
      ensures var entries := db.DndEntriesForUser(userId);
        if idx < |entries| then
          step == EditAction && editIdx == Some(idx) && editEntry == Some(entries[idx])
          && entries[idx] in db.dndLog && entries[idx].userId == userId
        else
          editIdx == old(editIdx) && editEntry == old(editEntry)
          && step == (if entries == [] then EditContinue else EditSelect)
    {
      var entries := db.DndEntriesForUser(userId);
      if idx >= |entries| {
        step := ShowDndList(userId);
        return;
      }
      assert entries[idx] in entries;
      editIdx := Some(idx);
      editEntry := Some(entries[idx]);
      step := EditAction;
    }

    /**
     * `dnd_edit_action`: change habit, change dates, delete, or back.  Delete
     * removes the chosen entry from the cache and queues one deletion with its id.
     */
    method HandleEditAction(data: string, userId: int, currentMonth: string) returns (step: Step)
      modifies this`editHabits, this`pending, db`dndLog
      ensures var v := Checkin.CallbackValue(data);
        if v.None? then step == Crash && pending == old(pending) && db.dndLog == old(db.dndLog)
        else if v.value == "habit" then
          step == EditHabit && editHabits == Some(old(db.UserHabitsForMonth(userId, currentMonth)))
          && pending == old(pending) && db.dndLog == old(db.dndLog)
        else if v.value == "delete" && old(editEntry).Some? then
          var id := old(editEntry).value.dndLogId;
          db.dndLog == WithoutEntry(old(db.dndLog), id) && pending == Some(Queue(old(pending)) + [Delete(id)])
          && step == (if db.DndEntriesForUser(userId) == [] then EditContinue else EditSelect)
        else
          pending == old(pending) && db.dndLog == old(db.dndLog)
          && step == (if v.value == "dates" then EditDates
                      else if v.value in {"delete", "back"} then
                        (if db.DndEntriesForUser(userId) == [] then EditContinue else EditSelect)
                      else Stay)
      ensures Checkin.CallbackValue(data) != Some("habit") ==> editHabits == old(editHabits)
    {
      var v := Checkin.CallbackValue(data);
      if v.None? {
        return Crash;
      }
      var action := v.value;
      if action == "habit" {
        editHabits := Some(db.UserHabitsForMonth(userId, currentMonth));
        step := EditHabit;
      } else if action == "dates" {
        step := EditDates;
      } else if action == "delete" {
        if editEntry.Some? {
          var id := editEntry.value.dndLogId;
          var _ := db.DeleteDndEntryFromCache(id);
          RecordPending(Delete(id));
        }
        step := ShowDndList(userId);
      } else if action == "back" {
        step := ShowDndList(userId);
      } else {
        step := Stay;
      }
    }

    /** `dnd_edit_habit`: the chosen entry takes the habit text of button `idx`, in the cache and in the queue. */
    method HandleEditHabit(idx: nat, userId: int) returns (step: Step)
      modifies this`pending, db`dndLog
      ensures old(editHabits).None? || idx >= |old(editHabits).value| || old(editEntry).None? ==>
        step == Crash && pending == old(pending) && db.dndLog == old(db.dndLog)
      ensures old(editHabits).Some? && idx < |old(editHabits).value| && old(editEntry).Some? ==>
        var id := old(editEntry).value.dndLogId;
        var text := old(editHabits).value[idx].habitText;
        db.dndLog == WithEdit(old(db.dndLog), id, Some(text), None, None)
        && pending == Some(Queue(old(pending)) + [Edit(id, Some(text), None, None)])
        && step == (if db.DndEntriesForUser(userId) == [] then EditContinue else EditSelect)
    {
      if editHabits.None? || idx >= |editHabits.value| || editEntry.None? {
        return Crash;
      }
      var id := editEntry.value.dndLogId;
      var text := editHabits.value[idx].habitText;
      var _ := db.UpdateDndEntryToCache(id, Some(text), None, None);
      RecordPending(Edit(id, Some(text), None, None));
      step := ShowDndList(userId);
    }

    /** `dnd_edit_dates`: an accepted period replaces the chosen entry's dates, in the cache and in the queue. */
    method HandleEditDates(text: string, userId: int) returns (step: Step)
      modifies this`pending, db`dndLog
      ensures var p := ReadDatePair(text);
        if !p.Period? then step == EditDates && pending == old(pending) && db.dndLog == old(db.dndLog)
        else if old(editEntry).None? then step == Crash && pending == old(pending) && db.dndLog == old(db.dndLog)
        else
          var id := old(editEntry).value.dndLogId;
          db.dndLog == WithEdit(old(db.dndLog), id, None, Some(p.startText), Some(p.endText))
          && pending == Some(Queue(old(pending)) + [Edit(id, None, Some(p.startText), Some(p.endText))])
          && step == (if db.DndEntriesForUser(userId) == [] then EditContinue else EditSelect)
    {
      var p := ReadDatePair(text);
      if !p.Period? {
        return EditDates;
      }
      if editEntry.None? {
        return Crash;
      }
      var id := editEntry.value.dndLogId;
      var _ := db.UpdateDndEntryToCache(id, None, Some(p.startText), Some(p.endText));
      RecordPending(Edit(id, None, Some(p.startText), Some(p.endText)));
      step := ShowDndList(userId);
    }
  }
}
