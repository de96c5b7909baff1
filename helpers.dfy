/**
 * The bot's general helpers: the display name, `HHMM` time parsing, age arithmetic,
 * habit-data validation, callback-prefix extraction, sheet-value cleaning and the two
 * display selectors for streaks and progress.
 */
module Helpers {
  import opened Wrappers
  import opened Text
  import opened Dates
  import opened Collections
  import opened Validation

  // ---------------------------------------------------------------- Python values

  /** Python truthiness: the empty string, zero and `None` are false. */
  predicate Truthy(v: PyValue)
  {
    match v
    case Str(s) => s != ""
    case Int(i) => i != 0
    case NoneValue => false
  }

  /** `str(v)` / `f"{v}"`. */
  function PyStr(v: PyValue): (s: string)
    ensures v.Str? ==> s == v.s
    ensures v.Int? ==> PyInt(s) == Some(v.i)
  {
    match v
    case Str(s) => s
    case Int(i) => IntToStringRoundTrip(i); IntToString(i)
    case NoneValue => "None"
  }

  // ---------------------------------------------------------------- display name

  /**
   * `format_user_display_name`: the nickname (default `'Unknown'`), followed by a space and
   * the usermoji when the usermoji is truthy.  Without a usermoji the stored nickname value
   * itself is returned, whatever its type.
   */
  function FormatUserDisplayName(userData: map<string, PyValue>): (r: PyValue)
    ensures "nickname" !in userData && !("usermoji" in userData && Truthy(userData["usermoji"]))
      ==> r == Str("Unknown")
    ensures "usermoji" in userData && Truthy(userData["usermoji"]) ==> r.Str? && ' ' in r.s
    ensures !("usermoji" in userData && Truthy(userData["usermoji"])) ==>
      r == if "nickname" in userData then userData["nickname"] else Str("Unknown")
    ensures "usermoji" in userData && Truthy(userData["usermoji"]) ==>
      var nickname := if "nickname" in userData then userData["nickname"] else Str("Unknown");
      r == Str(PyStr(nickname) + " " + PyStr(userData["usermoji"]))
  {
    var nickname := if "nickname" in userData then userData["nickname"] else Str("Unknown");
    var usermoji := if "usermoji" in userData then userData["usermoji"] else Str("");
    if Truthy(usermoji) then Str(PyStr(nickname) + " " + PyStr(usermoji)) else nickname
  }

  /** A one-word nickname and the usermoji are read back from the display name at its first space. */
  lemma DisplayNameReadBack(nickname: string, usermoji: string)
    requires ' ' !in nickname && usermoji != ""
    ensures var r := FormatUserDisplayName(map["nickname" := Str(nickname), "usermoji" := Str(usermoji)]);
      && r.Str? && IndexOf(r.s, ' ') == |nickname|
      && r.s[..|nickname|] == nickname && r.s[|nickname| + 1..] == usermoji
  {
    var s := nickname + " " + usermoji;
    assert s[|nickname|] == ' ';
    assert s[..|nickname|] == nickname;
    IndexOfFirst(s, ' ', |nickname|);
  }

  // ---------------------------------------------------------------- time strings

  /** What `parse_time_string` as written does: no value, or the TypeError it raises. */
  datatype TimeParse = NoTime | TypeErrorRaised | Time(hour: nat, minute: nat)

  /**
   * The checks of `parse_time_string`: four characters whose two halves `int()` accepts,
   * hour 0..23 and minute 0..59.
   */
  function ParseTimeString(timeStr: string): (r: Option<(nat, nat)>)
    ensures r.Some? ==> |timeStr| == 4 && r.value.0 <= 23 && r.value.1 <= 59
    ensures r.Some? ==> PyInt(timeStr[..2]) == Some(r.value.0 as int) && PyInt(timeStr[2..]) == Some(r.value.1 as int)
  {
    if timeStr == "" || |timeStr| != 4 then None
    else
      var hour := PyInt(timeStr[..2]);
      if hour.None? then None
      else
        var minute := PyInt(timeStr[2..]);
        if minute.None? then None
        else if !(0 <= hour.value <= 23 && 0 <= minute.value <= 59) then None
        else Some((hour.value as nat, minute.value as nat))
  }

  /**
   * `parse_time_string` as written: every in-range input reaches `datetime.time(hour, minute)`,
   * called on the `datetime` class with an integer as `self`, which raises TypeError.
   */
  function ParseTimeStringAsWritten(timeStr: string): (r: TimeParse)
    ensures !r.Time?
  {
    if timeStr == "" || |timeStr| != 4 then NoTime
    else
      var hour := PyInt(timeStr[..2]);
      if hour.None? then NoTime
      else
        var minute := PyInt(timeStr[2..]);
        if minute.None? then NoTime
        else if !(0 <= hour.value <= 23 && 0 <= minute.value <= 59) then NoTime
        else TypeErrorRaised
  }

  /** As written, exactly the inputs the corrected parser reads raise TypeError. */
  lemma ParseTimeAsWrittenRaises(timeStr: string)
    ensures ParseTimeStringAsWritten(timeStr) == TypeErrorRaised <==> ParseTimeString(timeStr).Some?
    ensures ParseTimeStringAsWritten(timeStr) == NoTime <==> ParseTimeString(timeStr).None?
  {
  }

  /**
   * Every time of day written as `HHMM` (`0930`, say) is read by the corrected parser and
   * raises TypeError as written.
   */
  lemma ParseTimeCounterexample(h: nat, m: nat)
    requires h <= 23 && m <= 59
    ensures ParseTimeStringAsWritten(Pad2(h) + Pad2(m)) == TypeErrorRaised
    ensures ParseTimeString(Pad2(h) + Pad2(m)) == Some((h, m))
  {
    PadTimeRoundTrip(h, m);
    ParseTimeAsWrittenRaises(Pad2(h) + Pad2(m));
  }

  /** Every `HHMM` text of a time of day is read back as that time. */
  lemma PadTimeRoundTrip(h: nat, m: nat)
    requires h <= 23 && m <= 59
    ensures ParseTimeString(Pad2(h) + Pad2(m)) == Some((h, m))
  {
    var s := Pad2(h) + Pad2(m);
    assert s[..2] == Pad2(h);
    assert s[2..] == Pad2(m);
    Pad2Value(h);
    Pad2Value(m);
    PyIntOfDigits(Pad2(h));
    PyIntOfDigits(Pad2(m));
  }

  // ---------------------------------------------------------------- age

  /**
   * `calculate_age`: the difference of the years, less one when today's (month, day) comes
   * before the birthday's; `None` where the text is not a `%Y-%m-%d` date.
   */
  function CalculateAge(birthDate: string, today: Date): (r: Option<int>)
    ensures r.Some? <==> ParseIsoDate(birthDate).Some?
  {
    match ParseIsoDate(birthDate)
    case None => None
    case Some(birth) =>
      var age := today.year - birth.year;
      if today.month < birth.month || (today.month == birth.month && today.day < birth.day)
      then Some(age - 1) else Some(age)
  }

  /** The (month, day) of the birth in year `y`, compared as Python compares dates. */
  function Anniversary(birth: Date, y: int): Date
  {
    Date(y, birth.month, birth.day)
  }

  /**
   * The age is the number of birthdays passed: the birthday of year `birth + age` is on or
   * before today and the next one is after today.
   */
  lemma AgeIsBirthdaysPassed(birthDate: string, today: Date)
    requires ParseIsoDate(birthDate).Some?
    ensures var birth, age := ParseIsoDate(birthDate).value, CalculateAge(birthDate, today).value;
      && AtOrBefore(Anniversary(birth, birth.year + age), today)
      && Before(today, Anniversary(birth, birth.year + age + 1))
  {
  }

  /** Nobody born on or before today has a negative age. */
  lemma AgeNonNegative(birth: Date, today: Date)
    requires Valid(birth) && AtOrBefore(birth, today)
    ensures CalculateAge(FormatIsoDate(birth), today) == Some(today.year - birth.year - (if Before(today, Anniversary(birth, today.year)) then 1 else 0))
    ensures CalculateAge(FormatIsoDate(birth), today).value >= 0
  {
    ParseFormatIsoDate(birth);
  }

  // ---------------------------------------------------------------- habit data

  const HabitCategories: seq<string> := ["Health & Fitness", "Productivity", "Learning", "Mindfulness", "Social", "Other"]
  const RequiredHabitFields: seq<string> := ["name", "goal", "category"]

  /** A list of error messages, or the AttributeError `.strip()` raises on a non-string name. */
  datatype HabitDataOutcome = Errors(list: seq<string>) | AttributeErrorRaised

  /** Present with a truthy value. */
  predicate Given(data: map<string, PyValue>, field: string)
  {
    field in data && Truthy(data[field])
  }

  /** The missing-field messages, one per required field that is absent or falsy, in order. */
  function MissingFieldErrors(data: map<string, PyValue>, fields: seq<string>): (r: seq<string>)
    ensures |r| <= |fields|
  {
    if fields == [] then []
    else
      var head := if Given(data, fields[0]) then [] else ["Missing required field: " + fields[0]];
      head + MissingFieldErrors(data, fields[1..])
  }

  /** No missing-field message exactly when every field is given. */
  lemma {:induction false} NoMissingFields(data: map<string, PyValue>, fields: seq<string>)
    ensures MissingFieldErrors(data, fields) == [] <==> forall f :: f in fields ==> Given(data, f)
  {
    if fields != [] {
      NoMissingFields(data, fields[1..]);
      assert forall f :: f in fields <==> f == fields[0] || f in fields[1..];
    }
  }

  /** The name checks on a truthy string name. */
  function NameErrors(name: string): (r: seq<string>)
    ensures r == [] <==> 2 <= |Strip(name)| <= 50
  {
    var t := Strip(name);
    (if |t| < 2 then ["Habit name must be at least 2 characters long"] else [])
    + (if |t| > 50 then ["Habit name must be less than 50 characters"] else [])
  }

  /** The goal checks on a truthy goal. */
  function GoalErrors(goal: PyValue): (r: seq<string>)
    ensures r == [] <==> PyIntOf(goal).Some? && 1 <= PyIntOf(goal).value <= 100
  {
    match PyIntOf(goal)
    case None => ["Goal must be a valid number"]
    case Some(g) =>
      (if g < 1 then ["Goal must be at least 1"] else [])
      + (if g > 100 then ["Goal cannot exceed 100"] else [])
  }

  /** The category check on a truthy category: one of the listed category names. */
  function CategoryErrors(category: PyValue): (r: seq<string>)
    ensures r == [] <==> category.Str? && category.s in HabitCategories
  {
    if category.Str? && category.s in HabitCategories then []
    else ["Invalid category. Please choose from: " + CommaList(HabitCategories)]
  }

  /** What `validate_habit_data` reports for a habit dictionary. */
  function HabitDataErrors(data: map<string, PyValue>): HabitDataOutcome
  {
    var missing := MissingFieldErrors(data, RequiredHabitFields);
    if Given(data, "name") && !data["name"].Str? then AttributeErrorRaised
    else
      var name := if Given(data, "name") then NameErrors(data["name"].s) else [];
      var goal := if Given(data, "goal") then GoalErrors(data["goal"]) else [];
      var category := if Given(data, "category") then CategoryErrors(data["category"]) else [];
      Errors(missing + name + goal + category)
  }

  /** The loop over the required fields: one message per field that is absent or falsy. */
  method CollectMissingFields(data: map<string, PyValue>, fields: seq<string>) returns (errors: seq<string>)
    ensures errors == MissingFieldErrors(data, fields)
  {
    errors := [];
    var i := 0;
    while i < |fields|
      invariant 0 <= i <= |fields|
      invariant errors + MissingFieldErrors(data, fields[i..]) == MissingFieldErrors(data, fields)
    {
      var field := fields[i];
      assert fields[i..][1..] == fields[i + 1..];
      assert MissingFieldErrors(data, fields[i..])
        == (if Given(data, field) then [] else ["Missing required field: " + field]) + MissingFieldErrors(data, fields[i + 1..]);
      if !(field in data) || !Truthy(data[field]) {
        errors := errors + ["Missing required field: " + field];
      }
      i := i + 1;
    }
    assert fields[i..] == [];
  }

  /**
   * `validate_habit_data`: the missing-field messages, then what the name, goal and
   * category checks append.
   */
  method ValidateHabitData(data: map<string, PyValue>) returns (r: HabitDataOutcome)
    ensures r == HabitDataErrors(data)
  {
    var errors := CollectMissingFields(data, RequiredHabitFields);
    if "name" in data && Truthy(data["name"]) {
      if !data["name"].Str? {
        return AttributeErrorRaised;
      }
      errors := errors + NameErrors(data["name"].s);
    }
    if "goal" in data && Truthy(data["goal"]) {
      errors := errors + GoalErrors(data["goal"]);
    }
    if "category" in data && Truthy(data["category"]) {
      errors := errors + CategoryErrors(data["category"]);
    }
    r := Errors(errors);
  }

  /**
   * A habit passes with no error exactly when the name is a string of 2 to 50 characters
   * once stripped, the goal an integer from 1 to 100, and the category a listed one.
   */
  lemma HabitDataValidIff(data: map<string, PyValue>)
    ensures HabitDataErrors(data) == Errors([]) <==>
      && "name" in data && data["name"].Str? && 2 <= |Strip(data["name"].s)| <= 50
      && "goal" in data && Truthy(data["goal"]) && PyIntOf(data["goal"]).Some? && 1 <= PyIntOf(data["goal"]).value <= 100
      && "category" in data && data["category"].Str? && data["category"].s in HabitCategories
  {
    NoMissingFields(data, RequiredHabitFields);
    assert forall f :: f in RequiredHabitFields <==> f == "name" || f == "goal" || f == "category";
    if "name" in data && data["name"].Str? && 2 <= |Strip(data["name"].s)| <= 50 {
      assert Truthy(data["name"]);
    }
    if "category" in data && data["category"].Str? && data["category"].s in HabitCategories {
      assert Truthy(data["category"]);
    }
  }

  /** On a given goal, the habit-data goal check agrees with `validate_habit_goal`. */
  lemma GoalCheckAgrees(goal: PyValue)
    ensures GoalErrors(goal) == [] <==> ValidateHabitGoal(goal).Accepted?
  {
  }

  // ---------------------------------------------------------------- callback data

  /** `extract_callback_data`: the text after the prefix, `None` when the prefix is absent. */
  function ExtractCallbackData(callbackData: string, prefix: string): (r: Option<string>)
    ensures r.None? <==> !(prefix <= callbackData)
    ensures r.Some? ==> prefix + r.value == callbackData
  {
    if !(prefix <= callbackData) then None else Some(callbackData[|prefix|..])
  }

  /** A button's data built as prefix plus payload yields the payload back. */
  lemma ExtractBuiltCallback(prefix: string, payload: string)
    ensures ExtractCallbackData(prefix + payload, prefix) == Some(payload)
  {
    assert prefix <= prefix + payload;
    assert (prefix + payload)[|prefix|..] == payload;
  }

  /** `validate_callback_data` accepts exactly the non-empty data `extract_callback_data` can read. */
  lemma CallbackValidationAgrees(callbackData: string, prefix: string)
    ensures ValidateCallbackData(callbackData, prefix).Accepted?
      <==> callbackData != "" && ExtractCallbackData(callbackData, prefix).Some?
  {
  }

  // ---------------------------------------------------------------- sheet values

  /** The code points `[\x00-\x08\x0B\x0C\x0E-\x1F\x7F]` removed before writing to a sheet. */
  predicate ControlChar(c: char)
  {
    c <= '\U{08}' || c == '\U{0B}' || c == '\U{0C}' || ('\U{0E}' <= c <= '\U{1F}') || c == '\U{7F}'
  }

  predicate HasControl(s: string)
  {
    exists i :: 0 <= i < |s| && ControlChar(s[i])
  }

  /** `re.sub(r'[\x00-\x08\x0B\x0C\x0E-\x1F\x7F]', '', s)`. */
  function RemoveControls(s: string): (r: string)
    ensures |r| <= |s|
  {
    if s == "" then ""
    else (if ControlChar(s[0]) then "" else [s[0]]) + RemoveControls(s[1..])
  }

  /** No control code point survives the substitution. */
  lemma {:induction false} RemoveControlsClean(s: string)
    ensures !HasControl(RemoveControls(s))
  {
    if s != "" {
      RemoveControlsClean(s[1..]);
      var head := if ControlChar(s[0]) then "" else [s[0]];
      var r := RemoveControls(s);
      forall i | 0 <= i < |r|
        ensures !ControlChar(r[i])
      {
        if i >= |head| {
          assert r[i] == RemoveControls(s[1..])[i - |head|];
        }
      }
    }
  }

  /** Text without control code points is left as it is. */
  lemma {:induction false} RemoveControlsKeeps(s: string)
    requires !HasControl(s)
    ensures RemoveControls(s) == s
  {
    if s != "" {
      assert !ControlChar(s[0]);
      assert !HasControl(s[1..]) by {
        forall i | 0 <= i < |s| - 1
          ensures !ControlChar(s[1..][i])
        {
          assert s[1..][i] == s[i + 1];
        }
      }
      RemoveControlsKeeps(s[1..]);
    }
  }

  /** `sanitize_sheet_value`: `None` becomes the empty text, anything else `str(v).strip()` without control code points. */
  function SanitizeSheetValue(value: PyValue): (r: string)
    ensures value.NoneValue? ==> r == ""
    ensures |r| <= |Strip(PyStr(value))|
  {
    if value.NoneValue? then "" else RemoveControls(Strip(PyStr(value)))
  }

  /** What goes to the sheet holds no control code point. */
  lemma SanitizedSheetValueClean(value: PyValue)
    ensures !HasControl(SanitizeSheetValue(value))
  {
    if !value.NoneValue? {
      RemoveControlsClean(Strip(PyStr(value)));
    }
  }

  /** Clean, stripped text and every integer reach the sheet unchanged, the integer as its decimal text. */
  lemma SanitizeKeepsCleanValues(s: string, n: int)
    requires Strip(s) == s && !HasControl(s)
    ensures SanitizeSheetValue(Str(s)) == s
    ensures SanitizeSheetValue(Int(n)) == IntToString(n) && PyInt(SanitizeSheetValue(Int(n))) == Some(n)
  {
    RemoveControlsKeeps(s);
    var t := IntToString(n);
    DecimalIsCleanAndStripped(n);
    RemoveControlsKeeps(t);
    IntToStringRoundTrip(n);
  }

  /** The decimal text of an integer is digits behind an optional minus sign. */
  lemma DecimalIsCleanAndStripped(n: int)
    ensures Strip(IntToString(n)) == IntToString(n) && !HasControl(IntToString(n))
  {
    var t := IntToString(n);
    var digits := if n < 0 then NatToString(-n) else NatToString(n);
    assert forall i :: 0 <= i < |t| ==> t[i] == '-' || IsAsciiDigit(t[i]);
    assert !IsSpace(t[0]) && !IsSpace(t[|t| - 1]);
    StripOfStripped(t);
  }

  // ---------------------------------------------------------------- streaks and progress

  /** `🔥` as the source file's mis-decoded bytes spell it. */
  const Fire: string := "\U{F0}\U{178}\U{201D}\U{A5}"

  /** `format_streak_display`: no streak, one day, or the count followed by `day streak`. */
  function FormatStreakDisplay(streakCount: int): (r: string)
    ensures Fire <= r
  {
    if streakCount == 0 then Fire + " No streak yet"
    else if streakCount == 1 then Fire + " 1 day streak"
    else Fire + " " + IntToString(streakCount) + " day streak"
  }

  /** Different streak counts are displayed differently. */
  lemma StreakDisplayInjective(a: int, b: int)
    requires FormatStreakDisplay(a) == FormatStreakDisplay(b)
    ensures a == b
  {
    StreakCountReadBack(a);
    StreakCountReadBack(b);
  }

  /** The middle of the display, between the fire and ` day streak`, gives the count back. */
  function StreakMiddle(r: string): string
  {
    if |r| < |Fire| + 1 + 11 then "" else r[|Fire| + 1..|r| - 11]
  }

  lemma StreakCountReadBack(n: int)
    ensures n == 0 <==> FormatStreakDisplay(n) == Fire + " No streak yet"
    ensures n != 0 ==> PyInt(StreakMiddle(FormatStreakDisplay(n))) == Some(n)
  {
    var r := FormatStreakDisplay(n);
    if n == 1 {
      assert StreakMiddle(r) == "1";
      assert |r| != |Fire| + 14;
      PyIntOfDigits("1");
    } else if n != 0 {
      var t := IntToString(n);
      assert StreakMiddle(r) == t;
      IntToStringRoundTrip(n);
      assert r != Fire + " No streak yet" by {
        assert |r| >= |Fire| + 12;
        assert r[|Fire| + 1] == t[0] && (t[0] == '-' || IsAsciiDigit(t[0]));
      }
    }
  }

  const White: string := "\U{E2}\U{161}\U{AA}"
  const Yellow: string := "\U{F0}\U{178}\U{178}\U{A1}"
  const Green: string := "\U{F0}\U{178}\U{178}\U{A2}"
  const Purple: string := "\U{F0}\U{178}\U{178}\U{A3}"

  /** `get_habit_progress_emoji`: nothing done, short of the goal, at the goal, beyond it. */
  function GetHabitProgressEmoji(completed: int, goal: int): (r: string)
    ensures r == White <==> completed == 0
    ensures r == Yellow <==> completed != 0 && completed < goal
    ensures r == Green <==> completed != 0 && completed == goal
    ensures r == Purple <==> completed != 0 && completed > goal
  {
    if completed == 0 then White
    else if completed < goal then Yellow
    else if completed == goal then Green
    else Purple
  }

  /** The four marks in order of progress. */
  function ProgressRank(e: string): nat
  {
    if e == White then 0 else if e == Yellow then 1 else if e == Green then 2 else 3
  }

  /** For a positive goal, more completions never show less progress. */
  lemma ProgressMonotone(c1: int, c2: int, goal: int)
    requires 0 <= c1 <= c2 && goal >= 1
    ensures ProgressRank(GetHabitProgressEmoji(c1, goal)) <= ProgressRank(GetHabitProgressEmoji(c2, goal))
  {
  }
}
