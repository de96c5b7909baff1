/**
 * The input validators: each returns `(is_valid, error_message)`, written here as a
 * `Verdict`, after a chain of guards; the first failing guard names the error.
 */
module Validation {
  import opened Wrappers
  import opened Text
  import opened Dates
  import opened Collections

  /** A Python value handed to a validator: a string, an integer, or `None`. */
  datatype PyValue = Str(s: string) | Int(i: int) | NoneValue

  /** `(True, None)` or `(False, message)`. */
  datatype Verdict = Accepted | Rejected(message: string)

  /** `int(value)`, `None` where Python raises ValueError or TypeError. */
  function PyIntOf(v: PyValue): (r: Option<int>)
    ensures v.Int? ==> r == Some(v.i)
    ensures v.NoneValue? ==> r == None
  {
    match v
    case Str(s) => PyInt(s)
    case Int(i) => Some(i)
    case NoneValue => None
  }

  /** The characters `[<>"']` the validators refuse and `sanitize_input` removes. */
  predicate Markup(c: char)
  {
    c == '<' || c == '>' || c == '"' || c == '\''
  }

  /** `re.search(r'[<>"\']', s)` finds something. */
  predicate HasMarkup(s: string)
  {
    exists i :: 0 <= i < |s| && Markup(s[i])
  }

  const BadDate: string := "\U{2757} Invalid format. Please enter your DOB as YYYY-MM-DD (e.g., 1990-12-31)"
  const BadEmail: string := "\U{2757} Please enter a valid email address."

  // ---------------------------------------------------------------- names

  /** `validate_habit_name`: non-blank, 2 to 50 characters once stripped, no markup. */
  function ValidateHabitName(name: string): (r: Verdict)
    ensures r.Accepted? <==> 2 <= |Strip(name)| <= 50 && !HasMarkup(Strip(name))
  {
    var t := Strip(name);
    if t == "" then Rejected("Habit name cannot be empty")
    else if |t| < 2 then Rejected("Habit name must be at least 2 characters long")
    else if |t| > 50 then Rejected("Habit name must be less than 50 characters")
    else if HasMarkup(t) then Rejected("Habit name contains invalid characters")
    else Accepted
  }

  /**
   * `validate_nickname`: non-blank, at most 20 characters once stripped, no markup.  The
   * at-least-one-character guard follows the blank check and never fires.
   */
  function ValidateNickname(nickname: string): (r: Verdict)
    ensures r.Accepted? <==> 1 <= |Strip(nickname)| <= 20 && !HasMarkup(Strip(nickname))
  {
    var t := Strip(nickname);
    if t == "" then Rejected("Nickname cannot be empty")
    else if |t| < 1 then Rejected("Nickname must be at least 1 character long")
    else if |t| > 20 then Rejected("Nickname must be less than 20 characters")
    else if HasMarkup(t) then Rejected("Nickname contains invalid characters")
    else Accepted
  }

  // ---------------------------------------------------------------- numbers

  /** `validate_habit_goal`: an integer from 1 to 100. */
  function ValidateHabitGoal(goal: PyValue): (r: Verdict)
    ensures r.Accepted? <==> PyIntOf(goal).Some? && 1 <= PyIntOf(goal).value <= 100
  {
    var g := PyIntOf(goal);
    if g.None? then Rejected("Goal must be a valid number")
    else if g.value < 1 then Rejected("Goal must be at least 1")
    else if g.value > 100 then Rejected("Goal cannot exceed 100")
    else Accepted
  }

  /** `validate_user_id`: a positive integer. */
  function ValidateUserId(userId: PyValue): (r: Verdict)
    ensures r.Accepted? <==> PyIntOf(userId).Some? && PyIntOf(userId).value > 0
  {
    var u := PyIntOf(userId);
    if u.None? then Rejected("User ID must be a valid number")
    else if u.value <= 0 then Rejected("User ID must be a positive number")
    else Accepted
  }

  /** A goal typed as text is judged as the number it prints. */
  lemma GoalTextAsNumber(g: int)
    ensures ValidateHabitGoal(Str(IntToString(g))) == ValidateHabitGoal(Int(g))
    ensures ValidateHabitGoal(Int(g)).Accepted? <==> 1 <= g <= 100
  {
    IntToStringRoundTrip(g);
  }

  /** A user id typed as text is judged as the number it prints. */
  lemma UserIdTextAsNumber(u: int)
    ensures ValidateUserId(Str(IntToString(u))) == ValidateUserId(Int(u))
    ensures ValidateUserId(Int(u)).Accepted? <==> u > 0
  {
    IntToStringRoundTrip(u);
  }

  // ---------------------------------------------------------------- email

  predicate AsciiLetter(c: char)
  {
    'a' <= c <= 'z' || 'A' <= c <= 'Z'
  }

  /** `[a-zA-Z0-9._%+-]`. */
  predicate LocalChar(c: char)
  {
    AsciiLetter(c) || IsAsciiDigit(c) || c == '.' || c == '_' || c == '%' || c == '+' || c == '-'
  }

  /** `[a-zA-Z0-9.-]`. */
  predicate DomainChar(c: char)
  {
    AsciiLetter(c) || IsAsciiDigit(c) || c == '.' || c == '-'
  }

  /**
   * `EMAIL_PATTERN`, `^[a-zA-Z0-9._%+-]+@[a-zA-Z0-9.-]+\.[a-zA-Z]{2,}$`, on text without a
   * trailing newline: some `@` at `a` and `.` at `p` split it into the three runs.
   */
  predicate EmailPattern(s: string)
  {
    exists a, p :: 0 < a && a + 1 < p && p + 2 < |s| && s[a] == '@' && s[p] == '.'
      && (forall i :: 0 <= i < a ==> LocalChar(s[i]))
      && (forall i :: a < i < p ==> DomainChar(s[i]))
      && (forall i :: p < i < |s| ==> AsciiLetter(s[i]))
  }

  /** `validate_email`: blank is fine (the address is optional), else the pattern decides. */
  function ValidateEmail(email: string): (r: Verdict)
    ensures r.Accepted? <==> Strip(email) == "" || EmailPattern(Strip(email))
  {
    var t := Strip(email);
    if t == "" then Accepted
    else if !EmailPattern(t) then Rejected(BadEmail)
    else Accepted
  }

  /** Index of the last occurrence of `c`. */
  function LastIndexOf(s: string, c: char): (k: nat)
    requires c in s
    ensures k < |s| && s[k] == c && forall i :: k < i < |s| ==> s[i] != c
  {
    if s[|s| - 1] == c then |s| - 1
    else
      assert c in s[..|s| - 1] by {
        var j :| 0 <= j < |s| && s[j] == c;
        assert s[..|s| - 1][j] == c;
      }
      LastIndexOf(s[..|s| - 1], c)
  }

  /**
   * The pattern read left to right: the first `@` ends the local part and the last `.`
   * starts the top-level domain, since neither run after them may hold that character.
   */
  predicate EmailScan(s: string)
  {
    '@' in s &&
    var a := IndexOf(s, '@');
    var rest := s[a + 1..];
    a > 0 && (forall i :: 0 <= i < a ==> LocalChar(s[i])) && '.' in rest &&
    var p := LastIndexOf(rest, '.');
    p > 0 && p + 2 < |rest|
    && (forall i :: 0 <= i < p ==> DomainChar(rest[i]))
    && (forall i :: p < i < |rest| ==> AsciiLetter(rest[i]))
  }

  /** The scan accepts exactly what the pattern matches. */
  lemma EmailScanMatchesPattern(s: string)
    ensures EmailScan(s) <==> EmailPattern(s)
  {
    if EmailScan(s) {
      ScanFindsPattern(s);
    }
    if EmailPattern(s) {
      PatternPassesScan(s);
    }
  }

  lemma ScanFindsPattern(s: string)
    requires EmailScan(s)
    ensures EmailPattern(s)
  {
    var a := IndexOf(s, '@');
    var rest := s[a + 1..];
    var p := LastIndexOf(rest, '.');
    forall i | a < i < a + 1 + p
      ensures DomainChar(s[i])
    {
      assert s[i] == rest[i - a - 1];
    }
    forall i | a + 1 + p < i < |s|
      ensures AsciiLetter(s[i])
    {
      assert s[i] == rest[i - a - 1];
    }
    assert s[a + 1 + p] == rest[p];
    EmailWitness(s, a, a + 1 + p);
  }

  lemma PatternPassesScan(s: string)
    requires EmailPattern(s)
    ensures EmailScan(s)
  {
    var a, p :| 0 < a && a + 1 < p && p + 2 < |s| && s[a] == '@' && s[p] == '.'
      && (forall i :: 0 <= i < a ==> LocalChar(s[i]))
      && (forall i :: a < i < p ==> DomainChar(s[i]))
      && (forall i :: p < i < |s| ==> AsciiLetter(s[i]));
    WitnessPassesScan(s, a, p);
  }

  /** The split points of a match are the ones the scan finds. */
  lemma WitnessPassesScan(s: string, a: nat, p: nat)
    requires 0 < a && a + 1 < p && p + 2 < |s| && s[a] == '@' && s[p] == '.'
    requires forall i :: 0 <= i < a ==> LocalChar(s[i])
    requires forall i :: a < i < p ==> DomainChar(s[i])
    requires forall i :: p < i < |s| ==> AsciiLetter(s[i])
    ensures EmailScan(s)
  {
    assert '@' !in s[..a] by {
      forall i | 0 <= i < a
        ensures s[..a][i] != '@'
      {
        assert LocalChar(s[i]);
      }
    }
    IndexOfFirst(s, '@', a);
    var rest := s[a + 1..];
    var q := p - a - 1;
    RestOfMatch(s, a, p);
    LastIndexOfAt(rest, '.', q);
  }

  /** After the `@`, the domain run, the `.` and the letters, counted from the `@`. */
  lemma RestOfMatch(s: string, a: nat, p: nat)
    requires 0 < a && a + 1 < p && p + 2 < |s| && s[p] == '.'
    requires forall i :: a < i < p ==> DomainChar(s[i])
    requires forall i :: p < i < |s| ==> AsciiLetter(s[i])
    ensures var rest, q := s[a + 1..], p - a - 1;
      && rest[q] == '.' && q + 2 < |rest|
      && (forall i :: 0 <= i < q ==> DomainChar(rest[i]))
      && (forall i :: q < i < |rest| ==> AsciiLetter(rest[i]) && rest[i] != '.')
  {
  }

  lemma EmailWitness(s: string, a: int, p: int)
    requires 0 < a && a + 1 < p && p + 2 < |s| && s[a] == '@' && s[p] == '.'
    requires forall i :: 0 <= i < a ==> LocalChar(s[i])
    requires forall i :: a < i < p ==> DomainChar(s[i])
    requires forall i :: p < i < |s| ==> AsciiLetter(s[i])
    ensures EmailPattern(s)
  {
  }

  /** A `.` with only letters after it is the last one. */
  lemma LastIndexOfAt(s: string, c: char, k: nat)
    requires k < |s| && s[k] == c && forall i :: k < i < |s| ==> s[i] != c
    ensures LastIndexOf(s, c) == k
  {
    var j := LastIndexOf(s, c);
    assert !(j > k) && !(j < k);
  }

  // ---------------------------------------------------------------- dates and zones

  /** `DATE_PATTERN`, `^\d{4}-\d{2}-\d{2}$`, on text without a trailing newline. */
  predicate DatePattern(t: string)
  {
    |t| == 10 && AllDigits(t[..4]) && t[4] == '-' && AllDigits(t[5..7]) && t[7] == '-' && AllDigits(t[8..])
  }

  /** `validate_date_format`: the pattern, then `strptime('%Y-%m-%d')`. */
  function ValidateDateFormat(dateStr: string): (r: Verdict)
    ensures r.Accepted? <==> DatePattern(Strip(dateStr)) && ParseIsoDate(Strip(dateStr)).Some?
  {
    var t := Strip(dateStr);
    if t == "" then Rejected("Date cannot be empty")
    else if !DatePattern(t) then Rejected(BadDate)
    else if ParseIsoDate(t).None? then Rejected(BadDate)
    else Accepted
  }

  /** Every date the bot prints is accepted. */
  lemma PrintedDateAccepted(d: Date)
    requires Dates.Valid(d)
    ensures ValidateDateFormat(FormatIsoDate(d)) == Accepted
  {
    var s := FormatIsoDate(d);
    IsoTextChars(d);
    assert s[..4] == Pad4(d.year) && s[5..7] == Pad2(d.month) && s[8..] == Pad2(d.day);
    assert s[0] != ' ' && !IsSpace(s[0]) && !IsSpace(s[9]);
    StripOfStripped(s);
    ParseFormatIsoDate(d);
  }

  /** An accepted text is exactly how `strftime('%Y-%m-%d')` prints its date. */
  lemma AcceptedDateIsCanonical(dateStr: string)
    requires ValidateDateFormat(dateStr) == Accepted
    ensures FormatIsoDate(ParseIsoDate(Strip(dateStr)).value) == Strip(dateStr)
  {
    var t := Strip(dateStr);
    var d := ParseIsoDate(t).value;
    var rest := t[5..];
    assert rest[2] == '-' && '-' !in rest[..2] by {
      assert IsAsciiDigit(t[5]) && IsAsciiDigit(t[6]);
    }
    IndexOfFirst(rest, '-', 2);
    assert rest[..2] == t[5..7] && rest[3..] == t[8..];
    Pad4OfDigits(t[..4]);
    Pad2OfDigits(t[5..7]);
    Pad2OfDigits(t[8..]);
    assert t == t[..4] + "-" + t[5..7] + "-" + t[8..];
  }

  const SupportedTimezones: seq<string> := ["Asia/Kolkata", "Asia/Dubai", "Asia/Singapore"]

  /** `", ".join(items)`. */
  function CommaList(items: seq<string>): string
  {
    if items == [] then "" else if |items| == 1 then items[0] else items[0] + ", " + CommaList(items[1..])
  }

  /**
   * `validate_timezone`: the stripped name must be one of the supported zones; each of them
   * is one pytz knows, so its own check never fails.
   */
  function ValidateTimezone(timezone: string): (r: Verdict)
    ensures r.Accepted? <==> Strip(timezone) in SupportedTimezones
  {
    var t := Strip(timezone);
    if t == "" then Rejected("Timezone cannot be empty")
    else if t !in SupportedTimezones then
      Rejected("Unsupported timezone. Please choose from: " + CommaList(SupportedTimezones))
    else Accepted
  }

  /** Each supported zone is accepted as written, and with surrounding spaces. */
  lemma SupportedZonesAccepted(z: string)
    requires z in SupportedTimezones
    ensures ValidateTimezone(z) == Accepted && ValidateTimezone(" " + z + " ") == Accepted
  {
    assert z[0] == 'A' && IsAsciiLetterEnd(z);
    StripOfStripped(z);
    StripPadded(z);
  }

  predicate IsAsciiLetterEnd(z: string)
  {
    z != "" && AsciiLetter(z[|z| - 1])
  }

  /** One space on each side of a text without outer whitespace is stripped off. */
  lemma StripPadded(z: string)
    requires z != "" && !IsSpace(z[0]) && !IsSpace(z[|z| - 1])
    ensures Strip(" " + z + " ") == z
  {
    var s := " " + z + " ";
    assert LeadingSpaces(s) == 1 by {
      assert s[1..] == z + " " && s[1] == z[0];
    }
    var t := s[1..];
    assert t == z + " ";
    assert TrailingSpaces(t) == 1 by {
      assert t[..|t| - 1] == z;
    }
    assert s[1..|s| - 1] == z;
  }

  // ---------------------------------------------------------------- sheet rows and input

  /** A value handed to `validate_sheet_data`: a dict, or anything else. */
  datatype PyData = Dict(entries: map<string, PyValue>) | NotDict

  /** A required field that is present and not `None`. */
  predicate FieldOk(entries: map<string, PyValue>, field: string)
  {
    field in entries && entries[field] != NoneValue
  }

  /** The error for a failing field: missing, else `None`. */
  function FieldMessage(entries: map<string, PyValue>, field: string): string
  {
    if field !in entries then "Missing required field: " + field else "Field " + field + " cannot be None"
  }

  /** `validate_sheet_data`: every required field present and not `None`; the first that is not is named. */
  method ValidateSheetData(data: PyData, requiredFields: seq<string>) returns (r: Verdict)
    ensures data.NotDict? ==> r == Rejected("Data must be a dictionary")
    ensures data.Dict? ==>
      (r.Accepted? <==> forall i :: 0 <= i < |requiredFields| ==> FieldOk(data.entries, requiredFields[i]))
    ensures data.Dict? && r.Rejected? ==>
      exists i :: 0 <= i < |requiredFields| && !FieldOk(data.entries, requiredFields[i])
        && (forall j :: 0 <= j < i ==> FieldOk(data.entries, requiredFields[j]))
        && r.message == FieldMessage(data.entries, requiredFields[i])
  {
    if data.NotDict? {
      return Rejected("Data must be a dictionary");
    }
    var i := 0;
    while i < |requiredFields|
      invariant 0 <= i <= |requiredFields|
      invariant forall j :: 0 <= j < i ==> FieldOk(data.entries, requiredFields[j])
    {
      var field := requiredFields[i];
      if field !in data.entries {
        return Rejected("Missing required field: " + field);
      }
      if data.entries[field] == NoneValue {
        return Rejected("Field " + field + " cannot be None");
      }
      i := i + 1;
    }
    r := Accepted;
  }

  /** `re.sub(r'[<>"\']', '', s)`. */
  function RemoveMarkup(s: string): (r: string)
    ensures |r| <= |s|
  {
    if s == "" then ""
    else (if Markup(s[0]) then "" else [s[0]]) + RemoveMarkup(s[1..])
  }

  /** Nothing of the markup survives the substitution. */
  lemma {:induction false} RemoveMarkupClean(s: string)
    ensures !HasMarkup(RemoveMarkup(s))
  {
    if s != "" {
      RemoveMarkupClean(s[1..]);
      var head := if Markup(s[0]) then "" else [s[0]];
      var r := RemoveMarkup(s);
      forall i | 0 <= i < |r|
        ensures !Markup(r[i])
      {
        if i >= |head| {
          assert r[i] == RemoveMarkup(s[1..])[i - |head|];
        }
      }
    }
  }

  /** Text without markup is left as it is. */
  lemma {:induction false} RemoveMarkupKeeps(s: string)
    requires !HasMarkup(s)
    ensures RemoveMarkup(s) == s
  {
    if s != "" {
      assert !Markup(s[0]);
      assert !HasMarkup(s[1..]) by {
        forall i | 0 <= i < |s| - 1
          ensures !Markup(s[1..][i])
        {
          assert s[1..][i] == s[i + 1];
        }
      }
      RemoveMarkupKeeps(s[1..]);
    }
  }

  /** `sanitize_input`: strip, drop the markup characters, keep at most 1000 characters. */
  function SanitizeInput(text: string): (r: string)
    ensures |r| <= 1000
  {
    if text == "" then "" else Take(RemoveMarkup(Strip(text)), 1000)
  }

  /** The sanitized text holds no markup character. */
  lemma SanitizedIsClean(text: string)
    ensures !HasMarkup(SanitizeInput(text))
  {
    if text != "" {
      var c := RemoveMarkup(Strip(text));
      RemoveMarkupClean(Strip(text));
      var r := SanitizeInput(text);
      forall i | 0 <= i < |r|
        ensures !Markup(r[i])
      {
        assert r[i] == c[i];
      }
    }
  }

  /** A habit name or nickname the validators accept comes through sanitizing as its stripped self. */
  lemma AcceptedTextSurvivesSanitize(text: string)
    requires ValidateHabitName(text) == Accepted || ValidateNickname(text) == Accepted
    ensures SanitizeInput(text) == Strip(text)
  {
    RemoveMarkupKeeps(Strip(text));
  }

  // ---------------------------------------------------------------- callbacks

  /** `validate_callback_data`: non-empty and starting with the prefix. */
  function ValidateCallbackData(callbackData: string, expectedPrefix: string): (r: Verdict)
    ensures r.Accepted? <==> callbackData != "" && expectedPrefix <= callbackData
  {
    if callbackData == "" then Rejected("Callback data cannot be empty")
    else if !(expectedPrefix <= callbackData) then
      Rejected("Invalid callback data format. Expected prefix: " + expectedPrefix)
    else Accepted
  }
}
