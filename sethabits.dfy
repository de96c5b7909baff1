/**
 * The `/sethabits` conversation: the configured collection month, the comma-separated core
 * habits (two to four, each ending with an emoji), editing one of them by its button, and
 * the one-time save of the month's core habits with its channel announcement.
 * `core_habits` and `edit_core_index` are the conversation's `user_data`; the rows handed
 * to `add_habits_to_db` and the announcements posted go to `dbWrites` and `announcements`.
 */
module SetHabits {
  import opened Wrappers
  import opened Text
  import opened Dates
  import opened Collections
  import opened CachedDb

  // ---------------------------------------------------------------- parsing

  /** `[h.strip() for h in text.split(",") if h.strip()]`. */
  function CommaItems(text: string): seq<string>
  {
    Filter(Map(Split(text, ','), Strip), NonBlank)
  }

  /** Every item is a non-empty, already stripped text without a comma. */
  lemma CommaItemsShape(text: string)
    ensures forall i :: 0 <= i < |CommaItems(text)| ==>
      CommaItems(text)[i] != "" && Strip(CommaItems(text)[i]) == CommaItems(text)[i] && ',' !in CommaItems(text)[i]
  {
    var pieces := Split(text, ',');
    var stripped := Map(pieces, Strip);
    var items := CommaItems(text);
    FilterMembers(stripped, NonBlank);
    SplitPiecesLackSeparator(text, ',');
    forall i | 0 <= i < |items|
      ensures items[i] != "" && Strip(items[i]) == items[i] && ',' !in items[i]
    {
      assert items[i] in items;
      var j :| 0 <= j < |stripped| && stripped[j] == items[i];
      StripIdempotent(pieces[j]);
      StripWithin(pieces[j], ',');
    }
  }

  /** Items joined with commas are parsed back into the same items. */
  lemma CommaItemsOfJoin(items: seq<string>)
    requires |items| >= 1
    requires forall i :: 0 <= i < |items| ==> items[i] != "" && Strip(items[i]) == items[i] && ',' !in items[i]
    ensures CommaItems(Join(items, ',')) == items
  {
    JoinSplit(items, ',');
    assert Map(items, Strip) == items;
    FilterAll(items, NonBlank);
  }

  // ---------------------------------------------------------------- emoji check

  /** The symbols accepted even when the emoji library does not recognise them. */
  const CommonSymbols: seq<string> := [
    "\U{2705}", "\U{274C}", "\U{2B50}", "\U{1F4AF}", "\U{1F525}", "\U{1F4AA}",
    "\U{1F3AF}", "\U{1F4C8}", "\U{1F389}", "\U{1F3C6}", "\U{1F48E}", "\U{1F31F}"]

  /** The verdict on the last word: any of the library's tests, or one of the common symbols. */
  predicate EmojiWord(w: string, libraryEmoji: string -> bool)
  {
    libraryEmoji(w) || w in CommonSymbols
  }

  /**
   * `validate_habit_emoji`: only the last whitespace-separated word is inspected.
   * `libraryEmoji` stands for the emoji library's `is_emoji`, `emoji_list` and `emoji_count`.
   */
  predicate EndsWithEmoji(text: string, libraryEmoji: string -> bool)
  {
    var words := Words(Strip(text));
    words != [] && EmojiWord(words[|words| - 1], libraryEmoji)
  }

  /** For a text made of words, the verdict is that of its last word, whatever precedes it. */
  lemma LastWordDecides(words: seq<string>, libraryEmoji: string -> bool)
    requires |words| >= 1
    requires forall i :: 0 <= i < |words| ==> IsWord(words[i])
    ensures EndsWithEmoji(Join(words, ' '), libraryEmoji) == EmojiWord(words[|words| - 1], libraryEmoji)
  {
    JoinOfWordsIsStripped(words);
    WordsOfJoin(words);
    VerdictOfWords(Join(words, ' '), words, libraryEmoji);
  }

  /** The verdict once the words of the stripped text are known. */
  lemma VerdictOfWords(text: string, words: seq<string>, libraryEmoji: string -> bool)
    requires |words| >= 1 && Words(Strip(text)) == words
    ensures EndsWithEmoji(text, libraryEmoji) == EmojiWord(words[|words| - 1], libraryEmoji)
  {
  }

  /** `any(not validate_habit_emoji(h) for h in core)` is false. */
  predicate AllEndWithEmoji(core: seq<string>, libraryEmoji: string -> bool)
  {
    forall i :: 0 <= i < |core| ==> EndsWithEmoji(core[i], libraryEmoji)
  }

  // ---------------------------------------------------------------- edit buttons

  /** The callback data of the button that edits core habit `i`. */
  function EditButton(i: nat): string
  {
    "edit_core_" + NatToString(i)
  }

  /** The handler's pattern `^edit_core_\d+$`. */
  predicate EditPattern(data: string)
  {
    |data| > 10 && data[..10] == "edit_core_" && AllDigits(data[10..])
  }

  /** A button's data matches the pattern and carries its own index. */
  lemma EditButtonRoundTrip(i: nat)
    ensures EditPattern(EditButton(i)) && DigitsValue(EditButton(i)[10..]) == i
  {
    assert EditButton(i)[10..] == NatToString(i);
    NatToStringValue(i);
  }

  /** `data.split("_")` on matching data: the digits are the last piece. */
  lemma EditDataPieces(digits: string)
    requires digits != "" && AllDigits(digits)
    ensures Split("edit_core_" + digits, '_') == ["edit", "core", digits]
  {
    assert '_' !in digits by {
      forall i | 0 <= i < |digits|
        ensures digits[i] != '_'
      {
        assert IsAsciiDigit(digits[i]);
      }
    }
    var rest := "core" + ['_'] + digits;
    assert Split(rest, '_') == ["core", digits] by {
      SplitCons("core", digits, '_');
    }
    assert "edit_core_" + digits == "edit" + ['_'] + rest;
    SplitCons("edit", rest, '_');
  }

  /** `username or first_name`. */
  function ShownName(username: Option<string>, firstName: string): (r: string)
    ensures r == firstName || (username.Some? && r == username.value && r != "")
  {
    if username.Some? && username.value != "" then username.value else firstName
  }

  // ---------------------------------------------------------------- announcement

  const Target: string := "\U{1F3AF}"
  const Chart: string := "\U{1F4CA}"

  /**
   * `format_habit_announcement`: year = the first four characters, month = the rest, read
   * with `strptime('%m')`.  `None` where that raises; `send_habit_announcement` catches it
   * and posts nothing.
   */
  function FormatHabitAnnouncement(username: string, habits: seq<string>, yyyymm: string): (r: Option<string>)
    ensures r.Some? <==> MonthToken(Drop(yyyymm, 4))
    ensures r.Some? ==> var total := Chart + " Total: " + NatToString(|habits|) + " core habits";
      |total| <= |r.value| && r.value[|r.value| - |total|..] == total
  {
    var year, month := Take(yyyymm, 4), Drop(yyyymm, 4);
    if !MonthToken(month) then None
    else
      var total := HabitTotal(|habits|);
      var head := HabitHeadline(username, MonthNameOf(month), year) + "\n\n"
        + JoinAll(Map(habits, Bullet), '\n') + "\n\n";
      assert (head + total)[|head + total| - |total|..] == total;
      Some(head + total)
  }

  /** `strptime(month, "%m").strftime("%B")`. */
  function MonthNameOf(month: string): string
    requires MonthToken(month)
  {
    MonthTokenValue(month);
    MonthNames[TokenValue(month) - 1]
  }

  function HabitHeadline(username: string, monthName: string, year: string): string
  {
    Target + " " + username + " just set their core habits for " + monthName + " " + year + "!"
  }

  /** One line of the habit list. */
  function Bullet(habit: string): string
  {
    "\U{2022} " + habit
  }

  function HabitTotal(n: nat): string
  {
    Chart + " Total: " + NatToString(n) + " core habits"
  }

  /**
   * Read line by line, the announcement is the headline, a blank line, one bullet line per
   * habit in the order given (one empty line when there are none), a blank line and the total.
   */
  lemma HabitAnnouncementLines(username: string, habits: seq<string>, yyyymm: string)
    requires MonthToken(Drop(yyyymm, 4))
    requires '\n' !in username && '\n' !in Take(yyyymm, 4)
    requires forall i :: 0 <= i < |habits| ==> '\n' !in habits[i]
    ensures var r := FormatHabitAnnouncement(username, habits, yyyymm);
      r.Some? && Split(r.value, '\n')
        == [HabitHeadline(username, MonthNameOf(Drop(yyyymm, 4)), Take(yyyymm, 4)), ""]
           + LinePieces(Map(habits, Bullet)) + ["", HabitTotal(|habits|)]
  {
    var month := Drop(yyyymm, 4);
    var head := HabitHeadline(username, MonthNameOf(month), Take(yyyymm, 4));
    var lines := Map(habits, Bullet);
    var total := HabitTotal(|habits|);
    HeadlineSingle(username, yyyymm);
    TotalSingle(|habits|);
    BulletsSingle(habits);
    HabitAnnouncementText(username, habits, yyyymm);
    SplitMessage(head, lines, ["", total]);
  }

  /** The announcement as the message layout `SplitMessage` reads: the total follows a blank line. */
  lemma HabitAnnouncementText(username: string, habits: seq<string>, yyyymm: string)
    requires MonthToken(Drop(yyyymm, 4))
    ensures var r := FormatHabitAnnouncement(username, habits, yyyymm);
      r.Some? && r.value == HabitHeadline(username, MonthNameOf(Drop(yyyymm, 4)), Take(yyyymm, 4)) + "\n\n"
        + JoinAll(Map(habits, Bullet), '\n') + "\n" + Join(["", HabitTotal(|habits|)], '\n')
  {
    var total := HabitTotal(|habits|);
    assert Join(["", total], '\n') == "\n" + total;
    LineBeforeLast(HabitHeadline(username, MonthNameOf(Drop(yyyymm, 4)), Take(yyyymm, 4)) + "\n\n"
      + JoinAll(Map(habits, Bullet), '\n'), total);
  }

  lemma LineBeforeLast(a: string, b: string)
    ensures a + "\n\n" + b == a + "\n" + ("\n" + b)
  {
  }

  /** No piece of the habit announcement holds a line break of its own. */
  lemma HeadlineSingle(username: string, yyyymm: string)
    requires MonthToken(Drop(yyyymm, 4))
    requires '\n' !in username && '\n' !in Take(yyyymm, 4)
    ensures '\n' !in HabitHeadline(username, MonthNameOf(Drop(yyyymm, 4)), Take(yyyymm, 4))
  {
    MonthTokenValue(Drop(yyyymm, 4));
    var monthName := MonthNameOf(Drop(yyyymm, 4));
    assert '\n' !in monthName;
    NoBreakJoin3(Target + " " + username + " just set their core habits for ", monthName, " " + Take(yyyymm, 4) + "!");
  }

  lemma TotalSingle(n: nat)
    ensures '\n' !in HabitTotal(n)
  {
    DigitsNoBreak(NatToString(n));
    NoBreakJoin3(Chart + " Total: ", NatToString(n), " core habits");
  }

  lemma BulletsSingle(habits: seq<string>)
    requires forall i :: 0 <= i < |habits| ==> '\n' !in habits[i]
    ensures forall i :: 0 <= i < |habits| ==> '\n' !in Map(habits, Bullet)[i]
  {
    forall i | 0 <= i < |habits|
      ensures '\n' !in Map(habits, Bullet)[i]
    {
      NoBreakJoin3("\U{2022} ", habits[i], "");
    }
  }

  /** The headline of the announcement for a month the bot printed names that month and year. */
  lemma AnnouncementNamesMonth(username: string, habits: seq<string>, d: Date)
    requires Valid(d)
    ensures var r := FormatHabitAnnouncement(username, habits, FormatYearMonth(d));
      var headline := Target + " " + username + " just set their core habits for "
        + MonthNames[d.month - 1] + " " + Pad4(d.year) + "!";
      r.Some? && |headline| <= |r.value| && r.value[..|headline|] == headline
  {
    var ym := FormatYearMonth(d);
    assert Take(ym, 4) == Pad4(d.year);
    assert Drop(ym, 4) == Pad2(d.month);
    Pad2Token(d.month);
  }

  // ---------------------------------------------------------------- conversation

  /** The conversation states; `Crash` is a handler that raises and leaves the state as it was. */
  datatype Step = End | WaitForMonthConfirm | Core | WaitForCoreConfirm | EditCore | Crash

  /** One `add_habits_to_db` call. */
  datatype HabitBatch = HabitBatch(userId: int, username: string, yearMonth: string,
                                   habitTexts: seq<string>, habitType: string)

  /** What `get_core_habits` lets through, kept by every later edit. */
  predicate CoreListOk(core: seq<string>, libraryEmoji: string -> bool)
  {
    && 2 <= |core| <= 4
    && AllEndWithEmoji(core, libraryEmoji)
    && forall i :: 0 <= i < |core| ==> Strip(core[i]) == core[i]
  }

  class Conversation {
    /** The snapshot stored in `context.user_data['db']` at the start. */
    var db: DbCache
    /** `context.user_data['core_habits']`. */
    var coreHabits: Option<seq<string>>
    /** `context.user_data['edit_core_index']`. */
    var editIndex: Option<nat>
    /** Batches handed to `add_habits_to_db`, oldest first. */
    var dbWrites: seq<HabitBatch>
    /** Messages posted to the channel, oldest first. */
    var announcements: seq<string>
    const libraryEmoji: string -> bool

    constructor(db: DbCache, libraryEmoji: string -> bool)
      ensures this.db == db && this.libraryEmoji == libraryEmoji
      ensures coreHabits == None && editIndex == None && dbWrites == [] && announcements == []
    {
      this.db := db;
      this.libraryEmoji := libraryEmoji;
      coreHabits := None;
      editIndex := None;
      dbWrites := [];
      announcements := [];
    }

    /** Stored core habits are always a list `get_core_habits` could have accepted. */
    predicate Valid()
      reads this
    {
      coreHabits.Some? ==> CoreListOk(coreHabits.value, libraryEmoji)
    }

    /**
     * `start_set_habits`: a missing month ends the conversation; a month `strptime('%Y%m')`
     * rejects raises; a month other than today's asks for confirmation; core habits already
     * set for the month end it; otherwise the core habits are asked for.
     */
    method StartSetHabits(snapshot: DbCache, configured: Option<string>, today: Date, userId: int)
      returns (step: Step)
      requires Dates.Valid(today)
      modifies this`db
      ensures db == snapshot
      ensures
        if configured.None? || configured.value == "" then step == End
        else if ParseYearMonth(configured.value).None? then step == Crash
        else if FormatYearMonth(today) != configured.value then step == WaitForMonthConfirm
        else if snapshot.HasExistingCoreHabits(userId, configured.value) then step == End
        else step == Core
      ensures configured == Some(FormatYearMonth(today)) ==>
        (step == End <==> snapshot.HasExistingCoreHabits(userId, configured.value))
        && (step == Core <==> !snapshot.HasExistingCoreHabits(userId, configured.value))
    {
      db := snapshot;
      if configured.None? || configured.value == "" {
        return End;
      }
      var ym := configured.value;
      if ParseYearMonth(ym).None? {
        ParseFormatYearMonth(today);
        return Crash;
      }
      if FormatYearMonth(today) != ym {
        return WaitForMonthConfirm;
      }
      var taken := db.HasExistingCoreHabits(userId, ym);
      if taken {
        return End;
      }
      step := Core;
    }

    /**
     * `get_core_habits`: a count outside 2..4 or a habit without an emoji asks again and
     * stores nothing; otherwise the list is stored and one edit button is offered per habit.
     */
    method GetCoreHabits(text: string) returns (step: Step, buttons: seq<string>)
      requires Valid()
      modifies this`coreHabits
      ensures Valid()
      ensures var core := CommaItems(text);
        if 2 <= |core| <= 4 && AllEndWithEmoji(core, libraryEmoji) then
          step == WaitForCoreConfirm && coreHabits == Some(core)
          && |buttons| == |core| && forall i :: 0 <= i < |buttons| ==> buttons[i] == EditButton(i)
        else step == Core && coreHabits == old(coreHabits) && buttons == []
    {
      var core := CommaItems(text);
      if !(2 <= |core| <= 4) {
        return Core, [];
      }
      if !AllEndWithEmoji(core, libraryEmoji) {
        return Core, [];
      }
      CommaItemsShape(text);
      coreHabits := Some(core);
      buttons := seq(|core|, (i: int) requires 0 <= i => EditButton(i));
      step := WaitForCoreConfirm;
    }

    /** `edit_core_habit`: remembers the index the pressed button carries. */
    method EditCoreHabit(data: string) returns (step: Step)
      requires EditPattern(data)
      modifies this`editIndex
      ensures step == EditCore && editIndex == Some(DigitsValue(data[10..]))
    {
      var digits := data[10..];
      assert data == "edit_core_" + digits;
      EditDataPieces(digits);
      var pieces := Split(data, '_');
      PyIntOfDigits(digits);
      var idx := PyInt(pieces[|pieces| - 1]);
      editIndex := Some(idx.value);
      step := EditCore;
    }

    /**
     * `save_edited_core_habit`: the stripped text replaces only the habit at the stored index.
     * A text without an emoji asks again and changes nothing; a missing list or index, or an
     * index past the end, raises before anything changes.
     */
    method SaveEditedCoreHabit(text: string) returns (step: Step)
      requires Valid()
      modifies this`coreHabits
      ensures Valid()
      ensures var t := Strip(text);
        if !EndsWithEmoji(t, libraryEmoji) then step == EditCore && coreHabits == old(coreHabits)
        else if old(coreHabits).None? || editIndex.None? || editIndex.value >= |old(coreHabits).value| then
          step == Crash && coreHabits == old(coreHabits)
        else step == WaitForCoreConfirm && coreHabits == Some(old(coreHabits).value[editIndex.value := t])
    {
      var t := Strip(text);
      if !EndsWithEmoji(t, libraryEmoji) {
        return EditCore;
      }
      if coreHabits.None? || editIndex.None? || editIndex.value >= |coreHabits.value| {
        return Crash;
      }
      StripIdempotent(text);
      coreHabits := Some(coreHabits.value[editIndex.value := t]);
      step := WaitForCoreConfirm;
    }

    /**
     * `save_core_habits`: refused when core habits already exist for the month; otherwise the
     * stored list is written once under the configured month and announced.
     */
    method SaveCoreHabits(configured: Option<string>, userId: int, username: string) returns (step: Step)
      requires Valid()
      modifies this`dbWrites, this`announcements
      ensures
        if configured.None? then step == Crash && dbWrites == old(dbWrites) && announcements == old(announcements)
        else
          var ym := Strip(configured.value);
          if ym == "" || db.HasExistingCoreHabits(userId, ym) then
            step == End && dbWrites == old(dbWrites) && announcements == old(announcements)
          else if coreHabits.None? then
            step == Crash && dbWrites == old(dbWrites) && announcements == old(announcements)
          else
            var core := coreHabits.value;
            var post := FormatHabitAnnouncement(username, core, ym);
            && step == End
            && dbWrites == old(dbWrites) + [HabitBatch(userId, username, ym, core, "core")]
            && announcements == old(announcements) + (if post.Some? then [post.value] else [])
      ensures |dbWrites| > |old(dbWrites)| ==> 2 <= |dbWrites[|dbWrites| - 1].habitTexts| <= 4
    {
      if configured.None? {
        return Crash;
      }
      var ym := Strip(configured.value);
      if ym == "" {
        return End;
      }
      var already := db.HasExistingCoreHabits(userId, ym);
      if already {
        return End;
      }
      if coreHabits.None? {
        return Crash;
      }
      var core := coreHabits.value;
      dbWrites := dbWrites + [HabitBatch(userId, username, ym, core, "core")];
      var post := FormatHabitAnnouncement(username, core, ym);
      if post.Some? {
        announcements := announcements + [post.value];
      }
      step := End;
    }
  }
}
