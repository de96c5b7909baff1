/**
 * The first `/sethabits` conversation, which kept the habits in a Google sheet: two to four
 * comma-separated core habits, then up to five bonus habits or `skip`, saved as one
 * `add_habits` row under the month `%Y-%m`.  Each handler is a function of the message
 * text and what earlier steps stored.
 */
module LegacySetHabits {
  import opened Wrappers
  import opened Text
  import opened Dates
  import opened Collections
  import opened Sheets
  import opened SetHabits

  datatype LegacyStep = AskCore | AskBonus | Done

  /** `get_core_habits`: the parsed list is stored only when it has two to four items. */
  function GetCoreHabits(text: string): (r: (LegacyStep, Option<seq<string>>))
    ensures r.0 == AskBonus <==> 2 <= |CommaItems(text)| <= 4
    ensures r.0 == AskBonus ==> r.1 == Some(CommaItems(text))
    ensures r.0 != AskBonus ==> r.0 == AskCore && r.1 == None
  {
    var core := CommaItems(text);
    if !(2 <= |core| <= 4) then (AskCore, None) else (AskBonus, Some(core))
  }

  /** Two to four habit texts typed with commas between them are stored as typed. */
  lemma CoreOfJoinedHabits(items: seq<string>)
    requires 2 <= |items| <= 4
    requires forall i :: 0 <= i < |items| ==> items[i] != "" && Strip(items[i]) == items[i] && ',' !in items[i]
    ensures GetCoreHabits(Join(items, ',')) == (AskBonus, Some(items))
  {
    CommaItemsOfJoin(items);
  }

  /**
   * Python's `c.lower() == l` for one code point and an ASCII lower-case letter `l`: the
   * letter itself, its capital, and for `k` also the Kelvin sign, which lower-cases to `k`.
   */
  predicate LowersTo(c: char, l: char)
    requires 'a' <= l <= 'z'
  {
    c == l || c as int == l as int - 32 || (l == 'k' && c == '\U{212A}')
  }

  /** `t.lower() == 'skip'`. */
  predicate IsSkip(t: string)
  {
    |t| == 4 && LowersTo(t[0], 's') && LowersTo(t[1], 'k') && LowersTo(t[2], 'i') && LowersTo(t[3], 'p')
  }

  /** The bonus list: none for `skip`, else the comma-separated items of the stripped text. */
  function BonusItems(text: string): seq<string>
  {
    var t := Strip(text);
    if IsSkip(t) then [] else CommaItems(t)
  }

  /** `skip` in any mix of capitals, with any surrounding whitespace, means no bonus habits. */
  lemma SkipInAnyCase(text: string)
    requires var t := Strip(text);
      |t| == 4 && t[0] in "sS" && t[1] in "kK" && t[2] in "iI" && t[3] in "pP"
    ensures BonusItems(text) == []
  {
  }

  /**
   * `get_bonus_habits`: more than five items asks again and saves nothing; otherwise the
   * row for the stored core list and the bonus list is saved under today's `%Y-%m`.
   */
  function GetBonusHabits(text: string, core: seq<string>, username: string, today: Date)
    : (r: (LegacyStep, Option<seq<string>>))
    requires Dates.Valid(today)
    ensures r.0 == AskBonus <==> |BonusItems(text)| > 5
    ensures r.0 == AskBonus ==> r.1 == None
    ensures r.0 != AskBonus ==>
      r.0 == Done && r.1 == Some(HabitRow(username, FormatYearDashMonth(today), core, BonusItems(text)))
  {
    var bonus := BonusItems(text);
    if |bonus| > 5 then (AskBonus, None)
    else (Done, Some(HabitRow(username, FormatYearDashMonth(today), core, bonus)))
  }

  /** What the bonus step accepts are non-empty texts. */
  lemma BonusItemsNonBlank(text: string)
    ensures forall h :: h in BonusItems(text) ==> h != ""
  {
    var t := Strip(text);
    if !IsSkip(t) {
      CommaItemsShape(t);
    }
  }

  /**
   * A saved row has eleven columns, the month as `%Y-%m`, and reading back the non-blank
   * core and bonus cells gives exactly the two parsed lists.
   */
  lemma SavedRowReadsBack(coreText: string, bonusText: string, username: string, today: Date)
    requires Dates.Valid(today)
    requires GetCoreHabits(coreText).0 == AskBonus
    requires GetBonusHabits(bonusText, CommaItems(coreText), username, today).0 == Done
    ensures var row := GetBonusHabits(bonusText, CommaItems(coreText), username, today).1.value;
      && |row| == 11 && row[0] == username && row[1] == FormatYearDashMonth(today)
      && Filter(row[2..6], NonBlank) == CommaItems(coreText)
      && Filter(row[6..11], NonBlank) == BonusItems(bonusText)
  {
    var core, bonus := CommaItems(coreText), BonusItems(bonusText);
    CommaItemsShape(coreText);
    assert forall h :: h in core ==> h != "";
    BonusItemsNonBlank(bonusText);
    RowLayout(username, FormatYearDashMonth(today), core, bonus);
    RowLengthEleven(username, FormatYearDashMonth(today), core, bonus);
    RowReadBack(username, FormatYearDashMonth(today), core, bonus);
  }
}
