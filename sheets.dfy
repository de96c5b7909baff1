/**
 * The row the legacy Google-Sheets store appends for a month's habits: the username, the
 * year-month, four core slots and five bonus slots, blanks filling the unused slots.
 * `[""] * n` is the empty list for a negative `n`, so longer lists are kept whole.
 */
module Sheets {
  import opened Text
  import opened Collections

  const CoreSlots: nat := 4
  const BonusSlots: nat := 5

  /** Python's `[""] * n`, which is empty when `n` is not positive. */
  function Blanks(n: int): (r: seq<string>)
    ensures |r| == if n <= 0 then 0 else n
    ensures forall i :: 0 <= i < |r| ==> r[i] == ""
  {
    if n <= 0 then [] else [""] + Blanks(n - 1)
  }

  /** The row `add_habits` appends. */
  function HabitRow(username: string, yearMonth: string, core: seq<string>, bonus: seq<string>): seq<string>
  {
    [username, yearMonth] + core + Blanks(CoreSlots - |core|) + bonus + Blanks(BonusSlots - |bonus|)
  }

  function Max(a: int, b: int): int
  {
    if a < b then b else a
  }

  /** Where everything sits in the row: padding only ever adds blanks, it never cuts a list. */
  lemma RowLayout(username: string, yearMonth: string, core: seq<string>, bonus: seq<string>)
    ensures var row := HabitRow(username, yearMonth, core, bonus);
      var b := 2 + Max(|core|, CoreSlots);
      && |row| == b + Max(|bonus|, BonusSlots)
      && row[0] == username && row[1] == yearMonth
      && row[2..2 + |core|] == core
      && (forall i :: 2 + |core| <= i < b ==> row[i] == "")
      && row[b..b + |bonus|] == bonus
      && (forall i :: b + |bonus| <= i < |row| ==> row[i] == "")
  {
    var row := HabitRow(username, yearMonth, core, bonus);
    var pad1, pad2 := Blanks(CoreSlots - |core|), Blanks(BonusSlots - |bonus|);
    var b := 2 + Max(|core|, CoreSlots);
    assert row == [username, yearMonth] + core + pad1 + bonus + pad2;
    assert |pad1| == b - 2 - |core|;
    assert forall i :: 2 + |core| <= i < b ==> row[i] == pad1[i - 2 - |core|];
    assert forall i :: b + |bonus| <= i < |row| ==> row[i] == pad2[i - b - |bonus|];
  }

  /** Within the bounds the bot enforces, every row has exactly eleven columns. */
  lemma RowLengthEleven(username: string, yearMonth: string, core: seq<string>, bonus: seq<string>)
    requires |core| <= CoreSlots && |bonus| <= BonusSlots
    ensures |HabitRow(username, yearMonth, core, bonus)| == 11
  {
    RowLayout(username, yearMonth, core, bonus);
  }

  /**
   * Reading the row back: the non-blank cells of the four core columns are the core habits
   * and those of the five bonus columns the bonus habits, when no habit text is blank.
   */
  lemma RowReadBack(username: string, yearMonth: string, core: seq<string>, bonus: seq<string>)
    requires |core| <= CoreSlots && |bonus| <= BonusSlots
    requires forall h :: h in core ==> h != ""
    requires forall h :: h in bonus ==> h != ""
    ensures var row := HabitRow(username, yearMonth, core, bonus);
      Filter(row[2..6], NonBlank) == core && Filter(row[6..11], NonBlank) == bonus
  {
    var row := HabitRow(username, yearMonth, core, bonus);
    var pad1, pad2 := Blanks(CoreSlots - |core|), Blanks(BonusSlots - |bonus|);
    assert row == [username, yearMonth] + core + pad1 + bonus + pad2;
    assert row[2..6] == core + pad1;
    assert row[6..11] == bonus + pad2;
    FilterConcat(core, pad1, NonBlank);
    FilterConcat(bonus, pad2, NonBlank);
    FilterAll(core, NonBlank);
    FilterAll(bonus, NonBlank);
    FilterNone(pad1, NonBlank);
    FilterNone(pad2, NonBlank);
  }
}
