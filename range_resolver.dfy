/**
 * The chart's range selector: a combo-box label, possibly absent, becomes the
 * earliest date a chart point may have. "Today" is a parameter instead of a
 * clock read.
 */
module RangeResolver {
  import opened Results
  import opened Calendar

  /** The three labels the combo box offers. */
  const Last30Days: string := "\U{00DA}ltimos 30 d\U{00ED}as"
  const Last3Months: string := "\U{00DA}ltimos 3 meses"
  const Last6Months: string := "\U{00DA}ltimos 6 meses"

  /**
   * calculateFromDate: a null label and every label other than the 30-day and
   * 3-month ones (including the 6-month one) fall back to six months.
   */
  function CalculateFromDate(range: Option<string>, today: Date): (r: Date)
    requires ValidDate(today)
    ensures ValidDate(r) && Before(r, today)
    ensures range == Some(Last30Days) ==> DayNumber(r) == DayNumber(today) - 30
    ensures range == Some(Last3Months) ==> MonthIndex(r) == MonthIndex(today) - 3
    ensures range != Some(Last30Days) && range != Some(Last3Months) ==>
              MonthIndex(r) == MonthIndex(today) - 6
    ensures range != Some(Last30Days) ==>
              r.day <= today.day
              && forall k :: r.day < k <= today.day ==> !ValidDate(Date(r.year, r.month, k))
  {
    match range
    case None => MinusMonths(today, 6)
    case Some(name) =>
      if name == Last30Days then MinusDays(today, 30)
      else if name == Last3Months then MinusMonths(today, 3)
      else MinusMonths(today, 6)
  }

  /** A null label and the explicit six-month label give the same date. */
  lemma NullMeansSixMonths(today: Date)
    requires ValidDate(today)
    ensures CalculateFromDate(None, today) == CalculateFromDate(Some(Last6Months), today)
    ensures CalculateFromDate(None, today) == MinusMonths(today, 6)
  {
  }

  /** The three labels are distinct, so each selects its own branch. */
  lemma LabelsDistinct()
    ensures Last30Days != Last3Months && Last3Months != Last6Months && Last30Days != Last6Months
  {
    assert Last30Days[9] != Last3Months[9];
    assert Last3Months[8] != Last6Months[8];
    assert Last30Days[8] != Last6Months[8];
  }
}
