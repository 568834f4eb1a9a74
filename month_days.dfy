/**
 * Cumulative day counts of the months of a year, over a fixed month table in
 * which February always has 29 days (a leap-year calendar, kept on purpose).
 */
module MonthDays {

  /** Days in each month, January first, for a leap year. */
  const DaysInMonths: seq<int> := [31, 29, 31, 30, 31, 30, 31, 31, 30, 31, 30, 31]

  /** The running totals the table produces, January first. */
  const CumulativeTable: seq<int> := [31, 60, 91, 121, 152, 182, 213, 244, 274, 305, 335, 366]

  /** Sum of a sequence, peeling off the last element (the order a running total adds them). */
  function Sum(s: seq<int>): int
  {
    if s == [] then 0 else Sum(s[..|s| - 1]) + s[|s| - 1]
  }

  ghost predicate AllPositive(s: seq<int>)
  {
    forall i :: 0 <= i < |s| ==> s[i] > 0
  }

  ghost predicate StrictlyIncreasing(r: seq<int>)
  {
    forall i, j :: 0 <= i < j < |r| ==> r[i] < r[j]
  }

  /** Running totals of `s`: entry i is the sum of the first i + 1 elements. */
  function RunningTotals(s: seq<int>): (r: seq<int>)
    ensures |r| == |s|
    ensures forall i :: 0 <= i < |s| ==> r[i] == Sum(s[..i + 1])
  {
    if s == [] then []
    else
      assert s[..|s|] == s;
      assert forall k :: 0 <= k < |s| ==> s[..|s| - 1][..k] == s[..k];
      RunningTotals(s[..|s| - 1]) + [Sum(s)]
  }

  /** Differences of consecutive entries, with 0 taken as the entry before the first. */
  function Differences(r: seq<int>): (d: seq<int>)
    ensures |d| == |r|
  {
    seq(|r|, i requires 0 <= i < |r| => r[i] - (if i == 0 then 0 else r[i - 1]))
  }

  /** Adding one more element to a prefix adds that element to its sum. */
  lemma SumOfLongerPrefix(s: seq<int>, k: nat)
    requires k < |s|
    ensures Sum(s[..k + 1]) == Sum(s[..k]) + s[k]
  {
    assert s[..k + 1][..k] == s[..k];
  }

  /** Over positive elements the sum of a longer prefix is strictly larger. */
  lemma {:induction false} SumOfPrefixGrows(s: seq<int>, i: nat, j: nat)
    requires AllPositive(s)
    requires i < j <= |s|
    ensures Sum(s[..i]) < Sum(s[..j])
  {
    SumOfLongerPrefix(s, j - 1);
    if i < j - 1 {
      SumOfPrefixGrows(s, i, j - 1);
    }
  }

  /** Taking differences undoes running totals: the table is recovered exactly. */
  lemma DifferencesOfRunningTotals(s: seq<int>)
    ensures Differences(RunningTotals(s)) == s
  {
    var r := RunningTotals(s);
    forall i | 0 <= i < |s|
      ensures Differences(r)[i] == s[i]
    {
      SumOfLongerPrefix(s, i);
      if i > 0 {
        assert r[i - 1] == Sum(s[..i]);
      }
    }
  }

  /** The first k differences of `r` add up to entry k - 1 of `r` (telescoping). */
  lemma {:induction false} SumOfDifferences(r: seq<int>, k: nat)
    requires k <= |r|
    ensures Sum(Differences(r)[..k]) == if k == 0 then 0 else r[k - 1]
  {
    if k > 0 {
      SumOfLongerPrefix(Differences(r), k - 1);
      SumOfDifferences(r, k - 1);
    }
  }

  /** Running totals undo differences: every sequence is the running total of its differences. */
  lemma RunningTotalsOfDifferences(r: seq<int>)
    ensures RunningTotals(Differences(r)) == r
  {
    forall i | 0 <= i < |r|
      ensures RunningTotals(Differences(r))[i] == r[i]
    {
      SumOfDifferences(r, i + 1);
    }
  }

  /** Over positive elements an earlier running total is below a later one. */
  lemma RunningTotalsGrow(s: seq<int>, i: nat, j: nat)
    requires AllPositive(s)
    requires i < j < |s|
    ensures RunningTotals(s)[i] < RunningTotals(s)[j]
  {
    SumOfPrefixGrows(s, i + 1, j + 1);
  }

  /** Over positive elements the running totals are strictly increasing and start above zero. */
  lemma PositiveGivesIncreasing(s: seq<int>, r: seq<int>)
    requires r == RunningTotals(s)
    requires AllPositive(s)
    ensures StrictlyIncreasing(r)
    ensures |r| > 0 ==> r[0] > 0
  {
    forall i, j | 0 <= i < j < |r|
      ensures r[i] < r[j]
    {
      RunningTotalsGrow(s, i, j);
    }
    if |s| > 0 {
      SumOfPrefixGrows(s, 0, 1);
    }
  }

  /** Each running total is the previous one (0 before the first) plus the element at its place. */
  lemma RunningTotalsStep(s: seq<int>, i: nat)
    requires i < |s|
    ensures RunningTotals(s)[i] == (if i == 0 then 0 else RunningTotals(s)[i - 1]) + s[i]
  {
    SumOfLongerPrefix(s, i);
  }

  /** Strictly increasing running totals that start above zero come only from positive elements. */
  lemma IncreasingGivesPositive(s: seq<int>, r: seq<int>)
    requires r == RunningTotals(s)
    requires StrictlyIncreasing(r)
    requires |r| > 0 ==> r[0] > 0
    ensures AllPositive(s)
  {
    forall i | 0 <= i < |s|
      ensures s[i] > 0
    {
      RunningTotalsStep(s, i);
      if i > 0 {
        assert r[i - 1] < r[i];
      }
    }
  }

  /** The entry for the last month is the total of the whole table. */
  lemma LastRunningTotalIsSum(s: seq<int>)
    requires |s| > 0
    ensures RunningTotals(s)[|s| - 1] == Sum(s)
  {
  }

  /** The differences of the expected result are the month table. */
  lemma CumulativeTableDifferences()
    ensures Differences(CumulativeTable) == DaysInMonths
  {
  }

  /** The running totals of the month table are the expected result, ending at 366. */
  lemma DaysInMonthsTotals()
    ensures RunningTotals(DaysInMonths) == CumulativeTable
    ensures Sum(DaysInMonths) == 366
  {
    CumulativeTableDifferences();
    RunningTotalsOfDifferences(CumulativeTable);
    LastRunningTotalIsSum(DaysInMonths);
  }

  /**
   * The cumulative day count at the end of each month, computed as the loop
   * of `cumulative_days_in_months` does: a running total added to and
   * appended once per month.
   */
  method CumulativeDaysInMonths() returns (cumulativeDays: seq<int>)
    ensures cumulativeDays == RunningTotals(DaysInMonths)
    ensures cumulativeDays == CumulativeTable
    ensures |cumulativeDays| == 12
    ensures StrictlyIncreasing(cumulativeDays)
    ensures cumulativeDays[11] == 366
    ensures Differences(cumulativeDays) == DaysInMonths
  {
    cumulativeDays := [];
    var totalDays := 0;
    for k := 0 to |DaysInMonths|
      invariant totalDays == Sum(DaysInMonths[..k])
      invariant cumulativeDays == RunningTotals(DaysInMonths[..k])
    {
      var days := DaysInMonths[k];
      SumOfLongerPrefix(DaysInMonths, k);
      assert DaysInMonths[..k + 1][..k] == DaysInMonths[..k];
      totalDays := totalDays + days;
      cumulativeDays := cumulativeDays + [totalDays];
    }
    assert DaysInMonths[..|DaysInMonths|] == DaysInMonths;
    DaysInMonthsTotals();
    PositiveGivesIncreasing(DaysInMonths, cumulativeDays);
    DifferencesOfRunningTotals(DaysInMonths);
  }
}
