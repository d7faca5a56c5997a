/**
 * JournalController::calculateStreak over day numbers: the query yields the distinct entry
 * dates newest first, and the loop counts how many of them continue the chain today,
 * yesterday, the day before, ... stopping at the first date that does not.
 */
module Streak {

  /** What the grouped, descending query guarantees about the dates. */
  predicate StrictlyDescending(days: seq<int>)
  {
    forall i, j :: 0 <= i < j < |days| ==> days[i] > days[j]
  }

  /** The streak the loop computes, written as a recursion on the dates. */
  function StreakOf(days: seq<int>, today: int): (n: nat)
  {
    if days == [] || days[0] != today then 0 else 1 + StreakOf(days[1..], today - 1)
  }

  /** calculateStreak, with its early exit. */
  method CalculateStreak(days: seq<int>, today: int) returns (streak: nat)
    ensures streak == StreakOf(days, today)
  {
    streak := 0;
    var current := today;
    var i := 0;
    while i < |days|
      invariant 0 <= i <= |days| && streak == i && current == today - i
      invariant StreakOf(days, today) == i + StreakOf(days[i..], current)
    {
      if days[i] == current {
        assert days[i..][1..] == days[i + 1..];
        streak := streak + 1;
        current := current - 1;
        i := i + 1;
      } else {
        break;
      }
    }
  }

  /** No entry today, no streak. */
  lemma NoEntryTodayNoStreak(days: seq<int>, today: int)
    requires days == [] || days[0] != today
    ensures StreakOf(days, today) == 0
  {
  }

  /** The streak never exceeds the number of distinct entry dates. */
  lemma {:induction false} StreakAtMostEntries(days: seq<int>, today: int)
    ensures StreakOf(days, today) <= |days|
  {
    if days != [] && days[0] == today {
      StreakAtMostEntries(days[1..], today - 1);
    }
  }

  /**
   * A streak of k means the first k dates are today, today - 1, ..., today - (k - 1), and the
   * next date, if there is one, breaks the chain; these two facts determine k.
   */
  lemma {:induction false} StreakCharacterized(days: seq<int>, today: int, k: nat)
    ensures StreakOf(days, today) == k <==>
      && k <= |days|
      && (forall i :: 0 <= i < k ==> days[i] == today - i)
      && (k < |days| ==> days[k] != today - k)
  {
    if days != [] && days[0] == today && k > 0 {
      StreakCharacterized(days[1..], today - 1, k - 1);
      if k <= |days| {
        assert (forall i :: 0 <= i < k ==> days[i] == today - i) <==>
               (forall i :: 0 <= i < k - 1 ==> days[1..][i] == today - 1 - i) by {
          forall i | 0 <= i < k - 1 ensures days[1..][i] == days[i + 1] {}
        }
      }
    }
  }

  /** Dates after the first one that breaks the chain never affect the result. */
  lemma {:induction false} StreakIgnoresLaterDates(a: seq<int>, b: seq<int>, today: int)
    requires StreakOf(a, today) < |a|
    requires |b| > StreakOf(a, today)
    requires a[..StreakOf(a, today) + 1] == b[..StreakOf(a, today) + 1]
    ensures StreakOf(b, today) == StreakOf(a, today)
  {
    if a[0] == today {
      assert a[1..][..StreakOf(a[1..], today - 1) + 1] == a[..StreakOf(a, today) + 1][1..];
      assert b[1..][..StreakOf(a[1..], today - 1) + 1] == b[..StreakOf(a, today) + 1][1..];
      StreakIgnoresLaterDates(a[1..], b[1..], today - 1);
    } else {
      assert b[0] == a[..1][0];
    }
  }

  /**
   * Over distinct, descending dates none of which lies after today, the streak is the
   * number of consecutive days up to today that all have an entry: each of them is among
   * the dates and the day before them is not.
   */
  lemma StreakCountsPresentDays(days: seq<int>, today: int)
    requires StrictlyDescending(days)
    requires forall i :: 0 <= i < |days| ==> days[i] <= today
    ensures forall d :: today - StreakOf(days, today) < d <= today ==> d in days
    ensures today - StreakOf(days, today) !in days
  {
    var k := StreakOf(days, today);
    StreakCharacterized(days, today, k);
    forall d | today - k < d <= today ensures d in days {
      assert days[today - d] == d;
    }
    forall i | 0 <= i < |days| ensures days[i] != today - k {
      if i < k {
        assert days[i] == today - i;
      } else if k == 0 {
        assert days[i] <= days[0];
        assert days[0] != today;
      } else {
        assert days[k - 1] == today - (k - 1);
        assert days[k] != today - k;
        assert days[k] < days[k - 1];
        assert days[i] <= days[k];
      }
    }
  }
}
