/** The figures the dashboard header shows for the day: calories consumed, the
    remainder against the daily goal, the progress percentage, and the label and
    amount in the header. */
module Progress {
  import opened Types

  /** Calories consumed: the meals' totals added up from the first meal on. */
  function Consumed(meals: seq<Meal>): int {
    if meals == [] then 0 else Consumed(meals[..|meals| - 1]) + meals[|meals| - 1].totalCalories
  }

  lemma {:induction false} ConsumedAppend(a: seq<Meal>, b: seq<Meal>)
    ensures Consumed(a + b) == Consumed(a) + Consumed(b)
    decreases |b|
  {
    if b == [] {
      assert a + b == a;
    } else {
      var b' := b[..|b| - 1];
      assert (a + b)[..|a + b| - 1] == a + b';
      ConsumedAppend(a, b');
    }
  }

  /** Consumption does not depend on the order of the meals. */
  lemma {:induction false} ConsumedPermutation(a: seq<Meal>, b: seq<Meal>)
    requires multiset(a) == multiset(b)
    ensures Consumed(a) == Consumed(b)
    decreases |a|
  {
    if a != [] {
      var x := a[|a| - 1];
      var a' := a[..|a| - 1];
      assert a == a' + [x];
      assert x in multiset(b);
      var j :| 0 <= j < |b| && b[j] == x;
      var b' := b[..j] + b[j + 1..];
      assert b == b[..j] + [x] + b[j + 1..];
      assert multiset(b) == multiset(b[..j]) + multiset{x} + multiset(b[j + 1..]);
      assert multiset(b') == multiset(b[..j]) + multiset(b[j + 1..]);
      assert multiset(a) == multiset(a') + multiset{x};
      assert multiset(a') == multiset(a) - multiset{x};
      assert multiset(b') == multiset(b) - multiset{x};
      ConsumedPermutation(a', b');
      ConsumedAppend(b[..j], [x]);
      ConsumedAppend(b[..j] + [x], b[j + 1..]);
      ConsumedAppend(b[..j], b[j + 1..]);
      assert Consumed([x]) == x.totalCalories by {
        assert [x][..0] == [];
      }
    }
  }

  /** With no meal of negative calories, nothing is consumed below zero. */
  lemma {:induction false} ConsumedNonNegative(meals: seq<Meal>)
    requires forall k :: 0 <= k < |meals| ==> meals[k].totalCalories >= 0
    ensures Consumed(meals) >= 0
    decreases |meals|
  {
    if meals != [] {
      ConsumedNonNegative(meals[..|meals| - 1]);
    }
  }

  function Remaining(goal: int, consumed: int): (r: int)
    ensures r + consumed == goal
  {
    goal - consumed
  }

  function Max0(x: real): (r: real)
    ensures r >= 0.0 && r >= x && (r == 0.0 || r == x)
  {
    if x < 0.0 then 0.0 else x
  }

  /** The progress percentage: consumption over the goal times 100, never below 0,
      and 0 when the goal is not positive. The source computes this in binary
      floating point; the model computes it exactly. */
  function Percentage(goal: int, consumed: int): (p: real)
    ensures p >= 0.0
    ensures goal <= 0 ==> p == 0.0
    ensures goal > 0 && consumed >= 0 ==> p * goal as real == consumed as real * 100.0
    ensures goal > 0 && consumed <= 0 ==> p == 0.0
  {
    if goal > 0 then Max0((consumed as real / goal as real) * 100.0) else 0.0
  }

  /** Past the goal exactly when the percentage exceeds 100, and at the goal when
      it is 100. */
  lemma PercentageAgainstGoal(goal: int, consumed: int)
    requires goal > 0
    ensures Percentage(goal, consumed) > 100.0 <==> consumed > goal
    ensures Percentage(goal, consumed) == 100.0 <==> consumed == goal
  {
    var p := Percentage(goal, consumed);
    if consumed >= 0 {
      assert p * goal as real == consumed as real * 100.0;
      if p > 100.0 {
        assert p * goal as real > 100.0 * goal as real;
      }
      if consumed > goal {
        assert consumed as real * 100.0 > goal as real * 100.0;
      }
    }
  }

  /** The header: "Calories Remaining" while the remainder is 0 or more, otherwise
      "Calories Over"; the number shown is the remainder's absolute value. */
  datatype Header = Header(caption: string, amount: nat)

  const RemainingLabel: string := "Calories Remaining"
  const OverLabel: string := "Calories Over"

  function HeaderFor(goal: int, consumed: int): (h: Header)
    ensures h.caption == OverLabel <==> consumed > goal
    ensures h.caption == RemainingLabel <==> consumed <= goal
    ensures consumed <= goal ==> h.amount == Remaining(goal, consumed)
    ensures consumed > goal ==> h.amount == consumed - goal
  {
    var remaining := Remaining(goal, consumed);
    if remaining >= 0 then Header(RemainingLabel, remaining) else Header(OverLabel, -remaining)
  }

  /** With a positive goal, the header reads "Calories Over" exactly when the
      percentage is past 100. */
  lemma OverLabelMatchesPercentage(goal: int, consumed: int)
    requires goal > 0
    ensures HeaderFor(goal, consumed).caption == OverLabel <==> Percentage(goal, consumed) > 100.0
  {
    PercentageAgainstGoal(goal, consumed);
  }

  /** The goal the application starts with when none is saved. */
  const DefaultGoal: int := 2000
}
