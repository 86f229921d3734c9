/** The progress bar's percentage, `min(100, round(current / goal * 100))`,
    in exact integer arithmetic, and the threshold for drawing its label. */
module Display {
  import opened Progress

  /** `n / d` rounded to the nearest integer, halves upward (JavaScript's
      `Math.round`): the unique `r` with `r - 1/2 <= n/d < r + 1/2`. */
  function RoundHalfUp(n: int, d: int): (r: int)
    requires d > 0
    ensures (2 * r - 1) * d <= 2 * n < (2 * r + 1) * d
  {
    var q := (2 * n + d) / (2 * d);
    var m := (2 * n + d) % (2 * d);
    assert 2 * n + d == 2 * d * q + m;
    assert (2 * q - 1) * d == 2 * d * q - d;
    assert (2 * q + 1) * d == 2 * d * q + d;
    q
  }

  /** Only one integer lies within a half of `n / d`. */
  lemma RoundHalfUpUnique(n: int, d: int, r: int)
    requires d > 0
    requires (2 * r - 1) * d <= 2 * n < (2 * r + 1) * d
    ensures r == RoundHalfUp(n, d)
  {
    var q := RoundHalfUp(n, d);
    MulCompare(2 * r - 1, 2 * q + 1, d);
    MulCompare(2 * q - 1, 2 * r + 1, d);
  }

  /** Multiplying by a positive number keeps the order of two integers. */
  lemma MulCompare(a: int, b: int, d: int)
    requires d > 0
    ensures a <= b <==> a * d <= b * d
    ensures a < b <==> a * d < b * d
  {
    assert b * d - a * d == (b - a) * d;
  }

  /** The percentage a progress bar shows for `current` against `goal`:
      rounded to the nearest whole percent, and capped at 100. */
  function Percentage(current: int, goal: int): (p: int)
    requires goal > 0
    ensures p <= 100
    ensures p < 100 ==> (2 * p - 1) * goal <= 200 * current < (2 * p + 1) * goal
    ensures p == 100 ==> 199 * goal <= 200 * current
  {
    var r := RoundHalfUp(100 * current, goal);
    if r < 100 then r
    else
      MulCompare(199, 2 * r - 1, goal);
      100
  }

  /** For a non-negative counter the bar is between empty and full; it is
      empty at zero and full from the goal on. */
  lemma PercentageBounds(current: int, goal: int)
    requires goal > 0
    ensures current >= 0 ==> 0 <= Percentage(current, goal) <= 100
    ensures current == 0 ==> Percentage(current, goal) == 0
    ensures current >= goal ==> Percentage(current, goal) == 100
  {
    var p := Percentage(current, goal);
    MulCompare(0, 2 * p + 1, goal);
    MulCompare(2 * p - 1, 0, goal);
    MulCompare(200, 2 * p + 1, goal);
  }

  /** A larger counter never shows a smaller percentage. */
  lemma PercentageMonotone(c1: int, c2: int, goal: int)
    requires goal > 0 && c1 <= c2
    ensures Percentage(c1, goal) <= Percentage(c2, goal)
  {
    var p1 := Percentage(c1, goal);
    var p2 := Percentage(c2, goal);
    MulCompare(2 * p1 - 1, 2 * p2 + 1, goal);
    MulCompare(199, 2 * p2 + 1, goal);
  }

  /** With a goal of 100 each unit is one percent: the bar shows the counter
      itself, capped at 100. */
  lemma PercentageOfHundred(current: int)
    ensures Percentage(current, 100) == if current < 100 then current else 100
  {
    RoundHalfUpUnique(100 * current, 100, current);
  }

  /** Whether the percentage is written inside the bar (it is from 5% on). */
  predicate ShowsLabel(p: int) {
    p >= 5
  }

  /** The label appears exactly when `current / goal` is at least 4.5%. */
  lemma ShowsLabelIff(current: int, goal: int)
    requires goal > 0
    ensures ShowsLabel(Percentage(current, goal)) <==> 9 * goal <= 200 * current
  {
    var p := Percentage(current, goal);
    MulCompare(9, 2 * p - 1, goal);
    MulCompare(9, 199, goal);
    MulCompare(2 * p + 1, 9, goal);
  }

  /** The percentage shown for counter `c` of a record, against its goal. */
  function CounterPercentage(p: PersonData, c: Counter): (pct: int)
    ensures Get(p, c) >= 0 ==> 0 <= pct <= 100
  {
    PercentageBounds(Get(p, c), Goal(c));
    Percentage(Get(p, c), Goal(c))
  }

  /** On the dashboard's goals, a counter's label appears from 5 on. */
  lemma CounterLabelFromFive(p: PersonData, c: Counter)
    ensures ShowsLabel(CounterPercentage(p, c)) <==> Get(p, c) >= 5
  {
    PercentageOfHundred(Get(p, c));
  }
}
