/** `getCompletionPercentage(completed, total)` (src/components/ProjectsSection.tsx,
    src/components/ProjectsPageContent.tsx) and the dashboard's `completionPercentage`:
    `Math.round(completed / total * 100)` when `total > 0`, else 0. `Math.round` rounds halves
    upward; the quotient is taken exactly here, not in floating point. */
module Completion {
  function Percentage(completed: int, total: int): (r: int)
    ensures total <= 0 ==> r == 0
    ensures total > 0 ==> 2 * total * r <= 200 * completed + total < 2 * total * (r + 1)
  {
    if total > 0 then (200 * completed + total) / (2 * total) else 0
  }

  /** A positive factor can be cancelled from a strict inequality. */
  lemma CancelFactor(q: int, a: int, b: int)
    requires q > 0 && q * a < q * b
    ensures a < b
  {
  }

  /** The percentage of at most `total` done items out of `total` lies between 0 and 100, with
      0 when nothing is done and 100 when everything is. */
  lemma PercentageBounds(completed: int, total: int)
    requires 0 <= completed <= total
    ensures 0 <= Percentage(completed, total) <= 100
    ensures total > 0 && completed == total ==> Percentage(completed, total) == 100
    ensures completed == 0 ==> Percentage(completed, total) == 0
  {
    if total > 0 {
      var q, r := 2 * total, Percentage(completed, total);
      assert q * r <= 200 * completed + total < q * (r + 1);
      assert q * 0 == 0 && q * 1 == q && q * 100 == 200 * total && q * 101 == 202 * total;
      CancelFactor(q, 0, r + 1);
      CancelFactor(q, r, 101);
      if completed == total {
        CancelFactor(q, 100, r + 1);
      }
      if completed == 0 {
        CancelFactor(q, r, 1);
      }
    }
  }

  /** More completed items never lower the percentage. */
  lemma PercentageMonotone(c1: int, c2: int, total: int)
    requires c1 <= c2
    ensures Percentage(c1, total) <= Percentage(c2, total)
  {
    if total > 0 {
      var q, r1, r2 := 2 * total, Percentage(c1, total), Percentage(c2, total);
      assert q * r1 <= 200 * c1 + total <= 200 * c2 + total < q * (r2 + 1);
      CancelFactor(q, r1, r2 + 1);
    }
  }
}
