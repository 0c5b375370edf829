/**
  * `src/lib/payoff.ts`: ordering debts by a payoff strategy, and a rough
  * month-by-month projection of paying them off with the minimum payments
  * plus an extra amount on the debt at the head of the list.
  */
module Payoff {
  import opened Wrappers
  import opened Sorting

  /** `DebtAccount`. */
  datatype Debt = Debt(id: Option<int>, name: string, balance: real, apr: Option<real>,
                       minPayment: Option<real>, dueDay: Option<int>, active: bool)

  /** Highest interest rate first, or smallest balance first. */
  datatype Strategy = Avalanche | Snowball

  /** `PayoffRecommendation`. */
  datatype Recommendation = Recommendation(ordered: seq<Debt>, note: string)

  /** The months simulated and the debts as they stand at the end. */
  datatype Projection = Projection(months: int, ordered: seq<Debt>)

  /** The longest projection, thirty years. */
  const MaxMonths := 360

  const AvalancheNote := "Avalanche: highest APR first, pay minimums on the rest."
  const SnowballNote := "Snowball: smallest balance first for faster wins."

  // ----- sortDebts -----

  /** `debts.filter((d) => d.active !== false)`. */
  function Active(debts: seq<Debt>): seq<Debt> {
    if debts == [] then []
    else (if debts[0].active then [debts[0]] else []) + Active(debts[1..])
  }

  /**
    * The sort key of a strategy: the comparator `(b.apr ?? 0) - (a.apr ?? 0)`
    * orders by descending rate, `a.balance - b.balance` by descending
    * negated balance.
    */
  function OrderKey(strategy: Strategy): Debt -> real {
    if strategy == Avalanche then (d: Debt) => d.apr.GetOr(0.0) else (d: Debt) => -d.balance
  }

  /** `sortDebts`. */
  function SortDebts(debts: seq<Debt>, strategy: Strategy): Recommendation {
    Recommendation(SortDesc(Active(debts), OrderKey(strategy)),
                   if strategy == Avalanche then AvalancheNote else SnowballNote)
  }

  /** The filter keeps each active debt as often as it occurs, and no inactive one. */
  lemma {:induction false} ActiveCounts(debts: seq<Debt>, d: Debt)
    ensures multiset(Active(debts))[d] == if d.active then multiset(debts)[d] else 0
  {
    if debts != [] {
      ActiveCounts(debts[1..], d);
      assert debts == [debts[0]] + debts[1..];
    }
  }

  /**
    * The recommendation lists exactly the active debts, each as often as in
    * the input: a permutation of them.
    */
  lemma SortDebtsKeepsActive(debts: seq<Debt>, strategy: Strategy, d: Debt)
    ensures multiset(SortDebts(debts, strategy).ordered)[d] == if d.active then multiset(debts)[d] else 0
    ensures d in SortDebts(debts, strategy).ordered <==> d in debts && d.active
  {
    ActiveCounts(debts, d);
  }

  /**
    * The avalanche order never has a higher rate after a lower one, a
    * missing rate counting as 0; the snowball order never has a smaller
    * balance after a larger one.
    */
  lemma SortDebtsOrder(debts: seq<Debt>, strategy: Strategy, i: int, j: int)
    requires 0 <= i < j < |SortDebts(debts, strategy).ordered|
    ensures var s := SortDebts(debts, strategy).ordered;
      if strategy == Avalanche then s[i].apr.GetOr(0.0) >= s[j].apr.GetOr(0.0)
      else s[i].balance <= s[j].balance
  {
  }

  /**
    * Debts that tie (the same rate for avalanche, the same balance for
    * snowball) keep their relative input order.
    */
  lemma SortDebtsStable(debts: seq<Debt>, strategy: Strategy, v: real)
    ensures WithKey(SortDebts(debts, strategy).ordered, OrderKey(strategy), v)
         == WithKey(Active(debts), OrderKey(strategy), v)
  {
    SortStable(Active(debts), OrderKey(strategy), v);
  }

  /**
    * The explanatory note depends on the strategy alone, and the two
    * strategies carry different notes.
    */
  lemma SortDebtsNote(debts: seq<Debt>, others: seq<Debt>, strategy: Strategy)
    ensures SortDebts(debts, strategy).note == SortDebts(others, strategy).note
    ensures SortDebts(debts, Avalanche).note != SortDebts(others, Snowball).note
  {
    assert |AvalancheNote| != |SnowballNote|;
  }

  // ----- projectPayoff -----

  /** `Math.max(0, x)`. */
  function Max0(x: real): real {
    if x < 0.0 then 0.0 else x
  }

  /** `working.reduce((sum, d) => sum + (d.minPayment ?? 0), 0)`. */
  function MinSum(debts: seq<Debt>): real {
    if debts == [] then 0.0
    else MinSum(debts[..|debts| - 1]) + debts[|debts| - 1].minPayment.GetOr(0.0)
  }

  /** `working.some((d) => d.balance > 0)`. */
  predicate Owing(debts: seq<Debt>) {
    exists i | 0 <= i < |debts| :: debts[i].balance > 0.0
  }

  /** A month's interest: a twelfth of the yearly percentage, none when the rate is missing or 0. */
  function Interest(d: Debt): real {
    if d.apr.Some? && d.apr.value != 0.0 then d.apr.value / 12.0 / 100.0 * d.balance else 0.0
  }

  /**
    * One debt's month: a debt with nothing owing is skipped; otherwise its
    * interest is added and its minimum paid, and the debt at the head of
    * the list (`first`) also takes the extra payment, never below 0.
    */
  function Pay(d: Debt, extra: real, first: bool): (r: Debt)
    ensures r == d.(balance := r.balance)
  {
    if d.balance <= 0.0 then d
    else
      var b := Max0(d.balance + Interest(d) - d.minPayment.GetOr(0.0));
      d.(balance := if first then Max0(b - extra) else b)
  }

  /** The `for` loop of one month, over the list in its current order. */
  function MonthPay(working: seq<Debt>, extra: real): (r: seq<Debt>)
    ensures |r| == |working|
  {
    seq(|working|, i requires 0 <= i < |working| => Pay(working[i], extra, i == 0))
  }

  /** One month: the payments, then the re-sort. */
  function Step(working: seq<Debt>, extra: real, strategy: Strategy): seq<Debt> {
    SortDesc(MonthPay(working, extra), OrderKey(strategy))
  }

  /**
    * The `while` loop from month `months` on: it stops when nothing is
    * owing or when 360 months have passed, and stops at a count between
    * its start and 360, leaving a balance owing only at 360.
    */
  function Simulate(working: seq<Debt>, extra: real, strategy: Strategy, months: int): Projection
    requires 0 <= months <= MaxMonths
    decreases MaxMonths - months
  {
    if !Owing(working) || months >= MaxMonths then Projection(months, working)
    else Simulate(Step(working, extra, strategy), extra, strategy, months + 1)
  }

  lemma {:induction false} SimulateBounds(working: seq<Debt>, extra: real, strategy: Strategy, months: int)
    requires 0 <= months <= MaxMonths
    ensures months <= Simulate(working, extra, strategy, months).months <= MaxMonths
    decreases MaxMonths - months
  {
    if Owing(working) && months < MaxMonths {
      SimulateBounds(Step(working, extra, strategy), extra, strategy, months + 1);
    }
  }

  lemma SimulateStep(working: seq<Debt>, extra: real, strategy: Strategy, months: int)
    requires 0 <= months < MaxMonths && Owing(working)
    ensures Simulate(working, extra, strategy, months) == Simulate(Step(working, extra, strategy), extra, strategy, months + 1)
  {
  }

  lemma SimulateDone(working: seq<Debt>, extra: real, strategy: Strategy, months: int)
    requires 0 <= months <= MaxMonths && (!Owing(working) || months == MaxMonths)
    ensures Simulate(working, extra, strategy, months) == Projection(months, working)
  {
  }

  /** A run that stops before 360 months stops with every balance paid off. */
  lemma {:induction false} SimulateStops(working: seq<Debt>, extra: real, strategy: Strategy, months: int)
    requires 0 <= months <= MaxMonths
    ensures var r := Simulate(working, extra, strategy, months);
      r.months < MaxMonths ==> forall d | d in r.ordered :: d.balance <= 0.0
    decreases MaxMonths - months
  {
    if Owing(working) && months < MaxMonths {
      SimulateStep(working, extra, strategy, months);
      SimulateStops(Step(working, extra, strategy), extra, strategy, months + 1);
    } else {
      SimulateDone(working, extra, strategy, months);
      if months < MaxMonths {
        forall d | d in working ensures d.balance <= 0.0 {
          var i :| 0 <= i < |working| && working[i] == d;
        }
      }
    }
  }

  /** What `projectPayoff` returns. */
  function ProjectionOf(debts: seq<Debt>, extra: real, strategy: Strategy): Projection {
    var ordered := SortDebts(debts, strategy).ordered;
    if MinSum(ordered) + extra <= 0.0 then Projection(0, ordered)
    else Simulate(ordered, extra, strategy, 0)
  }

  /**
    * `projectPayoff`: the debts are worked on as a list of values, so the
    * caller's debts are never changed.
    */
  method ProjectPayoff(debts: seq<Debt>, extraPerMonth: real, strategy: Strategy) returns (months: int, ordered: seq<Debt>)
    ensures Projection(months, ordered) == ProjectionOf(debts, extraPerMonth, strategy)
  {
    var sorted := SortDebts(debts, strategy).ordered;
    var minSum := MinSum(sorted);
    if minSum + extraPerMonth <= 0.0 {
      return 0, sorted;
    }
    months, ordered := PayDown(sorted, extraPerMonth, strategy);
  }

  /** The `while` loop of `projectPayoff`: a month at a time while a balance is owed, for at most 360 months. */
  method PayDown(sorted: seq<Debt>, extraPerMonth: real, strategy: Strategy) returns (months: int, working: seq<Debt>)
    ensures Projection(months, working) == Simulate(sorted, extraPerMonth, strategy, 0)
  {
    months := 0;
    working := sorted;
    while Owing(working) && months < MaxMonths
      invariant 0 <= months <= MaxMonths
      invariant Simulate(working, extraPerMonth, strategy, months) == Simulate(sorted, extraPerMonth, strategy, 0)
      decreases MaxMonths - months
    {
      var next := CloseMonth(working, extraPerMonth, strategy);
      SimulateStep(working, extraPerMonth, strategy, months);
      months, working := months + 1, next;
    }
    SimulateDone(working, extraPerMonth, strategy, months);
  }

  /** One pass of the `while` loop: the month's payments, then `working.sort(...)`. */
  method CloseMonth(before: seq<Debt>, extraPerMonth: real, strategy: Strategy) returns (working: seq<Debt>)
    ensures working == Step(before, extraPerMonth, strategy)
  {
    working := PayMonth(before, extraPerMonth);
    working := SortDesc(working, OrderKey(strategy));
  }

  /** The month's `for` loop, updating the balances of `working` one by one. */
  method PayMonth(before: seq<Debt>, extraPerMonth: real) returns (working: seq<Debt>)
    ensures working == MonthPay(before, extraPerMonth)
  {
    working := before;
    for i := 0 to |working|
      invariant |working| == |before|
      invariant forall k | 0 <= k < i :: working[k] == Pay(before[k], extraPerMonth, k == 0)
      invariant working[i..] == before[i..]
    {
      var debt := working[i];
      assert debt == before[i];
      if debt.balance <= 0.0 {
        continue;
      }
      var minPayment := debt.minPayment.GetOr(0.0);
      var interest := if debt.apr.Some? && debt.apr.value != 0.0 then debt.apr.value / 12.0 / 100.0 * debt.balance else 0.0;
      var balance := Max0(debt.balance + interest - minPayment);
      if i == 0 {
        balance := Max0(balance - extraPerMonth);
      }
      working := working[i := debt.(balance := balance)];
    }
  }

  // ----- properties of the projection -----

  /**
    * The projection counts between 0 and 360 months; when payments are
    * made and it stops short of 360 months, every debt is paid off.
    */
  lemma ProjectionBounds(debts: seq<Debt>, extra: real, strategy: Strategy)
    ensures 0 <= ProjectionOf(debts, extra, strategy).months <= MaxMonths
    ensures MinSum(SortDebts(debts, strategy).ordered) + extra <= 0.0 ==>
              ProjectionOf(debts, extra, strategy) == Projection(0, SortDebts(debts, strategy).ordered)
    ensures MinSum(SortDebts(debts, strategy).ordered) + extra > 0.0 && ProjectionOf(debts, extra, strategy).months < MaxMonths ==>
              forall d | d in ProjectionOf(debts, extra, strategy).ordered :: d.balance <= 0.0
  {
    SimulateStops(SortDebts(debts, strategy).ordered, extra, strategy, 0);
    SimulateBounds(SortDebts(debts, strategy).ordered, extra, strategy, 0);
  }

  /** A debt with its balance set aside: what the projection must not change. */
  function Strip(d: Debt): Debt {
    d.(balance := 0.0)
  }

  function Stripped(s: seq<Debt>): (r: seq<Debt>)
    ensures |r| == |s|
  {
    seq(|s|, i requires 0 <= i < |s| => Strip(s[i]))
  }

  lemma StrippedConcat(a: seq<Debt>, b: seq<Debt>)
    ensures Stripped(a + b) == Stripped(a) + Stripped(b)
  {
    assert forall k | 0 <= k < |a + b| :: Stripped(a + b)[k] == (Stripped(a) + Stripped(b))[k];
  }

  /** Taking out the element at `j` takes it out of the multiset. */
  lemma MultisetRemove<T>(y: seq<T>, j: int)
    requires 0 <= j < |y|
    ensures multiset(y) == multiset{y[j]} + multiset(y[..j] + y[j + 1..])
  {
    assert y == y[..j] + [y[j]] + y[j + 1..];
  }

  lemma StrippedRemove(y: seq<Debt>, j: int)
    requires 0 <= j < |y|
    ensures Stripped(y[..j] + y[j + 1..]) == Stripped(y)[..j] + Stripped(y)[j + 1..]
  {
  }

  /** Setting the element at `j` aside sets its balance-free form aside. */
  lemma StrippedAt(y: seq<Debt>, j: int)
    requires 0 <= j < |y|
    ensures multiset(Stripped(y)) == multiset{Strip(y[j])} + multiset(Stripped(y[..j] + y[j + 1..]))
  {
    MultisetRemove(Stripped(y), j);
    StrippedRemove(y, j);
  }

  /** Reordering the debts reorders their balance-free forms the same way. */
  lemma {:induction false} StrippedPermutation(x: seq<Debt>, y: seq<Debt>)
    requires multiset(x) == multiset(y)
    ensures multiset(Stripped(x)) == multiset(Stripped(y))
    decreases |x|
  {
    if x == [] {
      assert |multiset(y)| == 0;
      assert y == [];
    } else {
      assert x[0] in multiset(y);
      var j :| 0 <= j < |y| && y[j] == x[0];
      var rest := y[..j] + y[j + 1..];
      assert multiset(x[1..]) == multiset(rest) by {
        MultisetRemove(x, 0);
        MultisetRemove(y, j);
        assert x[..0] + x[1..] == x[1..];
        assert multiset(x[1..]) == multiset(x) - multiset{x[0]};
        assert multiset(rest) == multiset(y) - multiset{y[j]};
      }
      StrippedPermutation(x[1..], rest);
      StrippedAt(x, 0);
      assert x[..0] + x[1..] == x[1..];
      StrippedAt(y, j);
    }
  }

  /** A month changes balances only, and the re-sort only the order. */
  lemma StepKeepsDebts(working: seq<Debt>, extra: real, strategy: Strategy)
    ensures multiset(Stripped(Step(working, extra, strategy))) == multiset(Stripped(working))
  {
    var paid := MonthPay(working, extra);
    assert Stripped(paid) == Stripped(working);
    StrippedPermutation(Step(working, extra, strategy), paid);
  }

  lemma {:induction false} SimulateKeepsDebts(working: seq<Debt>, extra: real, strategy: Strategy, months: int)
    requires 0 <= months <= MaxMonths
    ensures multiset(Stripped(Simulate(working, extra, strategy, months).ordered)) == multiset(Stripped(working))
    decreases MaxMonths - months
  {
    if Owing(working) && months < MaxMonths {
      SimulateStep(working, extra, strategy, months);
      StepKeepsDebts(working, extra, strategy);
      SimulateKeepsDebts(Step(working, extra, strategy), extra, strategy, months + 1);
    } else {
      SimulateDone(working, extra, strategy, months);
    }
  }

  /**
    * The projection ends with the active debts, each as often as in the
    * input and unchanged apart from its balance.
    */
  lemma ProjectionKeepsDebts(debts: seq<Debt>, extra: real, strategy: Strategy)
    ensures multiset(Stripped(ProjectionOf(debts, extra, strategy).ordered)) == multiset(Stripped(Active(debts)))
  {
    var sorted := SortDebts(debts, strategy).ordered;
    SimulateKeepsDebts(sorted, extra, strategy, 0);
    StrippedPermutation(sorted, Active(debts));
  }

  /** No balance at or above 0 goes below it. */
  predicate NonNegative(s: seq<Debt>) {
    forall i | 0 <= i < |s| :: s[i].balance >= 0.0
  }

  lemma StepNonNegative(working: seq<Debt>, extra: real, strategy: Strategy)
    requires NonNegative(working)
    ensures NonNegative(Step(working, extra, strategy))
  {
    var paid := MonthPay(working, extra);
    var next := Step(working, extra, strategy);
    forall i | 0 <= i < |next| ensures next[i].balance >= 0.0 {
      assert next[i] in multiset(paid);
      var k :| 0 <= k < |paid| && paid[k] == next[i];
    }
  }

  lemma {:induction false} SimulateNonNegative(working: seq<Debt>, extra: real, strategy: Strategy, months: int)
    requires 0 <= months <= MaxMonths && NonNegative(working)
    ensures NonNegative(Simulate(working, extra, strategy, months).ordered)
    decreases MaxMonths - months
  {
    if Owing(working) && months < MaxMonths {
      StepNonNegative(working, extra, strategy);
      SimulateNonNegative(Step(working, extra, strategy), extra, strategy, months + 1);
    }
  }

  /** With no negative balances to start from, no working balance ever goes negative. */
  lemma ProjectionNonNegative(debts: seq<Debt>, extra: real, strategy: Strategy)
    requires forall d | d in debts && d.active :: d.balance >= 0.0
    ensures NonNegative(ProjectionOf(debts, extra, strategy).ordered)
  {
    var sorted := SortDebts(debts, strategy).ordered;
    forall i | 0 <= i < |sorted| ensures sorted[i].balance >= 0.0 {
      SortDebtsKeepsActive(debts, strategy, sorted[i]);
    }
    if MinSum(sorted) + extra > 0.0 {
      SimulateNonNegative(sorted, extra, strategy, 0);
    }
  }

  lemma {:induction false} SimulateSorted(working: seq<Debt>, extra: real, strategy: Strategy, months: int)
    requires 0 <= months <= MaxMonths && SortedDesc(working, OrderKey(strategy))
    ensures SortedDesc(Simulate(working, extra, strategy, months).ordered, OrderKey(strategy))
    decreases MaxMonths - months
  {
    if Owing(working) && months < MaxMonths {
      SimulateSorted(Step(working, extra, strategy), extra, strategy, months + 1);
    }
  }

  /**
    * The list is re-sorted after every month, so the projection ends in
    * strategy order by the final balances: by rate for avalanche, smallest
    * remaining balance first for snowball.
    */
  lemma ProjectionSorted(debts: seq<Debt>, extra: real, strategy: Strategy, i: int, j: int)
    requires 0 <= i < j < |ProjectionOf(debts, extra, strategy).ordered|
    ensures var s := ProjectionOf(debts, extra, strategy).ordered;
      if strategy == Avalanche then s[i].apr.GetOr(0.0) >= s[j].apr.GetOr(0.0)
      else s[i].balance <= s[j].balance
  {
    var sorted := SortDebts(debts, strategy).ordered;
    if MinSum(sorted) + extra > 0.0 {
      SimulateSorted(sorted, extra, strategy, 0);
    }
  }

  /**
    * In a month the extra payment reaches only the debt at the head of the
    * list, and only while it still owes something; every other debt pays
    * just its minimum against its interest.
    */
  lemma ExtraOnlyOnHead(working: seq<Debt>, extra: real, i: int)
    requires 0 <= i < |working|
    ensures i > 0 ==> MonthPay(working, extra)[i] == MonthPay(working, 0.0)[i]
    ensures i == 0 && working[0].balance > 0.0 ==>
      MonthPay(working, extra)[0].balance == Max0(MonthPay(working, 0.0)[0].balance - extra)
    ensures working[i].balance <= 0.0 ==> MonthPay(working, extra)[i] == working[i]
    ensures extra >= 0.0 ==> MonthPay(working, extra)[i].balance <= MonthPay(working, 0.0)[i].balance
    ensures MonthPay(working, extra)[i].balance >= 0.0 || working[i].balance < 0.0
  {
  }
}
