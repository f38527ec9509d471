/** The four calculators of the tools page (app/tools/page.tsx). Each text
    input is `None` when the field is empty and `Some(x)` when it holds the
    number `x`. */
module Tools {
  import opened Wrappers

  // ---------------------------------------------------------------------
  // Rounding as `Number.prototype.toFixed` does it on an exact value.
  // ---------------------------------------------------------------------

  function Pow10(digits: nat): (p: nat)
    ensures p >= 1
  {
    if digits == 0 then 1 else 10 * Pow10(digits - 1)
  }

  /** The nearest integer; a tie goes away from zero (`toFixed` picks the
      larger magnitude, and formats a negative number as the negation of
      its absolute value). */
  function RoundHalfAway(x: real): (n: int)
    ensures x >= 0.0 ==> x - 0.5 < n as real <= x + 0.5
    ensures x < 0.0 ==> x - 0.5 <= n as real < x + 0.5
  {
    if x >= 0.0 then (x + 0.5).Floor else -((-x + 0.5).Floor)
  }

  /** The value denoted by `x.toFixed(digits)`: the nearest whole number
      of `10^-digits` units, at most half a unit from `x`. */
  function ToFixed(x: real, digits: nat): (r: real)
    ensures -1.0 <= 2.0 * (r - x) * Pow10(digits) as real <= 1.0
  {
    var scale := Pow10(digits) as real;
    var n := RoundHalfAway(x * scale);
    assert n as real - x * scale == (n as real / scale - x) * scale;
    n as real / scale
  }

  /** An optional figure as shown with `digits` decimals. */
  function Shown(x: Option<real>, digits: nat): Option<real>
  {
    match x
    case Some(v) => Some(ToFixed(v, digits))
    case None => None
  }

  // ---------------------------------------------------------------------
  // P/E ratio and its verdict.
  // ---------------------------------------------------------------------

  /** The exact ratio behind `pe`: present when both fields are filled in
      and EPS is not zero. */
  function PriceEarnings(price: Option<real>, eps: Option<real>): (pe: Option<real>)
    ensures pe.Some? <==> price.Some? && eps.Some? && eps.value != 0.0
    ensures pe.Some? ==> pe.value * eps.value == price.value
  {
    if price.Some? && eps.Some? && eps.value != 0.0 then Some(price.value / eps.value) else None
  }

  /** `pe` as the page holds it: the ratio to two decimals. */
  function PE(price: Option<real>, eps: Option<real>): (pe: Option<real>)
    ensures pe.Some? <==> price.Some? && eps.Some? && eps.value != 0.0
    ensures pe.Some? ==> -0.005 <= pe.value - price.value / eps.value <= 0.005
  {
    assert Pow10(2) == 100;
    Shown(PriceEarnings(price, eps), 2)
  }

  /** The four verdicts of `getVerdict`, cheapest first. */
  datatype Verdict = LooksCheap | Reasonable | Pricier | Expensive {

    function Message(): string {
      match this
      case LooksCheap => "Looks cheap, but dig deeper—there might be a reason."
      case Reasonable => "Pretty reasonable for most industries."
      case Pricier => "On the pricier side. Growth stock?"
      case Expensive => "That's expensive. Better be growing fast."
    }

    function Color(): string {
      match this
      case LooksCheap => "#22c55e"
      case Reasonable => "#10b981"
      case Pricier => "#f59e0b"
      case Expensive => "#ef4444"
    }

    /** Position in the order cheap < reasonable < pricier < expensive. */
    function Rank(): nat {
      match this
      case LooksCheap => 0
      case Reasonable => 1
      case Pricier => 2
      case Expensive => 3
    }
  }

  /** `getVerdict`: bands closed below and open above. */
  function GetVerdict(pe: real): (v: Verdict)
    ensures v == LooksCheap <==> pe < 10.0
    ensures v == Reasonable <==> 10.0 <= pe < 20.0
    ensures v == Pricier <==> 20.0 <= pe < 35.0
    ensures v == Expensive <==> 35.0 <= pe
  {
    if pe < 10.0 then LooksCheap
    else if pe < 20.0 then Reasonable
    else if pe < 35.0 then Pricier
    else Expensive
  }

  /** A larger P/E never gets a cheaper verdict. */
  lemma VerdictMonotone(a: real, b: real)
    requires a <= b
    ensures GetVerdict(a).Rank() <= GetVerdict(b).Rank()
  {
  }

  /** The boundary value 20 is on the pricier side. */
  lemma TwentyIsPricier()
    ensures GetVerdict(20.0) == Pricier
    ensures PriceEarnings(Some(100.0), Some(5.0)) == Some(20.0)
  {
  }

  /** The verdict the page shows: `getVerdict` of `pe`, the ratio already
      rounded to two decimals. */
  function ShownVerdict(price: Option<real>, eps: Option<real>): (v: Option<Verdict>)
    ensures v.Some? <==> price.Some? && eps.Some? && eps.value != 0.0
    ensures v.Some? ==> v.value == GetVerdict(PE(price, eps).value)
  {
    match PE(price, eps)
    case Some(pe) => Some(GetVerdict(pe))
    case None => None
  }

  /** Rounding is monotone and keeps every multiple of 1/100 in place, so a
      threshold `t` (a whole number) separates the rounded values as it
      separates the exact ones, except for a ratio in [t - 0.005, t). */
  lemma RoundedSide(pe: real, t: int)
    requires t >= 0
    ensures pe >= t as real ==> ToFixed(pe, 2) >= t as real
    ensures pe < t as real - 0.005 ==> ToFixed(pe, 2) < t as real
  {
    var x := pe * 100.0;
    assert Pow10(2) == 100;
    if pe >= t as real {
      assert x >= (100 * t) as real;
      assert (x + 0.5).Floor >= 100 * t;
    }
    if pe < t as real - 0.005 {
      assert x + 0.5 < (100 * t) as real;
      if x >= 0.0 {
        assert (x + 0.5).Floor < 100 * t;
      }
    }
  }

  /** The verdict on the displayed ratio agrees with the verdict on the
      exact ratio unless the ratio lies within half a cent below a
      threshold. */
  lemma ShownVerdictAgrees(price: real, eps: real)
    requires eps != 0.0
    requires var pe := price / eps; !(9.995 <= pe < 10.0) && !(19.995 <= pe < 20.0) && !(34.995 <= pe < 35.0)
    ensures ShownVerdict(Some(price), Some(eps)) == Some(GetVerdict(price / eps))
  {
    var pe := price / eps;
    RoundedSide(pe, 10);
    RoundedSide(pe, 20);
    RoundedSide(pe, 35);
  }

  /** A ratio within half a cent below a whole-number threshold is shown
      as the threshold itself. */
  lemma ShownAtThreshold(pe: real, t: int)
    requires t >= 1 && t as real - 0.005 <= pe < t as real
    ensures ToFixed(pe, 2) == t as real
  {
    assert Pow10(2) == 100;
    var x := pe * 100.0;
    assert (100 * t) as real <= x + 0.5 < (100 * t + 1) as real;
    assert (x + 0.5).Floor == 100 * t;
  }

  /** Inside the half-cent window below 10, 20 or 35 the shown ratio is the
      threshold, so the verdict is the band that starts there. */
  lemma ShownVerdictInWindow(price: real, eps: real)
    requires eps != 0.0
    ensures 9.995 <= price / eps < 10.0 ==> ShownVerdict(Some(price), Some(eps)) == Some(Reasonable)
    ensures 19.995 <= price / eps < 20.0 ==> ShownVerdict(Some(price), Some(eps)) == Some(Pricier)
    ensures 34.995 <= price / eps < 35.0 ==> ShownVerdict(Some(price), Some(eps)) == Some(Expensive)
  {
    var pe := price / eps;
    if 9.995 <= pe < 10.0 {
      ShownAtThreshold(pe, 10);
    } else if 19.995 <= pe < 20.0 {
      ShownAtThreshold(pe, 20);
    } else if 34.995 <= pe < 35.0 {
      ShownAtThreshold(pe, 35);
    }
  }

  /** Near a threshold the two differ: 9.996 is cheap, but it is shown as
      10.00 and judged reasonable. */
  lemma RoundingCrossesThreshold()
    ensures GetVerdict(9.996) == LooksCheap
    ensures ShownVerdict(Some(9.996), Some(1.0)) == Some(Reasonable)
  {
    assert Pow10(2) == 100;
    assert (999.6 + 0.5).Floor == 1000;
  }

  // ---------------------------------------------------------------------
  // Dividend yield and yearly income.
  // ---------------------------------------------------------------------

  /** The exact yield behind `yieldPct`, in percent: present when price
      and dividend are filled in and the price is not zero. */
  function DividendYield(price: Option<real>, dividend: Option<real>): (y: Option<real>)
    ensures y.Some? <==> price.Some? && dividend.Some? && price.value != 0.0
    ensures y.Some? ==> y.value * price.value == dividend.value * 100.0
  {
    if price.Some? && dividend.Some? && price.value != 0.0
    then Some(dividend.value / price.value * 100.0)
    else None
  }

  /** `yieldPct`: the yield to two decimals. */
  function YieldPct(price: Option<real>, dividend: Option<real>): (y: Option<real>)
    ensures y.Some? <==> price.Some? && dividend.Some? && price.value != 0.0
    ensures y.Some? ==> -0.005 <= y.value - dividend.value * 100.0 / price.value <= 0.005
  {
    assert Pow10(2) == 100;
    var exact := DividendYield(price, dividend);
    assert exact.Some? ==> exact.value == dividend.value * 100.0 / price.value;
    Shown(exact, 2)
  }

  /** `annualIncome` to two decimals: present when dividend and shares are
      filled in; the price plays no part. */
  function AnnualIncome(dividend: Option<real>, shares: Option<real>): (income: Option<real>)
    ensures income.Some? <==> dividend.Some? && shares.Some?
    ensures income.Some? ==> -0.005 <= income.value - dividend.value * shares.value <= 0.005
  {
    assert Pow10(2) == 100;
    if dividend.Some? && shares.Some? then Some(ToFixed(dividend.value * shares.value, 2)) else None
  }

  /** The worked example: price 50, dividend 2, 100 shares. */
  lemma DividendExample()
    ensures YieldPct(Some(50.0), Some(2.0)) == Some(4.0)
    ensures AnnualIncome(Some(2.0), Some(100.0)) == Some(200.0)
  {
    assert Pow10(2) == 100;
    assert DividendYield(Some(50.0), Some(2.0)) == Some(4.0);
    assert (400.0 + 0.5).Floor == 400;
    assert (20000.0 + 0.5).Floor == 20000;
  }

  // ---------------------------------------------------------------------
  // Compound growth.
  // ---------------------------------------------------------------------

  /** The three figures of the compound calculator. */
  datatype Growth = Growth(total: real, contributions: real, earnings: real)

  /** `P(1+r)^n + PMT((1+r)^n - 1)/r` for a given growth factor `(1+r)^n`. */
  function FutureValue(p: real, m: real, r: real, growth: real): real
    requires r != 0.0
  {
    p * growth + m * ((growth - 1.0) / r)
  }

  /** `calculate`: absent unless the starting amount, the rate and the
      years are filled in; an empty monthly amount counts as 0. `pow`
      stands for `Math.pow`. */
  function Compound(initial: Option<real>, monthly: Option<real>, rate: Option<real>,
                    years: Option<real>, pow: (real, real) -> real): (g: Option<Growth>)
    requires initial.Some? && rate.Some? && years.Some? ==> rate.value != 0.0
    ensures g.Some? <==> initial.Some? && rate.Some? && years.Some?
    ensures g.Some? ==> g.value.contributions
                        == initial.value + monthly.GetOr(0.0) * (years.value * 12.0)
    ensures g.Some? ==> g.value.contributions + g.value.earnings == g.value.total
    ensures g.Some? ==> g.value.total == FutureValue(initial.value, monthly.GetOr(0.0),
                                           rate.value / 100.0 / 12.0,
                                           pow(1.0 + rate.value / 100.0 / 12.0, years.value * 12.0))
  {
    if initial.None? || rate.None? || years.None? then None
    else
      var p := initial.value;
      var m := monthly.GetOr(0.0);
      var r := rate.value / 100.0 / 12.0;
      var n := years.value * 12.0;
      var fv := FutureValue(p, m, r, pow(1.0 + r, n));
      var contributions := p + m * n;
      Some(Growth(fv, contributions, fv - contributions))
  }

  /** The figures as the page shows them, each `toFixed(0)`. */
  function ShownGrowth(g: Growth): (s: Growth)
    ensures -0.5 <= s.total - g.total <= 0.5
    ensures -0.5 <= s.contributions - g.contributions <= 0.5
    ensures -0.5 <= s.earnings - g.earnings <= 0.5
  {
    Growth(ToFixed(g.total, 0), ToFixed(g.contributions, 0), ToFixed(g.earnings, 0))
  }

  lemma RoundWithinHalf(x: real)
    ensures -0.5 <= RoundHalfAway(x) as real - x <= 0.5
  {
  }

  lemma ToFixedWhole(x: real)
    ensures ToFixed(x, 0) == RoundHalfAway(x) as real
  {
    assert Pow10(0) == 1;
    assert x * 1.0 == x;
  }

  /** Each shown figure is rounded on its own, so the shown contributions
      and earnings add up to the shown total give or take one. */
  lemma ShownFiguresWithinOne(g: Growth)
    requires g.contributions + g.earnings == g.total
    ensures var s := ShownGrowth(g);
            -1.0 <= s.total - (s.contributions + s.earnings) <= 1.0
  {
    var a := RoundHalfAway(g.total);
    var b := RoundHalfAway(g.contributions);
    var c := RoundHalfAway(g.earnings);
    RoundWithinHalf(g.total);
    RoundWithinHalf(g.contributions);
    RoundWithinHalf(g.earnings);
    ToFixedWhole(g.total);
    ToFixedWhole(g.contributions);
    ToFixedWhole(g.earnings);
    assert -1.5 <= (a - b - c) as real <= 1.5;
    assert -1 <= a - b - c <= 1;
  }

  /** Half a unit of contributions and half a unit of earnings are shown
      as 1 and 1 beside a total of 1. */
  lemma ShownFiguresMayDisagree()
    ensures ShownGrowth(Growth(1.0, 0.5, 0.5)) == Growth(1.0, 1.0, 1.0)
  {
    assert (1.0 + 0.5).Floor == 1;
    assert (0.5 + 0.5).Floor == 1;
  }

  /** 10000 to start, 500 a month, 10% for 20 years: 240 months, so
      130000 paid in. */
  lemma CompoundExample(pow: (real, real) -> real)
    ensures Compound(Some(10000.0), Some(500.0), Some(10.0), Some(20.0), pow).Some?
    ensures Compound(Some(10000.0), Some(500.0), Some(10.0), Some(20.0), pow).value.contributions == 130000.0
  {
  }

  function Pow(x: real, n: nat): real
  {
    if n == 0 then 1.0 else x * Pow(x, n - 1)
  }

  /** The balance after `n` months of compounding at monthly rate `r`, a
      deposit of `m` being added at the end of each month. */
  function Balance(p: real, m: real, r: real, n: nat): real
  {
    if n == 0 then p else Balance(p, m, r, n - 1) * (1.0 + r) + m
  }

  /** One month more, multiplied through by the rate. */
  lemma StepTimesRate(p: real, m: real, r: real, g: real, g': real, before: real, after: real)
    requires g' == (1.0 + r) * g
    requires before * r == p * r * g + m * (g - 1.0) && after == before * (1.0 + r) + m
    ensures after * r == p * r * g' + m * (g' - 1.0)
  {
    assert after * r == (1.0 + r) * (before * r) + m * r;
  }

  /** The month-by-month balance, multiplied by the rate, is the closed
      formula multiplied by the rate. */
  lemma {:induction false} BalanceTimesRate(p: real, m: real, r: real, n: nat)
    ensures Balance(p, m, r, n) * r == p * r * Pow(1.0 + r, n) + m * (Pow(1.0 + r, n) - 1.0)
  {
    if n > 0 {
      BalanceTimesRate(p, m, r, n - 1);
      StepTimesRate(p, m, r, Pow(1.0 + r, n - 1), Pow(1.0 + r, n),
                    Balance(p, m, r, n - 1), Balance(p, m, r, n));
    }
  }

  /** Dividing the previous identity by a rate that is not zero. */
  lemma DivideByRate(p: real, m: real, r: real, g: real, b: real)
    requires r != 0.0 && b * r == p * r * g + m * (g - 1.0)
    ensures FutureValue(p, m, r, g) == b
  {
    var a := (g - 1.0) / r;
    assert a * r == g - 1.0;
    assert (p * g + m * a) * r == b * r;
  }

  /** For a whole number of months the closed formula is the month-by-month
      balance. */
  lemma FutureValueIsBalance(p: real, m: real, r: real, n: nat)
    requires r != 0.0
    ensures FutureValue(p, m, r, Pow(1.0 + r, n)) == Balance(p, m, r, n)
  {
    BalanceTimesRate(p, m, r, n);
    DivideByRate(p, m, r, Pow(1.0 + r, n), Balance(p, m, r, n));
  }

  /** The calculator's total for a whole number of years is the balance
      after that many months. */
  lemma CompoundIsBalance(initial: real, monthly: Option<real>, rate: real, years: nat,
                          pow: (real, real) -> real)
    requires rate != 0.0
    requires pow(1.0 + rate / 100.0 / 12.0, (years * 12) as real) == Pow(1.0 + rate / 100.0 / 12.0, years * 12)
    ensures Compound(Some(initial), monthly, Some(rate), Some(years as real), pow).Some?
    ensures Compound(Some(initial), monthly, Some(rate), Some(years as real), pow).value.total
            == Balance(initial, monthly.GetOr(0.0), rate / 100.0 / 12.0, years * 12)
  {
    FutureValueIsBalance(initial, monthly.GetOr(0.0), rate / 100.0 / 12.0, years * 12);
  }

  // ---------------------------------------------------------------------
  // Position size.
  // ---------------------------------------------------------------------

  /** The three figures of the position-size calculator. */
  datatype Position = Position(shares: int, riskAmount: real, positionValue: real)

  function Abs(x: real): real {
    if x < 0.0 then -x else x
  }

  /** `Math.abs(entryPrice - stop)`. */
  function RiskPerShare(entry: real, stop: real): (d: real)
    ensures d >= 0.0
    ensures d == 0.0 <==> entry == stop
    ensures d == entry - stop || d == stop - entry
  {
    Abs(entry - stop)
  }

  /** Entry and stop play symmetric parts. */
  lemma RiskPerShareSymmetric(entry: real, stop: real)
    ensures RiskPerShare(entry, stop) == RiskPerShare(stop, entry)
  {
  }

  /** Multiplying by a positive factor keeps the order. */
  lemma ScaleLe(a: real, b: real, c: real)
    requires a <= b && c > 0.0
    ensures a * c <= b * c
  {
    assert b * c - a * c == (b - a) * c;
  }

  lemma ScaleLt(a: real, b: real, c: real)
    requires a < b && c > 0.0
    ensures a * c < b * c
  {
    assert b * c - a * c == (b - a) * c;
  }

  /** `calculate`: absent unless all four fields are filled in. The share
      count is the floor of the risk budget over the risk per share. */
  function PositionSize(portfolio: Option<real>, riskPct: Option<real>,
                        entry: Option<real>, stop: Option<real>): (r: Option<Position>)
    requires portfolio.Some? && riskPct.Some? && entry.Some? && stop.Some? ==> entry.value != stop.value
    ensures r.Some? <==> portfolio.Some? && riskPct.Some? && entry.Some? && stop.Some?
    ensures r.Some? ==> r.value.riskAmount == portfolio.value * (riskPct.value / 100.0)
    ensures r.Some? ==> var perShare := RiskPerShare(entry.value, stop.value);
                        r.value.shares as real * perShare <= r.value.riskAmount
                        < (r.value.shares + 1) as real * perShare
    ensures r.Some? ==> r.value.positionValue == r.value.shares as real * entry.value
  {
    if portfolio.None? || riskPct.None? || entry.None? || stop.None? then None
    else
      var risk := riskPct.value / 100.0;
      var riskAmount := portfolio.value * risk;
      var perShare := RiskPerShare(entry.value, stop.value);
      var q := riskAmount / perShare;
      var shares := q.Floor;
      assert perShare > 0.0;
      assert q * perShare == riskAmount;
      assert shares as real <= q < (shares + 1) as real;
      ScaleLe(shares as real, q, perShare);
      ScaleLt(q, (shares + 1) as real, perShare);
      assert riskAmount < (shares + 1) as real * perShare;
      Some(Position(shares, riskAmount, shares as real * entry.value))
  }

  /** The figures as the page shows them: the share count as is, the two
      amounts `toFixed(0)`. */
  function ShownPosition(p: Position): (s: Position)
    ensures s.shares == p.shares
    ensures -0.5 <= s.riskAmount - p.riskAmount <= 0.5
    ensures -0.5 <= s.positionValue - p.positionValue <= 0.5
  {
    Position(p.shares, ToFixed(p.riskAmount, 0), ToFixed(p.positionValue, 0))
  }

  /** The share count is the largest whole number of shares whose total
      risk stays within the budget. */
  lemma SharesIsLargestAffordable(portfolio: real, riskPct: real, entry: real, stop: real, k: int)
    requires entry != stop
    requires k as real * RiskPerShare(entry, stop)
             <= PositionSize(Some(portfolio), Some(riskPct), Some(entry), Some(stop)).value.riskAmount
    ensures k <= PositionSize(Some(portfolio), Some(riskPct), Some(entry), Some(stop)).value.shares
  {
    var p := PositionSize(Some(portfolio), Some(riskPct), Some(entry), Some(stop)).value;
    if k > p.shares {
      ScaleLe((p.shares + 1) as real, k as real, RiskPerShare(entry, stop));
    }
  }

  /** The worked example: portfolio 50000, 2% risk, entry 150, stop 140. */
  lemma PositionExample()
    ensures PositionSize(Some(50000.0), Some(2.0), Some(150.0), Some(140.0))
            == Some(Position(100, 1000.0, 15000.0))
  {
    assert (1000.0 / 10.0).Floor == 100;
  }
}
