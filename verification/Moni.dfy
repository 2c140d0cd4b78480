/** The traffic controller of network/moni.c at its default thresholds: a pass ratio that is
    doubled, stepped, held, stepped back or halved with the measured traffic.

    Counters are 64-bit and assumed not to overflow or run backwards; the limit is positive, as the
    callers check.
 */
module Moni {
  const INTVAL_SEC: nat := 5
  const MAX_PEND_VALUE: nat := 0xFF
  const PASS_STEP: nat := 3
  const PASS_UP_VALUE: nat := 240
  const MAX_PASS_UP_VALUE: nat := 300
  const MAX_PASS_UP_VALUE_2: nat := 400
  const PASS_DOWN_VALUE: nat := 160
  const MIN_PASS_SIZE: nat := 1024

  predicate InBand(r: int) { 5 <= r <= MAX_PEND_VALUE }

  // How hard the line is used, from idle to overloaded.
  datatype Load = Idle | Light | Fair | Busy | Heavy | Overloaded

  // The share of the limit that is used, in units of 1 / MAX_PEND_VALUE.
  function Usage(traffic: nat, limit: nat): nat
    requires limit > 0
  {
    MAX_PEND_VALUE * (8 * traffic / INTVAL_SEC) / limit
  }

  function LoadOf(traffic: nat, limit: nat): Load
    requires limit > 0
  {
    var u := Usage(traffic, limit);
    if traffic < MIN_PASS_SIZE then Idle
    else if u <= PASS_DOWN_VALUE then Light
    else if u <= PASS_UP_VALUE then Fair
    else if u <= MAX_PASS_UP_VALUE then Busy
    else if u <= MAX_PASS_UP_VALUE_2 then Heavy
    else Overloaded
  }

  function Rank(l: Load): nat {
    match l case Idle => 0 case Light => 1 case Fair => 2 case Busy => 3 case Heavy => 4 case Overloaded => 5
  }

  function Clamp(r: int): (c: int)
    ensures InBand(c)
  {
    if r > MAX_PEND_VALUE then MAX_PEND_VALUE else if r < 5 then 5 else r
  }

  function Adjusted(r: int, l: Load): int
  {
    Clamp(match l
          case Idle => 2 * r
          case Light => r + PASS_STEP
          case Fair => r
          case Busy => r - PASS_STEP
          case Heavy => r - 2 * PASS_STEP
          case Overloaded => r / 2)
  }

  method CalLimit(result: int, two: nat, one: nat, limit: nat) returns (result': int)
    requires one <= two && limit > 0 && InBand(result)
    ensures result' == Adjusted(result, LoadOf(two - one, limit))
  {
    hide Usage;
    result' := result;
    if two - one < MIN_PASS_SIZE {
      result' := 2 * result';
      if result' > MAX_PEND_VALUE {
        result' := MAX_PEND_VALUE;
      }
      if result' < 5 {
        result' := 5;
      }
      return;
    }
    UsageIs(two - one, limit);
    var speed := 8 * (two - one) / INTVAL_SEC;
    var ratio := MAX_PEND_VALUE * speed / limit;
    if ratio <= PASS_DOWN_VALUE {
      result' := result' + PASS_STEP;
      if result' > MAX_PEND_VALUE {
        result' := MAX_PEND_VALUE;
      }
      return;
    }
    if ratio <= PASS_UP_VALUE {
      return;
    }
    if ratio <= MAX_PASS_UP_VALUE {
      result' := result' - PASS_STEP;
    } else if ratio <= MAX_PASS_UP_VALUE_2 {
      result' := result' - PASS_STEP * 2;
    } else {
      result' := result' / 2;
    }
    if result' < 5 {
      result' := 5;
    }
  }

  lemma UsageIs(traffic: nat, limit: nat)
    requires limit > 0
    ensures Usage(traffic, limit) == MAX_PEND_VALUE * (8 * traffic / INTVAL_SEC) / limit
  {
  }

  lemma ScaleMonotone(x: int, y: int, d: nat)
    requires x <= y
    ensures x * d <= y * d
  {
  }

  lemma DivMonotone(a: nat, b: nat, d: nat)
    requires a <= b && d > 0
    ensures a / d <= b / d
  {
    if b / d < a / d {
      assert (b / d + 1) * d <= a / d * d by { ScaleMonotone(b / d + 1, a / d, d); }
      assert false;
    }
  }

  // More traffic is never rated a lighter load.
  lemma LoadMonotone(t1: nat, t2: nat, limit: nat)
    requires t1 <= t2 && limit > 0
    ensures Rank(LoadOf(t1, limit)) <= Rank(LoadOf(t2, limit))
  {
    UsageIs(t1, limit);
    UsageIs(t2, limit);
    hide Usage;
    DivMonotone(MAX_PEND_VALUE * (8 * t1 / INTVAL_SEC), MAX_PEND_VALUE * (8 * t2 / INTVAL_SEC), limit);
  }

  lemma AtMost(a: nat, d: nat, c: nat)
    requires d > 0
    ensures a / d <= c <==> a < (c + 1) * d
  {
    if a / d <= c { ScaleMonotone(a / d, c, d); } else { ScaleMonotone(c + 1, a / d, d); }
  }

  // The loads without the divisions: 160, 240, 300 and 400 parts in 255 of the limit.
  lemma LoadIs(traffic: nat, limit: nat)
    requires limit > 0
    ensures var l, used := LoadOf(traffic, limit), 255 * (8 * traffic / 5);
            && (l == Idle <==> traffic < 1024)
            && (l == Light <==> traffic >= 1024 && used < 161 * limit)
            && (l == Fair <==> traffic >= 1024 && 161 * limit <= used < 241 * limit)
            && (l == Busy <==> traffic >= 1024 && 241 * limit <= used < 301 * limit)
            && (l == Heavy <==> traffic >= 1024 && 301 * limit <= used < 401 * limit)
            && (l == Overloaded <==> traffic >= 1024 && 401 * limit <= used)
  {
    UsageIs(traffic, limit);
    hide Usage;
    var used := 255 * (8 * traffic / 5);
    AtMost(used, limit, 160);
    AtMost(used, limit, 240);
    AtMost(used, limit, 300);
    AtMost(used, limit, 400);
  }

  // A higher ratio under a lighter load stays at least as high, across all clamps.
  lemma AdjustMonotone(r1: int, r2: int, l1: Load, l2: Load)
    requires InBand(r1) && InBand(r2) && r1 <= r2 && Rank(l2) <= Rank(l1)
    ensures Adjusted(r1, l1) <= Adjusted(r2, l2)
  {
  }

  // The ratio after a run that sees these amounts of traffic.
  function After(r: int, traffic: seq<nat>, limit: nat): int
    requires limit > 0
  {
    if traffic == [] then r
    else Adjusted(After(r, traffic[..|traffic| - 1], limit), LoadOf(traffic[|traffic| - 1], limit))
  }

  function Pow2(n: nat): (p: nat)
    ensures p > 0
  {
    if n == 0 then 1 else 2 * Pow2(n - 1)
  }

  predicate AlwaysRated(traffic: seq<nat>, limit: nat, l: Load)
    requires limit > 0
  {
    forall i :: 0 <= i < |traffic| ==> LoadOf(traffic[i], limit) == l
  }

  lemma HalvedAgain(r: nat, p: nat)
    requires p > 0
    ensures r / p / 2 == r / (2 * p)
  {
    var q := r / p;
    var a, m := q / 2, p * (q % 2) + r % p;
    assert r == p * q + r % p;
    assert p * q == 2 * p * a + p * (q % 2);
    assert 0 <= m < 2 * p;
    QuotientIs(r, 2 * p, a, m);
  }

  lemma QuotientIs(r: nat, d: nat, a: nat, m: nat)
    requires d > 0 && r == d * a + m && m < d
    ensures r / d == a
  {
    if r / d < a { ScaleMonotone(r / d + 1, a, d); assert false; }
    if r / d > a { ScaleMonotone(a + 1, r / d, d); assert false; }
  }

  // Where n measurements of load l take the ratio r.
  function SteadyRatio(r: int, l: Load, n: nat): int
  {
    match l
    case Idle => if r * Pow2(n) < 255 then r * Pow2(n) else 255
    case Light => if r + 3 * n < 255 then r + 3 * n else 255
    case Fair => r
    case Busy => if r - 3 * n > 5 then r - 3 * n else 5
    case Heavy => if r - 6 * n > 5 then r - 6 * n else 5
    case Overloaded => if Halved(r, n) > 5 then Halved(r, n) else 5
  }

  function Halved(r: int, n: nat): int { r / Pow2(n) }

  // Under a steady load the ratio doubles, climbs by 3, stays, falls by 3 or by 6, or halves, with
  // every measurement, until it meets the end of the band.
  lemma {:induction false} Steady(r: int, traffic: seq<nat>, limit: nat, l: Load)
    requires limit > 0 && InBand(r) && AlwaysRated(traffic, limit, l)
    ensures After(r, traffic, limit) == SteadyRatio(r, l, |traffic|)
  {
    hide LoadOf, Adjusted, SteadyRatio;
    StartsSteady(r, l);
    if traffic != [] {
      var last := |traffic| - 1;
      Steady(r, traffic[..last], limit, l);
      SteadyStep(r, l, last);
      assert LoadOf(traffic[last], limit) == l;
    }
  }

  lemma StartsSteady(r: int, l: Load)
    requires InBand(r)
    ensures SteadyRatio(r, l, 0) == r
  {
  }

  lemma SteadyStep(r: int, l: Load, n: nat)
    requires InBand(r)
    ensures SteadyRatio(r, l, n + 1) == Adjusted(SteadyRatio(r, l, n), l)
  {
    hide Pow2, Adjusted, SteadyRatio;
    match l {
      case Idle => IdleStep(r, n);
      case Overloaded => OverloadedStep(r, n);
      case _ => LinearStep(r, l, n);
    }
  }

  lemma IdleStep(r: int, n: nat)
    requires InBand(r)
    ensures SteadyRatio(r, Idle, n + 1) == Adjusted(SteadyRatio(r, Idle, n), Idle)
  {
    PowNext(n);
    Doubled(r, Pow2(n));
    AtLeast(r, Pow2(n));
    DoubledStep(r * Pow2(n));
    hide Pow2, Adjusted;
  }

  lemma OverloadedStep(r: int, n: nat)
    requires InBand(r)
    ensures SteadyRatio(r, Overloaded, n + 1) == Adjusted(SteadyRatio(r, Overloaded, n), Overloaded)
  {
    HalvedNext(r, n);
    hide Halved, Adjusted;
    HalvedStep(Halved(r, n));
  }

  lemma HalvedNext(r: int, n: nat)
    requires InBand(r)
    ensures Halved(r, n + 1) == Halved(r, n) / 2 && 0 <= Halved(r, n) <= r
  {
    HalvedAgain(r, Pow2(n));
    AtLeast(r, Pow2(n));
    PowNext(n);
    hide Pow2;
    Positive(r, Pow2(n));
  }

  lemma Positive(r: nat, p: nat)
    requires p > 0
    ensures r / p >= 0
  {
  }

  lemma DoubledStep(x: int)
    requires x >= 5
    ensures Adjusted(if x < 255 then x else 255, Idle) == if 2 * x < 255 then 2 * x else 255
  {
  }

  lemma HalvedStep(x: int)
    requires 0 <= x <= 255
    ensures Adjusted(if x > 5 then x else 5, Overloaded) == if x / 2 > 5 then x / 2 else 5
  {
  }

  lemma LinearStep(r: int, l: Load, n: nat)
    requires InBand(r) && l != Idle && l != Overloaded
    ensures SteadyRatio(r, l, n + 1) == Adjusted(SteadyRatio(r, l, n), l)
  {
    hide Pow2;
  }

  lemma AtLeast(r: nat, p: nat)
    requires p > 0
    ensures r * p >= r && r / p <= r
  {
    ScaleMonotone(1, p, r);
    AtMost(r, p, r);
    ScaleMonotone(1, p, r + 1);
  }

  lemma PowNext(n: nat)
    ensures Pow2(n + 1) == 2 * Pow2(n)
  {
  }

  lemma Doubled(r: nat, p: nat)
    ensures r * (2 * p) == 2 * (r * p)
  {
  }

  // How long a steady load takes: light load lifts the ratio to 255 after a third of what is missing,
  // overload brings it down to 5 as soon as it has been halved below 6.
  lemma StepsNeeded(r: int, traffic: seq<nat>, limit: nat)
    requires limit > 0 && InBand(r)
    ensures AlwaysRated(traffic, limit, Light) ==> (After(r, traffic, limit) == 255 <==> 3 * |traffic| >= 255 - r)
    ensures AlwaysRated(traffic, limit, Overloaded) ==> (After(r, traffic, limit) == 5 <==> r < 6 * Pow2(|traffic|))
  {
    hide AlwaysRated, After;
    if AlwaysRated(traffic, limit, Light) {
      Steady(r, traffic, limit, Light);
    }
    if AlwaysRated(traffic, limit, Overloaded) {
      Steady(r, traffic, limit, Overloaded);
      AtMost(r, Pow2(|traffic|), 5);
    }
  }

  // In lockstep, the run that always sees at least as much traffic and starts no higher is never
  // above the other, and both stay in the band.
  lemma {:induction false} RunsMonotone(r1: int, r2: int, t1: seq<nat>, t2: seq<nat>, limit: nat)
    requires limit > 0 && InBand(r1) && InBand(r2) && r1 <= r2
    requires |t1| == |t2| && forall i :: 0 <= i < |t1| ==> t1[i] >= t2[i]
    ensures InBand(After(r1, t1, limit)) && InBand(After(r2, t2, limit))
    ensures After(r1, t1, limit) <= After(r2, t2, limit)
  {
    if t1 != [] {
      var last := |t1| - 1;
      RunsMonotone(r1, r2, t1[..last], t2[..last], limit);
      LoadMonotone(t2[last], t1[last], limit);
      AdjustMonotone(After(r1, t1[..last], limit), After(r2, t2[..last], limit),
                     LoadOf(t1[last], limit), LoadOf(t2[last], limit));
    }
  }
}
