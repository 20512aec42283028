/** The arithmetic of rate adaptation: the truncating moving average of throughput and
    the choice of a bitrate from the published list. Throughput is a real, stored
    values are integers. */
module Rates {
  // C's conversion from double to int.
  function Trunc(x: real): int {
    if x >= 0.0 then x.Floor else -((-x).Floor)
  }

  // C's integer division by a positive number.
  function Div(n: int, d: int): int
    requires d > 0
  {
    if n >= 0 then n / d else -(-n / d)
  }

  // The throughput of a transfer of sum bytes, in kbit/s; whole kilobytes only.
  function Sample(sum: int, elapsed: real): real
    requires elapsed != 0.0
  {
    (Div(sum, 1000) * 8) as real / elapsed
  }

  // What that means, without the division: eight bits for each byte of the whole
  // kilobytes, spread over the elapsed time.
  ghost predicate MeansThroughput(sum: int, elapsed: real, r: real) {
    exists kilobytes: int :: WholeKilobytes(sum, kilobytes) && r * elapsed == (8 * kilobytes) as real
  }

  predicate WholeKilobytes(sum: int, kilobytes: int) {
    1000 * kilobytes <= sum < 1000 * kilobytes + 1000
  }

  lemma SampleMeansThroughput(sum: int, elapsed: real)
    requires sum >= 0 && elapsed != 0.0
    ensures MeansThroughput(sum, elapsed, Sample(sum, elapsed))
  {
    assert WholeKilobytes(sum, sum / 1000);
  }

  // Between the exact throughput and eight bits for a kilobyte less, and exact only for
  // whole kilobytes.
  lemma SampleBounds(sum: int, elapsed: real)
    requires sum > 0 && elapsed > 0.0
    ensures var r := Sample(sum, elapsed);
            && (8 * sum - 8000) as real < 1000.0 * elapsed * r <= (8 * sum) as real
            && (1000.0 * elapsed * r == (8 * sum) as real <==> sum % 1000 == 0)
  {
    var r, n := Sample(sum, elapsed), 8 * (sum / 1000);
    assert r * elapsed == n as real;
    Thousandfold(elapsed, r, n);
  }

  lemma Thousandfold(elapsed: real, r: real, n: int)
    requires r * elapsed == n as real
    ensures 1000.0 * elapsed * r == (1000 * n) as real
  {
    assert 1000.0 * elapsed * r == 1000.0 * (r * elapsed);
  }

  // The integer next to x towards zero.
  predicate TruncatesTo(x: real, n: int) {
    if x >= 0.0 then n as real <= x < n as real + 1.0 else n as real - 1.0 < x <= n as real
  }

  lemma TruncTruncates(x: real, n: int)
    ensures Trunc(x) == n <==> TruncatesTo(x, n)
  {
  }

  // The weighted mean of the newest sample and the current average.
  function Blend(alpha: real, sample: real, current: real): real {
    alpha * sample + (1.0 - alpha) * current
  }

  // update_thruput: the first sample is taken over, later ones are blended in.
  function NewAverage(alpha: real, current: int, sample: real): int {
    if current != 0 then Trunc(Blend(alpha, sample, current as real)) else Trunc(sample)
  }

  // A fresh average is the sample's integer part; later ones move by the share alpha of
  // the distance to the sample.
  ghost predicate IsNewAverage(alpha: real, current: int, r: real, next: int) {
    TruncatesTo(if current == 0 then r else current as real + alpha * (r - current as real), next)
  }

  lemma NewAverageMoves(alpha: real, current: int, r: real)
    ensures IsNewAverage(alpha, current, r, NewAverage(alpha, current, r))
  {
    hide Trunc, TruncatesTo, Blend;
    var c := current as real;
    BlendMoves(alpha, r, c);
    TruncTruncates(if current == 0 then r else c + alpha * (r - c), NewAverage(alpha, current, r));
  }

  lemma BlendMoves(alpha: real, r: real, c: real)
    ensures Blend(alpha, r, c) == c + alpha * (r - c)
  {
  }

  // ------------------------------------------------------------------ bounds over a run

  function AverageAfter(alpha: real, start: int, samples: seq<real>): int {
    if samples == [] then start
    else NewAverage(alpha, AverageAfter(alpha, start, samples[..|samples| - 1]), samples[|samples| - 1])
  }

  lemma BlendBetween(alpha: real, a: real, b: real, lo: real, hi: real)
    requires 0.0 <= alpha <= 1.0 && lo <= a <= hi && lo <= b <= hi
    ensures lo <= Blend(alpha, a, b) <= hi
  {
    var blend := Blend(alpha, a, b);
    assert blend - lo == alpha * (a - lo) + (1.0 - alpha) * (b - lo);
    assert hi - blend == alpha * (hi - a) + (1.0 - alpha) * (hi - b);
    NonNegativeProduct(alpha, a - lo);
    NonNegativeProduct(1.0 - alpha, b - lo);
    NonNegativeProduct(alpha, hi - a);
    NonNegativeProduct(1.0 - alpha, hi - b);
  }

  lemma NonNegativeProduct(x: real, y: real)
    requires x >= 0.0 && y >= 0.0
    ensures x * y >= 0.0
  {
  }

  lemma FloorKeepsBounds(x: real, lo: int, hi: real)
    requires lo as real <= x <= hi
    ensures lo <= x.Floor && x.Floor as real <= hi
  {
  }

  // From a fresh entry, the average stays between the integer part of the smallest
  // sample and the largest sample, whatever the order and however long the run.
  lemma {:induction false} AverageStaysBetween(alpha: real, samples: seq<real>, lo: int, hi: real)
    requires 0.0 <= alpha <= 1.0 && samples != [] && lo >= 0
    requires forall i | 0 <= i < |samples| :: lo as real <= samples[i] <= hi
    ensures lo <= AverageAfter(alpha, 0, samples) && AverageAfter(alpha, 0, samples) as real <= hi
  {
    var p, x := samples[..|samples| - 1], samples[|samples| - 1];
    if p != [] {
      AverageStaysBetween(alpha, p, lo, hi);
    }
    NewAverageBetween(alpha, AverageAfter(alpha, 0, p), x, lo, hi);
  }

  // One sample within the bounds keeps an average that is fresh or within them.
  lemma NewAverageBetween(alpha: real, current: int, sample: real, lo: int, hi: real)
    requires 0.0 <= alpha <= 1.0 && 0 <= lo && lo as real <= sample <= hi
    requires current == 0 || (lo <= current && current as real <= hi)
    ensures lo <= NewAverage(alpha, current, sample) && NewAverage(alpha, current, sample) as real <= hi
  {
    hide Blend;
    if current != 0 {
      BlendBetween(alpha, sample, current as real, lo as real, hi);
      FloorKeepsBounds(Blend(alpha, sample, current as real), lo, hi);
    } else {
      FloorKeepsBounds(sample, lo, hi);
    }
  }

  // ------------------------------------------------------------------ steady throughput

  function Repeat(alpha: real, start: int, sample: int, n: nat): int {
    if n == 0 then start else NewAverage(alpha, Repeat(alpha, start, sample, n - 1), sample as real)
  }

  // How far one step of weight alpha carries across a gap.
  function Gain(alpha: real, gap: int): real {
    alpha * gap as real
  }

  lemma BlendGains(alpha: real, sample: int, current: int)
    requires 0.0 < alpha <= 1.0
    ensures Blend(alpha, sample as real, current as real) == current as real + Gain(alpha, sample - current)
    ensures sample > current ==> 0.0 < Gain(alpha, sample - current) <= (sample - current) as real
    ensures sample < current ==> (sample - current) as real <= Gain(alpha, sample - current) < 0.0
    ensures sample == current ==> Gain(alpha, sample - current) == 0.0
  {
    var gap := (sample - current) as real;
    assert gap == sample as real - current as real;
    assert Blend(alpha, sample as real, current as real) == current as real + alpha * gap;
    assert gap - alpha * gap == (1.0 - alpha) * gap;
    if sample > current {
      PositiveProduct(alpha, gap);
      NonNegativeProduct(1.0 - alpha, gap);
    } else if sample < current {
      assert alpha * (-gap) == -(alpha * gap) && (1.0 - alpha) * (-gap) == -((1.0 - alpha) * gap);
      PositiveProduct(alpha, -gap);
      NonNegativeProduct(1.0 - alpha, -gap);
    }
  }

  // One step towards a steady sample: a fresh entry takes it over; from above it falls by
  // at least one, from below it moves only if the gap times alpha reaches one; it never
  // crosses.
  lemma SteadyStep(alpha: real, current: int, sample: int)
    requires 0.0 < alpha <= 1.0 && current >= 0 && sample >= 0
    ensures var next := NewAverage(alpha, current, sample as real);
            && (current == 0 ==> next == sample)
            && (current > sample ==> sample <= next < current)
            && (current == sample ==> next == sample)
            && (current < sample ==> current <= next <= sample)
            && (0 < current < sample ==> (next == current <==> Gain(alpha, sample - current) < 1.0))
  {
    hide Blend, Gain;
    BlendGains(alpha, sample, current);
    FloorOfSum(current, Gain(alpha, sample - current));
  }

  lemma FloorOfSum(n: int, x: real)
    ensures (n as real + x).Floor == n + x.Floor
  {
  }

  lemma PositiveProduct(x: real, y: real)
    requires x > 0.0 && y > 0.0
    ensures x * y > 0.0
  {
  }

  // From above, a steady sample is reached exactly, in at most the gap's
  // number of steps, without ever going below it.
  lemma {:induction false} SteadyFromAbove(alpha: real, start: int, sample: int, n: nat)
    requires 0.0 < alpha <= 1.0 && start >= sample >= 0
    ensures sample <= Repeat(alpha, start, sample, n)
    ensures Repeat(alpha, start, sample, n) <= if n < start - sample then start - n else sample
  {
    if n > 0 {
      SteadyFromAbove(alpha, start, sample, n - 1);
      var before := Repeat(alpha, start, sample, n - 1);
      SteadyStep(alpha, before, sample);
    }
  }

  // From below it is approached without crossing, and after at most the gap's number
  // of steps the average has stopped within 1/alpha of it.
  lemma {:induction false} SteadyFromBelow(alpha: real, start: int, sample: int, n: nat)
    requires 0.0 < alpha <= 1.0 && 0 <= start <= sample
    ensures start <= Repeat(alpha, start, sample, n) <= sample
    ensures var now := Repeat(alpha, start, sample, n);
            now >= start + n || Gain(alpha, sample - now) < 1.0
  {
    hide Blend, Gain, NewAverage;
    if n > 0 {
      SteadyFromBelow(alpha, start, sample, n - 1);
      var before := Repeat(alpha, start, sample, n - 1);
      SteadyStep(alpha, before, sample);
      BlendGains(alpha, sample, before);
      BlendGains(alpha, sample, sample);
    }
  }

  lemma SteadyFromBelowSettles(alpha: real, start: int, sample: int, n: nat)
    requires 0.0 < alpha <= 1.0 && 0 <= start <= sample && n >= sample - start
    ensures var now := Repeat(alpha, start, sample, n);
            now <= sample && Gain(alpha, sample - now) < 1.0
  {
    SteadyFromBelow(alpha, start, sample, n);
    BlendGains(alpha, sample, Repeat(alpha, start, sample, n));
  }

  // ------------------------------------------------------------------ the bitrate

  // thru->avg_put / 1.5, truncated.
  function Affordable(avgPut: int): int {
    Trunc(avgPut as real / 1.5)
  }

  lemma AffordableIsTwoThirds(avgPut: int, rate: int)
    requires avgPut >= 0 || rate > 0
    ensures rate <= Affordable(avgPut) <==> 3 * rate <= 2 * avgPut
  {
    var x := avgPut as real / 1.5;
    assert 3.0 * x == 2.0 * avgPut as real;
    if rate <= x.Floor {
      assert rate as real <= x;
      assert (3 * rate) as real <= (2 * avgPut) as real;
    } else {
      assert x.Floor + 1 <= rate;
      assert rate as real > x;
      assert (3 * rate) as real > (2 * avgPut) as real;
    }
  }

  // A listed positive rate that two thirds of the throughput can pay for.
  predicate Fits(rates: seq<int>, avgPut: int, r: int) {
    r in rates && r > 0 && 3 * r <= 2 * avgPut
  }

  // The largest fitting rate, or the fallback: the smallest listed rate, but at most 100.
  ghost predicate IsChoice(rates: seq<int>, avgPut: int, r: int) {
    if exists x :: Fits(rates, avgPut, x) then
      Fits(rates, avgPut, r) && forall x | Fits(rates, avgPut, x) :: x <= r
    else
      IsFallback(rates, r)
  }

  ghost predicate IsFallback(rates: seq<int>, r: int) {
    (r == 100 || r in rates) && r <= 100 && forall x | x in rates :: r <= x
  }

  // The two running values of the selection loop.
  function LargestWithin(rates: seq<int>, limit: int): int {
    if rates == [] then 0
    else
      var best, b := LargestWithin(rates[..|rates| - 1], limit), rates[|rates| - 1];
      if b > best && b <= limit then b else best
  }

  function Smallest(rates: seq<int>): int {
    if rates == [] then 100
    else
      var least, b := Smallest(rates[..|rates| - 1]), rates[|rates| - 1];
      if b < least then b else least
  }

  function Choice(rates: seq<int>, avgPut: int): int {
    var best := LargestWithin(rates, Affordable(avgPut));
    if best <= 0 then Smallest(rates) else best
  }

  method ChooseRate(rates: seq<int>, avgPut: int) returns (chosen: int)
    ensures chosen == Choice(rates, avgPut)
  {
    var avgThru := Affordable(avgPut);
    chosen := 0;
    var smallest := 100;
    for i := 0 to |rates|
      invariant chosen == LargestWithin(rates[..i], avgThru)
      invariant smallest == Smallest(rates[..i])
    {
      var b := rates[i];
      assert rates[..i + 1][..i] == rates[..i];
      if b > chosen && b <= avgThru {
        chosen := b;
      }
      if b < smallest {
        smallest := b;
      }
    }
    assert rates[..|rates|] == rates;
    if chosen <= 0 {
      chosen := smallest;
    }
  }

  lemma {:induction false} LargestWithinIsLargest(rates: seq<int>, limit: int)
    ensures var r := LargestWithin(rates, limit);
            && (r == 0 || (r in rates && 0 < r <= limit))
            && forall x | x in rates && x <= limit :: x <= r || x <= 0
  {
    if rates != [] {
      var p := rates[..|rates| - 1];
      LargestWithinIsLargest(p, limit);
      assert rates == p + [rates[|rates| - 1]];
    }
  }

  lemma {:induction false} SmallestIsFallback(rates: seq<int>)
    ensures IsFallback(rates, Smallest(rates))
  {
    if rates != [] {
      var p := rates[..|rates| - 1];
      SmallestIsFallback(p);
      assert rates == p + [rates[|rates| - 1]];
    }
  }

  // The loop picks the largest listed rate b with 3b <= 2 avgPut, else the fallback.
  lemma ChoiceIsChoice(rates: seq<int>, avgPut: int)
    ensures IsChoice(rates, avgPut, Choice(rates, avgPut))
  {
    LargestWithinIsLargest(rates, Affordable(avgPut));
    SmallestIsFallback(rates);
    forall x
      ensures Fits(rates, avgPut, x) <==> x in rates && x > 0 && x <= Affordable(avgPut)
    {
      if x > 0 {
        AffordableIsTwoThirds(avgPut, x);
      }
    }
  }

  lemma ChoiceIsUnique(rates: seq<int>, avgPut: int, r: int, r': int)
    requires IsChoice(rates, avgPut, r) && IsChoice(rates, avgPut, r')
    ensures r == r'
  {
  }

  // More throughput never lowers the rate.
  lemma ChoiceIsMonotone(rates: seq<int>, avgPut: int, avgPut': int, r: int, r': int)
    requires avgPut <= avgPut'
    requires IsChoice(rates, avgPut, r) && IsChoice(rates, avgPut', r')
    ensures r <= r'
  {
    if Fits(rates, avgPut, r) {
      assert Fits(rates, avgPut', r);
    }
  }

  // The request names a listed rate exactly when something fits or the smallest listed
  // rate is at most 100: otherwise the proxy asks for a rate nobody offers.
  lemma ChoiceIsListedIff(rates: seq<int>, avgPut: int, r: int)
    requires IsChoice(rates, avgPut, r)
    ensures r in rates <==> (exists x :: Fits(rates, avgPut, x)) || exists x :: x in rates && x <= 100
  {
    if r in rates && !exists x :: Fits(rates, avgPut, x) {
      assert r <= 100;
    }
    if x :| x in rates && x <= 100 && !exists y :: Fits(rates, avgPut, y) {
      assert r <= x;
    }
  }

  // A fresh entry and a list of rates above 100: the proxy asks for rate 100.
  lemma UnlistedRateChosen(rates: seq<int>)
    requires rates == [200, 300]
    ensures Choice(rates, 0) == 100 && 100 !in rates
  {
    ChoiceIsChoice(rates, 0);
    assert forall x :: !Fits(rates, 0, x);
    assert rates[0] == 200 && rates[1] == 300;
  }
}
