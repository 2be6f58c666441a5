/** The Dutch-auction price: `current_price` decays linearly from the start
    quote to the minimum quote over the auction window, in integer arithmetic,
    and is clamped at both ends. */
module Pricing {
  import opened Prelude
  import opened AuctionRecord

  /** `current_price(auction, t)`. The product is taken in u128, where it
      always fits (`DecayFitsU128`); the plain i64 and u64 subtractions are
      taken to panic when they leave their range, as in a build with overflow
      checks enabled, and `None` stands for that panic. */
  function CurrentPrice(a: AuctionAccount, t: i64): Option<u64> {
    if t <= a.startTime then Some(a.startQuote)
    else if t >= a.endTime then Some(a.minQuote)
    else
      var elapsed := t - a.startTime;
      var totalDuration := a.endTime - a.startTime;
      if !IsI64(elapsed) || !IsI64(totalDuration) || a.startQuote < a.minQuote then None
      else
        var priceRange := a.startQuote - a.minQuote;
        var decay := (priceRange * elapsed) / totalDuration;
        var decayAsU64 := decay % U64_LIMIT;  // `decay as u64` truncates
        if decayAsU64 > a.startQuote then None
        else
          var current := a.startQuote - decayAsU64;
          Some(Max(current, a.minQuote))
  }

  /** The auctions on which the price computation cannot panic: the quotes
      are ordered and the window's length fits in i64. */
  predicate PriceWellFormed(a: AuctionAccount) {
    a.minQuote <= a.startQuote && a.endTime - a.startTime <= I64_MAX
  }

  /** Reference definition of the decayed price, free of division: before the
      window the start quote, after it the minimum quote, and inside it the
      price whose drop from the start quote is the largest `d` with
      `d * duration <= range * elapsed`. */
  ghost predicate IsDecayedPrice(a: AuctionAccount, t: int, p: int) {
    if t <= a.startTime then p == a.startQuote
    else if t >= a.endTime then p == a.minQuote
    else
      var drop := a.startQuote - p;
      var range := a.startQuote - a.minQuote;
      var elapsed := t - a.startTime;
      var duration := a.endTime - a.startTime;
      drop * duration <= range * elapsed < (drop + 1) * duration
  }

  // ---------------------------------------------------------------------------
  // Arithmetic helpers

  lemma MulLeft(r: int, x: int, y: int)
    requires r >= 0 && x <= y
    ensures r * x <= r * y
  {
  }

  lemma MulCancel(a: int, b: int, d: int)
    requires d > 0 && a * d < b * d
    ensures a < b
  {
    if a >= b {
      MulLeft(d, b, a);
    }
  }

  lemma MulBound(x: int, y: int, xMax: int, yMax: int)
    requires 0 <= x <= xMax && 0 <= y <= yMax
    ensures 0 <= x * y <= xMax * yMax
  {
    MulLeft(x, y, yMax);
    MulLeft(yMax, x, xMax);
  }

  lemma DivFloor(x: int, d: int)
    requires d > 0
    ensures (x / d) * d <= x < (x / d + 1) * d
  {
  }

  lemma DivMonotone(x: int, y: int, d: int)
    requires d > 0 && x <= y
    ensures x / d <= y / d
  {
    DivFloor(x, d);
    DivFloor(y, d);
    MulCancel(x / d, y / d + 1, d);
  }

  lemma MulDivCancel(r: int, d: int)
    requires d > 0
    ensures (r * d) / d == r
  {
    var q := (r * d) / d;
    DivFloor(r * d, d);
    MulCancel(q, r + 1, d);
    MulCancel(r, q + 1, d);
  }

  /** Inside the window the decay never exceeds the price range. */
  lemma DecayAtMostRange(range: int, elapsed: int, duration: int)
    requires range >= 0 && 0 < elapsed < duration
    ensures 0 <= (range * elapsed) / duration <= range
  {
    MulLeft(range, elapsed, duration);
    DivMonotone(range * elapsed, range * duration, duration);
    MulDivCancel(range, duration);
    DivMonotone(0, range * elapsed, duration);
  }

  // ---------------------------------------------------------------------------
  // Properties of current_price

  /** The u128 product `range * elapsed` never overflows, whatever the auction. */
  lemma DecayFitsU128(a: AuctionAccount, t: i64)
    requires a.startTime < t < a.endTime && a.minQuote <= a.startQuote && IsI64(t - a.startTime)
    ensures 0 <= (a.startQuote - a.minQuote) * (t - a.startTime) < U128_LIMIT
  {
    MulBound(a.startQuote - a.minQuote, t - a.startTime, U64_LIMIT - 1, I64_MAX);
  }

  /** On a well-formed auction the computation never panics, and its result is
      the reference price. */
  lemma {:induction false} PriceMeetsSpec(a: AuctionAccount, t: i64)
    requires PriceWellFormed(a)
    ensures CurrentPrice(a, t).Some?
    ensures IsDecayedPrice(a, t, CurrentPrice(a, t).value)
  {
    if a.startTime < t < a.endTime {
      var range := a.startQuote - a.minQuote;
      var elapsed := t - a.startTime;
      var duration := a.endTime - a.startTime;
      DecayAtMostRange(range, elapsed, duration);
      var decay := (range * elapsed) / duration;
      assert decay % U64_LIMIT == decay;
      DivFloor(range * elapsed, duration);
    }
  }

  /** The reference price is unique, so it determines `CurrentPrice`. */
  lemma DecayedPriceUnique(a: AuctionAccount, t: int, p: int, q: int)
    requires IsDecayedPrice(a, t, p) && IsDecayedPrice(a, t, q)
    ensures p == q
  {
    if a.startTime < t < a.endTime {
      var range := a.startQuote - a.minQuote;
      var elapsed := t - a.startTime;
      var duration := a.endTime - a.startTime;
      var dp := a.startQuote - p;
      var dq := a.startQuote - q;
      MulCancel(dp, dq + 1, duration);
      MulCancel(dq, dp + 1, duration);
    }
  }

  /** Inside the window the price is the start quote less the floored linear
      decay: neither the truncating cast nor the clamp at the minimum changes it. */
  lemma PriceInsideWindow(a: AuctionAccount, t: i64)
    requires PriceWellFormed(a) && a.startTime < t < a.endTime
    ensures CurrentPrice(a, t)
         == Some(a.startQuote - ((a.startQuote - a.minQuote) * (t - a.startTime)) / (a.endTime - a.startTime))
  {
    DecayAtMostRange(a.startQuote - a.minQuote, t - a.startTime, a.endTime - a.startTime);
  }

  /** The price never leaves `[minQuote, startQuote]`. */
  lemma PriceWithinQuotes(a: AuctionAccount, t: i64)
    requires PriceWellFormed(a)
    ensures CurrentPrice(a, t).Some?
    ensures a.minQuote <= CurrentPrice(a, t).value <= a.startQuote
  {
    PriceMeetsSpec(a, t);
    if a.startTime < t < a.endTime {
      DecayAtMostRange(a.startQuote - a.minQuote, t - a.startTime, a.endTime - a.startTime);
    }
  }

  /** The price never rises as time passes. */
  lemma PriceNonIncreasing(a: AuctionAccount, t1: i64, t2: i64)
    requires PriceWellFormed(a) && t1 <= t2
    ensures CurrentPrice(a, t1).Some? && CurrentPrice(a, t2).Some?
    ensures CurrentPrice(a, t1).value >= CurrentPrice(a, t2).value
  {
    PriceWithinQuotes(a, t1);
    PriceWithinQuotes(a, t2);
    if a.startTime < t1 && t2 < a.endTime {
      var range := a.startQuote - a.minQuote;
      var duration := a.endTime - a.startTime;
      PriceInsideWindow(a, t1);
      PriceInsideWindow(a, t2);
      MulLeft(range, t1 - a.startTime, t2 - a.startTime);
      DivMonotone(range * (t1 - a.startTime), range * (t2 - a.startTime), duration);
    }
  }

  /** A 5,500,000 to 5,000,000 auction over 120 seconds is at 5,250,000 half-way. */
  lemma PriceAtMidpoint(a: AuctionAccount)
    requires a.startQuote == 5_500_000 && a.minQuote == 5_000_000
    requires a.endTime == a.startTime + 120 && IsI64(a.startTime + 60)
    ensures CurrentPrice(a, a.startTime + 60) == Some(5_250_000)
  {
    PriceInsideWindow(a, a.startTime + 60);
  }
}
