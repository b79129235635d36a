/** Request pricing (internal/catalog/pricing.go): integer micro-dollars, each
    component rounded half-up, compared with the exact rational price. */
module Pricing {
  import opened Options

  const PER_M: int := 1_000_000

  datatype Rates = Rates(known: bool, input: int, output: int, cacheRead: int, cacheWrite: int)
  datatype Tokens = Tokens(input: int, output: int, cacheRead: int, cacheWrite: int,
                           cacheWrite5m: int, cacheWrite1h: int)

  function RateMicros(perMTok: int, tokens: int): int {
    if tokens <= 0 || perMTok <= 0 then 0 else (perMTok * tokens + PER_M / 2) / PER_M
  }

  function Plain(t: Tokens): int {
    t.cacheWrite - t.cacheWrite5m - t.cacheWrite1h
  }

  /** None for an unpriced model, which is not the same as a free one. */
  function Cost(p: Rates, t: Tokens): Option<int> {
    if !p.known then None
    else Some(RateMicros(p.input, t.input) + RateMicros(p.output, t.output)
              + RateMicros(p.cacheRead, t.cacheRead) + RateMicros(p.cacheWrite, Plain(t))
              + RateMicros(p.input * 1250 / 1000, t.cacheWrite5m)
              + RateMicros(p.input * 2000 / 1000, t.cacheWrite1h))
  }

  /** The exact price, in quarters of a millionth of a micro-dollar, so that the
      5-minute rate of 5/4 the input rate is whole. */
  function ExactQuarters(p: Rates, t: Tokens): int {
    4 * (p.input * t.input) + 4 * (p.output * t.output) + 4 * (p.cacheRead * t.cacheRead)
    + 4 * (p.cacheWrite * (t.cacheWrite - t.cacheWrite5m - t.cacheWrite1h))
    + 5 * (p.input * t.cacheWrite5m) + 8 * (p.input * t.cacheWrite1h)
  }

  predicate Nonnegative(p: Rates, t: Tokens) {
    && p.input >= 0 && p.output >= 0 && p.cacheRead >= 0 && p.cacheWrite >= 0
    && t.input >= 0 && t.output >= 0 && t.cacheRead >= 0
    && t.cacheWrite5m >= 0 && t.cacheWrite1h >= 0 && t.cacheWrite5m + t.cacheWrite1h <= t.cacheWrite
  }

  /** Half-up rounding: within half a micro-dollar of the product. */
  lemma Rounds(perMTok: int, tokens: int)
    requires perMTok >= 0 && tokens >= 0
    ensures -(PER_M / 2) <= PER_M * RateMicros(perMTok, tokens) - perMTok * tokens <= PER_M / 2
  {
    if perMTok > 0 && tokens > 0 {
      var x := perMTok * tokens;
      assert 0 <= (x + PER_M / 2) % PER_M < PER_M;
    } else {
      assert perMTok * tokens == 0;
    }
  }

  /** The 5-minute rate loses less than one micro-dollar per million tokens. */
  lemma FiveMinuteRate(input: int, tokens: int)
    requires input >= 0 && tokens >= 0
    ensures 0 <= 5 * (input * tokens) - 4 * ((input * 1250 / 1000) * tokens) <= 4 * tokens
  {
    var r := input * 1250 / 1000;
    var lost := 5 * input - 4 * r;
    assert 0 <= lost <= 4;
    assert 5 * (input * tokens) - 4 * (r * tokens) == lost * tokens;
    assert 0 <= lost * tokens <= 4 * tokens by { MulBound(lost, tokens); }
  }

  lemma MulBound(a: int, n: int)
    requires 0 <= a <= 4 && n >= 0
    ensures 0 <= a * n <= 4 * n
  {
    assert a == 0 || a == 1 || a == 2 || a == 3 || a == 4;
  }

  /** A model without a price has no cost, which is not a cost of nothing. */
  lemma UnpricedHasNoCost(p: Rates, t: Tokens)
    ensures Cost(p, t) == None <==> !p.known
  {
  }

  /** The priced cost is within 3 + cacheWrite5m / 10^6 micro-dollars of exact. */
  lemma CostIsClose(p: Rates, t: Tokens)
    requires p.known && Nonnegative(p, t)
    ensures var e := 4 * PER_M * Cost(p, t).value - ExactQuarters(p, t);
            -(12 * PER_M + 4 * t.cacheWrite5m) <= e <= 12 * PER_M
  {
    var plain := t.cacheWrite - t.cacheWrite5m - t.cacheWrite1h;
    var five, hour := p.input * 1250 / 1000, p.input * 2000 / 1000;
    Rounds(p.input, t.input);
    Rounds(p.output, t.output);
    Rounds(p.cacheRead, t.cacheRead);
    Rounds(p.cacheWrite, plain);
    Rounds(five, t.cacheWrite5m);
    Rounds(hour, t.cacheWrite1h);
    FiveMinuteRate(p.input, t.cacheWrite5m);
    TwiceRate(p.input, t.cacheWrite1h);
    assert Plain(t) == plain;
    hide RateMicros, Nonnegative;
    SixParts(RateMicros(p.input, t.input), p.input * t.input, RateMicros(p.output, t.output), p.output * t.output,
             RateMicros(p.cacheRead, t.cacheRead), p.cacheRead * t.cacheRead,
             RateMicros(p.cacheWrite, plain), p.cacheWrite * plain,
             RateMicros(five, t.cacheWrite5m), five * t.cacheWrite5m, p.input * t.cacheWrite5m,
             RateMicros(hour, t.cacheWrite1h), p.input * t.cacheWrite1h, t.cacheWrite5m);
  }

  lemma TwiceRate(input: int, tokens: int)
    ensures input * 2000 / 1000 * tokens == 2 * (input * tokens)
  {
    assert input * 2000 / 1000 == 2 * input;
  }

  /** Six half-up roundings, and what the 5-minute rate lost. */
  lemma SixParts(r1: int, x1: int, r2: int, x2: int, r3: int, x3: int, r4: int, x4: int, r5: int, x5: int, y5: int,
                 r6: int, y6: int, n: int)
    requires -(PER_M / 2) <= PER_M * r1 - x1 <= PER_M / 2 && -(PER_M / 2) <= PER_M * r2 - x2 <= PER_M / 2
    requires -(PER_M / 2) <= PER_M * r3 - x3 <= PER_M / 2 && -(PER_M / 2) <= PER_M * r4 - x4 <= PER_M / 2
    requires -(PER_M / 2) <= PER_M * r5 - x5 <= PER_M / 2 && -(PER_M / 2) <= PER_M * r6 - 2 * y6 <= PER_M / 2
    requires 0 <= 5 * y5 - 4 * x5 <= 4 * n
    ensures var e := 4 * PER_M * (r1 + r2 + r3 + r4 + r5 + r6) - (4 * x1 + 4 * x2 + 4 * x3 + 4 * x4 + 5 * y5 + 8 * y6);
            -(12 * PER_M + 4 * n) <= e <= 12 * PER_M
  {
  }
}
