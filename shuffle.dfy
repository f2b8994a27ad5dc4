/** Per-hop traffic shaping: the pass-through policy and the random padding and delay policy
    (src/shuffle.js). The random numbers the source draws from the operating system are
    oracle values that the functions reduce into range. */
module Shuffle {
  import opened Wrappers
  import opened Bytes

  datatype ShuffleResult = ShuffleResult(payload: Bytes, delayMs: int, paddingBytes: int)

  /** The random choices of one `apply`: raw draws for the padding length and the delay, and
      the padding bytes themselves. */
  datatype ShuffleDraw = ShuffleDraw(padding: nat, delay: nat, noise: nat -> Byte)

  /** randomInt: the bounds are put in order first; equal bounds give that value without a
      draw, otherwise the draw is reduced into the closed range [lower, upper]. */
  function RandomInt(min: int, max: int, draw: nat): (r: int)
    ensures (if min <= max then min else max) <= r <= (if min <= max then max else min)
    ensures min == max ==> r == min
  {
    var upper := if min <= max then max else min;
    var lower := if min <= max then min else max;
    if upper == lower then upper
    else lower + draw % (upper - lower + 1)
  }

  /** Every value of the range is the outcome of some draw. */
  lemma RandomIntReachesRange(min: int, max: int, v: int)
    requires (if min <= max then min else max) <= v <= (if min <= max then max else min)
    ensures RandomInt(min, max, v - (if min <= max then min else max)) == v
  {
  }

  /** The constructor options of BasicShufflePolicy; None marks an absent property. */
  datatype ShuffleOptions = ShuffleOptions(minPadding: Option<nat>, maxPadding: Option<nat>, maxDelayMs: Option<nat>)

  datatype ShufflePolicy =
    | NoShufflePolicy
    | BasicShufflePolicy(minPadding: nat, maxPadding: nat, maxDelayMs: nat)
  {
    /** apply: the payload followed by `paddingBytes` random bytes, with a delay. */
    function Apply(payload: Bytes, d: ShuffleDraw): (r: ShuffleResult)
      ensures this.NoShufflePolicy? ==> r == ShuffleResult(payload, 0, 0)
      ensures 0 <= r.paddingBytes && |r.payload| == |payload| + r.paddingBytes
      ensures r.payload[..|payload|] == payload
      ensures this.BasicShufflePolicy? ==>
        RandomInt(minPadding, maxPadding, d.padding) == r.paddingBytes
        && (if minPadding <= maxPadding then minPadding else maxPadding) <= r.paddingBytes
        && r.paddingBytes <= (if minPadding <= maxPadding then maxPadding else minPadding)
        && 0 <= r.delayMs <= maxDelayMs
        && r.payload[|payload|..] == seq(r.paddingBytes, i requires 0 <= i => d.noise(i))
    {
      match this
      case NoShufflePolicy => ShuffleResult(payload, 0, 0)
      case BasicShufflePolicy(lo, hi, maxDelay) =>
        var paddingBytes := RandomInt(lo, hi, d.padding);
        var delayMs := RandomInt(0, maxDelay, d.delay);
        var padding := if paddingBytes != 0 then seq(paddingBytes, i requires 0 <= i => d.noise(i)) else [];
        ShuffleResult(payload + padding, delayMs, paddingBytes)
    }
  }

  /** The BasicShufflePolicy constructor: an absent or zero option falls back to its default
      (0, 32 and 0), so an explicit zero `maxPadding` also means 32. */
  function NewBasicShufflePolicy(opts: ShuffleOptions): (p: ShufflePolicy)
    ensures p.BasicShufflePolicy?
    ensures p.minPadding == (if opts.minPadding.Some? then opts.minPadding.value else 0)
    ensures p.maxPadding == (if opts.maxPadding.Some? && opts.maxPadding.value != 0 then opts.maxPadding.value else 32)
    ensures p.maxDelayMs == (if opts.maxDelayMs.Some? then opts.maxDelayMs.value else 0)
  {
    BasicShufflePolicy(
      if opts.minPadding.Some? && opts.minPadding.value != 0 then opts.minPadding.value else 0,
      if opts.maxPadding.Some? && opts.maxPadding.value != 0 then opts.maxPadding.value else 32,
      if opts.maxDelayMs.Some? && opts.maxDelayMs.value != 0 then opts.maxDelayMs.value else 0)
  }

  /** With the default options a basic policy pads by 0 to 32 bytes and never delays. */
  lemma DefaultPolicyNeverDelays(payload: Bytes, d: ShuffleDraw)
    ensures var r := NewBasicShufflePolicy(ShuffleOptions(None, None, None)).Apply(payload, d);
      r.delayMs == 0 && 0 <= r.paddingBytes <= 32
  {
  }
}
