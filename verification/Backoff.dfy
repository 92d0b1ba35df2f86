/** The reconnect loops of the two stream clients. */
module Backoff {

  const INITIAL: nat := 500
  const MAXIMUM: nat := 30_000

  function Pow2(n: nat): nat { if n == 0 then 1 else 2 * Pow2(n - 1) }

  /** Milliseconds waited before retry n. */
  function Wait(n: nat): nat {
    if INITIAL * Pow2(n) < MAXIMUM then INITIAL * Pow2(n) else MAXIMUM
  }

  /** The most a doubled wait can reach before it is cut back. */
  const PEAK: nat := 60_000

  lemma {:induction false} WaitGrows(n: nat)
    ensures Wait(n + 1) == (if 2 * Wait(n) < MAXIMUM then 2 * Wait(n) else MAXIMUM)
    ensures Pow2(n) >= 1 && 2 * Wait(n) <= PEAK
  {
    if n > 0 { WaitGrows(n - 1); }
  }

  /** The ext-auth client's loop over its first n retries; `peak` is the largest value its
      backoff variable or the doubled value ever had. */
  method ExtAuthWaits(n: nat) returns (waits: seq<nat>, peak: nat)
    ensures |waits| == n && forall k :: 0 <= k < n ==> waits[k] == Wait(k)
    ensures peak <= PEAK && forall k :: 0 <= k < n ==> 2 * waits[k] <= peak
  {
    var backoff := 500;
    waits, peak := [], backoff;
    for i := 0 to n
      invariant backoff == Wait(i)
      invariant |waits| == i && forall k :: 0 <= k < i ==> waits[k] == Wait(k)
      invariant peak <= PEAK && forall k :: 0 <= k < i ==> 2 * waits[k] <= peak
    {
      waits := waits + [backoff];
      WaitGrows(i);
      var doubled := backoff * 2;
      if doubled > peak {
        peak := doubled;
      }
      backoff := if doubled < 30_000 then doubled else 30_000;
    }
  }

  /** The TTS client's loop, whose update is written differently, waits the same times; it does
      not double a backoff that has reached the maximum. */
  method TtsWaits(n: nat) returns (waits: seq<nat>, peak: nat)
    ensures |waits| == n && forall k :: 0 <= k < n ==> waits[k] == Wait(k)
    ensures peak <= PEAK && forall k :: 0 <= k < n ==> waits[k] <= peak && (waits[k] < MAXIMUM ==> 2 * waits[k] <= peak)
  {
    var backoff := 500;
    waits, peak := [], backoff;
    for i := 0 to n
      invariant backoff == Wait(i) && backoff <= peak
      invariant |waits| == i && forall k :: 0 <= k < i ==> waits[k] == Wait(k)
      invariant peak <= PEAK && forall k :: 0 <= k < i ==> waits[k] <= peak && (waits[k] < MAXIMUM ==> 2 * waits[k] <= peak)
    {
      waits := waits + [backoff];
      WaitGrows(i);
      if backoff < 30_000 {
        backoff := backoff * 2;
        if backoff > peak {
          peak := backoff;
        }
        if backoff > 30_000 {
          backoff := 30_000;
        }
      }
    }
  }
}
