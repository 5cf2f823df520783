/**
 The capped exponential backoff that serial.go, websocket.go and ble.go each carry in their
 reconnect loops: start at one second, double after every failed attempt, never beyond thirty.
 */
module Backoff {
  const FIRST_DELAY: nat := 1
  const MAX_DELAY: nat := 30

  /** The assignment at the foot of each loop. */
  function NextDelay(delay: nat): nat {
    if 2 * delay > MAX_DELAY then MAX_DELAY else 2 * delay
  }

  function Pow2(k: nat): nat {
    if k == 0 then 1 else 2 * Pow2(k - 1)
  }

  /** The k-th sleep, counted from 0, in closed form. */
  function DelayAt(k: nat): nat {
    if Pow2(k) > MAX_DELAY then MAX_DELAY else Pow2(k)
  }

  function TotalDelay(slept: seq<nat>): nat {
    if |slept| == 0 then 0 else TotalDelay(slept[..|slept| - 1]) + slept[|slept| - 1]
  }

  lemma {:induction false} Pow2Grows(k: nat)
    ensures Pow2(k) >= 1 && (k >= 5 ==> Pow2(k) >= 32)
  {
    if k > 5 {
      Pow2Grows(k - 1);
    } else {
      assert Pow2(1) == 2 && Pow2(2) == 4 && Pow2(3) == 8 && Pow2(4) == 16 && Pow2(5) == 32;
    }
  }

  /** Doubling with a cap computes the closed form step by step. */
  lemma NextDelayIsNext(k: nat)
    ensures NextDelay(DelayAt(k)) == DelayAt(k + 1)
  {
    Pow2Grows(k);
  }

  /** A loop that has slept `slept` and holds `delay` is on schedule. */
  ghost predicate OnSchedule(delay: nat, slept: seq<nat>) {
    delay == DelayAt(|slept|) && forall k :: 0 <= k < |slept| ==> slept[k] == DelayAt(k)
  }

  lemma SleepStaysOnSchedule(delay: nat, slept: seq<nat>)
    requires OnSchedule(delay, slept)
    ensures OnSchedule(NextDelay(delay), slept + [delay])
  {
    NextDelayIsNext(|slept|);
  }

  /** After n sleeps a loop on schedule has waited 2^n - 1 seconds, or 31 + 30(n - 5) beyond five. */
  lemma {:induction false} TotalOnSchedule(slept: seq<nat>)
    requires forall k :: 0 <= k < |slept| ==> slept[k] == DelayAt(k)
    ensures TotalDelay(slept) == if |slept| <= 5 then Pow2(|slept|) - 1 else 31 + 30 * (|slept| - 5)
  {
    if |slept| > 0 {
      var n := |slept| - 1;
      TotalOnSchedule(slept[..n]);
      Pow2Grows(n);
      assert slept[n] == DelayAt(n);
    }
  }
}
