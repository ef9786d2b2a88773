/**
 * The idle-eviction timer of the cached schema-read transaction.
 *
 * The timer sleeps, wakes, and compares the time since the last touch of the
 * transaction (lastSchemaReadTxTime) with a fixed wait time. That comparison
 * is WakeUp. RunEvictionLoop drives it over a timeline of touches, with the
 * clock advanced by exactly the delay asked for at each sleep.
 */
module IdleEviction {

  /** SCHEMA_TYPE_TX_WAIT_TIME: 16 seconds, in milliseconds. */
  const WaitTimeMillis: int := 16000

  /** What the timer does when it wakes: evict the transaction and stop, or
      sleep again for a delay. */
  datatype Wake = Evict | Wait(delayMillis: int)

  /** One wake-up of the timer at `now`, the last touch having been at `lastTouch`. */
  function WakeUp(now: int, lastTouch: int): (w: Wake)
    ensures w.Evict? <==> now - lastTouch >= WaitTimeMillis
    // the next wake-up is the wait time after the last touch, not after now
    ensures w.Wait? ==> now + w.delayMillis == lastTouch + WaitTimeMillis
    ensures w.Wait? && lastTouch <= now ==> 0 < w.delayMillis <= WaitTimeMillis
  {
    var sinceLastTx := now - lastTouch;
    if sinceLastTx >= WaitTimeMillis then Evict else Wait(WaitTimeMillis - sinceLastTx)
  }

  /** A timeline of touches, as the clock orders them. */
  predicate Sorted(touches: seq<int>) {
    forall i, j :: 0 <= i < j < |touches| ==> touches[i] <= touches[j]
  }

  /** The value of lastSchemaReadTxTime at time t: the latest touch at or before t. */
  function LastTouchBy(touches: seq<int>, t: int): (last: int)
    requires |touches| > 0 && Sorted(touches) && touches[0] <= t
    ensures last <= t
    ensures exists i :: 0 <= i < |touches| && touches[i] == last
    ensures forall i :: 0 <= i < |touches| && touches[i] <= t ==> touches[i] <= last
  {
    var n := |touches|;
    if n == 1 || touches[n - 1] <= t then touches[n - 1]
    else LastTouchBy(touches[..n - 1], t)
  }

  lemma LastTouchByMonotone(touches: seq<int>, t1: int, t2: int)
    requires |touches| > 0 && Sorted(touches) && touches[0] <= t1 <= t2
    ensures LastTouchBy(touches, t1) <= LastTouchBy(touches, t2)
  {
    var i :| 0 <= i < |touches| && touches[i] == LastTouchBy(touches, t1);
  }

  lemma LastTouchByBelowLast(touches: seq<int>, t: int)
    requires |touches| > 0 && Sorted(touches) && touches[0] <= t
    ensures LastTouchBy(touches, t) <= touches[|touches| - 1]
  {
    var i :| 0 <= i < |touches| && touches[i] == LastTouchBy(touches, t);
    if i < |touches| - 1 {
      assert touches[i] <= touches[|touches| - 1];
    }
  }

  /**
   * The timer armed at the first touch, waking only as WakeUp says. It fires
   * exactly the wait time after the last touch before it, and at no earlier
   * moment had the transaction been idle for the wait time.
   */
  method RunEvictionLoop(touches: seq<int>) returns (firedAt: int)
    requires |touches| > 0 && Sorted(touches)
    ensures touches[0] <= firedAt
    ensures firedAt == LastTouchBy(touches, firedAt) + WaitTimeMillis
    ensures forall t :: touches[0] <= t < firedAt ==> t - LastTouchBy(touches, t) < WaitTimeMillis
  {
    var now := touches[0];
    var duration := WaitTimeMillis;
    while true
      invariant touches[0] <= now && 0 < duration
      invariant now + duration == LastTouchBy(touches, now) + WaitTimeMillis
      invariant now + duration <= touches[|touches| - 1] + WaitTimeMillis
      invariant forall t :: touches[0] <= t < now + duration ==> t - LastTouchBy(touches, t) < WaitTimeMillis
      decreases touches[|touches| - 1] + WaitTimeMillis - now
    {
      var before := now;
      now := now + duration;
      LastTouchByMonotone(touches, before, now);
      var last := LastTouchBy(touches, now);
      match WakeUp(now, last)
      case Evict =>
        firedAt := now;
        return;
      case Wait(d) =>
        LastTouchByBelowLast(touches, now);
        forall t | now <= t < now + d
          ensures t - LastTouchBy(touches, t) < WaitTimeMillis
        {
          LastTouchByMonotone(touches, now, t);
        }
        duration := d;
    }
  }
}
