/**
  Schedule: the tick-decision rules. One clock sample is read per loop
  iteration; the rule decides whether the bell rings and whether the hourly
  quote follows. v1.0, v1 and v1.1 share one stateless rule on the minute;
  v1.2 adds a condition on the second and the `last_hour` de-duplication.
 */
module Schedule {

  /** One clock sample: `datetime.now()` or `time.localtime()`. */
  datatype Time = Time(hour: int, minute: int, second: int)

  /** The ranges the clock delivers (`tm_sec` may reach 61). */
  predicate ValidTime(t: Time) {
    0 <= t.hour < 24 && 0 <= t.minute < 60 && 0 <= t.second <= 61
  }

  /** The clock sample of one loop iteration together with the index that
      `random.choice` would draw in it. */
  datatype Tick = Tick(time: Time, pick: nat)

  /** What one tick fires. */
  datatype Fires = Fires(tone: bool, quote: bool)

  /** The rule of v1.0, v1 and v1.1: ring when the minute is a multiple of 15,
      and, inside that branch, read a quote when the minute is 0. The quote
      therefore fires exactly at the top of the hour and never without the
      tone. Python's `%` and Dafny's agree here, since the divisor is positive. */
  function MinuteRule(t: Time): (f: Fires)
    ensures f.tone <==> t.minute % 15 == 0
    ensures f.quote <==> t.minute == 0
    ensures f.quote ==> f.tone
  {
    if t.minute % 15 == 0 then Fires(true, t.minute == 0) else Fires(false, false)
  }

  /** The stateless rule looks at the minute only. */
  lemma MinuteRuleStateless(a: Time, b: Time)
    requires a.minute == b.minute
    ensures MinuteRule(a) == MinuteRule(b)
  {
  }

  /** `last_hour` before any quote: no clock hour equals it. */
  const NoHour: int := -1

  /** The decision of v1.2 with the new value of `last_hour`. */
  datatype Decision = Decision(tone: bool, quote: bool, lastHour: int)

  /** The rule of v1.2: ring when the minute is a multiple of 15 and the second
      is 0; inside that branch read a quote when the minute is 0 and the hour
      differs from `last_hour`, and remember the hour. */
  function DedupRule(t: Time, lastHour: int): (d: Decision)
    ensures d.tone <==> t.minute % 15 == 0 && t.second == 0
    ensures d.quote <==> t.minute == 0 && t.second == 0 && t.hour != lastHour
    ensures d.quote ==> d.tone
    ensures d.lastHour == if d.quote then t.hour else lastHour
  {
    if t.minute % 15 == 0 && t.second == 0 then
      if t.minute == 0 && t.hour != lastHour then Decision(true, true, t.hour)
      else Decision(true, false, lastHour)
    else Decision(false, false, lastHour)
  }

  /** After a quote fires for some hour, the next sample, if it is of the
      same hour, does not fire one again, whatever else it shows. */
  lemma DedupRuleNoRepeat(a: Time, b: Time, lastHour: int)
    requires DedupRule(a, lastHour).quote && b.hour == a.hour
    ensures !DedupRule(b, DedupRule(a, lastHour).lastHour).quote
    ensures DedupRule(b, DedupRule(a, lastHour).lastHour).lastHour == a.hour
  {
  }

  /** The number of loop-condition checks that find the run flag set before
      the first one that finds it cleared: the ticks a `while running` loop
      evaluates when `observed[k]` is the value of `running` at check k. */
  function FirstStop(observed: seq<bool>): (n: nat)
    ensures n <= |observed|
    ensures forall k :: 0 <= k < n ==> observed[k]
    ensures n < |observed| ==> !observed[n]
  {
    if observed == [] || !observed[0] then 0 else 1 + FirstStop(observed[1..])
  }

  /** Only the checks up to the first that finds the flag cleared matter. */
  lemma FirstStopPrefix(observed: seq<bool>, k: nat)
    requires k < |observed| && !observed[k]
    ensures FirstStop(observed) <= k
    ensures FirstStop(observed[..k + 1]) == FirstStop(observed)
  {
    var p := observed[..k + 1];
    assert !p[k];
    assert forall j :: 0 <= j < |p| ==> p[j] == observed[j];
  }
}
