/**
  BellV11: `awareness_bell` of awareness-bell-v1.1.py, the guarded tick body,
  with speech in its own thread, inside a `while running` loop. `observed[k]` is the value of
  the global `running` flag at the k-th check of the loop condition; the
  button handlers of module Control are what set and clear it, from another
  thread that this sequential model does not represent.
 */
module BellV11 {
  import opened Events
  import opened Schedule
  import opened GuardedBell

  /** The loop: ticks are evaluated while the flag is found set, and the log
      is Run over exactly those ticks. */
  method AwarenessBell(ticks: seq<GuardedTick>, observed: seq<bool>, src: Source) returns (log: seq<Event>)
    requires |observed| == |ticks| && PicksFit(ticks, src)
    ensures log == Run(ticks, src, InThread, FirstStop(observed))
  {
    log := [];
    var i := 0;
    while i < |ticks| && observed[i]
      invariant 0 <= i <= |ticks|
      invariant i <= FirstStop(observed)
      invariant log == Run(ticks, src, InThread, i)
    {
      log := Evaluate(log, ticks[i], src, InThread);
      assert log == Run(ticks, src, InThread, i + 1);
      i := i + 1;
    }
  }

  /** The log of a run whose flag checks read `observed`. */
  function Output(ticks: seq<GuardedTick>, observed: seq<bool>, src: Source): (r: seq<Event>)
    requires |observed| == |ticks| && PicksFit(ticks, src)
    ensures |r| <= 2 * |ticks|
    ensures |ticks| == 0 || !observed[0] ==> r == []
  {
    Run(ticks, src, InThread, FirstStop(observed))
  }

  /** Once a check finds the flag cleared, nothing after it matters: two runs
      that agree up to that check, in their samples and in their flag
      readings, log exactly the same, whatever the clock or the flag does
      later. */
  lemma NoEventsAfterStop(ticks: seq<GuardedTick>, observed: seq<bool>,
                          ticks': seq<GuardedTick>, observed': seq<bool>, src: Source, k: nat)
    requires |observed| == |ticks| && PicksFit(ticks, src)
    requires |observed'| == |ticks'| && PicksFit(ticks', src)
    requires k < |ticks| && k < |ticks'| && !observed[k]
    requires ticks[..k] == ticks'[..k] && observed[..k + 1] == observed'[..k + 1]
    ensures Output(ticks, observed, src) == Output(ticks', observed', src)
  {
    assert !observed'[k] by { assert observed'[k] == observed'[..k + 1][k]; }
    FirstStopPrefix(observed, k);
    FirstStopPrefix(observed', k);
    var n := FirstStop(observed);
    assert ticks[..n] == ticks'[..n] by {
      assert ticks[..n] == ticks[..k][..n];
      assert ticks'[..n] == ticks'[..k][..n];
    }
    RunReadsPrefix(ticks, ticks', src, InThread, n);
  }

  /** Speaking happens in a thread of its own whose handler catches every
      error of the speech engine, so whether speech fails never changes the
      log of the loop. */
  lemma {:induction false} SpeechFailureInvisible(ticks: seq<GuardedTick>, ticks': seq<GuardedTick>, src: Source, n: nat)
    requires PicksFit(ticks, src) && PicksFit(ticks', src)
    requires n <= |ticks| && |ticks'| == |ticks|
    requires forall k :: 0 <= k < |ticks| ==> SameButSpeech(ticks[k], ticks'[k])
    ensures Run(ticks, src, InThread, n) == Run(ticks', src, InThread, n)
  {
    if n > 0 {
      SpeechFailureInvisible(ticks, ticks', src, n - 1);
      TickIgnoresSpeech(ticks[n - 1], ticks'[n - 1], src);
    }
  }

  /** Two ticks that differ at most in whether speech fails. */
  predicate SameButSpeech(t: GuardedTick, t': GuardedTick) {
    t.time == t'.time && t.toneFails == t'.toneFails && t.pick == t'.pick
  }

  lemma TickIgnoresSpeech(t: GuardedTick, t': GuardedTick, src: Source)
    requires (t.time.minute == 0 ==> PickFits(src, t.pick)) && SameButSpeech(t, t')
    ensures TickEvents(t, src, InThread) == TickEvents(t', src, InThread)
  {
    if t.time.minute == 0 {
      assert ReadQuote(src, t.pick, InThread, t.speechFails) == ReadQuote(src, t'.pick, InThread, t'.speechFails);
    }
  }

  /** No hourly de-duplication: two samples that both read 09:00 speak twice.
      Each iteration samples the clock, rings, and then sleeps a minute, so two
      consecutive samples are normally a minute or more apart; two 09:00
      samples arise when the clock is set back (the end of daylight saving
      time, a manual change), or when Stop and then Start are pressed during
      the sleep, since the old loop thread then finds `running` set again and
      carries on beside the new one. */
  lemma SameMinuteTwiceSpeaksTwice(src: Source, pick: nat, speechFails: bool)
    requires PickFits(src, pick)
    ensures var t := GuardedTick(Time(9, 0, 0), false, speechFails, pick);
            var q := ReadQuote(src, pick, InThread, speechFails);
            PicksFit([t, t], src)
            && Output([t, t], [true, true], src) == [Tone, q, Tone, q]
  {
    var t := GuardedTick(Time(9, 0, 0), false, speechFails, pick);
    var q := ReadQuote(src, pick, InThread, speechFails);
    var ticks := [t, t];
    assert PicksFit(ticks, src);
    var es := TickEvents(t, src, InThread);
    assert es == [Tone, q] by {
      assert |es| == 2 && es[0] == Tone && es[1] == q;
    }
    assert FirstStop([true, true]) == 2 by {
      assert [true, true][1..] == [true];
      assert [true][1..] == [];
    }
    assert Run(ticks, src, InThread, 1) == [] + es;
    assert Run(ticks, src, InThread, 2) == es + es;
  }
}
