/**
  BellV12: `awareness_bell` of awareness-bell-v1.2.py. A `while running` loop
  polls the clock every second; at a quarter hour on second 0 it rings the
  bell, and at the top of an hour it has not yet handled (tracked in the local
  `last_hour`, initially -1) it also draws, speaks and displays a quote.
  Neither the bell nor the quote selection is guarded, so an empty quote list
  is ruled out by the precondition instead.
 */
module BellV12 {
  import opened Text
  import opened Quotes
  import opened Events
  import opened Schedule

  /** `random.choice` raises on an empty list; every tick that can reach the
      choice (top of the hour, second 0) needs an index into the filtered
      paragraphs. */
  predicate PicksFit(ticks: seq<Tick>, paras: seq<string>) {
    forall k :: 0 <= k < |ticks| && ticks[k].time.minute == 0 && ticks[k].time.second == 0 ==>
      ticks[k].pick < |NonBlank(paras)|
  }

  /** The bell loop's state: the log so far and `last_hour`. */
  datatype State = State(log: seq<Event>, lastHour: int)

  /** `get_random_quote`, `read_aloud` and `display_quote`: the drawn quote,
      spoken and shown, non-empty and without surrounding whitespace. */
  function HourlyQuote(paras: seq<string>, pick: nat): (e: Event)
    requires pick < |NonBlank(paras)|
    ensures e.Quote? && e.text != [] && Trimmed(e.text)
    ensures exists p :: p in paras && Strip(p) == e.text
  {
    Quote(ChooseQuote(paras, pick))
  }

  /** One loop iteration, as DedupRule decides it: it only appends to the
      log, at most a tone and a quote, and `last_hour` moves only to the hour
      of this sample, and only when a quote is spoken. */
  function Step(st: State, t: Tick, paras: seq<string>): (r: State)
    requires t.time.minute == 0 && t.time.second == 0 ==> t.pick < |NonBlank(paras)|
    ensures st.log <= r.log && |r.log| <= |st.log| + 2
    ensures r.lastHour != st.lastHour ==> r.lastHour == t.time.hour && |r.log| == |st.log| + 2
  {
    var d := DedupRule(t.time, st.lastHour);
    State(st.log + (if d.tone then [Tone] else []) + (if d.quote then [HourlyQuote(paras, t.pick)] else []),
          d.lastHour)
  }

  /** The state after the first n iterations, from `last_hour = -1`. */
  function Run(ticks: seq<Tick>, paras: seq<string>, n: nat): (r: State)
    requires n <= |ticks| && PicksFit(ticks, paras)
    ensures |r.log| <= 2 * n
  {
    if n == 0 then State([], NoHour) else Step(Run(ticks, paras, n - 1), ticks[n - 1], paras)
  }

  /** The loop: ticks are evaluated while the flag is found set; the log is
      that of Run over exactly those ticks. */
  method AwarenessBell(ticks: seq<Tick>, observed: seq<bool>, paras: seq<string>) returns (log: seq<Event>)
    requires |observed| == |ticks| && PicksFit(ticks, paras)
    ensures log == Run(ticks, paras, FirstStop(observed)).log
  {
    log := [];
    var lastHour := NoHour;
    var i := 0;
    while i < |ticks| && observed[i]
      invariant 0 <= i <= |ticks|
      invariant i <= FirstStop(observed)
      invariant State(log, lastHour) == Run(ticks, paras, i)
    {
      var now := ticks[i].time;
      if now.minute % 15 == 0 && now.second == 0 {
        log := log + [Tone];
        if now.minute == 0 && now.hour != lastHour {
          lastHour := now.hour;
          var quote := ChooseQuote(paras, ticks[i].pick);
          log := log + [Quote(quote)];
        }
      }
      i := i + 1;
    }
  }

  /** What one iteration appends: nothing, the bell, or the bell and then
      one quote; and how it moves the counts. */
  lemma StepEvents(st: State, t: Tick, paras: seq<string>)
    requires t.time.minute == 0 && t.time.second == 0 ==> t.pick < |NonBlank(paras)|
    ensures var d := DedupRule(t.time, st.lastHour);
            var st' := Step(st, t, paras);
            && st'.lastHour == d.lastHour
            && |st.log| <= |st'.log|
            && st'.log[..|st.log|] == st.log
            && QuoteCount(st'.log) == QuoteCount(st.log) + (if d.quote then 1 else 0)
            && ToneCount(st'.log) == ToneCount(st.log) + (if d.tone then 1 else 0)
            && QuotesFollowTones(st'.log[|st.log|..])
            && QuotesNonBlank(st'.log[|st.log|..])
  {
    var d := DedupRule(t.time, st.lastHour);
    var st' := Step(st, t, paras);
    var es := (if d.tone then [Tone] else []) + (if d.quote then [HourlyQuote(paras, t.pick)] else []);
    assert st'.log == st.log + es;
    assert st'.log[|st.log|..] == es;
    QuoteCountAppend(st.log, es);
    ToneCountAppend(st.log, es);
    if d.quote {
      assert es == [Tone] + [HourlyQuote(paras, t.pick)];
      QuoteCountAppend([Tone], [HourlyQuote(paras, t.pick)]);
      ToneCountAppend([Tone], [HourlyQuote(paras, t.pick)]);
    }
    assert QuotesFollowTones(es) by {
      forall k | 0 <= k < |es| ensures FollowsTone(es, k) {}
    }
  }

  /** Every quote is spoken right after a bell, and every quote is non-blank. */
  lemma {:induction false} RunWellOrdered(ticks: seq<Tick>, paras: seq<string>, n: nat)
    requires n <= |ticks| && PicksFit(ticks, paras)
    ensures QuotesFollowTones(Run(ticks, paras, n).log) && QuotesNonBlank(Run(ticks, paras, n).log)
  {
    if n > 0 {
      RunWellOrdered(ticks, paras, n - 1);
      var st := Run(ticks, paras, n - 1);
      var st' := Run(ticks, paras, n);
      StepEvents(st, ticks[n - 1], paras);
      var es := st'.log[|st.log|..];
      assert st'.log == st.log + es;
      assert es == [] || !IsQuoteStep(es[0]) by {
        if es != [] { assert FollowsTone(es, 0); }
      }
      FollowsAppend(st.log, es);
      QuotesNonBlankAppend(st.log, es);
    }
  }

  /** The number of ticks among the first n on a quarter hour at second 0. */
  function ToneTimes(ticks: seq<Tick>, n: nat): (c: nat)
    requires n <= |ticks|
    ensures c <= n
  {
    if n == 0 then 0
    else ToneTimes(ticks, n - 1) + (if ticks[n - 1].time.minute % 15 == 0 && ticks[n - 1].time.second == 0 then 1 else 0)
  }

  /** Tone cadence: one bell per quarter-hour tick on second 0, and no other. */
  lemma {:induction false} RunCadence(ticks: seq<Tick>, paras: seq<string>, n: nat)
    requires n <= |ticks| && PicksFit(ticks, paras)
    ensures ToneCount(Run(ticks, paras, n).log) == ToneTimes(ticks, n)
  {
    if n > 0 {
      RunCadence(ticks, paras, n - 1);
      StepEvents(Run(ticks, paras, n - 1), ticks[n - 1], paras);
    }
  }

  /** `last_hour` keeps the sentinel until the first quote, and a real hour
      afterwards: it is -1 exactly when no quote has been spoken yet. */
  lemma {:induction false} LastHourRecordsQuotes(ticks: seq<Tick>, paras: seq<string>, n: nat)
    requires n <= |ticks| && PicksFit(ticks, paras)
    requires forall k :: 0 <= k < |ticks| ==> ValidTime(ticks[k].time)
    ensures Run(ticks, paras, n).lastHour == NoHour <==> QuoteCount(Run(ticks, paras, n).log) == 0
    ensures Run(ticks, paras, n).lastHour == NoHour || 0 <= Run(ticks, paras, n).lastHour < 24
  {
    if n > 0 {
      LastHourRecordsQuotes(ticks, paras, n - 1);
      StepEvents(Run(ticks, paras, n - 1), ticks[n - 1], paras);
      assert ValidTime(ticks[n - 1].time);
    }
  }

  /** No double fire: over any stretch of consecutive ticks that all read the
      same hour h, at most one quote is spoken, and if one is, `last_hour` is
      h at the end of the stretch. */
  lemma {:induction false} SameHourAtMostOnce(ticks: seq<Tick>, paras: seq<string>, a: nat, b: nat, h: int)
    requires a <= b <= |ticks| && PicksFit(ticks, paras)
    requires forall k :: a <= k < b ==> ticks[k].time.hour == h
    ensures QuoteCount(Run(ticks, paras, b).log) <= QuoteCount(Run(ticks, paras, a).log) + 1
    ensures QuoteCount(Run(ticks, paras, b).log) == QuoteCount(Run(ticks, paras, a).log) + 1
            ==> Run(ticks, paras, b).lastHour == h
  {
    if a < b {
      SameHourAtMostOnce(ticks, paras, a, b - 1, h);
      StepEvents(Run(ticks, paras, b - 1), ticks[b - 1], paras);
      assert ticks[b - 1].time.hour == h;
    }
  }

  /** The first top-of-hour tick (second 0) after the loop starts always
      speaks a quote, because no hour equals the initial -1. */
  lemma FirstTopOfHourSpeaks(ticks: seq<Tick>, paras: seq<string>, k: nat)
    requires k < |ticks| && PicksFit(ticks, paras) && ValidTime(ticks[k].time)
    requires ticks[k].time.minute == 0 && ticks[k].time.second == 0
    requires forall j :: 0 <= j < k ==> !(ticks[j].time.minute == 0 && ticks[j].time.second == 0)
    ensures QuoteCount(Run(ticks, paras, k + 1).log) == 1
    ensures Run(ticks, paras, k + 1).lastHour == ticks[k].time.hour
  {
    QuietBeforeTopOfHour(ticks, paras, k);
    StepEvents(Run(ticks, paras, k), ticks[k], paras);
  }

  /** Before any top-of-hour tick, nothing is spoken and `last_hour` is -1. */
  lemma {:induction false} QuietBeforeTopOfHour(ticks: seq<Tick>, paras: seq<string>, n: nat)
    requires n <= |ticks| && PicksFit(ticks, paras)
    requires forall j :: 0 <= j < n ==> !(ticks[j].time.minute == 0 && ticks[j].time.second == 0)
    ensures QuoteCount(Run(ticks, paras, n).log) == 0 && Run(ticks, paras, n).lastHour == NoHour
  {
    if n > 0 {
      QuietBeforeTopOfHour(ticks, paras, n - 1);
      StepEvents(Run(ticks, paras, n - 1), ticks[n - 1], paras);
    }
  }

  /** The state depends only on the ticks evaluated so far. */
  lemma {:induction false} RunReadsPrefix(ticks: seq<Tick>, other: seq<Tick>, paras: seq<string>, n: nat)
    requires n <= |ticks| && n <= |other| && PicksFit(ticks, paras) && PicksFit(other, paras)
    requires ticks[..n] == other[..n]
    ensures Run(ticks, paras, n) == Run(other, paras, n)
  {
    if n > 0 {
      assert ticks[..n - 1] == other[..n - 1] by {
        assert ticks[..n - 1] == ticks[..n][..n - 1];
        assert other[..n - 1] == other[..n][..n - 1];
      }
      assert ticks[n - 1] == ticks[..n][n - 1] == other[..n][n - 1] == other[n - 1];
      RunReadsPrefix(ticks, other, paras, n - 1);
    }
  }

  /** Once a check finds `running` cleared, no further tick is evaluated:
      two runs that agree up to that check log the same. */
  lemma NoEventsAfterStop(ticks: seq<Tick>, observed: seq<bool>,
                          ticks': seq<Tick>, observed': seq<bool>, paras: seq<string>, k: nat)
    requires |observed| == |ticks| && PicksFit(ticks, paras)
    requires |observed'| == |ticks'| && PicksFit(ticks', paras)
    requires k < |ticks| && k < |ticks'| && !observed[k]
    requires ticks[..k] == ticks'[..k] && observed[..k + 1] == observed'[..k + 1]
    ensures Run(ticks, paras, FirstStop(observed)) == Run(ticks', paras, FirstStop(observed'))
  {
    assert !observed'[k] by { assert observed'[k] == observed'[..k + 1][k]; }
    FirstStopPrefix(observed, k);
    FirstStopPrefix(observed', k);
    var n := FirstStop(observed);
    assert ticks[..n] == ticks'[..n] by {
      assert ticks[..n] == ticks[..k][..n];
      assert ticks'[..n] == ticks'[..k][..n];
    }
    RunReadsPrefix(ticks, ticks', paras, n);
  }

  /** A top-of-hour tick at second 0 whose hour differs from `last_hour`
      rings, then speaks the drawn quote, and records the hour. */
  lemma QuoteStep(st: State, t: Tick, paras: seq<string>)
    requires t.time.minute == 0 && t.time.second == 0 && t.time.hour != st.lastHour
    requires t.pick < |NonBlank(paras)|
    ensures Step(st, t, paras) == State(st.log + [Tone, HourlyQuote(paras, t.pick)], t.time.hour)
  {
    AppendTwo(st.log, Tone, HourlyQuote(paras, t.pick));
  }

  /** A quarter-hour tick at second 0 that does not open a new hour only
      rings, and leaves `last_hour` alone. */
  lemma BellOnlyStep(st: State, t: Tick, paras: seq<string>)
    requires t.time.minute % 15 == 0 && t.time.second == 0
    requires t.time.minute != 0 || t.time.hour == st.lastHour
    requires t.time.minute == 0 ==> t.pick < |NonBlank(paras)|
    ensures Step(st, t, paras) == State(st.log + [Tone], st.lastHour)
  {
    assert st.log + [Tone] + [] == st.log + [Tone];
  }

  /** 09:00:00 read twice, then 09:15:00: the bell rings three times, the
      drawn quote is spoken once, and `last_hour` ends at 9. */
  lemma NineOClockTwice(paras: seq<string>, pick: nat)
    requires pick < |NonBlank(paras)|
    ensures var top := Tick(Time(9, 0, 0), pick);
            var ticks := [top, top, Tick(Time(9, 15, 0), pick)];
            PicksFit(ticks, paras)
            && Run(ticks, paras, 3) == State([Tone, HourlyQuote(paras, pick), Tone, Tone], 9)
  {
    var top := Tick(Time(9, 0, 0), pick);
    var ticks := [top, top, Tick(Time(9, 15, 0), pick)];
    assert PicksFit(ticks, paras);
    var q := HourlyQuote(paras, pick);
    var s0 := State([], NoHour);
    QuoteStep(s0, ticks[0], paras);
    var s1 := State([Tone, q], 9);
    assert Step(s0, ticks[0], paras) == s1;
    BellOnlyStep(s1, ticks[1], paras);
    var s2 := State([Tone, q, Tone], 9);
    assert Step(s1, ticks[1], paras) == s2;
    BellOnlyStep(s2, ticks[2], paras);
    assert Step(s2, ticks[2], paras) == State([Tone, q, Tone, Tone], 9);
    RunOfThree(ticks, paras);
  }

  /** `last_hour` remembers only the latest hour: a clock set back from 10:00
      to 09:00 (the end of daylight saving time, a manual change) speaks the
      hour-9 quote a second time. */
  lemma ClockSetBackSpeaksAgain(paras: seq<string>, pick: nat)
    requires pick < |NonBlank(paras)|
    ensures var ticks := [Tick(Time(9, 0, 0), pick), Tick(Time(10, 0, 0), pick), Tick(Time(9, 0, 0), pick)];
            var q := HourlyQuote(paras, pick);
            PicksFit(ticks, paras)
            && Run(ticks, paras, 3) == State([Tone, q, Tone, q, Tone, q], 9)
  {
    var ticks := [Tick(Time(9, 0, 0), pick), Tick(Time(10, 0, 0), pick), Tick(Time(9, 0, 0), pick)];
    assert PicksFit(ticks, paras);
    var q := HourlyQuote(paras, pick);
    var s0 := State([], NoHour);
    QuoteStep(s0, ticks[0], paras);
    var s1 := State([Tone, q], 9);
    assert Step(s0, ticks[0], paras) == s1;
    QuoteStep(s1, ticks[1], paras);
    var s2 := State([Tone, q, Tone, q], 10);
    assert Step(s1, ticks[1], paras) == s2;
    QuoteStep(s2, ticks[2], paras);
    assert Step(s2, ticks[2], paras) == State([Tone, q, Tone, q, Tone, q], 9);
    RunOfThree(ticks, paras);
  }

  /** Three iterations from the initial state, written out. */
  lemma RunOfThree(ticks: seq<Tick>, paras: seq<string>)
    requires |ticks| == 3 && PicksFit(ticks, paras)
    ensures Run(ticks, paras, 3)
         == Step(Step(Step(State([], NoHour), ticks[0], paras), ticks[1], paras), ticks[2], paras)
  {
    assert Run(ticks, paras, 1) == Step(State([], NoHour), ticks[0], paras);
  }

  /** The same with a clean bank of quotes: the quote spoken is the bank
      entry that was drawn. */
  lemma NineOClockTwiceClean(paras: seq<string>, pick: nat)
    requires Clean(paras) && pick < |paras|
    ensures var top := Tick(Time(9, 0, 0), pick);
            var ticks := [top, top, Tick(Time(9, 15, 0), pick)];
            PicksFit(ticks, paras)
            && Run(ticks, paras, 3) == State([Tone, Quote(paras[pick]), Tone, Tone], 9)
  {
    ChooseFromClean(paras, pick);
    NineOClockTwice(paras, pick);
  }
}
