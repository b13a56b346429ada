/**
  BellV1: awareness-bell-v1.py. `main` is a `while True` loop with the
  stateless minute rule; `play_sound` and `read_quote` catch nothing, and
  `read_quote` reads the plain-text quotes file line by line and speaks the
  strip of a randomly chosen line, blank or not.
 */
module BellV1 {
  import opened Text
  import opened Quotes
  import opened Events
  import opened Schedule

  /** `random.choice` on the lines of the file raises on an empty file, so
      every top-of-hour tick needs an index into the lines. */
  predicate PicksFit(ticks: seq<Tick>, lines: seq<string>) {
    forall k :: 0 <= k < |ticks| && ticks[k].time.minute == 0 ==> ticks[k].pick < |lines|
  }

  /** `read_quote`: speak the strip of the line the choice draws. */
  function ReadQuote(lines: seq<string>, pick: nat): (e: Event)
    requires pick < |lines|
    ensures e.Quote? && Trimmed(e.text)
    ensures exists l :: l in lines && Strip(l) == e.text
  {
    Quote(ChooseLine(lines, pick))
  }

  /** One iteration: the bell at a quarter hour, and the quote after it at the
      top of the hour. */
  function TickEvents(t: Tick, lines: seq<string>): (es: seq<Event>)
    requires t.time.minute == 0 ==> t.pick < |lines|
    ensures |es| == (if t.time.minute % 15 != 0 then 0 else if t.time.minute == 0 then 2 else 1)
    ensures es != [] ==> es[0] == Tone
    ensures |es| == 2 ==> es[1] == ReadQuote(lines, t.pick)
  {
    var f := MinuteRule(t.time);
    if f.tone then [Tone] + (if f.quote then [ReadQuote(lines, t.pick)] else [])
    else []
  }

  /** The three shapes of one iteration's events. */
  lemma TickCases(t: Tick, lines: seq<string>)
    requires t.time.minute == 0 ==> t.pick < |lines|
    ensures TickEvents(t, lines) ==
      if t.time.minute % 15 != 0 then []
      else if t.time.minute == 0 then [Tone, ReadQuote(lines, t.pick)]
      else [Tone]
  {
  }

  /** Every quote spoken is the strip of a line of the file. */
  predicate QuotesFromLines(log: seq<Event>, lines: seq<string>) {
    forall k :: 0 <= k < |log| && log[k].Quote? ==>
      Trimmed(log[k].text) && exists l :: l in lines && Strip(l) == log[k].text
  }

  lemma FromLinesAppend(a: seq<Event>, b: seq<Event>, lines: seq<string>)
    requires QuotesFromLines(a, lines) && QuotesFromLines(b, lines)
    ensures QuotesFromLines(a + b, lines)
  {
    forall k | 0 <= k < |a + b| && (a + b)[k].Quote?
      ensures Trimmed((a + b)[k].text) && exists l :: l in lines && Strip(l) == (a + b)[k].text
    {
      if k < |a| {
        assert (a + b)[k] == a[k];
      } else {
        assert (a + b)[k] == b[k - |a|];
      }
    }
  }

  /** The log after the first n iterations. */
  function Run(ticks: seq<Tick>, lines: seq<string>, n: nat): (r: seq<Event>)
    requires n <= |ticks| && PicksFit(ticks, lines)
    ensures |r| <= 2 * n
  {
    if n == 0 then [] else Run(ticks, lines, n - 1) + TickEvents(ticks[n - 1], lines)
  }

  /** Every quote step follows a tone, and every quote is the strip of some
      line of the file. */
  lemma {:induction false} RunWellOrdered(ticks: seq<Tick>, lines: seq<string>, n: nat)
    requires n <= |ticks| && PicksFit(ticks, lines)
    ensures QuotesFollowTones(Run(ticks, lines, n)) && QuotesFromLines(Run(ticks, lines, n), lines)
  {
    if n > 0 {
      RunWellOrdered(ticks, lines, n - 1);
      var es := TickEvents(ticks[n - 1], lines);
      assert QuotesFollowTones(es) by {
        assert forall k :: 0 <= k < |es| ==> FollowsTone(es, k);
      }
      FollowsAppend(Run(ticks, lines, n - 1), es);
      FromLinesAppend(Run(ticks, lines, n - 1), es, lines);
    }
  }

  /** The loop body of `main`: at a quarter hour `play_sound()`, and inside
      that branch at the top of the hour `read_quote()`. */
  method Evaluate(log: seq<Event>, t: Tick, lines: seq<string>) returns (log': seq<Event>)
    requires t.time.minute == 0 ==> t.pick < |lines|
    ensures log' == log + TickEvents(t, lines)
  {
    log' := log;
    if t.time.minute % 15 == 0 {
      log' := log' + [Tone];
      if t.time.minute == 0 {
        log' := log' + [ReadQuote(lines, t.pick)];
        AppendTwo(log, Tone, ReadQuote(lines, t.pick));
      }
    }
    TickCases(t, lines);
  }

  /** The loop of `main`: the log it produces is Run over all ticks. */
  method MainLoop(ticks: seq<Tick>, lines: seq<string>) returns (log: seq<Event>)
    requires PicksFit(ticks, lines)
    ensures log == Run(ticks, lines, |ticks|)
  {
    log := [];
    var i := 0;
    while i < |ticks|
      invariant 0 <= i <= |ticks|
      invariant log == Run(ticks, lines, i)
    {
      log := Evaluate(log, ticks[i], lines);
      i := i + 1;
    }
  }

  /** The number of quarter-hour ticks among the first n. */
  function QuarterHours(ticks: seq<Tick>, n: nat): (c: nat)
    requires n <= |ticks|
    ensures c <= n
  {
    if n == 0 then 0 else QuarterHours(ticks, n - 1) + (if ticks[n - 1].time.minute % 15 == 0 then 1 else 0)
  }

  /** One bell per quarter-hour tick and no other. */
  lemma {:induction false} RunCadence(ticks: seq<Tick>, lines: seq<string>, n: nat)
    requires n <= |ticks| && PicksFit(ticks, lines)
    ensures ToneCount(Run(ticks, lines, n)) == QuarterHours(ticks, n)
  {
    if n > 0 {
      RunCadence(ticks, lines, n - 1);
      var es := TickEvents(ticks[n - 1], lines);
      ToneCountAppend(Run(ticks, lines, n - 1), es);
      if |es| == 2 {
        assert es == [es[0]] + [es[1]];
        ToneCountAppend([es[0]], [es[1]]);
      }
    }
  }

  /** A blank line in the file can be drawn, and then an empty quote is
      spoken: the lines are not filtered. */
  lemma BlankLineIsSpoken()
    ensures var ticks := [Tick(Time(9, 0, 0), 1)];
            var lines := ["Breathe.\n", "\n"];
            PicksFit(ticks, lines) && Run(ticks, lines, 1) == [Tone, Quote([])]
  {
    var ticks := [Tick(Time(9, 0, 0), 1)];
    var lines := ["Breathe.\n", "\n"];
    BlankLineGivesEmptyQuote();
    var es := TickEvents(ticks[0], lines);
    assert es == [Tone, Quote([])] by {
      assert |es| == 2 && es[0] == Tone && es[1] == Quote([]);
    }
    assert Run(ticks, lines, 1) == [] + es;
  }
}
