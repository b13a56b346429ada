/**
  BellV10: `main` of awareness-bell-v1.0.py, a `while True` loop that samples
  the clock once per iteration, runs the guarded tick body and sleeps a
  minute. The (unbounded) loop is modelled over the finite sequence of ticks
  it gets to see; the sleep is not modelled.
 */
module BellV10 {
  import opened Events
  import opened Schedule
  import opened GuardedBell

  /** The loop of `main`: the log it produces is Run over all ticks. */
  method MainLoop(ticks: seq<GuardedTick>, src: Source) returns (log: seq<Event>)
    requires PicksFit(ticks, src)
    ensures log == Run(ticks, src, InHandler, |ticks|)
  {
    log := [];
    var i := 0;
    while i < |ticks|
      invariant 0 <= i <= |ticks|
      invariant log == Run(ticks, src, InHandler, i)
    {
      log := Evaluate(log, ticks[i], src, InHandler);
      assert log == Run(ticks, src, InHandler, i + 1);
      i := i + 1;
    }
  }

  /** 09:00 with a bank of clean quotes and a working speech engine: the bell
      rings (or its failure is reported) and then the drawn quote is spoken. */
  lemma TopOfHourSpeaksOneQuote(paras: seq<string>, pick: nat, fails: bool)
    requires Quotes.Clean(paras) && pick < |paras|
    ensures var ticks := [GuardedTick(Time(9, 0, 0), fails, false, pick)];
            PicksFit(ticks, Document(paras))
            && Run(ticks, Document(paras), InHandler, 1) == [PlaySound(fails), Quote(paras[pick])]
  {
    var src := Document(paras);
    assert PickFits(src, pick) && ReadQuote(src, pick, InHandler, false) == Quote(paras[pick]) by {
      Quotes.ChooseFromClean(paras, pick);
    }
    OneTopOfHourTick(src, pick, fails);
  }

  lemma OneTopOfHourTick(src: Source, pick: nat, fails: bool)
    requires PickFits(src, pick)
    ensures var ticks := [GuardedTick(Time(9, 0, 0), fails, false, pick)];
            PicksFit(ticks, src) && Run(ticks, src, InHandler, 1) == [PlaySound(fails), ReadQuote(src, pick, InHandler, false)]
  {
    var ticks := [GuardedTick(Time(9, 0, 0), fails, false, pick)];
    assert PicksFit(ticks, src);
    var es := TickEvents(ticks[0], src, InHandler);
    assert es == [PlaySound(fails), ReadQuote(src, pick, InHandler, false)] by {
      assert |es| == 2 && es[0] == PlaySound(fails) && es[1] == ReadQuote(src, pick, InHandler, false);
    }
    assert Run(ticks, src, InHandler, 1) == [] + es;
  }

  /** 09:15 rings the bell and speaks nothing. */
  lemma QuarterPastRingsOnly(src: Source, pick: nat, fails: bool, speechFails: bool)
    ensures Run([GuardedTick(Time(9, 15, 0), fails, speechFails, pick)], src, InHandler, 1) == [PlaySound(fails)]
  {
  }

  /** 09:00 with an empty document: the bell rings, then "No quotes found";
      the speech engine is never reached. */
  lemma EmptyDocumentStillRings(pick: nat, speechFails: bool)
    ensures Run([GuardedTick(Time(9, 0, 0), false, speechFails, pick)], Document([]), InHandler, 1) == [Tone, NoQuotesFound]
  {
  }

  /** 09:00 with a usable document but a speech engine that raises: the
      exception reaches `read_quote`'s handler, which reports it as an
      error reading the quotes file. */
  lemma SpeechFailureReportedAsFileError(paras: seq<string>, pick: nat, fails: bool)
    requires PickFits(Document(paras), pick) && Quotes.NonBlank(paras) != []
    ensures var ticks := [GuardedTick(Time(9, 0, 0), fails, true, pick)];
            PicksFit(ticks, Document(paras))
            && Run(ticks, Document(paras), InHandler, 1) == [PlaySound(fails), QuoteFileError]
  {
    var src := Document(paras);
    var ticks := [GuardedTick(Time(9, 0, 0), fails, true, pick)];
    assert PicksFit(ticks, src);
    var es := TickEvents(ticks[0], src, InHandler);
    assert es == [PlaySound(fails), QuoteFileError] by {
      assert |es| == 2 && es[0] == PlaySound(fails) && es[1] == QuoteFileError;
    }
    assert Run(ticks, src, InHandler, 1) == [] + es;
  }
}
