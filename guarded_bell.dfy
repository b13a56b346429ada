/**
  GuardedBell: the body of one loop iteration of v1.0 and of v1.1. Both test
  the minute the same way, `play_sound` swallows any playback error, and
  `read_quote` guards both an unreadable document and one without a usable
  paragraph, so a tick never raises. They differ in where the quote is
  spoken: v1.0 calls the speech engine inside `read_quote`'s `try`, so a
  speech failure is reported by the same handler as an unreadable file;
  v1.1 hands the quote to a speech thread with its own handler, so nothing
  the speech engine does reaches the tick. The loops around this body are
  modules BellV10 and BellV11.
 */
module GuardedBell {
  import opened Text
  import opened Quotes
  import opened Events
  import opened Schedule

  /** What `docx.Document(quotes_file)` yields: an error, or the paragraphs. */
  datatype Source = Unreadable | Document(paragraphs: seq<string>)

  /** Where `read_quote` runs the speech engine: inside its own `try`
      (v1.0) or in a separate thread (v1.1). */
  datatype Speech = InHandler | InThread

  /** One loop iteration's inputs: the clock sample, whether playing the bell
      raises, whether speaking the quote raises, and the index
      `random.choice` draws. */
  datatype GuardedTick = GuardedTick(time: Time, toneFails: bool, speechFails: bool, pick: nat)

  /** The index fits the filtered list whenever there is a list to choose from. */
  predicate PickFits(src: Source, pick: nat) {
    src.Document? && NonBlank(src.paragraphs) != [] ==> pick < |NonBlank(src.paragraphs)|
  }

  /** `play_sound`: an exception is caught and printed. */
  function PlaySound(fails: bool): (e: Event)
    ensures IsToneStep(e)
    ensures e == Tone <==> !fails
  {
    if fails then ToneFailed else Tone
  }

  /** `read_quote`: an unreadable document is reported, an empty filtered list
      is reported, and otherwise the strip of the chosen non-blank paragraph
      is spoken. When the speech engine runs inside the handler and fails,
      the handler reports it as it reports an unreadable file. */
  function ReadQuote(src: Source, pick: nat, speech: Speech, speechFails: bool): (e: Event)
    requires PickFits(src, pick)
    ensures IsQuoteStep(e)
    ensures src.Unreadable? ==> e == QuoteFileError
    ensures e == NoQuotesFound <==> src.Document? && NonBlank(src.paragraphs) == []
    ensures e.Quote? <==> src.Document? && NonBlank(src.paragraphs) != [] && !(speech.InHandler? && speechFails)
    ensures speech.InThread? ==> (e == QuoteFileError <==> src.Unreadable?)
    ensures e.Quote? ==> e.text != [] && Trimmed(e.text)
    ensures e.Quote? ==> exists p :: p in src.paragraphs && Strip(p) == e.text
  {
    match src
    case Unreadable => QuoteFileError
    case Document(paras) =>
      var quotes := NonBlank(paras);
      if quotes != [] then
        if speech.InHandler? && speechFails then QuoteFileError else Quote(ChooseQuote(paras, pick))
      else NoQuotesFound
  }

  /** One iteration: at a quarter hour the tone step, and at the top of the
      hour the quote step after it. */
  function TickEvents(t: GuardedTick, src: Source, speech: Speech): (es: seq<Event>)
    requires t.time.minute == 0 ==> PickFits(src, t.pick)
    ensures |es| == (if t.time.minute % 15 != 0 then 0 else if t.time.minute == 0 then 2 else 1)
    ensures es != [] ==> es[0] == PlaySound(t.toneFails)
    ensures |es| == 2 ==> es[1] == ReadQuote(src, t.pick, speech, t.speechFails)
  {
    var f := MinuteRule(t.time);
    if f.tone then [PlaySound(t.toneFails)] + (if f.quote then [ReadQuote(src, t.pick, speech, t.speechFails)] else [])
    else []
  }

  /** The loop body of `main` (v1.0) and `awareness_bell` (v1.1): at a
      quarter hour `play_sound()`, and inside that branch at the top of the
      hour `read_quote()`; the log grows by the iteration's events. */
  method Evaluate(log: seq<Event>, t: GuardedTick, src: Source, speech: Speech) returns (log': seq<Event>)
    requires t.time.minute == 0 ==> PickFits(src, t.pick)
    ensures log' == log + TickEvents(t, src, speech)
  {
    log' := log;
    if t.time.minute % 15 == 0 {
      log' := log' + [PlaySound(t.toneFails)];
      if t.time.minute == 0 {
        log' := log' + [ReadQuote(src, t.pick, speech, t.speechFails)];
        AppendTwo(log, PlaySound(t.toneFails), ReadQuote(src, t.pick, speech, t.speechFails));
      }
    }
    TickCases(t, src, speech);
  }

  /** The three shapes of one iteration's events. */
  lemma TickCases(t: GuardedTick, src: Source, speech: Speech)
    requires t.time.minute == 0 ==> PickFits(src, t.pick)
    ensures TickEvents(t, src, speech) ==
      if t.time.minute % 15 != 0 then []
      else if t.time.minute == 0 then [PlaySound(t.toneFails), ReadQuote(src, t.pick, speech, t.speechFails)]
      else [PlaySound(t.toneFails)]
  {
  }

  /** Within one iteration the quote step comes after the tone step, and a
      spoken quote is non-blank. */
  lemma TickWellOrdered(t: GuardedTick, src: Source, speech: Speech)
    requires t.time.minute == 0 ==> PickFits(src, t.pick)
    ensures QuotesFollowTones(TickEvents(t, src, speech)) && QuotesNonBlank(TickEvents(t, src, speech))
  {
    var es := TickEvents(t, src, speech);
    assert forall k :: 0 <= k < |es| ==> FollowsTone(es, k);
  }

  /** A failing bell changes the tone step only: the tick still reaches the
      quote step, with the same outcome. */
  lemma ToneFailureDoesNotBlockQuote(t: GuardedTick, src: Source, speech: Speech)
    requires t.time.minute == 0 && PickFits(src, t.pick)
    ensures var failing := TickEvents(t.(toneFails := true), src, speech);
            var playing := TickEvents(t.(toneFails := false), src, speech);
            |failing| == |playing| == 2 && failing[0] == ToneFailed && playing[0] == Tone
            && failing[1] == playing[1] && IsQuoteStep(failing[1])
  {
  }

  /** The inputs of every top-of-hour tick let the quote be chosen. */
  predicate PicksFit(ticks: seq<GuardedTick>, src: Source) {
    forall k :: 0 <= k < |ticks| && ticks[k].time.minute == 0 ==> PickFits(src, ticks[k].pick)
  }

  /** The log after the first n iterations. */
  function Run(ticks: seq<GuardedTick>, src: Source, speech: Speech, n: nat): (r: seq<Event>)
    requires n <= |ticks| && PicksFit(ticks, src)
    ensures |r| <= 2 * n
  {
    if n == 0 then [] else Run(ticks, src, speech, n - 1) + TickEvents(ticks[n - 1], src, speech)
  }

  /** The quote step of every tick follows its tone step, and every spoken
      quote is non-blank. */
  lemma {:induction false} RunWellOrdered(ticks: seq<GuardedTick>, src: Source, speech: Speech, n: nat)
    requires n <= |ticks| && PicksFit(ticks, src)
    ensures QuotesFollowTones(Run(ticks, src, speech, n)) && QuotesNonBlank(Run(ticks, src, speech, n))
  {
    if n > 0 {
      RunWellOrdered(ticks, src, speech, n - 1);
      var es := TickEvents(ticks[n - 1], src, speech);
      TickWellOrdered(ticks[n - 1], src, speech);
      FollowsAppend(Run(ticks, src, speech, n - 1), es);
      QuotesNonBlankAppend(Run(ticks, src, speech, n - 1), es);
    }
  }

  /** The log depends only on the ticks evaluated so far. */
  lemma {:induction false} RunReadsPrefix(ticks: seq<GuardedTick>, other: seq<GuardedTick>, src: Source, speech: Speech, n: nat)
    requires n <= |ticks| && n <= |other| && PicksFit(ticks, src) && PicksFit(other, src)
    requires ticks[..n] == other[..n]
    ensures Run(ticks, src, speech, n) == Run(other, src, speech, n)
  {
    if n > 0 {
      assert ticks[..n - 1] == other[..n - 1] by {
        assert ticks[..n - 1] == ticks[..n][..n - 1];
        assert other[..n - 1] == other[..n][..n - 1];
      }
      assert ticks[n - 1] == ticks[..n][n - 1] == other[..n][n - 1] == other[n - 1];
      RunReadsPrefix(ticks, other, src, speech, n - 1);
    }
  }

  /** The number of quarter-hour ticks among the first n. */
  function QuarterHours(ticks: seq<GuardedTick>, n: nat): (c: nat)
    requires n <= |ticks|
    ensures c <= n
  {
    if n == 0 then 0 else QuarterHours(ticks, n - 1) + (if ticks[n - 1].time.minute % 15 == 0 then 1 else 0)
  }

  /** The number of top-of-hour ticks among the first n. */
  function TopsOfHour(ticks: seq<GuardedTick>, n: nat): (c: nat)
    requires n <= |ticks|
    ensures c <= QuarterHours(ticks, n)
  {
    if n == 0 then 0 else TopsOfHour(ticks, n - 1) + (if ticks[n - 1].time.minute == 0 then 1 else 0)
  }

  /** Tone cadence: there is one tone step per quarter-hour tick and no other,
      failed playbacks included; there is one quote step per top-of-hour tick. */
  lemma {:induction false} RunCadence(ticks: seq<GuardedTick>, src: Source, speech: Speech, n: nat)
    requires n <= |ticks| && PicksFit(ticks, src)
    ensures ToneCount(Run(ticks, src, speech, n)) == QuarterHours(ticks, n)
    ensures |Run(ticks, src, speech, n)| == QuarterHours(ticks, n) + TopsOfHour(ticks, n)
  {
    if n > 0 {
      RunCadence(ticks, src, speech, n - 1);
      ToneCountAppend(Run(ticks, src, speech, n - 1), TickEvents(ticks[n - 1], src, speech));
      TickToneCount(ticks[n - 1], src, speech);
    }
  }

  /** A tick rings exactly when its minute is a quarter hour. */
  lemma TickToneCount(t: GuardedTick, src: Source, speech: Speech)
    requires t.time.minute == 0 ==> PickFits(src, t.pick)
    ensures ToneCount(TickEvents(t, src, speech)) == if t.time.minute % 15 == 0 then 1 else 0
  {
    var es := TickEvents(t, src, speech);
    if |es| == 2 {
      assert es == [es[0]] + [es[1]];
      ToneCountAppend([es[0]], [es[1]]);
    }
  }

  /** Every quote step of the log is the "No quotes found" report. */
  predicate NothingSpoken(log: seq<Event>) {
    forall k :: 0 <= k < |log| ==> !log[k].Quote? && !log[k].QuoteFileError?
  }

  /** A readable document without a non-blank paragraph: nothing is ever
      spoken, each top-of-hour tick reports "No quotes found", and the bell
      of every quarter hour still rings (RunCadence). */
  lemma {:induction false} EmptyDocumentNeverSpeaks(ticks: seq<GuardedTick>, paras: seq<string>, speech: Speech, n: nat)
    requires n <= |ticks| && NonBlank(paras) == [] && PicksFit(ticks, Document(paras))
    ensures NothingSpoken(Run(ticks, Document(paras), speech, n))
  {
    if n > 0 {
      EmptyDocumentNeverSpeaks(ticks, paras, speech, n - 1);
      EmptyStepSpeaksNothing(ticks, paras, speech, n);
    }
  }

  lemma EmptyStepSpeaksNothing(ticks: seq<GuardedTick>, paras: seq<string>, speech: Speech, n: nat)
    requires 0 < n <= |ticks| && NonBlank(paras) == [] && PicksFit(ticks, Document(paras))
    requires NothingSpoken(Run(ticks, Document(paras), speech, n - 1))
    ensures NothingSpoken(Run(ticks, Document(paras), speech, n))
  {
    var src := Document(paras);
    var prev := Run(ticks, src, speech, n - 1);
    var es := TickEvents(ticks[n - 1], src, speech);
    EmptyTickSpeaksNothing(ticks[n - 1], paras, speech);
    NothingSpokenAppend(prev, es);
  }

  /** Hence the log of such a document counts no spoken quote. */
  lemma EmptyDocumentCountsNoQuote(ticks: seq<GuardedTick>, paras: seq<string>, speech: Speech, n: nat)
    requires n <= |ticks| && NonBlank(paras) == [] && PicksFit(ticks, Document(paras))
    ensures QuoteCount(Run(ticks, Document(paras), speech, n)) == 0
  {
    EmptyDocumentNeverSpeaks(ticks, paras, speech, n);
    NothingSpokenCountsNone(Run(ticks, Document(paras), speech, n));
  }

  /** One iteration over an empty document speaks nothing. */
  lemma EmptyTickSpeaksNothing(t: GuardedTick, paras: seq<string>, speech: Speech)
    requires NonBlank(paras) == []
    ensures NothingSpoken(TickEvents(t, Document(paras), speech))
  {
    TickCases(t, Document(paras), speech);
  }

  /** A log in which nothing is spoken counts no quote. */
  lemma NothingSpokenCountsNone(log: seq<Event>)
    requires NothingSpoken(log)
    ensures QuoteCount(log) == 0
  {
    QuoteCountZero(log);
  }

  lemma NothingSpokenAppend(a: seq<Event>, b: seq<Event>)
    requires NothingSpoken(a) && NothingSpoken(b)
    ensures NothingSpoken(a + b)
  {
    forall k | 0 <= k < |a + b| ensures !(a + b)[k].Quote? && !(a + b)[k].QuoteFileError? {
      if k < |a| {
        assert (a + b)[k] == a[k];
      } else {
        assert (a + b)[k] == b[k - |a|];
      }
    }
  }
}
