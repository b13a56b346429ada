/**
  Events: the output log that stands for the bell, the speech, the printed
  debugging lines and the message boxes. A tick contributes a tone step (the
  bell, or the report that playing it failed) and, after it, possibly a quote
  step (a spoken quote, or one of the two reports `read_quote` prints).
 */
module Events {
  import opened Text

  datatype Event =
    | Tone                // the bell sound was played
    | ToneFailed          // playing the bell raised, and the error was printed
    | Quote(text: string) // a quote was chosen and handed to the speech engine
    | NoQuotesFound       // "No quotes found in the file."
    | QuoteFileError      // "Error reading quotes file: ..." (in v1.0 also a failed speech)

  predicate IsToneStep(e: Event) {
    e.Tone? || e.ToneFailed?
  }

  predicate IsQuoteStep(e: Event) {
    e.Quote? || e.NoQuotesFound? || e.QuoteFileError?
  }

  /** Every quote step in the log comes right after a tone step: the quote is
      only ever reached from inside the tone branch of the same tick. */
  predicate QuotesFollowTones(log: seq<Event>) {
    forall k :: 0 <= k < |log| ==> FollowsTone(log, k)
  }

  /** If entry k is a quote step, the entry before it is a tone step. */
  predicate FollowsTone(log: seq<Event>, k: nat)
    requires k < |log|
  {
    IsQuoteStep(log[k]) ==> 0 < k && IsToneStep(log[k - 1])
  }

  /** Every spoken quote is non-empty and has no surrounding whitespace. */
  predicate QuotesNonBlank(log: seq<Event>) {
    forall k :: 0 <= k < |log| && log[k].Quote? ==> log[k].text != [] && Trimmed(log[k].text)
  }

  /** Two logs that each keep the ordering keep it together, provided the
      second does not start with a quote step. */
  lemma FollowsAppend(a: seq<Event>, b: seq<Event>)
    requires QuotesFollowTones(a) && QuotesFollowTones(b)
    requires b == [] || !IsQuoteStep(b[0])
    ensures QuotesFollowTones(a + b)
  {
    forall k | 0 <= k < |a + b| ensures FollowsTone(a + b, k) {
      if k < |a| {
        assert FollowsTone(a, k);
        assert (a + b)[k] == a[k];
        if 0 < k { assert (a + b)[k - 1] == a[k - 1]; }
      } else {
        assert FollowsTone(b, k - |a|);
        assert (a + b)[k] == b[k - |a|];
        if k > |a| { assert (a + b)[k - 1] == b[k - 1 - |a|]; }
      }
    }
  }

  lemma QuotesNonBlankAppend(a: seq<Event>, b: seq<Event>)
    requires QuotesNonBlank(a) && QuotesNonBlank(b)
    ensures QuotesNonBlank(a + b)
  {
    forall k | 0 <= k < |a + b| && (a + b)[k].Quote?
      ensures (a + b)[k].text != [] && Trimmed((a + b)[k].text)
    {
      if k < |a| {
        assert (a + b)[k] == a[k];
      } else {
        assert (a + b)[k] == b[k - |a|];
      }
    }
  }

  /** Appending two entries one by one appends the pair. */
  lemma AppendTwo(a: seq<Event>, x: Event, y: Event)
    ensures a + [x] + [y] == a + [x, y]
  {
  }

  /** The number of spoken quotes in a log. */
  function QuoteCount(log: seq<Event>): (n: nat)
    ensures n <= |log|
  {
    if log == [] then 0 else (if log[0].Quote? then 1 else 0) + QuoteCount(log[1..])
  }

  /** The count is zero exactly when the log holds no spoken quote. */
  lemma {:induction false} QuoteCountZero(log: seq<Event>)
    ensures QuoteCount(log) == 0 <==> forall k :: 0 <= k < |log| ==> !log[k].Quote?
  {
    if log != [] {
      QuoteCountZero(log[1..]);
      assert forall k :: 1 <= k < |log| ==> log[k] == log[1..][k - 1];
    }
  }

  /** The number of tone steps in a log. */
  function ToneCount(log: seq<Event>): (n: nat)
    ensures n <= |log|
  {
    if log == [] then 0 else (if IsToneStep(log[0]) then 1 else 0) + ToneCount(log[1..])
  }

  lemma {:induction false} QuoteCountAppend(a: seq<Event>, b: seq<Event>)
    ensures QuoteCount(a + b) == QuoteCount(a) + QuoteCount(b)
  {
    if a == [] {
      assert a + b == b;
    } else {
      assert (a + b)[0] == a[0];
      assert (a + b)[1..] == a[1..] + b;
      QuoteCountAppend(a[1..], b);
    }
  }

  lemma {:induction false} ToneCountAppend(a: seq<Event>, b: seq<Event>)
    ensures ToneCount(a + b) == ToneCount(a) + ToneCount(b)
  {
    if a == [] {
      assert a + b == b;
    } else {
      assert (a + b)[0] == a[0];
      assert (a + b)[1..] == a[1..] + b;
      ToneCountAppend(a[1..], b);
    }
  }
}
