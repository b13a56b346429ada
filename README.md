# Awareness Bell — a verified model

The awareness bell is a small meditation aid that comes in four versions:
`awareness-bell-v1.0.py`, `awareness-bell-v1.py`, `awareness-bell-v1.1.py`
and `awareness-bell-v1.2.py`. Each version polls the clock in a loop. When the
minute is a multiple of 15 it plays a bell sound. At the top of the hour it
also reads a random Vipassana quote aloud, after the bell. v1.1 and v1.2 add
Start and Stop buttons that set and clear a global `running` flag, and the
bell loop runs while that flag is set. v1.2 samples the clock every second.
It rings only on second 0, and it remembers the hour of the last quote
(`last_hour`), so that within one run of the loop, over consecutive samples
of the same hour, that hour's quote is spoken at most once.

The model turns each loop into a Dafny `method` over a finite sequence of
clock samples ("ticks"). Each method is proved equal to a specification
function `Run`, which folds the tick rule over the first n ticks. The
properties are then proved as lemmas about `Run`: cadence, quote-after-bell
ordering, de-duplication, and stopping. Bells and quotes become entries of an
event log (`Events.Event`).

Modules, one per concern:

- `Text` models Python's `str.strip()`, with `str.isspace()` given as the
  exact set of code points it accepts.
- `Quotes` models how quotes are selected:
  - paragraphs are filtered with `p.strip()`;
  - `random.choice(...).strip()` becomes an index parameter;
  - v1 uses the unfiltered `readlines` variant.
- `Events` holds the event log and the predicates and counts stated over it.
- `Schedule` holds three things:
  - the stateless minute rule of v1.0, v1 and v1.1;
  - the de-duplicating rule of v1.2;
  - `FirstStop`, the number of loop iterations a `while running` loop makes.
- `Control` models the `running` flag of v1.1 and v1.2. It is a `Controller`
  class with `Start` and `Stop` methods and a pure transition function `Press`.
- `GuardedBell` is the tick body of v1.0 and v1.1. Both test the minute the
  same way, and both catch and report playback errors and quote-file errors.
  They differ in where the quote is spoken, which is a parameter (`Speech`):
  v1.0 speaks inside `read_quote`'s `try`, v1.1 in a thread of its own.
- `BellV10`, `BellV1`, `BellV11` and `BellV12` model the loop of each version.

The versions differ in ways their docstrings (awareness-bell-v1.1.py:9-12,
awareness-bell-v1.2.py:7-11) do not mention. The model follows the code of
each:

- v1.0 and v1.1 catch and report a failing bell and an unreadable quote file
  (awareness-bell-v1.0.py:22-28 and 34-46, awareness-bell-v1.1.py:58-64 and
  70-82). v1 and v1.2 catch no exception at all (awareness-bell-v1.py:43-60,
  awareness-bell-v1.2.py:47-73), so there an empty quote list is a
  precondition of the loop rather than an error event.
- v1.0 calls the speech engine inside `read_quote`'s `try`
  (awareness-bell-v1.0.py:41-42), so a failing speech engine is reported as
  "Error reading quotes file" (`BellV10.SpeechFailureReportedAsFileError`).
  v1.1 speaks in a thread with its own handler (awareness-bell-v1.1.py:77-78
  and 84-94), so a speech failure never changes the loop's log
  (`BellV11.SpeechFailureInvisible`).
- Only v1.2 remembers the hour of the last quote (awareness-bell-v1.2.py:89
  and 100-101). v1.1 speaks twice when two samples both read 09:00
  (`BellV11.SameMinuteTwiceSpeaksTwice`).
- v1 does not filter blank lines (awareness-bell-v1.py:56-58), while every
  other version keeps only the paragraphs whose strip is non-empty, so v1 can
  speak an empty quote (`BellV1.BlankLineIsSpoken`).

## Model

| member | source | states |
|---|---|---|
| Text.IsSpace | awareness-bell-v1.2.py:64 | The whitespace that `str.strip()` removes includes the blank, tab, newline and carriage return, no ASCII letter or digit, and nothing above U+3000 |
| Text.TrimStart | awareness-bell-v1.2.py:65 | `lstrip` never lengthens its input (with Text.TrimStartSpec: it keeps the longest suffix not starting with whitespace) |
| Text.TrimStartSpec | awareness-bell-v1.2.py:65 | The result is a suffix of the input, everything dropped is whitespace, and the result does not start with whitespace |
| Text.TrimEnd | awareness-bell-v1.2.py:65 | `rstrip` never lengthens its input (with Text.TrimEndSpec: it keeps the longest prefix not ending with whitespace) |
| Text.TrimEndSpec | awareness-bell-v1.2.py:65 | The result is a prefix of the input, everything dropped is whitespace, and the result does not end with whitespace |
| Text.Strip | awareness-bell-v1.2.py:65 | The result has no whitespace at either end. It is empty exactly when the input is all whitespace |
| Text.StripSlice | awareness-bell-v1.2.py:65 | The result is the contiguous slice of the input that starts right after the leading whitespace, and only whitespace lies around it |
| Text.TrimmedIsFixed | awareness-bell-v1.2.py:65 | A string with no surrounding whitespace is returned unchanged by strip |
| Text.StripIdempotent | awareness-bell-v1.2.py:65 | Stripping twice equals stripping once |
| Text.StripUnique | awareness-bell-v1.1.py:75 | Whitespace + trimmed middle + whitespace strips to exactly that middle (strip is the unique such decomposition) |
| Quotes.NonBlank | awareness-bell-v1.0.py:36 | The filtered list is never longer than the document's paragraph list |
| Quotes.NonBlankMembers | awareness-bell-v1.2.py:64 | The filter keeps exactly the paragraphs that are not blank after strip, in their unstripped form |
| Quotes.NonBlankAppend | awareness-bell-v1.1.py:72 | Filtering distributes over concatenation, so paragraph order is preserved |
| Quotes.NonBlankIdempotent | awareness-bell-v1.1.py:72 | Filtering an already filtered list removes nothing |
| Quotes.AllBlankGivesNone | awareness-bell-v1.0.py:36-37 | A document whose paragraphs are all whitespace leaves nothing to choose from |
| Quotes.CleanIsKept | awareness-bell-v1.2.py:64 | A bank of non-empty, already trimmed quotes passes the filter unchanged |
| Quotes.ChooseQuote | awareness-bell-v1.2.py:59-65 | For an index into the filtered list, the quote is non-empty, has no surrounding whitespace, and is the strip of some paragraph of the document |
| Quotes.ChooseFromClean | awareness-bell-v1.2.py:64-65 | From a clean bank, the quote drawn is the bank entry at the drawn index |
| Quotes.ChooseLine | awareness-bell-v1.py:56-58 | For an index into the file's lines, the quote has no surrounding whitespace and is the strip of some line |
| Quotes.BlankLineGivesEmptyQuote | awareness-bell-v1.py:57-58 | Drawing a blank line yields the empty quote, since v1 does not filter |
| Schedule.MinuteRule | awareness-bell-v1.0.py:56-59 | The bell rings iff minute mod 15 is 0. The quote fires iff the minute is 0. A quote never fires without the bell |
| Schedule.MinuteRuleStateless | awareness-bell-v1.1.py:106-108 | The v1.0/v1/v1.1 decision depends on the minute alone |
| Schedule.DedupRule | awareness-bell-v1.2.py:94-101 | The bell rings iff minute mod 15 is 0 and the second is 0. The quote fires iff additionally the minute is 0 and the hour differs from `last_hour`. `last_hour` becomes the hour exactly when the quote fires |
| Schedule.DedupRuleNoRepeat | awareness-bell-v1.2.py:100-101 | After a quote for hour h, the next sample, if it is of hour h, fires no other quote, and `last_hour` stays h |
| Schedule.FirstStop | awareness-bell-v1.1.py:103 | The number of iterations of `while running`: every earlier flag check found the flag set, and the check at that index, if any, found it clear |
| Schedule.FirstStopPrefix | awareness-bell-v1.2.py:90 | Flag checks after the first one that finds the flag clear do not affect the iteration count |
| Control.Press | awareness-bell-v1.1.py:112-134 | Start leaves the flag set and Stop leaves it clear. A press reports Transitioned exactly when the flag was not already in the requested state |
| Control.PressIdempotent | awareness-bell-v1.1.py:112-134 | Pressing the same button twice: the second press changes nothing and reports AlreadyInState |
| Control.LastPressDecides | awareness-bell-v1.2.py:111-130 | After any non-empty series of presses, the flag is set iff the last press was Start |
| Control.TransitionsAlternate | awareness-bell-v1.2.py:115-129 | A counting identity: the number of transitioned presses equals twice the Starts that find the flag clear, corrected by the flag at the two ends |
| Control.Controller.constructor | awareness-bell-v1.2.py:44 | The flag starts clear |
| Control.Controller.Start | awareness-bell-v1.2.py:111-120 | The new flag and the acknowledgement are Press(old flag, Start). The flag is set afterwards, and the press transitioned iff the flag was clear |
| Control.Controller.Stop | awareness-bell-v1.2.py:123-130 | The new flag and the acknowledgement are Press(old flag, Stop). The flag is clear afterwards, and the press transitioned iff the flag was set |
| Control.StartStopTwice | awareness-bell-v1.1.py:112-134 | Start twice then Stop twice on a fresh controller acknowledges Transitioned, AlreadyInState, Transitioned, AlreadyInState, and ends stopped |
| GuardedBell.PlaySound | awareness-bell-v1.1.py:54-64 | A tone step is logged in all cases. The bell plays iff playback does not raise; otherwise the failure is reported |
| GuardedBell.ReadQuote | awareness-bell-v1.0.py:30-46 | An unreadable document is always reported as a file error. "No quotes found" is reported iff the filtered list is empty. A quote is spoken iff the list is non-empty and, when speech runs inside the handler (v1.0), the speech engine does not fail; the quote is then a non-blank, trimmed strip of some paragraph. With speech in a thread (v1.1, awareness-bell-v1.1.py:66-82) the file error is reported iff the document cannot be read |
| GuardedBell.TickEvents | awareness-bell-v1.0.py:56-59 | One iteration logs nothing off the quarter hour, the tone step at a quarter hour, and the tone step then the quote step at the top of the hour |
| GuardedBell.Evaluate | awareness-bell-v1.1.py:106-109 | The loop body shared by v1.0 and v1.1 appends exactly the iteration's events to the log |
| GuardedBell.TickWellOrdered | awareness-bell-v1.0.py:56-59 | Within one iteration the quote step comes right after the tone step, and a spoken quote is non-blank |
| GuardedBell.ToneFailureDoesNotBlockQuote | awareness-bell-v1.0.py:22-28 | A failing bell changes only the tone step. The same quote step still follows |
| GuardedBell.Run | awareness-bell-v1.0.py:54-60 | The log after n iterations holds at most two entries per iteration |
| GuardedBell.RunWellOrdered | awareness-bell-v1.0.py:54-60 | In the whole log, every quote step directly follows a tone step, and every spoken quote is non-blank and trimmed |
| GuardedBell.RunReadsPrefix | awareness-bell-v1.1.py:103-110 | The log after n iterations depends only on the first n samples |
| GuardedBell.RunCadence | awareness-bell-v1.0.py:54-60 | The log holds one tone step per quarter-hour sample and no other. Its length is quarter-hour samples plus top-of-hour samples |
| GuardedBell.TickToneCount | awareness-bell-v1.1.py:106-107 | One iteration holds exactly one tone step if its minute is a quarter hour and none otherwise |
| GuardedBell.EmptyDocumentNeverSpeaks | awareness-bell-v1.0.py:36-44 | With no usable paragraph, nothing is ever spoken, and no quote-file error is reported either: every quote step is "No quotes found" |
| GuardedBell.EmptyStepSpeaksNothing | awareness-bell-v1.0.py:36-44 | With no usable paragraph, one more iteration adds neither a spoken quote nor a quote-file error |
| GuardedBell.EmptyDocumentCountsNoQuote | awareness-bell-v1.1.py:72-80 | With no usable paragraph, the log counts zero spoken quotes |
| BellV10.MainLoop | awareness-bell-v1.0.py:48-60 | The loop's log is Run over all samples, with speech inside `read_quote`'s handler |
| BellV10.TopOfHourSpeaksOneQuote | awareness-bell-v1.0.py:56-59 | 09:00 with a clean bank logs the tone step and then exactly the drawn quote |
| BellV10.OneTopOfHourTick | awareness-bell-v1.0.py:56-59 | One 09:00 sample logs the tone step followed by the quote step |
| BellV10.QuarterPastRingsOnly | awareness-bell-v1.0.py:56-58 | 09:15 logs the tone step only |
| BellV10.EmptyDocumentStillRings | awareness-bell-v1.0.py:43-44 | 09:00 with an empty document still rings, then reports "No quotes found", whether or not the speech engine would fail |
| BellV10.SpeechFailureReportedAsFileError | awareness-bell-v1.0.py:38-46 | 09:00 with a usable document and a failing speech engine logs the tone step and then "Error reading quotes file", not a quote |
| BellV11.AwarenessBell | awareness-bell-v1.1.py:96-110 | The loop's log is Run over exactly the samples taken while the flag was found set |
| BellV11.Output | awareness-bell-v1.1.py:103-110 | The log holds at most two entries per sample, and is empty when the first check of the flag finds it clear |
| BellV11.NoEventsAfterStop | awareness-bell-v1.1.py:103 | Two runs that agree up to the first check finding the flag clear log the same, whatever happens after it |
| BellV11.SameMinuteTwiceSpeaksTwice | awareness-bell-v1.1.py:103-110 | Two samples both reading 09:00 (a clock set back, or Stop and Start during the sleep, which leaves two loop threads: awareness-bell-v1.1.py:117-119) yield bell, quote, bell, quote: v1.1 does not de-duplicate |
| BellV11.SpeechFailureInvisible | awareness-bell-v1.1.py:77-94 | Runs whose samples differ only in whether the speech thread fails log exactly the same |
| BellV11.TickIgnoresSpeech | awareness-bell-v1.1.py:77-94 | One iteration's events do not depend on whether the speech thread fails |
| BellV1.ReadQuote | awareness-bell-v1.py:52-60 | A quote is always spoken, and it is the trimmed strip of some line of the file |
| BellV1.TickEvents | awareness-bell-v1.py:70-73 | Nothing off the quarter hour, the bell at a quarter hour, and the bell then the quote at the top of the hour |
| BellV1.Evaluate | awareness-bell-v1.py:69-73 | The loop body appends exactly the iteration's events to the log |
| BellV1.Run | awareness-bell-v1.py:68-74 | The log after n iterations holds at most two entries per iteration |
| BellV1.RunWellOrdered | awareness-bell-v1.py:68-74 | Every quote directly follows a bell, and every quote is the strip of some line |
| BellV1.MainLoop | awareness-bell-v1.py:62-74 | The loop's log is Run over all samples |
| BellV1.RunCadence | awareness-bell-v1.py:68-74 | One bell per quarter-hour sample and no other |
| BellV1.BlankLineIsSpoken | awareness-bell-v1.py:56-58 | A blank line drawn at 09:00 makes the bell ring and then an empty quote be spoken |
| BellV12.HourlyQuote | awareness-bell-v1.2.py:102-105 | The spoken and displayed quote is non-empty, trimmed, and the strip of some paragraph |
| BellV12.Step | awareness-bell-v1.2.py:94-105 | One iteration only appends to the log, at most two entries. `last_hour` changes only to the hour of this sample, and only in an iteration that appends both the bell and the quote |
| BellV12.Run | awareness-bell-v1.2.py:89-108 | The state after n iterations, starting from an empty log and `last_hour` = -1, holds at most two log entries per iteration |
| BellV12.AwarenessBell | awareness-bell-v1.2.py:83-108 | The loop, with its local `last_hour` starting at -1, logs the same as Run over exactly the samples taken while the flag was found set |
| BellV12.StepEvents | awareness-bell-v1.2.py:94-105 | One iteration only appends to the log. It adds one bell iff the rule rings and one quote iff the rule fires, both in order, and sets `last_hour` as the rule says |
| BellV12.RunWellOrdered | awareness-bell-v1.2.py:94-105 | Every quote directly follows a bell, and every quote is non-blank and trimmed |
| BellV12.RunCadence | awareness-bell-v1.2.py:94-97 | One bell per sample on a quarter hour at second 0, and no other |
| BellV12.LastHourRecordsQuotes | awareness-bell-v1.2.py:89-101 | For valid clock samples, `last_hour` is -1 iff no quote has been spoken, and otherwise is an hour 0..23 |
| BellV12.SameHourAtMostOnce | awareness-bell-v1.2.py:99-101 | Over any stretch of consecutive samples of the same hour h, at most one quote is spoken. If one is, `last_hour` is h at the end |
| BellV12.FirstTopOfHourSpeaks | awareness-bell-v1.2.py:89-101 | The first top-of-hour sample after Start always speaks a quote and sets `last_hour` to its hour |
| BellV12.QuietBeforeTopOfHour | awareness-bell-v1.2.py:89-101 | Before any top-of-hour sample, nothing is spoken and `last_hour` is still -1 |
| BellV12.RunReadsPrefix | awareness-bell-v1.2.py:90-108 | The state after n iterations depends only on the first n samples |
| BellV12.NoEventsAfterStop | awareness-bell-v1.2.py:90 | Two runs that agree up to the first check finding the flag clear end in the same state |
| BellV12.QuoteStep | awareness-bell-v1.2.py:94-105 | A top-of-hour sample at second 0 whose hour differs from `last_hour` appends the bell and then the drawn quote, and records the hour |
| BellV12.BellOnlyStep | awareness-bell-v1.2.py:94-100 | A quarter-hour sample at second 0 that does not open a new hour appends only the bell and leaves `last_hour` alone |
| BellV12.NineOClockTwice | awareness-bell-v1.2.py:94-105 | 09:00:00, 09:00:00, 09:15:00 logs bell, the drawn quote, bell, bell, and leaves `last_hour` at 9 |
| BellV12.ClockSetBackSpeaksAgain | awareness-bell-v1.2.py:89-105 | Samples 09:00:00, 10:00:00, 09:00:00 speak three quotes: `last_hour` remembers only the latest hour, so a clock set back repeats an hour's quote |
| BellV12.NineOClockTwiceClean | awareness-bell-v1.2.py:59-65 | With a clean bank, the quote spoken in that run is exactly the drawn bank entry |

## Left out

- Audio playback (pygame), speech (pyttsx3), the message boxes and the console prints are left out. Each is an event in the log; what they physically do is not modelled.
- The sleeps (`time.sleep(60)`, `time.sleep(1)`) and the wait for playback to finish are left out. The clock is a given sequence of samples, so the minute-long pause after a v1.2 bell, which normally keeps the same minute from being seen twice, is not modelled. The de-duplication lemmas hold without it.
- Threads are left out:
  - the button thread and the bell thread of v1.1 and v1.2;
  - v1.1's per-quote speech thread.
  The flag is instead the sequence `observed` of the values the loop condition reads. A quote is logged when v1.1 starts its speech thread. What `speak_quote` prints ("Speaking Quote", "Error with text-to-speech") is not an event; `BellV11.SpeechFailureInvisible` shows only that its failure does not reach the loop.
- The `while True` loops of v1.0 and v1 never end. They are modelled over the finite prefix of samples the loop gets to see.
- Reading the quote file (docx or text) is left out. Its contents are a parameter, fixed for the whole run. The uniformity of `random.choice` is not modelled. The drawn index is a parameter.
- Uncaught exceptions in v1 and v1.2 are left out. There a failing bell, an unreadable file or an empty quote list raises and ends the loop: in v1, the process; in v1.2, the bell thread, which leaves `running` set. The model covers only runs that do not raise. The empty list, the one failure that depends on the inputs, is excluded by a precondition.
- GuardedBell.ReadQuote, BellV10.MainLoop: when v1.0's speech engine fails, the source prints "Selected Quote: ..." and then the error line. The model logs only the error, as QuoteFileError; the selected-quote line printed before it is not a separate event.
- BellV12.AwarenessBell: the model follows one loop thread. In v1.2, pressing Stop and then Start during the 61-second sleep after a bell (awareness-bell-v1.2.py:107-108, 116-120, 128-129) leaves the old thread running beside the new one, each with its own `last_hour` (awareness-bell-v1.2.py:89), so both ring and both speak at the next top of the hour. The de-duplication lemmas hold for each thread separately, not for the two together.
- BellV12.PicksFit: requires a valid index on every sample at minute 0 and second 0, including samples where `last_hour` already matches and no quote is drawn. The source needs a usable list only where the quote actually fires.
- BellV1.PicksFit: requires a valid index on every top-of-hour sample. A file with no lines makes `random.choice` raise in the source, which is not modelled.
- Control.Controller.Start, Control.Controller.Stop: AlreadyInState covers two behaviours. v1.1 shows an "already running" or "not running" message; v1.2 does nothing at all. The thread that Start launches is counted by `Control.Launches` but not run.
- GUI construction, the speech rate setting and the asset paths are left out. They are configuration, not behaviour.
