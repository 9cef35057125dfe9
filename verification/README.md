# Barge-in filter: a Dafny model

This project models the decision engine of `interrupt_filter.py`, a real-time
filter for a voice agent. While the agent speaks, the user may say something. The
filter decides whether that speech is filler ("umm", "haan") to be dropped, an
explicit command ("stop", "ruko") that must cut the agent off, or meaningful
speech that should also interrupt. While the agent is quiet, speech is passed
on unless it holds a command phrase.

The model has six modules:

- `Strings` holds the substring search that Python's `p in t` performs. It also
  holds the maximal runs of a character class that `re.findall(r"[class]+")`
  reports, and the joining of words with single spaces.
- `Normalize` models `normalize_space`: `str.strip()`, then lowercasing, then
  collapsing each whitespace run to one space. Whitespace is exactly the set
  that Python's `str.isspace()` accepts.
- `Tokenizer` models `tokenize` and `contains_devanagari`.
- `InterruptFilter` models the engine. `ASRSegment` becomes `Segment` and
  `FilterDecision` becomes `Decision`; the engine's fields become a `State`
  value. The constructor, `set_tts_speaking`, `update_ignored_words` and
  `update_intents` are functions from state to state. `decide` is a pure
  function of the state and the segment.
- `Session` models what the engine's lock guarantees. Every public call takes
  the lock, so concurrent calls act like some sequence of whole calls. `Run`
  plays such a sequence.
- `Scenarios` restates the five unit tests of `test_interrupt_filter.py`, and a
  few more concrete inputs, as lemmas about the model.

Two facts about the engine come out of the proofs:

- The token clause of `_has_intent` never changes its answer. A token equal to
  a configured phrase is already a substring of the text, so `_has_intent` holds
  exactly when some phrase occurs as a substring of the normalised text. This
  includes mid-word hits: "nonstop" contains "stop".
- The blank test `if w` looks at the raw entry. An entry of only whitespace
  therefore normalises to the empty phrase, and the empty phrase occurs in every
  text. An intent list with such an entry makes every quiet segment that passes
  the length check interrupt the agent.

## Model

| member | source | states |
|---|---|---|
| Strings.ContainsIsSubstring | interrupt_filter.py:128-130 | the left-to-right scan behind `p in t` succeeds exactly when p occurs somewhere in t as a contiguous piece |
| Strings.RunsSplit | interrupt_filter.py:29-33 | a character outside the class separates the runs: the runs of `a c b` are the runs of a followed by the runs of b |
| Strings.RunsAreSubstrings | interrupt_filter.py:32-33 | every run the scan reports is a contiguous piece of the scanned string |
| Normalize.TrimStartSpec | interrupt_filter.py:39 | stripping the front removes a prefix that is all whitespace and leaves text that does not start with whitespace |
| Normalize.TrimEndSpec | interrupt_filter.py:39 | stripping the back removes a suffix that is all whitespace and leaves text that does not end with whitespace |
| Normalize.StripShape | interrupt_filter.py:39 | stripped text has no whitespace at either end, and is empty exactly when the input is all whitespace |
| Normalize.CollapseShape | interrupt_filter.py:39 | replacing whitespace runs by one space leaves only single plain spaces, keeps the text empty exactly when it was, keeps whether each end is whitespace, and adds no upper case |
| Normalize.NormalizeShape | interrupt_filter.py:38-39 | every output of `normalize_space` has no edge whitespace and no upper-case letter, and its only whitespace is single plain spaces |
| Normalize.CollapseFixpoint | interrupt_filter.py:39 | collapsing text that is already single-spaced changes nothing |
| Normalize.NormalizeFixpoint | interrupt_filter.py:38-39 | text already in normal form is its own normalisation |
| Normalize.NormalizeIdempotent | interrupt_filter.py:127 | normalising twice is normalising once, so re-normalising inside `_has_intent` and `_is_filler_only` is harmless |
| Normalize.NormalizeEmpty | interrupt_filter.py:92-93 | the normalised text is empty exactly when the raw text is all whitespace |
| Normalize.CollapseKeepsWord | interrupt_filter.py:39 | a leading word without whitespace passes through the collapse unchanged |
| Normalize.CollapseIsJoin | interrupt_filter.py:39 | on text without edge whitespace, the collapse joins the whitespace-separated words with single spaces |
| Normalize.StripParts | interrupt_filter.py:39 | the input is whitespace, then the stripped text, then whitespace |
| Normalize.NormalizeIsJoinedWords | interrupt_filter.py:38-39 | `normalize_space(t)` equals the independent definition `" ".join(t.lower().split())` |
| Tokenizer.Tokenize | interrupt_filter.py:32-33 | every token is non-empty, is made only of characters from the word class, and has no upper-case letter |
| Tokenizer.TokenizeSplit | interrupt_filter.py:29-33 | any character outside the word class, such as a hyphen, comma or space, splits the text into independently tokenised halves |
| Tokenizer.TokenizeWord | interrupt_filter.py:32-33 | a non-empty run of word characters is one token, lowercased |
| Tokenizer.LeadingWord | interrupt_filter.py:32-33 | a leading run of word characters ended by a separator is the first token |
| Tokenizer.TokenizeNoWord | interrupt_filter.py:32-33 | text without word characters, including the empty text, has no tokens |
| Tokenizer.TokenIsSubstring | interrupt_filter.py:32-33 | every token is a contiguous piece of the lowercased text |
| Tokenizer.ContainsDevanagari | interrupt_filter.py:35-36 | true exactly when some character lies in the Devanagari block U+0900 to U+097F |
| InterruptFilter.ReasonTagInjective | interrupt_filter.py:94-116 | different reasons are reported with different reason strings |
| InterruptFilter.NormalizeWords | interrupt_filter.py:72 | every configured phrase is in normal form, and every non-empty entry contributes its normal form |
| InterruptFilter.NormalizeWordsOnly | interrupt_filter.py:72 | the set holds nothing but the normal forms of the non-empty entries |
| InterruptFilter.NormalizeWordsEmptyPhrase | interrupt_filter.py:72 | the empty phrase is configured exactly when some non-empty entry is all whitespace |
| InterruptFilter.Init | interrupt_filter.py:57-83 | a new engine is quiet with an empty buffer and keeps the given threshold and minimum length; a non-empty list configures exactly the normal forms of its non-empty entries, without the built-in phrases, and an empty list configures every built-in phrase (that it configures nothing else is proved by Scenarios.DefaultFillerSet and Scenarios.DefaultIntentSet) |
| InterruptFilter.UpdateWithEmptyListClears | interrupt_filter.py:118-124 | unlike the constructor, an update with an empty list leaves the set empty and does not fall back to the defaults |
| InterruptFilter.SetTtsSpeaking | interrupt_filter.py:85-88 | the speaking flag takes the new value, the buffer is emptied, and no other field changes |
| InterruptFilter.UpdateIgnoredWords | interrupt_filter.py:118-120 | only the filler set changes; it becomes exactly the normal forms of the non-empty entries, and normal form is kept |
| InterruptFilter.UpdateIntents | interrupt_filter.py:122-124 | only the intent set changes; it becomes exactly the normal forms of the non-empty entries, and normal form is kept |
| InterruptFilter.UpdatesReplace | interrupt_filter.py:118-124 | an update replaces its set: the result does not depend on the phrases held before |
| InterruptFilter.TokenMatchIsSubstringMatch | interrupt_filter.py:126-132 | a token equal to a configured phrase is also found by the substring scan |
| InterruptFilter.HasIntentIff | interrupt_filter.py:126-132 | `_has_intent` holds exactly when some configured phrase is a substring of the normalised text |
| InterruptFilter.EmptyIntentMatchesAll | interrupt_filter.py:128-130 | a configured empty phrase matches every text |
| InterruptFilter.FillerWithoutWords | interrupt_filter.py:134-139 | text without word characters is filler-only exactly when its normal form is itself a configured filler |
| InterruptFilter.Decide | interrupt_filter.py:90-116 | a decision never both interrupts and drops, nothing is dropped while quiet, and the reason alone fixes the interrupt flag (and the drop flag, given the speaking state) |
| InterruptFilter.DecideIntentTest | interrupt_filter.py:126-127 | the intent test applied to the already normalised text is the substring property of the raw text |
| InterruptFilter.DecideFillerTest | interrupt_filter.py:134-135 | the filler test applied to the already normalised text equals the filler test of the raw text |
| InterruptFilter.DecideTooShortIff | interrupt_filter.py:92-95 | the reason is "empty_or_too_short" exactly when the normalised text is shorter than the minimum; such text is dropped only while speaking and never interrupts |
| InterruptFilter.DecideIntentWhileQuietIff | interrupt_filter.py:97-100 | the reason is "intent_while_quiet" exactly when the agent is quiet, the text is long enough and a phrase occurs in it; that decision interrupts |
| InterruptFilter.DecidePassthroughIff | interrupt_filter.py:97-101 | the reason is "agent_quiet_passthrough" exactly when the agent is quiet, the text is long enough and no phrase occurs in it |
| InterruptFilter.DecideQuietIgnoresConfidence | interrupt_filter.py:97-103 | while quiet, changing the confidence never changes the decision |
| InterruptFilter.DecideLowConfidenceIff | interrupt_filter.py:103-105 | the reason is "low_confidence" exactly when the agent speaks, the text is long enough and the confidence is below the threshold, whatever the text says |
| InterruptFilter.DecideCommandIntentIff | interrupt_filter.py:107-109 | the reason is "command_intent" exactly when the agent speaks, the text is long enough, the confidence is not below the threshold and a phrase occurs |
| InterruptFilter.DecideFillerOnlyIff | interrupt_filter.py:111-113 | the reason is "filler_only" exactly when the agent speaks, the text is long enough, the confidence is sufficient, no phrase occurs and the text is filler-only |
| InterruptFilter.DecideMeaningfulOverlapIff | interrupt_filter.py:115-116 | the reason is "meaningful_overlap" exactly when the agent speaks, the text is long enough, the confidence is sufficient, no phrase occurs and the text is not filler-only |
| InterruptFilter.DecideIgnoresUnusedInputs | interrupt_filter.py:90-116 | whether a segment is final, the aggregation buffer and the debounce setting never change a decision |
| InterruptFilter.SetTtsSpeakingForgetsHistory | interrupt_filter.py:85-88 | setting the flag twice is setting it once, and later decisions do not depend on the earlier flag or buffer |
| InterruptFilter.BlankIntentInterruptsWhileQuiet | interrupt_filter.py:122-124 | after an intent update with an all-whitespace entry, every quiet segment that is long enough interrupts |
| Session.RunShape | interrupt_filter.py:90-116 | a session yields one decision per segment, and none of them both interrupts and drops |
| Session.RunAppend | interrupt_filter.py:85-124 | two call sequences played one after the other give the same final state and decisions as their concatenation |
| Session.RunKeepsWellFormed | interrupt_filter.py:118-124 | no sequence of calls breaks the normal form of the configured phrases |
| Session.SegmentsLeaveStateAlone | interrupt_filter.py:90-116 | deciding never changes the engine: a run of segments leaves the state as it was, and each decision is the one made in that state |
| Session.QuietSessionNeverDrops | interrupt_filter.py:94-101 | while the agent is never told it is speaking, no segment is dropped and the engine stays quiet |
| Session.SpeakingChangeResets | interrupt_filter.py:85-88 | after a speaking change, the flag has the new value, the buffer is empty and no decision is added |
| Scenarios.DefaultIntentsFixed | interrupt_filter.py:23-27 | every built-in intent is non-empty and already in normal form |
| Scenarios.DefaultFillersFixed | interrupt_filter.py:15-21 | every built-in filler is non-empty and already in normal form |
| Scenarios.DefaultIntentSet | interrupt_filter.py:74-77 | an engine built with no intent list has exactly the built-in intents, whatever filler list it was given |
| Scenarios.DefaultFillerSet | interrupt_filter.py:68-72 | an engine built with no filler list has exactly the built-in English and Hindi fillers, whatever intent list it was given |
| Scenarios.DefaultFilterShape | interrupt_filter.py:57-83 | the default engine holds the built-in words, a threshold of 0.55 and a minimum of one character, and starts quiet |
| Scenarios.FillerWhileSpeaking | test_interrupt_filter.py:7-13 | "umm" at confidence 0.90 over the speaking agent is dropped as "filler_only" without interrupting |
| Scenarios.CommandWhileSpeaking | test_interrupt_filter.py:16-22 | "umm okay stop" at 0.92 over the speaking agent interrupts as "command_intent" |
| Scenarios.PassthroughWhenQuiet | test_interrupt_filter.py:25-31 | "umm" at 0.50 while quiet passes through as "agent_quiet_passthrough" |
| Scenarios.LowConfidenceWhileSpeaking | test_interrupt_filter.py:34-40 | with threshold 0.6, "noise hmm" at 0.4 over the speaking agent is dropped as "low_confidence" |
| Scenarios.MeaningfulOverlapWhileSpeaking | test_interrupt_filter.py:43-49 | "no, choose the second one" at 0.93 over the speaking agent interrupts as "meaningful_overlap" |
| Scenarios.NonstopMatchesStop | interrupt_filter.py:128-130 | "nonstop" interrupts a quiet default engine, because intents are matched as substrings and not as whole words |
| Scenarios.UhHuhTokens | interrupt_filter.py:29-33 | the hyphen splits "uh-huh" into the two tokens "uh" and "huh" |
| Scenarios.BangsInterrupt | interrupt_filter.py:111-116 | "!!!" over the speaking default engine has no token and is no filler phrase, so it interrupts as "meaningful_overlap" |

## Left out

- `_env_list` and the environment variables `IGNORED_WORDS` and `INTERRUPT_INTENTS` (interrupt_filter.py:9-13, 69, 75) are not modelled. The environment is input from outside, so the model uses the built-in lists, which is what the code does when the variables are unset.
- The logger and `_log` (interrupt_filter.py:83, 144-148) are not modelled. The model assumes a logger that returns normally. `_log` calls the injected logger without catching anything, and `decide` calls `_log` before returning on five branches (lines 99, 104, 108, 112 and 115). A logger that raises therefore makes `decide` raise instead of returning "intent_while_quiet", "low_confidence", "command_intent", "filler_only" or "meaningful_overlap".
- `asyncio.Lock` is not modelled as a lock. Its effect, that calls run one at a time, is what `Session.Run` assumes.
- `_emit` is the `Decision` constructor, through `Verdict`. It ignores its segment argument.
- The aggregation buffer and `debounce_ms` are stored and cleared but never read, so the model only carries them.
- `None` texts (`text or ""`) are not modelled, because a Dafny string cannot be absent. A `None` list and an empty list are both modelled as the empty sequence; both take the fallback branch of the constructor.
- Iterables other than lists, such as sets, tuples or a bare string passed as a list, are modelled as sequences of strings.
- InterruptFilter.Init: models the constructor's fallback test (lines 68 and 74) as "the list is empty". Python tests truthiness instead. `None`, `[]` and an empty set or tuple are falsy and fall back to the defaults, as in the model. An empty generator or iterator is truthy, so the code configures an empty set with no fallback; the model cannot express that argument, because it would pass it as `[]` and fall back.
- Normalize.Lower: lowercases the ASCII letters only. Python's `str.lower()` also maps other cased letters and can change the length of the text (for example U+0130). The lowercasing inside `tokenize` is still exact, because the only cased letters in the word class are ASCII.
- The speaking flag is modelled as a `bool`. In Python, `set_tts_speaking` stores any value. The two tests on the flag then disagree for a falsy value that is not `False`, such as `0` or `None`. Rule 1 tests truthiness (line 94), so a too-short segment gives `(False, False, "empty_or_too_short")`. Rule 2 tests identity with `False` (line 97), so a long-enough segment skips the quiet branch and goes on to rules 3 to 6, where it can be dropped. `Decide`'s promise that nothing is dropped while quiet has no counterpart for such a flag.
- Confidences and thresholds are Python floats, modelled as reals. NaN and rounding are not modelled.
- `agent_main.py` is not part of this model. It is the voice-agent glue that calls the engine.
