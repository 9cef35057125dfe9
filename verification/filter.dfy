/** The barge-in decision engine (`InterruptFilter` in interrupt_filter.py).
    For each recogniser segment it decides whether to stop the agent's speech,
    silently drop the segment, or pass it on. The engine is a value: `Decide`
    reads a state and never writes it, and each mutator maps a state to a
    state. */
module InterruptFilter {
  import opened Strings
  import opened Normalize
  import opened Tokenizer

  /** One recogniser hypothesis (`ASRSegment`). */
  datatype Segment = Segment(text: string, confidence: real, isFinal: bool)

  /** The classification reasons `decide` reports. */
  datatype Reason =
    | EmptyOrTooShort
    | IntentWhileQuiet
    | AgentQuietPassthrough
    | LowConfidence
    | CommandIntent
    | FillerOnly
    | MeaningfulOverlap

  /** The reason string the engine reports for each reason. */
  function ReasonTag(r: Reason): string {
    match r
    case EmptyOrTooShort => "empty_or_too_short"
    case IntentWhileQuiet => "intent_while_quiet"
    case AgentQuietPassthrough => "agent_quiet_passthrough"
    case LowConfidence => "low_confidence"
    case CommandIntent => "command_intent"
    case FillerOnly => "filler_only"
    case MeaningfulOverlap => "meaningful_overlap"
  }

  /** Distinct reasons are reported with distinct strings. */
  lemma ReasonTagInjective(a: Reason, b: Reason)
    ensures ReasonTag(a) == ReasonTag(b) ==> a == b
  {
  }

  /** `FilterDecision`: stop the speech now, and/or drop the text. */
  datatype Decision = Decision(shouldInterrupt: bool, shouldConsume: bool, reason: Reason)

  /** The session state of one engine. The aggregation buffer and the debounce
      setting are kept but never read by a decision. */
  datatype State = State(
    isSpeaking: bool,
    ignored: set<string>,
    intents: set<string>,
    confThreshold: real,
    minChars: int,
    debounceMs: int,
    aggregateBuf: seq<Segment>)

  const DefaultFillersEn: seq<string> := [
    "uh", "umm", "um", "hmm", "huh", "erm", "er", "uhh", "mm", "mmm", "ah",
    "uh-huh", "mhm", "hm", "yeahh", "hmm yeah"]

  const DefaultFillersHi: seq<string> := [
    "haan", "hmm", "hmmm", "achha", "theek", "huh", "hmm haan"]

  const DefaultIntents: seq<string> := [
    "stop", "wait", "hold on", "hold-on", "pause", "one second", "one sec",
    "no not that", "not that", "cancel", "enough", "okay stop", "ok stop",
    "bas", "ruk", "ruko", "ruk jao", "band karo", "thodi der"]

  const DefaultConfThreshold: real := 0.55
  const DefaultMinChars: int := 1
  const DefaultDebounceMs: int := 180

  /** Every configured phrase is in normal form. */
  ghost predicate WellFormed(st: State) {
    && (forall p :: p in st.ignored ==> IsNormalized(p))
    && (forall p :: p in st.intents ==> IsNormalized(p))
  }

  /** The normalised forms of the non-empty entries of a word list. The
      emptiness test looks at the raw entry, so an entry of only whitespace
      contributes the empty phrase. */
  function NormalizeWords(words: seq<string>): (r: set<string>)
    ensures forall p :: p in r ==> IsNormalized(p)
    ensures forall w :: w in words && w != [] ==> NormalizeSpace(w) in r
    ensures words == [] ==> r == {}
  {
    assert forall w :: w in words ==> IsNormalized(NormalizeSpace(w)) by {
      forall w | w in words
        ensures IsNormalized(NormalizeSpace(w))
      {
        NormalizeShape(w);
      }
    }
    set w | w in words && w != [] :: NormalizeSpace(w)
  }

  /** Nothing but the normal forms of the non-empty entries is configured. */
  lemma NormalizeWordsOnly(words: seq<string>)
    ensures forall p :: p in NormalizeWords(words) ==> exists w :: w in words && w != [] && NormalizeSpace(w) == p
  {
  }

  /** The empty phrase is configured exactly when some non-empty entry is all
      whitespace. */
  lemma NormalizeWordsEmptyPhrase(words: seq<string>)
    ensures [] in NormalizeWords(words) <==> exists w :: w in words && w != [] && AllSpace(w)
  {
    if [] in NormalizeWords(words) {
      var w :| w in words && w != [] && NormalizeSpace(w) == [];
      NormalizeEmpty(w);
    }
    if exists w :: w in words && w != [] && AllSpace(w) {
      var w :| w in words && w != [] && AllSpace(w);
      NormalizeEmpty(w);
    }
  }

  /** The constructor. An empty (or absent) list selects the built-in
      default list; a non-empty one is used as given. */
  function Init(ignoredWords: seq<string>, commandIntents: seq<string>,
                confThreshold: real, minChars: int, debounceMs: int): (st: State)
    ensures WellFormed(st)
    ensures !st.isSpeaking && st.aggregateBuf == []
    ensures st.confThreshold == confThreshold && st.minChars == minChars
    ensures forall w :: w in ignoredWords && w != [] ==> NormalizeSpace(w) in st.ignored
    ensures forall w :: w in commandIntents && w != [] ==> NormalizeSpace(w) in st.intents
    ensures ignoredWords == [] ==>
      forall w :: w in DefaultFillersEn + DefaultFillersHi && w != [] ==> NormalizeSpace(w) in st.ignored
    ensures commandIntents == [] ==>
      forall w :: w in DefaultIntents && w != [] ==> NormalizeSpace(w) in st.intents
    ensures ignoredWords != [] ==>
      forall p :: p in st.ignored ==> exists w :: w in ignoredWords && w != [] && NormalizeSpace(w) == p
    ensures commandIntents != [] ==>
      forall p :: p in st.intents ==> exists w :: w in commandIntents && w != [] && NormalizeSpace(w) == p
  {
    var fillers := if ignoredWords == [] then DefaultFillersEn + DefaultFillersHi else ignoredWords;
    var intents := if commandIntents == [] then DefaultIntents else commandIntents;
    NormalizeWordsOnly(fillers);
    NormalizeWordsOnly(intents);
    State(false, NormalizeWords(fillers), NormalizeWords(intents),
          confThreshold, minChars, debounceMs, [])
  }

  /** `InterruptFilter()` with every argument left at its default. */
  function DefaultFilter(): State {
    Init([], [], DefaultConfThreshold, DefaultMinChars, DefaultDebounceMs)
  }

  /** Unlike the constructor, an update with an empty list leaves the set
      empty. */
  lemma UpdateWithEmptyListClears(st: State)
    ensures UpdateIgnoredWords(st, []).ignored == {}
    ensures UpdateIntents(st, []).intents == {}
  {
  }

  /** `set_tts_speaking`: records whether the agent is speaking and empties
      the aggregation buffer; nothing else changes. */
  function SetTtsSpeaking(st: State, speaking: bool): (r: State)
    ensures r.isSpeaking == speaking && r.aggregateBuf == []
    ensures r.(isSpeaking := st.isSpeaking, aggregateBuf := st.aggregateBuf) == st
  {
    st.(isSpeaking := speaking, aggregateBuf := [])
  }

  /** `update_ignored_words`: replaces the filler set by the normalised
      non-empty entries; nothing else changes. */
  function UpdateIgnoredWords(st: State, words: seq<string>): (r: State)
    ensures r.(ignored := st.ignored) == st
    ensures forall w :: w in words && w != [] ==> NormalizeSpace(w) in r.ignored
    ensures forall p :: p in r.ignored ==> exists w :: w in words && w != [] && NormalizeSpace(w) == p
    ensures WellFormed(st) ==> WellFormed(r)
  {
    NormalizeWordsOnly(words);
    st.(ignored := NormalizeWords(words))
  }

  /** `update_intents`: replaces the intent set by the normalised non-empty
      entries; nothing else changes. */
  function UpdateIntents(st: State, words: seq<string>): (r: State)
    ensures r.(intents := st.intents) == st
    ensures forall w :: w in words && w != [] ==> NormalizeSpace(w) in r.intents
    ensures forall p :: p in r.intents ==> exists w :: w in words && w != [] && NormalizeSpace(w) == p
    ensures WellFormed(st) ==> WellFormed(r)
  {
    NormalizeWordsOnly(words);
    st.(intents := NormalizeWords(words))
  }

  /** `_has_intent`: some configured phrase occurs in the normalised text, or
      some token of the text is a configured phrase. */
  predicate HasIntent(intents: set<string>, text: string) {
    var t := NormalizeSpace(text);
    var toks := Tokenize(t);
    || (exists p :: p in intents && Contains(t, p))
    || (exists k :: 0 <= k < |toks| && toks[k] in intents)
  }

  /** The intent rule as a property: some configured phrase is a character
      substring of the normalised text (not aligned to words). */
  ghost predicate MentionsIntent(intents: set<string>, text: string) {
    exists p :: p in intents && IsSubstring(p, NormalizeSpace(text))
  }

  /** The token clause of `_has_intent` never adds a match: a token equal to a
      phrase is an occurrence of that phrase in the text. */
  lemma TokenMatchIsSubstringMatch(intents: set<string>, text: string, k: nat)
    requires k < |Tokenize(NormalizeSpace(text))|
    requires Tokenize(NormalizeSpace(text))[k] in intents
    ensures exists p :: p in intents && Contains(NormalizeSpace(text), p)
  {
    var t := NormalizeSpace(text);
    var tok := Tokenize(t)[k];
    TokenIsSubstring(t, k);
    NormalizeShape(text);
    assert Lower(t) == t;
    ContainsIsSubstring(t, tok);
  }

  /** `_has_intent` holds exactly when some phrase is a substring of the
      normalised text. */
  lemma HasIntentIff(intents: set<string>, text: string)
    ensures HasIntent(intents, text) <==> MentionsIntent(intents, text)
  {
    var t := NormalizeSpace(text);
    forall p | p in intents
      ensures Contains(t, p) <==> IsSubstring(p, t)
    {
      ContainsIsSubstring(t, p);
    }
    var toks := Tokenize(t);
    if exists k :: 0 <= k < |toks| && toks[k] in intents {
      var k :| 0 <= k < |toks| && toks[k] in intents;
      TokenMatchIsSubstringMatch(intents, text, k);
    }
  }

  /** A configured empty phrase matches every text. */
  lemma EmptyIntentMatchesAll(intents: set<string>, text: string)
    requires [] in intents
    ensures HasIntent(intents, text)
  {
    assert IsPrefix([], NormalizeSpace(text));
  }

  /** `_is_filler_only`: the normalised text is itself a filler phrase, or it
      has at least one token and every token is a filler. */
  predicate IsFillerOnly(ignored: set<string>, text: string) {
    var t := NormalizeSpace(text);
    var toks := Tokenize(t);
    || t in ignored
    || (|toks| > 0 && forall k :: 0 <= k < |toks| ==> toks[k] in ignored)
  }

  /** Text without word characters (punctuation only, or nothing) counts as a
      filler only when its normal form is literally a filler phrase. */
  lemma FillerWithoutWords(ignored: set<string>, text: string)
    requires forall i :: 0 <= i < |NormalizeSpace(text)| ==> !IsWordChar(NormalizeSpace(text)[i])
    ensures IsFillerOnly(ignored, text) <==> NormalizeSpace(text) in ignored
  {
    TokenizeNoWord(NormalizeSpace(text));
  }

  /** The flags each reason carries; while quiet a too-short segment is passed
      on, while speaking it is dropped. */
  function Verdict(reason: Reason, speaking: bool): Decision {
    match reason
    case EmptyOrTooShort => Decision(false, speaking, reason)
    case IntentWhileQuiet => Decision(true, false, reason)
    case AgentQuietPassthrough => Decision(false, false, reason)
    case LowConfidence => Decision(false, true, reason)
    case CommandIntent => Decision(true, false, reason)
    case FillerOnly => Decision(false, true, reason)
    case MeaningfulOverlap => Decision(true, false, reason)
  }

  /** The normalised text passes the length check. */
  predicate LongEnough(st: State, seg: Segment) {
    |NormalizeSpace(seg.text)| >= st.minChars
  }

  /** The six rules of `decide`, tried in order; the first that applies names
      the reason. */
  function Classify(st: State, seg: Segment): Reason {
    var text := NormalizeSpace(seg.text);
    if |text| < st.minChars then EmptyOrTooShort
    else if !st.isSpeaking then
      if HasIntent(st.intents, text) then IntentWhileQuiet else AgentQuietPassthrough
    else if seg.confidence < st.confThreshold then LowConfidence
    else if HasIntent(st.intents, text) then CommandIntent
    else if IsFillerOnly(st.ignored, text) then FillerOnly
    else MeaningfulOverlap
  }

  /** `decide`: the reason of the first rule that applies, with its flags. A
      decision never both interrupts and drops, and nothing is dropped while
      the agent is quiet. */
  function Decide(st: State, seg: Segment): (d: Decision)
    ensures !(d.shouldInterrupt && d.shouldConsume)
    ensures d.shouldConsume ==> st.isSpeaking
    ensures d.shouldInterrupt <==> d.reason in {IntentWhileQuiet, CommandIntent, MeaningfulOverlap}
    ensures d.shouldConsume <==> d.reason in {LowConfidence, FillerOnly} || (d.reason == EmptyOrTooShort && st.isSpeaking)
  {
    Verdict(Classify(st, seg), st.isSpeaking)
  }

  /** The intent test `decide` applies to the normalised text is the
      substring property of the raw text. */
  lemma DecideIntentTest(st: State, seg: Segment)
    ensures HasIntent(st.intents, NormalizeSpace(seg.text)) <==> MentionsIntent(st.intents, seg.text)
  {
    HasIntentIff(st.intents, NormalizeSpace(seg.text));
    NormalizeIdempotent(seg.text);
  }

  /** The filler test `decide` applies to the normalised text is the filler
      test of the raw text. */
  lemma DecideFillerTest(st: State, seg: Segment)
    ensures IsFillerOnly(st.ignored, NormalizeSpace(seg.text)) <==> IsFillerOnly(st.ignored, seg.text)
  {
    NormalizeIdempotent(seg.text);
  }

  /** Rule 1: too short, whatever the state; dropped exactly when the agent
      is speaking. */
  lemma DecideTooShortIff(st: State, seg: Segment)
    ensures Decide(st, seg).reason == EmptyOrTooShort <==> !LongEnough(st, seg)
    ensures !LongEnough(st, seg) ==> Decide(st, seg) == Decision(false, st.isSpeaking, EmptyOrTooShort)
  {
  }

  /** Rule 2, first half: while quiet, an intent phrase interrupts. */
  lemma DecideIntentWhileQuietIff(st: State, seg: Segment)
    ensures Decide(st, seg).reason == IntentWhileQuiet
        <==> !st.isSpeaking && LongEnough(st, seg) && MentionsIntent(st.intents, seg.text)
    ensures Decide(st, seg).reason == IntentWhileQuiet ==> Decide(st, seg).shouldInterrupt
  {
    DecideIntentTest(st, seg);
  }

  /** Rule 2, second half: while quiet, everything else passes through; a
      quiet agent never drops a segment. */
  lemma DecidePassthroughIff(st: State, seg: Segment)
    ensures Decide(st, seg).reason == AgentQuietPassthrough
        <==> !st.isSpeaking && LongEnough(st, seg) && !MentionsIntent(st.intents, seg.text)
  {
    DecideIntentTest(st, seg);
  }

  /** While quiet the confidence plays no part. */
  lemma DecideQuietIgnoresConfidence(st: State, seg: Segment, c: real)
    requires !st.isSpeaking
    ensures Decide(st, seg.(confidence := c)) == Decide(st, seg)
  {
  }

  /** Rule 3: while speaking, low confidence drops the segment whatever its
      text says. */
  lemma DecideLowConfidenceIff(st: State, seg: Segment)
    ensures Decide(st, seg).reason == LowConfidence
        <==> st.isSpeaking && LongEnough(st, seg) && seg.confidence < st.confThreshold
  {
  }

  /** Rule 4: while speaking and confident, an intent phrase interrupts, even
      when every token is also a filler. */
  lemma DecideCommandIntentIff(st: State, seg: Segment)
    ensures Decide(st, seg).reason == CommandIntent
        <==> && st.isSpeaking && LongEnough(st, seg) && !(seg.confidence < st.confThreshold)
             && MentionsIntent(st.intents, seg.text)
  {
    DecideIntentTest(st, seg);
  }

  /** Rule 5: while speaking and confident, filler without intent is dropped. */
  lemma DecideFillerOnlyIff(st: State, seg: Segment)
    ensures Decide(st, seg).reason == FillerOnly
        <==> && st.isSpeaking && LongEnough(st, seg) && !(seg.confidence < st.confThreshold)
             && !MentionsIntent(st.intents, seg.text) && IsFillerOnly(st.ignored, seg.text)
  {
    DecideIntentTest(st, seg);
    DecideFillerTest(st, seg);
  }

  /** Rule 6: anything else said over the agent interrupts it. */
  lemma DecideMeaningfulOverlapIff(st: State, seg: Segment)
    ensures Decide(st, seg).reason == MeaningfulOverlap
        <==> && st.isSpeaking && LongEnough(st, seg) && !(seg.confidence < st.confThreshold)
             && !MentionsIntent(st.intents, seg.text) && !IsFillerOnly(st.ignored, seg.text)
  {
    DecideIntentTest(st, seg);
    DecideFillerTest(st, seg);
  }

  /** Whether a segment is final never changes the decision, nor do the
      aggregation buffer and the debounce setting. */
  lemma DecideIgnoresUnusedInputs(st: State, seg: Segment, isFinal: bool, buf: seq<Segment>, ms: int)
    ensures Decide(st, seg.(isFinal := isFinal)) == Decide(st, seg)
    ensures Decide(st.(aggregateBuf := buf, debounceMs := ms), seg) == Decide(st, seg)
  {
  }

  /** Setting the speaking flag twice is setting it once, and afterwards the
      decisions no longer depend on the earlier flag or buffer. */
  lemma SetTtsSpeakingForgetsHistory(st: State, speaking: bool, earlier: bool, buf: seq<Segment>, seg: Segment)
    ensures SetTtsSpeaking(SetTtsSpeaking(st, speaking), speaking) == SetTtsSpeaking(st, speaking)
    ensures Decide(SetTtsSpeaking(st.(isSpeaking := earlier, aggregateBuf := buf), speaking), seg)
         == Decide(SetTtsSpeaking(st, speaking), seg)
  {
  }

  /** An update replaces the set: what the engine held before plays no
      part. */
  lemma UpdatesReplace(st1: State, st2: State, words: seq<string>)
    ensures UpdateIgnoredWords(st1, words).ignored == UpdateIgnoredWords(st2, words).ignored
    ensures UpdateIntents(st1, words).intents == UpdateIntents(st2, words).intents
  {
  }

  /** An intent list with an entry of only whitespace configures the empty
      phrase, after which every quiet segment that passes the length check
      interrupts. */
  lemma BlankIntentInterruptsWhileQuiet(st: State, words: seq<string>, seg: Segment)
    requires exists w :: w in words && w != [] && AllSpace(w)
    requires !st.isSpeaking && LongEnough(st, seg)
    ensures Decide(UpdateIntents(st, words), seg).reason == IntentWhileQuiet
  {
    NormalizeWordsEmptyPhrase(words);
    EmptyIntentMatchesAll(NormalizeWords(words), NormalizeSpace(seg.text));
  }
}
