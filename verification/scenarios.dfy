/** The unit tests of the engine (test_interrupt_filter.py) and a few more
    concrete cases, stated as facts about the model of the default engine. */
module Scenarios {
  import opened Strings
  import opened Normalize
  import opened Tokenizer
  import opened InterruptFilter

  /** Character i of a phrase is a lower-case or punctuation character, or a
      single inner space. */
  predicate PlainAt(w: string, i: int)
    requires 0 <= i < |w|
  {
    || (!IsUpper(w[i]) && !IsSpace(w[i]))
    || (w[i] == ' ' && 0 < i < |w| - 1 && w[i + 1] != ' ')
  }

  /** A phrase that is plain at every position is its own normalisation. */
  lemma PlainPhraseFixed(w: string)
    requires forall i :: 0 <= i < |w| ==> PlainAt(w, i)
    ensures NormalizeSpace(w) == w
  {
    forall i | 0 <= i < |w|
      ensures !IsUpper(w[i]) && (IsSpace(w[i]) ==> w[i] == ' ')
    {
      assert PlainAt(w, i);
    }
    forall i | 0 <= i < |w| - 1
      ensures !(w[i] == ' ' && w[i + 1] == ' ')
    {
      assert PlainAt(w, i);
    }
    if w != [] {
      assert PlainAt(w, 0) && PlainAt(w, |w| - 1);
    }
    NormalizeFixpoint(w);
  }

  /** Each built-in intent is non-empty and already normalised. */
  lemma DefaultIntentsFixed()
    ensures forall k :: 0 <= k < |DefaultIntents| ==>
      DefaultIntents[k] != [] && NormalizeSpace(DefaultIntents[k]) == DefaultIntents[k]
  {
    forall k | 0 <= k < |DefaultIntents|
      ensures DefaultIntents[k] != [] && NormalizeSpace(DefaultIntents[k]) == DefaultIntents[k]
    {
      PlainPhraseFixed(DefaultIntents[k]);
    }
  }

  /** Each built-in filler is non-empty and already normalised. */
  lemma DefaultFillersFixed()
    ensures forall k :: 0 <= k < |DefaultFillersEn + DefaultFillersHi| ==>
      var w := (DefaultFillersEn + DefaultFillersHi)[k];
      w != [] && NormalizeSpace(w) == w
  {
    forall k | 0 <= k < |DefaultFillersEn|
      ensures DefaultFillersEn[k] != [] && NormalizeSpace(DefaultFillersEn[k]) == DefaultFillersEn[k]
    {
      PlainPhraseFixed(DefaultFillersEn[k]);
    }
    forall k | 0 <= k < |DefaultFillersHi|
      ensures DefaultFillersHi[k] != [] && NormalizeSpace(DefaultFillersHi[k]) == DefaultFillersHi[k]
    {
      PlainPhraseFixed(DefaultFillersHi[k]);
    }
    forall k | 0 <= k < |DefaultFillersEn + DefaultFillersHi|
      ensures var w := (DefaultFillersEn + DefaultFillersHi)[k]; w != [] && NormalizeSpace(w) == w
    {
      if k >= |DefaultFillersEn| {
        assert (DefaultFillersEn + DefaultFillersHi)[k] == DefaultFillersHi[k - |DefaultFillersEn|];
      }
    }
  }

  /** Without an explicit intent list the intents are exactly the built-in
      ones, whatever filler list is given. */
  lemma DefaultIntentSet(ignoredWords: seq<string>, th: real, mc: int, db: int)
    ensures forall p :: p in Init(ignoredWords, [], th, mc, db).intents <==> p in DefaultIntents
  {
    DefaultIntentsFixed();
    var s := Init(ignoredWords, [], th, mc, db).intents;
    assert s == NormalizeWords(DefaultIntents);
    forall p | p in s
      ensures p in DefaultIntents
    {
      var w :| w in DefaultIntents && w != [] && NormalizeSpace(w) == p;
      var k :| 0 <= k < |DefaultIntents| && DefaultIntents[k] == w;
    }
    forall p | p in DefaultIntents
      ensures p in s
    {
      var k :| 0 <= k < |DefaultIntents| && DefaultIntents[k] == p;
    }
  }

  /** Without an explicit filler list the fillers are exactly the built-in
      ones, whatever intent list is given. */
  lemma DefaultFillerSet(commandIntents: seq<string>, th: real, mc: int, db: int)
    ensures forall p :: p in Init([], commandIntents, th, mc, db).ignored <==> p in DefaultFillersEn + DefaultFillersHi
  {
    DefaultFillersFixed();
    var all := DefaultFillersEn + DefaultFillersHi;
    var s := Init([], commandIntents, th, mc, db).ignored;
    assert s == NormalizeWords(all);
    forall p | p in s
      ensures p in all
    {
      var w :| w in all && w != [] && NormalizeSpace(w) == p;
      var k :| 0 <= k < |all| && all[k] == w;
    }
    forall p | p in all
      ensures p in s
    {
      var k :| 0 <= k < |all| && all[k] == p;
    }
  }

  /** A phrase with a character that the text lacks does not occur in it. */
  lemma AbsentCharBlocks(p: string, t: string, j: int)
    requires 0 <= j < |p|
    requires forall i :: 0 <= i < |t| ==> t[i] != p[j]
    ensures !IsSubstring(p, t)
  {
    forall i | 0 <= i <= |t|
      ensures !IsPrefix(p, t[i..])
    {
      if i + |p| <= |t| {
        assert t[i..][..|p|][j] == t[i + j];
      }
    }
  }

  /** A phrase that occurs at position i matches the text character by
      character there. */
  lemma PrefixAt(p: string, t: string, i: int, k: int)
    requires 0 <= i <= |t| && IsPrefix(p, t[i..]) && 0 <= k < |p|
    ensures t[i + k] == p[k]
  {
    assert t[i..][..|p|][k] == t[i + k];
  }

  /** When a phrase does not occur, neither does any longer phrase it starts. */
  lemma LongerAbsent(p: string, q: string, t: string)
    requires IsPrefix(p, q) && !IsSubstring(p, t)
    ensures !IsSubstring(q, t)
  {
  }

  /** An engine configured with exactly the built-in fillers and intents. */
  ghost predicate HasDefaultWords(st: State) {
    && (forall p :: p in st.intents <==> p in DefaultIntents)
    && (forall p :: p in st.ignored <==> p in DefaultFillersEn + DefaultFillersHi)
  }

  /** `InterruptFilter()` is configured with the built-in words, a threshold
      of 0.55 and a minimum of one character, and starts quiet. */
  lemma DefaultFilterShape()
    ensures HasDefaultWords(DefaultFilter())
    ensures !DefaultFilter().isSpeaking
    ensures DefaultFilter().confThreshold == 0.55 && DefaultFilter().minChars == 1
  {
    DefaultIntentSet([], DefaultConfThreshold, DefaultMinChars, DefaultDebounceMs);
    DefaultFillerSet([], DefaultConfThreshold, DefaultMinChars, DefaultDebounceMs);
  }

  /** No built-in intent starts with a character of t. */
  lemma NoIntentStartsIn(t: string)
    requires forall k :: 0 <= k < |DefaultIntents| ==> DefaultIntents[k][0] !in t
    ensures forall k :: 0 <= k < |DefaultIntents| ==> !IsSubstring(DefaultIntents[k], t)
  {
    forall k | 0 <= k < |DefaultIntents|
      ensures !IsSubstring(DefaultIntents[k], t)
    {
      AbsentCharBlocks(DefaultIntents[k], t, 0);
    }
  }

  /** A text in normal form that no built-in intent occurs in mentions no
      intent of an engine with the built-in words. */
  lemma NoDefaultIntent(intents: set<string>, t: string)
    requires forall p :: p in intents ==> p in DefaultIntents
    requires forall k :: 0 <= k < |DefaultIntents| ==> !IsSubstring(DefaultIntents[k], t)
    requires NormalizeSpace(t) == t
    ensures !MentionsIntent(intents, t)
  {
    forall p | p in intents
      ensures !IsSubstring(p, NormalizeSpace(t))
    {
      var k :| 0 <= k < |DefaultIntents| && DefaultIntents[k] == p;
    }
  }

  /** The test sentences are already in normal form. */
  lemma UmmNormal()
    ensures NormalizeSpace("umm") == "umm"
  {
    PlainPhraseFixed("umm");
  }

  lemma OkayStopNormal()
    ensures NormalizeSpace("umm okay stop") == "umm okay stop"
  {
    PlainPhraseFixed("umm okay stop");
  }

  lemma NoiseHmmNormal()
    ensures NormalizeSpace("noise hmm") == "noise hmm"
  {
    PlainPhraseFixed("noise hmm");
  }

  lemma ChooseSecondNormal()
    ensures NormalizeSpace("no, choose the second one") == "no, choose the second one"
  {
    PlainPhraseFixed("no, choose the second one");
  }

  /** A phrase with three neighbouring characters that never appear together
      in the text does not occur in it. */
  lemma AbsentTripleBlocks(p: string, t: string, j: int)
    requires 0 <= j && j + 2 < |p|
    requires forall i :: 0 <= i && i + 2 < |t| ==> !(t[i] == p[j] && t[i + 1] == p[j + 1] && t[i + 2] == p[j + 2])
    ensures !IsSubstring(p, t)
  {
    forall i | 0 <= i <= |t|
      ensures !IsPrefix(p, t[i..])
    {
      if IsPrefix(p, t[i..]) {
        PrefixAt(p, t, i, j);
        PrefixAt(p, t, i, j + 1);
        PrefixAt(p, t, i, j + 2);
      }
    }
  }

  /** "one sec" is not in "no, choose the second one": "ne " never occurs
      there. */
  lemma OneSecAbsent()
    ensures !IsSubstring("one sec", "no, choose the second one")
  {
    AbsentTripleBlocks("one sec", "no, choose the second one", 1);
  }

  /** No built-in intent occurs in "no, choose the second one": each but "one
      second" and "one sec" has a letter the sentence lacks, and "one sec"
      is not in it either. */
  lemma NoIntentInChooseSecond()
    ensures forall k :: 0 <= k < |DefaultIntents| ==>
      !IsSubstring(DefaultIntents[k], "no, choose the second one")
  {
    var t := "no, choose the second one";
    // For each intent, the position of a letter the sentence lacks.
    var pick: seq<int> := [
      3,  // "stop": 'p'
      0,  // "wait": 'w'
      2,  // "hold on": 'l'
      2,  // "hold-on": 'l'
      0,  // "pause": 'p'
      0,  // "one second": unused, handled by "one sec"
      0,  // "one sec": unused, handled by OneSecAbsent
      9,  // "no not that": 'a'
      6,  // "not that": 'a'
      1,  // "cancel": 'a'
      3,  // "enough": 'u'
      1,  // "okay stop": 'k'
      1,  // "ok stop": 'k'
      0,  // "bas": 'b'
      0,  // "ruk": 'r'
      0,  // "ruko": 'r'
      0,  // "ruk jao": 'r'
      0,  // "band karo": 'b'
      4]; // "thodi der": 'i'
    OneSecAbsent();
    forall k | 0 <= k < |DefaultIntents|
      ensures !IsSubstring(DefaultIntents[k], t)
    {
      if k == 5 {
        LongerAbsent("one sec", "one second", t);
      } else if k != 6 {
        AbsentCharBlocks(DefaultIntents[k], t, pick[k]);
      }
    }
  }

  /** With the built-in words, "umm" mentions no intent and is a filler. */
  lemma UmmFacts(intents: set<string>, ignored: set<string>)
    requires forall p :: p in intents ==> p in DefaultIntents
    requires forall p :: p in ignored <==> p in DefaultFillersEn + DefaultFillersHi
    ensures |NormalizeSpace("umm")| == 3
    ensures !MentionsIntent(intents, "umm")
    ensures IsFillerOnly(ignored, "umm")
  {
    UmmNormal();
    NoIntentStartsIn("umm");
    NoDefaultIntent(intents, "umm");
    assert "umm" == DefaultFillersEn[1];
  }

  /** "stop" occurs in "umm okay stop", at position 9. */
  lemma StopInOkayStop()
    ensures IsSubstring("stop", "umm okay stop")
  {
    assert IsPrefix("stop", "umm okay stop"[9..]);
  }

  /** With the built-in words, "umm okay stop" mentions the intent "stop". */
  lemma OkayStopFacts(intents: set<string>)
    requires forall p :: p in intents <==> p in DefaultIntents
    ensures |NormalizeSpace("umm okay stop")| == 13
    ensures MentionsIntent(intents, "umm okay stop")
  {
    OkayStopNormal();
    StopInOkayStop();
    assert "stop" == DefaultIntents[0];
    assert "stop" in intents;
  }

  /** With the built-in words, "no, choose the second one" mentions no
      intent. */
  lemma ChooseSecondNoIntent(intents: set<string>)
    requires forall p :: p in intents ==> p in DefaultIntents
    ensures |NormalizeSpace("no, choose the second one")| == 25
    ensures !MentionsIntent(intents, "no, choose the second one")
  {
    ChooseSecondNormal();
    NoIntentInChooseSecond();
    NoDefaultIntent(intents, "no, choose the second one");
  }

  /** No built-in filler is longer than eight characters. */
  lemma FillersAreShort(ignored: set<string>)
    requires forall p :: p in ignored <==> p in DefaultFillersEn + DefaultFillersHi
    ensures forall p :: p in ignored ==> |p| <= 8
  {
    var all := DefaultFillersEn + DefaultFillersHi;
    forall k | 0 <= k < |all|
      ensures |all[k]| <= 8
    {
    }
    forall p | p in ignored
      ensures |p| <= 8
    {
      var k :| 0 <= k < |all| && all[k] == p;
    }
  }

  /** A text whose normal form is no filler phrase and which has a token
      that is no filler is not filler-only. */
  lemma NotFillerByToken(ignored: set<string>, text: string, k: int)
    requires NormalizeSpace(text) !in ignored
    requires 0 <= k < |Tokenize(NormalizeSpace(text))|
    requires Tokenize(NormalizeSpace(text))[k] !in ignored
    ensures !IsFillerOnly(ignored, text)
  {
  }

  /** With the built-in words, "no, choose the second one" is not filler: its
      first token "no" is no built-in filler. */
  lemma ChooseSecondNotFiller(ignored: set<string>)
    requires forall p :: p in ignored <==> p in DefaultFillersEn + DefaultFillersHi
    ensures !IsFillerOnly(ignored, "no, choose the second one")
  {
    assert "no" !in ignored;
    FillersAreShort(ignored);
    assert "no, choose the second one" !in ignored;
    ChooseSecondNormal();
    ChooseSecondFirstToken();
    NotFillerByToken(ignored, "no, choose the second one", 0);
  }

  /** The first token of "no, choose the second one" is "no": the comma ends
      it. */
  lemma ChooseSecondFirstToken()
    ensures |Tokenize("no, choose the second one")| > 0
    ensures Tokenize("no, choose the second one")[0] == "no"
  {
    ChooseSecondLeadingWord();
    ChooseSecondPrefix();
    LowerNo();
  }

  /** The run before the comma is the first token. */
  lemma ChooseSecondLeadingWord()
    ensures |Tokenize("no, choose the second one")| > 0
    ensures Tokenize("no, choose the second one")[0] == Lower("no, choose the second one"[..2])
  {
    LeadingWord("no, choose the second one", 2);
  }

  /** The sentence starts with "no". */
  lemma ChooseSecondPrefix()
    ensures "no, choose the second one"[..2] == "no"
  {
  }

  /** "no" is already lower case. */
  lemma LowerNo()
    ensures Lower("no") == "no"
  {
  }

  /** The engine at the start of each unit test that speaks. */
  function SpeakingDefault(): (st: State)
    ensures st.isSpeaking && st.minChars == 1 && st.confThreshold == 0.55
    ensures HasDefaultWords(st)
  {
    DefaultFilterShape();
    SetTtsSpeaking(DefaultFilter(), true)
  }

  /** test_ignore_filler_while_speaking: "umm" over the agent is dropped as
      filler. */
  lemma FillerWhileSpeaking()
    ensures Decide(SpeakingDefault(), Segment("umm", 0.90, true)) == Decision(false, true, FillerOnly)
  {
    var st := SpeakingDefault();
    UmmFacts(st.intents, st.ignored);
    DecideFillerOnlyIff(st, Segment("umm", 0.90, true));
  }

  /** test_interrupt_on_command_while_speaking: "okay stop" after a filler
      interrupts. */
  lemma CommandWhileSpeaking()
    ensures Decide(SpeakingDefault(), Segment("umm okay stop", 0.92, true)) == Decision(true, false, CommandIntent)
  {
    var st := SpeakingDefault();
    OkayStopFacts(st.intents);
    DecideCommandIntentIff(st, Segment("umm okay stop", 0.92, true));
  }

  /** test_passthrough_when_quiet: while quiet "umm" is passed on. */
  lemma PassthroughWhenQuiet()
    ensures Decide(SetTtsSpeaking(DefaultFilter(), false), Segment("umm", 0.50, false))
         == Decision(false, false, AgentQuietPassthrough)
  {
    var st := SetTtsSpeaking(DefaultFilter(), false);
    DefaultFilterShape();
    UmmFacts(st.intents, st.ignored);
    DecidePassthroughIff(st, Segment("umm", 0.50, false));
  }

  /** test_low_confidence_ignored_while_speaking: with threshold 0.6 a 0.4
      hypothesis is dropped, whatever it says. */
  lemma LowConfidenceWhileSpeaking()
    ensures Decide(SetTtsSpeaking(Init([], [], 0.6, 1, 180), true), Segment("noise hmm", 0.4, false))
         == Decision(false, true, LowConfidence)
  {
    NoiseHmmNormal();
    DecideLowConfidenceIff(SetTtsSpeaking(Init([], [], 0.6, 1, 180), true), Segment("noise hmm", 0.4, false));
  }

  /** test_meaningful_overlap_interrupts: a real sentence over the agent
      interrupts it. */
  lemma MeaningfulOverlapWhileSpeaking()
    ensures Decide(SpeakingDefault(), Segment("no, choose the second one", 0.93, true))
         == Decision(true, false, MeaningfulOverlap)
  {
    var st := SpeakingDefault();
    ChooseSecondNoIntent(st.intents);
    ChooseSecondNotFiller(st.ignored);
    DecideMeaningfulOverlapIff(st, Segment("no, choose the second one", 0.93, true));
  }

  /** "nonstop" is its own normal form and holds "stop" at position 3. */
  lemma NonstopFacts(intents: set<string>)
    requires forall p :: p in intents <==> p in DefaultIntents
    ensures |NormalizeSpace("nonstop")| == 7
    ensures MentionsIntent(intents, "nonstop")
  {
    PlainPhraseFixed("nonstop");
    assert IsPrefix("stop", "nonstop"[3..]);
    assert "stop" == DefaultIntents[0];
    assert "stop" in intents;
  }

  /** Intents match anywhere in the text, not word by word: "nonstop" holds
      "stop" and interrupts a quiet agent. */
  lemma NonstopMatchesStop()
    ensures Decide(DefaultFilter(), Segment("nonstop", 0.9, true)) == Decision(true, false, IntentWhileQuiet)
  {
    var st := DefaultFilter();
    DefaultFilterShape();
    NonstopFacts(st.intents);
    DecideIntentWhileQuietIff(st, Segment("nonstop", 0.9, true));
  }

  /** The hyphen splits "uh-huh" into two tokens. */
  lemma UhHuhTokens()
    ensures Tokenize("uh-huh") == ["uh", "huh"]
  {
    assert "uh" + ['-'] + "huh" == "uh-huh";
    TokenizeSplit("uh", '-', "huh");
    TokenizeWord("uh");
    TokenizeWord("huh");
    assert Lower("uh") == "uh" && Lower("huh") == "huh";
  }

  /** "!!!" has no intent and no token, and is no filler phrase. */
  lemma BangsFacts(intents: set<string>, ignored: set<string>)
    requires forall p :: p in intents ==> p in DefaultIntents
    requires forall p :: p in ignored <==> p in DefaultFillersEn + DefaultFillersHi
    ensures |NormalizeSpace("!!!")| == 3
    ensures !MentionsIntent(intents, "!!!")
    ensures !IsFillerOnly(ignored, "!!!")
  {
    assert "!!!" !in ignored;
    PlainPhraseFixed("!!!");
    NoIntentStartsIn("!!!");
    NoDefaultIntent(intents, "!!!");
    FillerWithoutWords(ignored, "!!!");
  }

  /** Punctuation alone over the agent is not filler, so it interrupts. */
  lemma BangsInterrupt()
    ensures Decide(SpeakingDefault(), Segment("!!!", 0.9, true)) == Decision(true, false, MeaningfulOverlap)
  {
    var st := SpeakingDefault();
    BangsFacts(st.intents, st.ignored);
    DecideMeaningfulOverlapIff(st, Segment("!!!", 0.9, true));
  }
}
