/** A session with one engine: the calls the voice agent makes, one after the
    other. Every public operation of the engine takes the same lock, so any
    interleaving of concurrent calls behaves as some sequence of whole calls;
    `Run` plays such a sequence and collects the decisions. */
module Session {
  import opened InterruptFilter

  /** One call into the engine. */
  datatype Call =
    | SpeakingChanged(speaking: bool)
    | IgnoredWordsReplaced(words: seq<string>)
    | IntentsReplaced(words: seq<string>)
    | SegmentArrived(seg: Segment)

  /** The engine after a sequence of calls, and the decisions it returned, in
      order. */
  datatype Trace = Trace(final: State, decisions: seq<Decision>)

  /** The number of segments among the calls. */
  function SegmentCount(calls: seq<Call>): (n: nat)
    ensures n <= |calls|
    ensures n == 0 <==> forall k :: 0 <= k < |calls| ==> !calls[k].SegmentArrived?
    decreases |calls|
  {
    if calls == [] then 0
    else (if calls[0].SegmentArrived? then 1 else 0) + SegmentCount(calls[1..])
  }

  /** The state after one call: only the mutators change it. */
  function Apply(st: State, c: Call): State {
    match c
    case SpeakingChanged(b) => SetTtsSpeaking(st, b)
    case IgnoredWordsReplaced(ws) => UpdateIgnoredWords(st, ws)
    case IntentsReplaced(ws) => UpdateIntents(st, ws)
    case SegmentArrived(_) => st
  }

  /** Plays the calls in order, collecting the decision for each segment. */
  function Run(st: State, calls: seq<Call>): Trace
    decreases |calls|
  {
    if calls == [] then Trace(st, [])
    else
      var rest := Run(Apply(st, calls[0]), calls[1..]);
      if calls[0].SegmentArrived? then
        Trace(rest.final, [Decide(st, calls[0].seg)] + rest.decisions)
      else rest
  }

  /** There is one decision per segment, and none of them both interrupts and
      drops. */
  lemma {:induction false} RunShape(st: State, calls: seq<Call>)
    ensures |Run(st, calls).decisions| == SegmentCount(calls)
    ensures forall k :: 0 <= k < |Run(st, calls).decisions| ==>
      !(Run(st, calls).decisions[k].shouldInterrupt && Run(st, calls).decisions[k].shouldConsume)
    decreases |calls|
  {
    if calls != [] {
      RunShape(Apply(st, calls[0]), calls[1..]);
    }
  }

  /** Running two sequences one after the other is running their
      concatenation. */
  lemma {:induction false} RunAppend(st: State, a: seq<Call>, b: seq<Call>)
    ensures Run(st, a + b).final == Run(Run(st, a).final, b).final
    ensures Run(st, a + b).decisions == Run(st, a).decisions + Run(Run(st, a).final, b).decisions
    decreases |a|
  {
    if a == [] {
      assert a + b == b;
    } else {
      assert (a + b)[0] == a[0];
      assert (a + b)[1..] == a[1..] + b;
      RunAppend(Apply(st, a[0]), a[1..], b);
    }
  }

  /** Every call keeps the configured phrases in normal form. */
  lemma {:induction false} RunKeepsWellFormed(st: State, calls: seq<Call>)
    requires WellFormed(st)
    ensures WellFormed(Run(st, calls).final)
    decreases |calls|
  {
    if calls != [] {
      RunKeepsWellFormed(Apply(st, calls[0]), calls[1..]);
    }
  }

  /** Deciding never changes the engine: a run of segments alone leaves the
      state as it was, and each decision is the one `Decide` gives in that
      state. */
  lemma {:induction false} SegmentsLeaveStateAlone(st: State, calls: seq<Call>)
    requires forall k :: 0 <= k < |calls| ==> calls[k].SegmentArrived?
    ensures Run(st, calls).final == st
    ensures |Run(st, calls).decisions| == |calls|
    ensures forall k :: 0 <= k < |calls| ==> Run(st, calls).decisions[k] == Decide(st, calls[k].seg)
    decreases |calls|
  {
    if calls != [] {
      SegmentsLeaveStateAlone(st, calls[1..]);
      var t := Run(st, calls);
      forall k | 0 <= k < |calls|
        ensures t.decisions[k] == Decide(st, calls[k].seg)
      {
        if k > 0 {
          assert calls[1..][k - 1] == calls[k];
        }
      }
    }
  }

  /** While the agent has not been told it is speaking, nothing is dropped. */
  lemma {:induction false} QuietSessionNeverDrops(st: State, calls: seq<Call>)
    requires !st.isSpeaking
    requires forall k :: 0 <= k < |calls| ==> calls[k] != SpeakingChanged(true)
    ensures forall k :: 0 <= k < |Run(st, calls).decisions| ==> !Run(st, calls).decisions[k].shouldConsume
    ensures !Run(st, calls).final.isSpeaking
    decreases |calls|
  {
    if calls != [] {
      assert calls[0] != SpeakingChanged(true);
      forall k | 0 <= k < |calls[1..]|
        ensures calls[1..][k] != SpeakingChanged(true)
      {
        assert calls[1..][k] == calls[k + 1];
      }
      QuietSessionNeverDrops(Apply(st, calls[0]), calls[1..]);
    }
  }

  /** A speaking change at the end of a session sets the flag to the new
      value, empties the aggregation buffer and adds no decision. */
  lemma SpeakingChangeResets(st: State, calls: seq<Call>, b: bool)
    ensures Run(st, calls + [SpeakingChanged(b)]).final.isSpeaking == b
    ensures Run(st, calls + [SpeakingChanged(b)]).final.aggregateBuf == []
    ensures Run(st, calls + [SpeakingChanged(b)]).decisions == Run(st, calls).decisions
  {
    RunAppend(st, calls, [SpeakingChanged(b)]);
  }
}
