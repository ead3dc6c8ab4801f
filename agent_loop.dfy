/**
 * The correction loop shared by `run_reasone_dagent_graph` in
 * backend/app/graph/agent_graph.py and its older twin in
 * backend/graph/agent_graph.py: ask the reasoner, have the verifier review the
 * answer, feed the verdict back to the reasoner, at most MaxCorrectionLoops times.
 *
 * The two language-model agents are oracles: each is a function of its call
 * number (0, 1, ...) and of the text it is given, so one `Agents` value stands
 * for one scripted conversation. A `Run` records the text handed to each
 * call, so the number of calls is the length of each record.
 */
module AgentLoop {
  import opened Wrappers

  const MaxCorrectionLoops: nat := 1
  const NoResponse := "No response generated"
  const UnspecifiedIssues := "Unspecified issues detected"

  /** What the verifier returns: plain text, or a JSON object that may carry `issues`. */
  datatype Verdict = Text(raw: string) | Mapping(issues: Option<string>)

  /** The reasoner answers with text or nothing; the verifier always answers. */
  datatype Agents = Agents(reasoner: (nat, string) -> Option<string>, verifier: (nat, string) -> Verdict)

  /**
   * How a graph turns the verifier's feedback into the next message for the
   * reasoner, the user's input already filled in; None where building it raises.
   */
  type MessageBuilder = string -> Option<string>

  /** The loop either returns an answer (possibly none) or raises while formatting. */
  datatype Outcome = Returned(answer: Option<string>) | Raised

  datatype Run = Run(outcome: Outcome, reasonerInputs: seq<string>, verifierInputs: seq<string>)

  /** `verdict.get("issues", ISSUES) if isinstance(verdict, dict) else ISSUES`. */
  function Feedback(v: Verdict): (fb: string)
    ensures v.Mapping? && v.issues.Some? ==> fb == v.issues.value
    ensures !(v.Mapping? && v.issues.Some?) ==> fb == UnspecifiedIssues
  {
    match v
    case Mapping(Some(issues)) => issues
    case _ => UnspecifiedIssues
  }

  /**
   * The rest of the loop, with `left` iterations still allowed, the current
   * answer, and the inputs of the calls made so far.
   */
  function Corrections(agents: Agents, build: MessageBuilder, left: nat,
                       answer: Option<string>, rIn: seq<string>, vIn: seq<string>): (r: Run)
    ensures rIn <= r.reasonerInputs && vIn <= r.verifierInputs
    ensures |r.verifierInputs| <= |vIn| + left
    ensures r.outcome.Returned? ==> |r.reasonerInputs| - |rIn| == |r.verifierInputs| - |vIn|
    ensures r.outcome.Raised? ==> |r.reasonerInputs| - |rIn| + 1 == |r.verifierInputs| - |vIn|
    ensures r.outcome.Returned? && r.outcome.answer.Some? ==> answer.Some?
    decreases left
  {
    if left == 0 || answer.None? then Run(Returned(answer), rIn, vIn)
    else
      var verdict := agents.verifier(|vIn|, answer.value);
      match build(Feedback(verdict))
      case None => Run(Raised, rIn, vIn + [answer.value])
      case Some(message) =>
        Corrections(agents, build, left - 1, agents.reasoner(|rIn|, message),
                    rIn + [message], vIn + [answer.value])
  }

  /** One iteration of the loop whose message cannot be built. */
  lemma CorrectionsRaise(agents: Agents, build: MessageBuilder, left: nat,
                         answer: Option<string>, rIn: seq<string>, vIn: seq<string>)
    requires left > 0 && answer.Some?
    requires build(Feedback(agents.verifier(|vIn|, answer.value))).None?
    ensures Corrections(agents, build, left, answer, rIn, vIn) == Run(Raised, rIn, vIn + [answer.value])
  {
  }

  /** One iteration of the loop whose message is built and sent. */
  lemma CorrectionsStep(agents: Agents, build: MessageBuilder, left: nat,
                        answer: Option<string>, rIn: seq<string>, vIn: seq<string>, message: string)
    requires left > 0 && answer.Some?
    requires build(Feedback(agents.verifier(|vIn|, answer.value))) == Some(message)
    ensures Corrections(agents, build, left, answer, rIn, vIn)
            == Corrections(agents, build, left - 1, agents.reasoner(|rIn|, message),
                           rIn + [message], vIn + [answer.value])
  {
  }

  /** The whole graph: the first reasoner call, the sentinel, then the loop. */
  function RunGraph(agents: Agents, build: MessageBuilder, userInput: string): (r: Run)
    ensures |r.reasonerInputs| >= 1 && r.reasonerInputs[0] == userInput
    ensures |r.verifierInputs| <= MaxCorrectionLoops
    ensures r.outcome.Returned? ==> |r.reasonerInputs| == |r.verifierInputs| + 1
    ensures r.outcome.Raised? ==> |r.reasonerInputs| == |r.verifierInputs|
    ensures agents.reasoner(0, userInput).None? <==> r == Run(Returned(Some(NoResponse)), [userInput], [])
  {
    var first := agents.reasoner(0, userInput);
    if first.None? then Run(Returned(Some(NoResponse)), [userInput], [])
    else
      var r := Corrections(agents, build, MaxCorrectionLoops, first, [userInput], []);
      assert [userInput] <= r.reasonerInputs;
      r
  }

  /** Every verifier call k reviews the answer of reasoner call k. */
  ghost predicate AnswersReviewed(agents: Agents, rIn: seq<string>, vIn: seq<string>) {
    && |vIn| <= |rIn|
    && forall k :: 0 <= k < |vIn| ==> agents.reasoner(k, rIn[k]) == Some(vIn[k])
  }

  /** Every reasoner call k after the first gets the message built from the verdict of verifier call k - 1. */
  ghost predicate MessagesFollowVerdicts(agents: Agents, build: MessageBuilder, rIn: seq<string>, vIn: seq<string>) {
    && |rIn| <= |vIn| + 1
    && forall k :: 1 <= k < |rIn| ==>
         build(Feedback(agents.verifier(k - 1, vIn[k - 1]))) == Some(rIn[k])
  }

  /** Recording one more verifier call on the current answer keeps the review relation. */
  lemma ReviewedAfterVerifier(agents: Agents, rIn: seq<string>, vIn: seq<string>, answer: string)
    requires AnswersReviewed(agents, rIn, vIn)
    requires |rIn| == |vIn| + 1 && agents.reasoner(|vIn|, rIn[|vIn|]) == Some(answer)
    ensures AnswersReviewed(agents, rIn, vIn + [answer])
  {
    var vIn' := vIn + [answer];
    forall k | 0 <= k < |vIn'|
      ensures agents.reasoner(k, rIn[k]) == Some(vIn'[k])
    {
      if k < |vIn| {
        assert vIn'[k] == vIn[k];
      }
    }
  }

  /** Recording one more reasoner call keeps the review relation. */
  lemma ReviewedAfterReasoner(agents: Agents, rIn: seq<string>, vIn: seq<string>, message: string)
    requires AnswersReviewed(agents, rIn, vIn)
    ensures AnswersReviewed(agents, rIn + [message], vIn)
  {
    var rIn' := rIn + [message];
    forall k | 0 <= k < |vIn|
      ensures agents.reasoner(k, rIn'[k]) == Some(vIn[k])
    {
      assert rIn'[k] == rIn[k];
    }
  }

  /** The loop keeps every verifier call reviewing the matching answer, and returns the last answer. */
  lemma {:induction false} CorrectionsReviewAnswers(agents: Agents, build: MessageBuilder, left: nat,
                                                     answer: Option<string>, rIn: seq<string>, vIn: seq<string>)
    requires AnswersReviewed(agents, rIn, vIn)
    requires |rIn| == |vIn| + 1 && answer == agents.reasoner(|vIn|, rIn[|vIn|])
    ensures var r := Corrections(agents, build, left, answer, rIn, vIn);
            && AnswersReviewed(agents, r.reasonerInputs, r.verifierInputs)
            && (r.outcome.Returned? ==>
                  r.outcome.answer == agents.reasoner(|r.verifierInputs|, r.reasonerInputs[|r.verifierInputs|]))
    decreases left
  {
    if left > 0 && answer.Some? {
      var vIn' := vIn + [answer.value];
      ReviewedAfterVerifier(agents, rIn, vIn, answer.value);
      var message := build(Feedback(agents.verifier(|vIn|, answer.value)));
      if message.None? {
        CorrectionsRaise(agents, build, left, answer, rIn, vIn);
      } else {
        var rIn' := rIn + [message.value];
        var next := agents.reasoner(|rIn|, message.value);
        ReviewedAfterReasoner(agents, rIn, vIn', message.value);
        assert rIn'[|vIn'|] == message.value;
        CorrectionsStep(agents, build, left, answer, rIn, vIn, message.value);
        CorrectionsReviewAnswers(agents, build, left - 1, next, rIn', vIn');
      }
    }
  }

  /** Recording one more verifier call keeps the messages tied to their verdicts. */
  lemma FollowAfterVerifier(agents: Agents, build: MessageBuilder, rIn: seq<string>, vIn: seq<string>,
                            answer: string)
    requires MessagesFollowVerdicts(agents, build, rIn, vIn)
    ensures MessagesFollowVerdicts(agents, build, rIn, vIn + [answer])
  {
    var vIn' := vIn + [answer];
    forall k | 1 <= k < |rIn|
      ensures build(Feedback(agents.verifier(k - 1, vIn'[k - 1]))) == Some(rIn[k])
    {
      assert vIn'[k - 1] == vIn[k - 1];
    }
  }

  /** Sending the message built from the last verdict keeps the messages tied to their verdicts. */
  lemma FollowAfterReasoner(agents: Agents, build: MessageBuilder, rIn: seq<string>, vIn: seq<string>,
                            message: string)
    requires MessagesFollowVerdicts(agents, build, rIn, vIn)
    requires |rIn| == |vIn| >= 1
    requires build(Feedback(agents.verifier(|vIn| - 1, vIn[|vIn| - 1]))) == Some(message)
    ensures MessagesFollowVerdicts(agents, build, rIn + [message], vIn)
  {
    var rIn' := rIn + [message];
    forall k | 1 <= k < |rIn'|
      ensures build(Feedback(agents.verifier(k - 1, vIn[k - 1]))) == Some(rIn'[k])
    {
      if k < |rIn| {
        assert rIn'[k] == rIn[k];
      }
    }
  }

  /** The loop keeps every later reasoner call receiving the message built from the previous verdict. */
  lemma {:induction false} CorrectionsFollowVerdicts(agents: Agents, build: MessageBuilder, left: nat,
                                                      answer: Option<string>, rIn: seq<string>, vIn: seq<string>)
    requires MessagesFollowVerdicts(agents, build, rIn, vIn)
    requires |rIn| == |vIn| + 1
    ensures var r := Corrections(agents, build, left, answer, rIn, vIn);
            MessagesFollowVerdicts(agents, build, r.reasonerInputs, r.verifierInputs)
    decreases left
  {
    if left > 0 && answer.Some? {
      var vIn' := vIn + [answer.value];
      FollowAfterVerifier(agents, build, rIn, vIn, answer.value);
      var message := build(Feedback(agents.verifier(|vIn|, answer.value)));
      if message.None? {
        CorrectionsRaise(agents, build, left, answer, rIn, vIn);
      } else {
        var rIn' := rIn + [message.value];
        var next := agents.reasoner(|rIn|, message.value);
        assert vIn'[|vIn'| - 1] == answer.value;
        FollowAfterReasoner(agents, build, rIn, vIn', message.value);
        CorrectionsStep(agents, build, left, answer, rIn, vIn, message.value);
        CorrectionsFollowVerdicts(agents, build, left - 1, next, rIn', vIn');
      }
    }
  }

  /** The verifier is always shown the reasoner's current answer. */
  lemma VerifierSeesCurrentAnswer(agents: Agents, build: MessageBuilder, userInput: string, k: nat)
    requires k < |RunGraph(agents, build, userInput).verifierInputs|
    ensures var r := RunGraph(agents, build, userInput);
            agents.reasoner(k, r.reasonerInputs[k]) == Some(r.verifierInputs[k])
  {
    var first := agents.reasoner(0, userInput);
    CorrectionsReviewAnswers(agents, build, MaxCorrectionLoops, first, [userInput], []);
  }

  /** After the first call the reasoner only ever receives correction messages built from the last verdict. */
  lemma ReasonerGetsCorrections(agents: Agents, build: MessageBuilder, userInput: string, k: nat)
    requires 1 <= k < |RunGraph(agents, build, userInput).reasonerInputs|
    ensures var r := RunGraph(agents, build, userInput);
            build(Feedback(agents.verifier(k - 1, r.verifierInputs[k - 1])))
              == Some(r.reasonerInputs[k])
  {
    var first := agents.reasoner(0, userInput);
    CorrectionsFollowVerdicts(agents, build, MaxCorrectionLoops, first, [userInput], []);
  }

  /** Unless the first call gave nothing, the graph returns the answer of the last reasoner call. */
  lemma ReturnsLastAnswer(agents: Agents, build: MessageBuilder, userInput: string)
    requires agents.reasoner(0, userInput).Some?
    requires RunGraph(agents, build, userInput).outcome.Returned?
    ensures var r := RunGraph(agents, build, userInput);
            var last := |r.reasonerInputs| - 1;
            r.outcome.answer == agents.reasoner(last, r.reasonerInputs[last])
  {
    var first := agents.reasoner(0, userInput);
    CorrectionsReviewAnswers(agents, build, MaxCorrectionLoops, first, [userInput], []);
  }

  /**
   * A clean verdict does not end the loop early: when every message can be
   * built and every answer is present, all `left` iterations run.
   */
  lemma {:induction false} CorrectionsRunToBound(agents: Agents, build: MessageBuilder, left: nat,
                                                  answer: Option<string>, rIn: seq<string>, vIn: seq<string>)
    requires answer.Some?
    requires forall i, s :: agents.reasoner(i, s).Some?
    requires forall feedback :: build(feedback).Some?
    ensures var r := Corrections(agents, build, left, answer, rIn, vIn);
            && r.outcome.Returned? && r.outcome.answer.Some?
            && |r.verifierInputs| == |vIn| + left && |r.reasonerInputs| == |rIn| + left
    decreases left
  {
    if left > 0 {
      var verdict := agents.verifier(|vIn|, answer.value);
      var message := build(Feedback(verdict));
      assert message.Some?;
      CorrectionsRunToBound(agents, build, left - 1, agents.reasoner(|rIn|, message.value),
                            rIn + [message.value], vIn + [answer.value]);
    }
  }

  /** With a first answer and a message that can always be built, the verifier runs MaxCorrectionLoops times. */
  lemma RunGraphCallCounts(agents: Agents, build: MessageBuilder, userInput: string)
    requires agents.reasoner(0, userInput).Some?
    requires forall feedback :: build(feedback).Some?
    ensures var r := RunGraph(agents, build, userInput);
            && r.outcome.Returned?
            && |r.verifierInputs| == MaxCorrectionLoops
            && |r.reasonerInputs| == MaxCorrectionLoops + 1
  {
    var first := agents.reasoner(0, userInput);
    var verdict := agents.verifier(0, first.value);
    var message := build(Feedback(verdict));
    assert message.Some?;
  }

  /** A builder that never fails never makes the loop raise. */
  lemma {:induction false} CorrectionsNeverRaise(agents: Agents, build: MessageBuilder, left: nat,
                                                  answer: Option<string>, rIn: seq<string>, vIn: seq<string>)
    requires forall feedback :: build(feedback).Some?
    ensures Corrections(agents, build, left, answer, rIn, vIn).outcome.Returned?
    decreases left
  {
    if left > 0 && answer.Some? {
      var message := build(Feedback(agents.verifier(|vIn|, answer.value)));
      assert message.Some?;
      CorrectionsNeverRaise(agents, build, left - 1, agents.reasoner(|rIn|, message.value),
                            rIn + [message.value], vIn + [answer.value]);
    }
  }

  /** Two builders that agree on every feedback give the same runs. */
  lemma {:induction false} CorrectionsAgree(agents: Agents, build1: MessageBuilder, build2: MessageBuilder, left: nat,
                                             answer: Option<string>, rIn: seq<string>, vIn: seq<string>)
    requires forall feedback :: build1(feedback) == build2(feedback)
    ensures Corrections(agents, build1, left, answer, rIn, vIn) == Corrections(agents, build2, left, answer, rIn, vIn)
    decreases left
  {
    if left > 0 && answer.Some? {
      var message := build1(Feedback(agents.verifier(|vIn|, answer.value)));
      assert message == build2(Feedback(agents.verifier(|vIn|, answer.value)));
      if message.Some? {
        CorrectionsAgree(agents, build1, build2, left - 1, agents.reasoner(|rIn|, message.value),
                         rIn + [message.value], vIn + [answer.value]);
      }
    }
  }

  /** Two builders that agree on every feedback make the whole graph behave the same. */
  lemma RunGraphAgree(agents: Agents, build1: MessageBuilder, build2: MessageBuilder, userInput: string)
    requires forall feedback :: build1(feedback) == build2(feedback)
    ensures RunGraph(agents, build1, userInput) == RunGraph(agents, build2, userInput)
  {
    var first := agents.reasoner(0, userInput);
    if first.Some? {
      CorrectionsAgree(agents, build1, build2, MaxCorrectionLoops, first, [userInput], []);
    }
  }
}
