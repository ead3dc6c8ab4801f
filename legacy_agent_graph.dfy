/**
 * `run_reasone_dagent_graph` of backend/graph/agent_graph.py: the older
 * correction loop, whose message is a hard-coded f-string instead of a
 * template from the prompt store.
 */
module LegacyAgentGraph {
  import opened Wrappers
  import opened AgentLoop

  const LegacyIntro := "The previous answer had issues: "
  const LegacyMiddle := "\n\nPlease correct it.\n\nOriginal question:\n"

  /** The f-string of the older loop; it cannot fail. */
  function LegacyMessage(feedback: string, userInput: string): string {
    LegacyIntro + feedback + LegacyMiddle + userInput
  }

  function LegacyMessages(userInput: string): MessageBuilder {
    feedback => Some(LegacyMessage(feedback, userInput))
  }

  /** The older loop never raises: its message can always be built. */
  lemma LegacyNeverRaises(agents: Agents, userInput: string)
    ensures RunGraph(agents, LegacyMessages(userInput), userInput).outcome.Returned?
  {
    var first := agents.reasoner(0, userInput);
    if first.Some? {
      CorrectionsNeverRaise(agents, LegacyMessages(userInput), MaxCorrectionLoops, first, [userInput], []);
    }
  }

  method RunReasonedAgentGraph(agents: Agents, userInput: string) returns (run: Run)
    ensures run == RunGraph(agents, LegacyMessages(userInput), userInput)
    ensures run.outcome.Returned?
    ensures agents.reasoner(0, userInput).None? ==>
              run.outcome == Returned(Some(NoResponse)) && run.verifierInputs == []
    ensures agents.reasoner(0, userInput).Some? ==>
              && |run.verifierInputs| == MaxCorrectionLoops
              && |run.reasonerInputs| == MaxCorrectionLoops + 1
              && run.verifierInputs[0] == agents.reasoner(0, userInput).value
              && run.reasonerInputs[1]
                 == LegacyIntro + Feedback(agents.verifier(0, run.verifierInputs[0])) + LegacyMiddle + userInput
  {
    ghost var build := LegacyMessages(userInput);
    var answer := agents.reasoner(0, userInput);
    var reasonerInputs := [userInput];
    var verifierInputs: seq<string> := [];
    if answer.None? {
      return Run(Returned(Some(NoResponse)), reasonerInputs, verifierInputs);
    }
    for i := 0 to MaxCorrectionLoops
      invariant Corrections(agents, build, MaxCorrectionLoops - i, answer, reasonerInputs, verifierInputs)
                == RunGraph(agents, build, userInput)
    {
      if answer.None? {
        break;
      }
      var verdict := agents.verifier(|verifierInputs|, answer.value);
      verifierInputs := verifierInputs + [answer.value];
      var feedback := Feedback(verdict);
      var message := LegacyIntro + feedback + LegacyMiddle + userInput;
      answer := agents.reasoner(|reasonerInputs|, message);
      reasonerInputs := reasonerInputs + [message];
    }
    run := Run(Returned(answer), reasonerInputs, verifierInputs);
    if agents.reasoner(0, userInput).Some? {
      RunGraphCallCounts(agents, build, userInput);
      ReasonerGetsCorrections(agents, build, userInput, 1);
      VerifierSeesCurrentAnswer(agents, build, userInput, 0);
    }
  }
}
