/**
 * `run_reasone_dagent_graph` of backend/app/graph/agent_graph.py: the
 * correction loop whose message comes from the active `correction_feedback`
 * prompt of the store, or from DEFAULT_CORRECTION_PROMPT when there is none.
 */
module AppAgentGraph {
  import opened Wrappers
  import opened PromptFormat
  import opened PromptsLoader
  import opened AgentLoop
  import LegacyAgentGraph

  const CorrectionFeedbackType := "correction_feedback"

  /** `get_active_prompt("correction_feedback") or DEFAULT_CORRECTION_PROMPT`. */
  function CorrectionTemplate(store: Snapshot): (t: string)
    ensures t != []
    ensures GetActivePrompt(store, CorrectionFeedbackType) == Some(t)
            || (t == DefaultCorrectionPrompt
                && (GetActivePrompt(store, CorrectionFeedbackType).None?
                    || GetActivePrompt(store, CorrectionFeedbackType) == Some([])))
  {
    match GetActivePrompt(store, CorrectionFeedbackType)
    case Some(content) => if content == [] then DefaultCorrectionPrompt else content
    case None => DefaultCorrectionPrompt
  }

  /** `correction_template.format(feedback=..., user_input=userInput)` for each feedback. */
  function TemplateMessages(template: string, userInput: string): MessageBuilder {
    feedback => Format(template, feedback, userInput)
  }

  /**
   * The handler. The oracles are called with their call numbers; the
   * template is read from `store` in every iteration, as the source does.
   */
  method RunReasonedAgentGraph(agents: Agents, store: Snapshot, userInput: string) returns (run: Run)
    ensures run == RunGraph(agents, TemplateMessages(CorrectionTemplate(store), userInput), userInput)
    ensures agents.reasoner(0, userInput).None? ==>
              run.outcome == Returned(Some(NoResponse)) && run.verifierInputs == []
    ensures agents.reasoner(0, userInput).Some? && Format(CorrectionTemplate(store), [], []).Some? ==>
              && run.outcome.Returned?
              && |run.verifierInputs| == MaxCorrectionLoops
              && |run.reasonerInputs| == MaxCorrectionLoops + 1
    ensures agents.reasoner(0, userInput).Some? && Format(CorrectionTemplate(store), [], []).None? ==>
              run == Run(Raised, [userInput], [agents.reasoner(0, userInput).value])
  {
    TemplateDecidesCounts(agents, store, userInput);
    var answer := agents.reasoner(0, userInput);
    var reasonerInputs := [userInput];
    var verifierInputs: seq<string> := [];
    if answer.None? {
      return Run(Returned(Some(NoResponse)), reasonerInputs, verifierInputs);
    }
    ghost var build := TemplateMessages(CorrectionTemplate(store), userInput);
    for i := 0 to MaxCorrectionLoops
      invariant Corrections(agents, build, MaxCorrectionLoops - i, answer, reasonerInputs, verifierInputs)
                == RunGraph(agents, build, userInput)
    {
      if answer.None? {
        break;
      }
      var verdict := agents.verifier(|verifierInputs|, answer.value);
      verifierInputs := verifierInputs + [answer.value];
      var feedback := Feedback(verdict);
      var template := CorrectionTemplate(store);
      var message := Format(template, feedback, userInput);
      if message.None? {
        return Run(Raised, reasonerInputs, verifierInputs);
      }
      answer := agents.reasoner(|reasonerInputs|, message.value);
      reasonerInputs := reasonerInputs + [message.value];
    }
    run := Run(Returned(answer), reasonerInputs, verifierInputs);
  }

  /** Whether the loop raises is decided by the template alone, never by the verdict or the input. */
  lemma TemplateDecidesCounts(agents: Agents, store: Snapshot, userInput: string)
    ensures agents.reasoner(0, userInput).Some? && Format(CorrectionTemplate(store), [], []).Some? ==>
              var r := RunGraph(agents, TemplateMessages(CorrectionTemplate(store), userInput), userInput);
              && r.outcome.Returned?
              && |r.verifierInputs| == MaxCorrectionLoops
              && |r.reasonerInputs| == MaxCorrectionLoops + 1
    ensures agents.reasoner(0, userInput).Some? && Format(CorrectionTemplate(store), [], []).None? ==>
              RunGraph(agents, TemplateMessages(CorrectionTemplate(store), userInput), userInput)
                == Run(Raised, [userInput], [agents.reasoner(0, userInput).value])
  {
    var template := CorrectionTemplate(store);
    forall feedback
      ensures Format(template, feedback, userInput).Some? <==> Format(template, [], []).Some?
    {
      FormatFailsOnTemplateOnly(template, feedback, userInput, [], []);
    }
    if agents.reasoner(0, userInput).Some? && Format(template, [], []).Some? {
      RunGraphCallCounts(agents, TemplateMessages(template, userInput), userInput);
    }
  }

  /** Formatting the default template gives the older loop's hard-coded message. */
  lemma DefaultTemplateIsLegacyMessage(feedback: string, userInput: string)
    ensures Format(DefaultCorrectionPrompt, feedback, userInput)
            == Some(LegacyAgentGraph.LegacyMessage(feedback, userInput))
  {
    FormatDefaultCorrection(feedback, userInput);
  }

  /** With the same oracles, the loop with the default template and the older loop produce the same run. */
  lemma DefaultTemplateRunsAsLegacy(agents: Agents, userInput: string)
    ensures RunGraph(agents, TemplateMessages(DefaultCorrectionPrompt, userInput), userInput)
            == RunGraph(agents, LegacyAgentGraph.LegacyMessages(userInput), userInput)
  {
    var build1 := TemplateMessages(DefaultCorrectionPrompt, userInput);
    var build2 := LegacyAgentGraph.LegacyMessages(userInput);
    forall feedback
      ensures build1(feedback) == build2(feedback)
    {
      DefaultTemplateIsLegacyMessage(feedback, userInput);
    }
    RunGraphAgree(agents, build1, build2, userInput);
  }

  /**
   * With no usable `correction_feedback` prompt in the store (none active,
   * an empty one, or a storage fault), this loop behaves exactly as the older
   * loop with its hard-coded message.
   */
  lemma NoCorrectionPromptRunsAsLegacy(agents: Agents, store: Snapshot, userInput: string)
    requires GetActivePrompt(store, CorrectionFeedbackType).None?
             || GetActivePrompt(store, CorrectionFeedbackType) == Some([])
    ensures RunGraph(agents, TemplateMessages(CorrectionTemplate(store), userInput), userInput)
            == RunGraph(agents, LegacyAgentGraph.LegacyMessages(userInput), userInput)
  {
    DefaultTemplateRunsAsLegacy(agents, userInput);
  }
}
