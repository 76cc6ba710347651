/** The authselect check actor (`actors/authselectcheck/actor.py`): from the scanner's `Authselect`
    suggestion it decides whether authselect is to be called, asking the administrator when the scanner
    could not tell that authconfig made the current configuration. */
module AuthselectCheck {
  import opened Text
  import opened Failures
  import opened Reporting
  import opened AuthselectModel

  /** The caption of the dialog's only component, before the call is appended to it. */
  const DialogLabel: string := "Configure PAM and nsswitch.conf with the following authselect call?"

  const UsedTitle: string := "Authselect will be used to configure PAM and nsswitch.conf."
  const KeptTitle: string := "Current PAM and nsswitch.conf configuration will be kept."

  const Intro: string := "There is a new tool called authselect in RHEL8 that replaced authconfig. "

  /** The summary when authconfig made the configuration, up to the call. */
  const AutomaticLead: string :=
    Intro + "The upgrade process detected that authconfig was used to generate current configuration "
    + "and it will automatically convert it to authselect. Authselect call is: "

  const NoProfileSummary: string :=
    Intro + "The upgrade process was unable to find an authselect profile that would be equivalent "
    + "to your current configuration. Therefore your configuration will be left intact."

  /** The summary when the administrator accepts the suggestion, up to the call. */
  const SuggestedLead: string :=
    Intro + "The upgrade process suggested an authselect profile that is similar to your current "
    + "configuration and your system will be switched to this profile. Authselect call is: "

  const RefusedSummary: string :=
    Intro + "The upgrade process suggested an authselect profile that is similar to your current "
    + "configuration. However this suggestion was refused therefore existing configuration will be "
    + "kept intact."

  const RemediationLead: string := "To switch to authselect manually, call: "

  /** What a run of the actor leaves behind: the decision, the report, and the caption of the dialog
      it asked, if it asked one. */
  datatype Outcome = Outcome(decision: AuthselectDecision, report: Report, prompt: Option<string>)

  /** The actor's three-way decision on `model`, with the dialog's current `caption` and the answer the
      administrator gives if asked (None: no answer). */
  function Check(model: Authselect, caption: string, answer: Option<bool>): (out: Outcome)
    // No equivalent profile: keep the configuration, ask nothing.
    ensures model.profile.None? ==>
      (!out.decision.confirmed && out.prompt.None? && out.report == Generic(KeptTitle, NoProfileSummary))
    // authconfig made the configuration: convert without asking.
    ensures model.profile.Some? && !model.confirm ==>
      (out.decision.confirmed && out.prompt.None? && out.report.Generic? && out.report.title == UsedTitle
       && Contains(out.report.summary, Command(model.profile.value, model.features)))
    // Otherwise one dialog shows the call below the caption, and its answer decides; no answer is a no.
    ensures model.profile.Some? && model.confirm ==>
      (out.prompt == Some(caption + "\n" + Command(model.profile.value, model.features) + "\n")
       && (out.decision.confirmed <==> answer == Some(true)))
    ensures out.decision.confirmed <==> (model.profile.Some? && (!model.confirm || answer == Some(true)))
    // A confirmed decision is reported with the call; a refusal tells how to make the call by hand.
    ensures out.decision.confirmed ==>
      (out.report.Generic? && out.report.title == UsedTitle
       && Contains(out.report.summary, Command(model.profile.value, model.features)))
    ensures model.profile.Some? && model.confirm && answer != Some(true) ==>
      (out.report.WithRemediation? && out.report.title == KeptTitle && out.report.severity.None?
       && Contains(out.report.remediation, Command(model.profile.value, model.features)))
  {
    match model.profile
    case None => Outcome(AuthselectDecision(false), Generic(KeptTitle, NoProfileSummary), None)
    case Some(profile) =>
      var command := Command(profile, model.features);
      if !model.confirm then
        ContainsSuffix(AutomaticLead, command);
        Outcome(AuthselectDecision(true), Generic(UsedTitle, AutomaticLead + command), None)
      else
        var confirmed := answer == Some(true);
        var report :=
          if confirmed then Generic(UsedTitle, SuggestedLead + command)
          else WithRemediation(KeptTitle, RefusedSummary, RemediationLead + command, None);
        ContainsSuffix(SuggestedLead, command);
        ContainsSuffix(RemediationLead, command);
        Outcome(AuthselectDecision(confirmed), report, Some(caption + "\n" + command + "\n"))
  }

  /** The actor. Its dialog is created once with the class, so the caption each run appends to is what
      the previous runs left. */
  class AuthselectCheck {
    var command: Option<string>
    var caption: string
    var decisions: seq<AuthselectDecision>
    var reports: seq<Report>
    var prompts: seq<string>

    constructor (caption: string)
      ensures this.caption == caption
      ensures command.None? && decisions == [] && reports == [] && prompts == []
    {
      this.caption := caption;
      command := None;
      decisions := [];
      reports := [];
      prompts := [];
    }

    /** `process`: one decision and one report per run, a dialog only when confirmation is required. */
    method Process(model: Authselect, answer: Option<bool>)
      modifies this
      ensures decisions == old(decisions) + [Check(model, old(caption), answer).decision]
      ensures reports == old(reports) + [Check(model, old(caption), answer).report]
      ensures Check(model, old(caption), answer).prompt.Some? ==>
        (prompts == old(prompts) + [Check(model, old(caption), answer).prompt.value]
         && caption == Check(model, old(caption), answer).prompt.value)
      ensures Check(model, old(caption), answer).prompt.None? ==> prompts == old(prompts) && caption == old(caption)
      ensures command == (if model.profile.Some? then Some(Command(model.profile.value, model.features))
                          else old(command))
    {
      if model.profile.None? {
        ProduceCurrentConfiguration();
        return;
      }
      command := Some(Command(model.profile.value, model.features));
      if !model.confirm {
        ProduceAuthconfigConfiguration();
        return;
      }
      var confirmed := GetConfirmation(answer);
      ProduceSuggestedConfiguration(confirmed);
    }

    /** `get_confirmation`: appends the call to the caption, asks, and reads `confirm` with default False. */
    method GetConfirmation(answer: Option<bool>) returns (confirmed: bool)
      requires command.Some?
      modifies this
      ensures command == old(command) && decisions == old(decisions) && reports == old(reports)
      ensures caption == old(caption) + "\n" + command.value + "\n"
      ensures prompts == old(prompts) + [caption]
      ensures confirmed <==> answer == Some(true)
    {
      caption := caption + "\n" + command.value + "\n";
      prompts := prompts + [caption];
      confirmed := match answer case Some(b) => b case None => false;
    }

    method ProduceAuthconfigConfiguration()
      requires command.Some?
      modifies this
      ensures command == old(command) && caption == old(caption) && prompts == old(prompts)
      ensures decisions == old(decisions) + [AuthselectDecision(true)]
      ensures reports == old(reports) + [Generic(UsedTitle, AutomaticLead + command.value)]
    {
      decisions := decisions + [AuthselectDecision(true)];
      reports := reports + [Generic(UsedTitle, AutomaticLead + command.value)];
    }

    method ProduceCurrentConfiguration()
      modifies this
      ensures command == old(command) && caption == old(caption) && prompts == old(prompts)
      ensures decisions == old(decisions) + [AuthselectDecision(false)]
      ensures reports == old(reports) + [Generic(KeptTitle, NoProfileSummary)]
    {
      decisions := decisions + [AuthselectDecision(false)];
      reports := reports + [Generic(KeptTitle, NoProfileSummary)];
    }

    method ProduceSuggestedConfiguration(confirmed: bool)
      requires command.Some?
      modifies this
      ensures command == old(command) && caption == old(caption) && prompts == old(prompts)
      ensures decisions == old(decisions) + [AuthselectDecision(confirmed)]
      ensures reports == old(reports) + [if confirmed then Generic(UsedTitle, SuggestedLead + command.value)
                                         else WithRemediation(KeptTitle, RefusedSummary,
                                                              RemediationLead + command.value, None)]
    {
      decisions := decisions + [AuthselectDecision(confirmed)];
      if confirmed {
        reports := reports + [Generic(UsedTitle, SuggestedLead + command.value)];
      } else {
        reports := reports + [WithRemediation(KeptTitle, RefusedSummary, RemediationLead + command.value, None)];
      }
    }
  }
}
