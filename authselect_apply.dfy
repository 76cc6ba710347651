/** The authselect apply actor (`actors/authselectapply/actor.py`): after the upgrade it makes the
    authselect call the check actor settled on, if the administrator confirmed it, and reports how the
    call went. */
module AuthselectApply {
  import opened Text
  import opened Failures
  import opened Reporting
  import opened AuthselectModel
  import AuthselectCheck

  /** What `run` does with the argument vector it is given: return, or raise an exception whose `str`
      is `message`. */
  datatype RunOutcome = Returned | Raised(message: string)

  const FailedTitle: string := "Authselect call failed."
  const ConvertedTitle: string := "System was converted to authselect."
  /** The success summary, up to the call. */
  const ConvertedLead: string := "System was converted to authselect with the following call: "

  /** What a run of the actor does: the argument vector it runs, if any, and the reports it produces. */
  datatype Effect = Effect(argv: Option<seq<string>>, reports: seq<Report>)

  /** The actor on the scanner's `model` and the check's `decision`, when running the call has
      `outcome`. */
  function Apply(model: Authselect, decision: AuthselectDecision, outcome: RunOutcome): (e: Effect)
    // Without a confirmed decision and a profile, nothing runs and nothing is reported.
    ensures e.argv.None? <==> (!decision.confirmed || model.profile.None?)
    ensures e.argv.None? ==> e.reports == []
    // Otherwise the words of the call run, and exactly one report says how it went.
    ensures e.argv.Some? ==> (e.argv.value == Argv(model.profile.value, model.features) && |e.reports| == 1)
    ensures e.argv.Some? && outcome.Raised? ==> e.reports == [Generic(FailedTitle, outcome.message)]
    ensures e.argv.Some? && outcome.Returned? ==>
      (e.reports[0].Generic? && e.reports[0].title == ConvertedTitle
       && Contains(e.reports[0].summary, Command(model.profile.value, model.features)))
  {
    if !decision.confirmed || model.profile.None? then Effect(None, [])
    else
      var command := Command(model.profile.value, model.features);
      var report := match outcome
        case Raised(message) => Generic(FailedTitle, message)
        case Returned => Generic(ConvertedTitle, ConvertedLead + command);
      ContainsSuffix(ConvertedLead, command);
      Effect(Some(Argv(model.profile.value, model.features)), [report])
  }

  /** The two actors together: a call runs exactly when the check confirmed it, and the words that run
      are those of the call the check showed and reported, whenever the suggestion has features made
      of single words. */
  lemma CheckedCallIsApplied(model: Authselect, caption: string, answer: Option<bool>, outcome: RunOutcome)
    ensures Apply(model, AuthselectCheck.Check(model, caption, answer).decision, outcome).argv.Some?
        <==> AuthselectCheck.Check(model, caption, answer).decision.confirmed
    ensures AuthselectCheck.Check(model, caption, answer).decision.confirmed
            && model.features != [] && ' ' !in model.profile.value
            && (forall i :: 0 <= i < |model.features| ==> ' ' !in model.features[i]) ==>
      Apply(model, AuthselectCheck.Check(model, caption, answer).decision, outcome).argv
        == Some(Split(Command(model.profile.value, model.features), ' '))
  {
    var out := AuthselectCheck.Check(model, caption, answer);
    if out.decision.confirmed && model.features != [] && ' ' !in model.profile.value
       && (forall i :: 0 <= i < |model.features| ==> ' ' !in model.features[i]) {
      ArgvAgrees(model.profile.value, model.features);
    }
  }

  /** The actor. */
  class AuthselectApply {
    var command: Option<string>
    var runs: seq<seq<string>>
    var reports: seq<Report>

    constructor ()
      ensures command.None? && runs == [] && reports == []
    {
      command := None;
      runs := [];
      reports := [];
    }

    /** `process`: the gate, the call, and the report on how it went. */
    method Process(model: Authselect, decision: AuthselectDecision, outcome: RunOutcome)
      modifies this
      ensures Apply(model, decision, outcome).argv.None? ==>
        (runs == old(runs) && reports == old(reports) && command == old(command))
      ensures Apply(model, decision, outcome).argv.Some? ==>
        (runs == old(runs) + [Apply(model, decision, outcome).argv.value]
         && reports == old(reports) + Apply(model, decision, outcome).reports
         && command == Some(Command(model.profile.value, model.features)))
    {
      if !decision.confirmed || model.profile.None? {
        return;
      }
      command := Some(Command(model.profile.value, model.features));
      runs := runs + [Argv(model.profile.value, model.features)];
      match outcome {
        case Raised(message) =>
          Failure(message);
          return;
        case Returned =>
      }
      Success();
    }

    /** `failure`: reports the exception's text. */
    method Failure(message: string)
      modifies this
      ensures reports == old(reports) + [Generic(FailedTitle, message)]
      ensures command == old(command) && runs == old(runs)
    {
      reports := reports + [Generic(FailedTitle, message)];
    }

    /** `success`: reports the call that converted the system. */
    method Success()
      requires command.Some?
      modifies this
      ensures command == old(command) && runs == old(runs)
      ensures reports == old(reports) + [Generic(ConvertedTitle, ConvertedLead + command.value)]
    {
      reports := reports + [Generic(ConvertedTitle, ConvertedLead + command.value)];
    }
  }
}
