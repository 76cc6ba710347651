/** The check of the deprecated PAM modules (`actors/removeoldpammodulescheck/actor.py`): for every
    module the scanner listed it asks the administrator whether the module may be commented out, and
    stops the upgrade for every refusal. */
module RemovedPamCheck {
  import opened Failures
  import opened FileSystem
  import opened Pam
  import opened Reporting

  /** The labels of the two dialogs, both with default answer False. */
  const Labels: seq<string> := [
    "Disable pam_pkcs11 module in PAM configuration? If no, the upgrade process will be interrupted.",
    "Disable pam_krb5 module in PAM configuration? If no, the upgrade process will be interrupted."
  ]

  /** `confirm`'s map: the dialog asked for a module; any other name is a `KeyError`. */
  function DialogFor(name: string): (r: Result<nat>)
    ensures r == Ok(0) <==> name == "pam_pkcs11"
    ensures r == Ok(1) <==> name == "pam_krb5"
    ensures r.Ok? ==> r.value < |Labels|
    ensures r.Err? <==> name != "pam_pkcs11" && name != "pam_krb5"
    ensures r.Err? ==> r.failure == KeyError(name)
  {
    if name == "pam_pkcs11" then Ok(0)
    else if name == "pam_krb5" then Ok(1)
    else Err(KeyError(name))
  }

  /** The inhibitor every refusal produces; it does not name the module. */
  const Refused: Inhibitor := Inhibitor(
    "Upgrade process was interrupted because there are some unsupported PAM modules in configuration.",
    "SA user chose to interrupt the upgrade.",
    "Remove pam_pkcs11 and pam_krb5 from PAM configuration and replace them with SSSD.")

  /** The details of the report, around the module's name. */
  const DetailsMiddle: string :=
    " was surpassed by SSSD and therefore it was removed from RHEL-8. Keeping it in PAM configuration "
    + "may lock out the system thus it will be automatically removed from PAM configuration before "
    + "upgrading to RHEL-8. Please switch to SSSD to recover the functionality of "

  /** `produce_report`: an informational, passing report about the module that will be commented out. */
  function Accepted(name: string): (r: Report)
    ensures r.Record? && r.severity == Some("Info") && r.result == "Pass"
    ensures r.summary == "Module " + name + " will be removed from PAM configuration"
    ensures r.details == "Module " + name + DetailsMiddle + name + "."
    ensures r.solutions == "Configure SSSD to replace " + name
  {
    Record(Some("Info"), "Pass",
           "Module " + name + " will be removed from PAM configuration",
           "Module " + name + DetailsMiddle + name + ".",
           "Configure SSSD to replace " + name)
  }

  /** A produced message. */
  datatype Message = Reported(report: Report) | Inhibited(inhibitor: Inhibitor)

  /** The message for one module, given the answer to its dialog: `.get('confirm', False)`, so no
      answer is a refusal. */
  function Answered(name: string, answer: Option<bool>): Message {
    if answer == Some(true) then Reported(Accepted(name)) else Inhibited(Refused)
  }

  /** What the loop leaves: the messages produced, the dialogs asked (by index), and the exception
      that ended it, if one did. */
  datatype Run = Run(messages: seq<Message>, asked: seq<nat>, failure: Option<Failure>)

  /** The loop over the listed modules, `answers[i]` being the answer to the i-th request. */
  function Confirmations(names: seq<string>, answers: seq<Option<bool>>): (r: Run)
    requires |answers| == |names|
    ensures |r.messages| == |r.asked| <= |names|
  {
    if names == [] then Run([], [], None)
    else
      var n := |names| - 1;
      var prior := Confirmations(names[..n], answers[..n]);
      if prior.failure.Some? then prior
      else
        match DialogFor(names[n])
        case Err(e) => Run(prior.messages, prior.asked, Some(e))
        case Ok(d) => Run(prior.messages + [Answered(names[n], answers[n])], prior.asked + [d], None)
  }

  /** One request per listed module, in list order, and one report or inhibitor for each, until a
      module without a dialog raises `KeyError`. */
  lemma ConfirmationsFacts(names: seq<string>, answers: seq<Option<bool>>)
    requires |answers| == |names|
    ensures var r := Confirmations(names, answers);
      forall i :: 0 <= i < |r.messages| ==>
        DialogFor(names[i]).Ok? && r.asked[i] == DialogFor(names[i]).value
        && r.messages[i] == Answered(names[i], answers[i])
    ensures var r := Confirmations(names, answers);
      r.failure.None? <==> forall i :: 0 <= i < |names| ==> DialogFor(names[i]).Ok?
    ensures var r := Confirmations(names, answers); r.failure.None? ==> |r.messages| == |names|
    ensures var r := Confirmations(names, answers);
      r.failure.Some? ==>
        (|r.messages| < |names| && DialogFor(names[|r.messages|]).Err?
         && r.failure == Some(KeyError(names[|r.messages|])))
  {
    ConfirmationsMessages(names, answers);
    ConfirmationsFailure(names, answers);
  }

  /** The i-th message and request are those of the i-th module. */
  lemma {:induction false} ConfirmationsMessages(names: seq<string>, answers: seq<Option<bool>>)
    requires |answers| == |names|
    ensures var r := Confirmations(names, answers);
      forall i :: 0 <= i < |r.messages| ==>
        DialogFor(names[i]).Ok? && r.asked[i] == DialogFor(names[i]).value
        && r.messages[i] == Answered(names[i], answers[i])
  {
    if names != [] {
      var n := |names| - 1;
      var init, initAnswers := names[..n], answers[..n];
      ConfirmationsMessages(init, initAnswers);
      var prior := Confirmations(init, initAnswers);
      var r := Confirmations(names, answers);
      if prior.failure.None? && DialogFor(names[n]).Ok? {
        ConfirmationsFailure(init, initAnswers);
        assert r.messages == prior.messages + [Answered(names[n], answers[n])];
        assert r.asked == prior.asked + [DialogFor(names[n]).value];
        forall i | 0 <= i < |r.messages|
          ensures DialogFor(names[i]).Ok? && r.asked[i] == DialogFor(names[i]).value
          ensures r.messages[i] == Answered(names[i], answers[i])
        {
          if i < n {
            assert init[i] == names[i] && initAnswers[i] == answers[i];
            assert r.messages[i] == prior.messages[i] && r.asked[i] == prior.asked[i];
          }
        }
      } else {
        assert r.messages == prior.messages && r.asked == prior.asked;
        forall i | 0 <= i < |r.messages|
          ensures DialogFor(names[i]).Ok? && r.asked[i] == DialogFor(names[i]).value
          ensures r.messages[i] == Answered(names[i], answers[i])
        {
          assert init[i] == names[i] && initAnswers[i] == answers[i];
        }
      }
    }
  }

  /** The loop ends early exactly when some module has no dialog, and then at the first such module,
      with its `KeyError`. */
  lemma {:induction false} ConfirmationsFailure(names: seq<string>, answers: seq<Option<bool>>)
    requires |answers| == |names|
    ensures var r := Confirmations(names, answers);
      r.failure.None? <==> forall i :: 0 <= i < |names| ==> DialogFor(names[i]).Ok?
    ensures var r := Confirmations(names, answers); r.failure.None? ==> |r.messages| == |names|
    ensures var r := Confirmations(names, answers);
      r.failure.Some? ==>
        (|r.messages| < |names| && DialogFor(names[|r.messages|]).Err?
         && r.failure == Some(KeyError(names[|r.messages|])))
  {
    if names != [] {
      var n := |names| - 1;
      var init, initAnswers := names[..n], answers[..n];
      ConfirmationsFailure(init, initAnswers);
      assert forall i :: 0 <= i < n ==> init[i] == names[i];
    }
  }

  lemma {:induction false} ConfirmationsStop(names: seq<string>, answers: seq<Option<bool>>, j: nat)
    requires |answers| == |names| && j <= |names|
    requires Confirmations(names[..j], answers[..j]).failure.Some?
    ensures Confirmations(names, answers) == Confirmations(names[..j], answers[..j])
  {
    if j < |names| {
      var n := |names| - 1;
      var init, initAnswers := names[..n], answers[..n];
      assert init[..j] == names[..j] && initAnswers[..j] == answers[..j];
      ConfirmationsStop(init, initAnswers, j);
      assert Confirmations(init, initAnswers).failure.Some?;
    } else {
      assert names[..j] == names && answers[..j] == answers;
    }
  }

  /** One turn of the loop: the module's dialog is asked and its message added, or the loop stops. */
  lemma ConfirmationsStep(names: seq<string>, answers: seq<Option<bool>>, i: nat)
    requires |answers| == |names| && i < |names|
    requires Confirmations(names[..i], answers[..i]).failure.None?
    ensures var prior, next := Confirmations(names[..i], answers[..i]), Confirmations(names[..i + 1], answers[..i + 1]);
      DialogFor(names[i]).Ok? ==>
        next == Run(prior.messages + [Answered(names[i], answers[i])], prior.asked + [DialogFor(names[i]).value], None)
    ensures var prior, next := Confirmations(names[..i], answers[..i]), Confirmations(names[..i + 1], answers[..i + 1]);
      DialogFor(names[i]).Err? ==> next == Run(prior.messages, prior.asked, Some(KeyError(names[i])))
  {
    var p, q := names[..i + 1], answers[..i + 1];
    assert p[..i] == names[..i] && q[..i] == answers[..i];
    assert p[i] == names[i] && q[i] == answers[i];
  }

  /** The number of reports and inhibitors is the number of modules, and each module's message is a
      report exactly when its answer is yes. */
  lemma OneMessagePerModule(names: seq<string>, answers: seq<Option<bool>>, i: int)
    requires |answers| == |names|
    requires forall k :: 0 <= k < |names| ==> names[k] == "pam_pkcs11" || names[k] == "pam_krb5"
    requires 0 <= i < |names|
    ensures |Confirmations(names, answers).messages| == |names|
    ensures Confirmations(names, answers).messages[i].Reported? <==> answers[i] == Some(true)
    ensures Confirmations(names, answers).messages[i].Inhibited? ==>
      Confirmations(names, answers).messages[i].inhibitor == Refused
    ensures Confirmations(names, answers).messages[i].Reported? ==>
      Confirmations(names, answers).messages[i].report.summary
        == "Module " + names[i] + " will be removed from PAM configuration"
  {
    ConfirmationsFacts(names, answers);
    assert forall k :: 0 <= k < |names| ==> DialogFor(names[k]).Ok?;
  }

  /** The actor. */
  class RemovedPamCheck {
    var pam: Pam?
    var messages: seq<Message>
    /** The dialogs asked so far, by their index in the actor's dialogs. */
    var asked: seq<nat>

    constructor ()
      ensures pam == null && messages == [] && asked == []
    {
      pam := null;
      messages := [];
      asked := [];
    }

    /** `process`: loads the PAM configuration, whose failure is raised before any dialog, then one
        confirmation and one message per listed module. */
    method Process(fs: Fs, names: seq<string>, answers: seq<Option<bool>>) returns (r: Result<()>)
      requires |answers| == |names|
      modifies this
      ensures ReadAll(fs, Files).Err? ==>
        (r == Err(ReadAll(fs, Files).failure) && messages == old(messages) && asked == old(asked))
      ensures ReadAll(fs, Files).Ok? ==>
        (messages == old(messages) + Confirmations(names, answers).messages
         && asked == old(asked) + Confirmations(names, answers).asked
         && (r.Err? <==> Confirmations(names, answers).failure.Some?)
         && (r.Err? ==> r.failure == Confirmations(names, answers).failure.value))
    {
      var loaded := Pam.FromSystemConfiguration(fs);
      if loaded.Err? {
        return Err(loaded.failure);
      }
      pam := loaded.value;
      r := AskAll(names, answers);
    }

    /** The loop of `process`. */
    method AskAll(names: seq<string>, answers: seq<Option<bool>>) returns (r: Result<()>)
      requires |answers| == |names|
      modifies this
      ensures pam == old(pam)
      ensures messages == old(messages) + Confirmations(names, answers).messages
      ensures asked == old(asked) + Confirmations(names, answers).asked
      ensures r.Err? <==> Confirmations(names, answers).failure.Some?
      ensures r.Err? ==> r.failure == Confirmations(names, answers).failure.value
    {
      var i := 0;
      while i < |names|
        invariant pam == old(pam)
        invariant 0 <= i <= |names|
        invariant Confirmations(names[..i], answers[..i]).failure.None?
        invariant messages == old(messages) + Confirmations(names[..i], answers[..i]).messages
        invariant asked == old(asked) + Confirmations(names[..i], answers[..i]).asked
      {
        ConfirmationsStep(names, answers, i);
        var result := Turn(names[i], answers[i]);
        if result.Err? {
          ConfirmationsStop(names, answers, i + 1);
          return result;
        }
        i := i + 1;
      }
      assert names[..i] == names && answers[..i] == answers;
      return Ok(());
    }

    /** One turn of the loop: the confirmation, then the report or the inhibitor. */
    method Turn(name: string, answer: Option<bool>) returns (r: Result<()>)
      modifies this
      ensures pam == old(pam)
      ensures DialogFor(name).Err? ==>
        r == Err(KeyError(name)) && messages == old(messages) && asked == old(asked)
      ensures DialogFor(name).Ok? ==>
        (r == Ok(()) && messages == old(messages) + [Answered(name, answer)]
         && asked == old(asked) + [DialogFor(name).value])
    {
      var result := Confirm(name, answer);
      if result.Err? {
        return Err(result.failure);
      }
      if result.value {
        ProduceReport(name);
      } else {
        messages := messages + [Inhibited(Refused)];
      }
      return Ok(());
    }

    /** `confirm`: looks the module's dialog up, asks it, and reads `confirm` with default False. */
    method Confirm(name: string, answer: Option<bool>) returns (r: Result<bool>)
      modifies this
      ensures pam == old(pam) && messages == old(messages)
      ensures DialogFor(name).Err? ==> r == Err(DialogFor(name).failure) && asked == old(asked)
      ensures DialogFor(name).Ok? ==>
        (asked == old(asked) + [DialogFor(name).value] && r == Ok(answer == Some(true)))
    {
      var dialog := DialogFor(name);
      if dialog.Err? {
        return Err(dialog.failure);
      }
      asked := asked + [dialog.value];
      var confirmed := match answer case Some(b) => b case None => false;
      return Ok(confirmed);
    }

    /** `produce_report` */
    method ProduceReport(name: string)
      modifies this
      ensures pam == old(pam) && asked == old(asked)
      ensures messages == old(messages) + [Reported(Accepted(name))]
    {
      messages := messages + [Reported(Accepted(name))];
    }
  }
}
