/** The messages between the three authselect actors (`models/authselect.py`), and the authselect call
    that the check and the apply actors both build from an `Authselect` message. */
module AuthselectModel {
  import opened Text
  import opened Failures

  /** `Authselect`: the suggested profile (None: keep the configuration), its features, and whether the
      administrator has to confirm the change. */
  datatype Authselect = Authselect(profile: Option<string>, features: seq<string>, confirm: bool)

  /** `AuthselectDecision`: whether authselect is to be called after the upgrade. */
  datatype AuthselectDecision = AuthselectDecision(confirmed: bool)

  /** The field defaults: no profile, no features, confirmation required. */
  function DefaultAuthselect(): (a: Authselect)
    ensures a.profile.None? && a.features == [] && a.confirm
  {
    Authselect(None, [], true)
  }

  /** The field default: nothing is to be applied. */
  function DefaultDecision(): (d: AuthselectDecision)
    ensures !d.confirmed
  {
    AuthselectDecision(false)
  }

  /** `'authselect select {0} {1} --force'.format(profile, ' '.join(features))`. */
  function Command(profile: string, features: seq<string>): string {
    "authselect select " + profile + " " + Join(features, ' ') + " --force"
  }

  /** The words the call is made of: the two command words, the profile, each feature, `--force`. */
  function Words(profile: string, features: seq<string>): seq<string> {
    ["authselect", "select", profile] + features + ["--force"]
  }

  /** With at least one feature, the command is its words joined by single spaces; with none, the empty
      join leaves two spaces before `--force`. */
  lemma CommandWords(profile: string, features: seq<string>)
    ensures features != [] ==> Command(profile, features) == Join(Words(profile, features), ' ')
    ensures features == [] ==> Command(profile, features) == "authselect select " + profile + "  --force"
  {
    var head := ["authselect", "select", profile];
    assert Join(["--force"], ' ') == "--force";
    HeadJoin(profile);
    if features != [] {
      JoinAppend(head, features, ' ');
      JoinAppend(head + features, ["--force"], ' ');
      assert Words(profile, features) == (head + features) + ["--force"];
    }
  }

  lemma HeadJoin(profile: string)
    ensures Join(["authselect", "select", profile], ' ') == "authselect select " + profile
  {
    var head := ["authselect", "select", profile];
    assert head[1..] == ["select", profile];
    assert head[1..][1..] == [profile];
    assert Join(["select", profile], ' ') == "select" + [' '] + profile;
    assert "authselect" + [' '] + ("select" + [' '] + profile) == "authselect select " + profile;
  }

  /** The argument vector the apply actor hands to `run` as its authors meant it: the words of the call. */
  function Argv(profile: string, features: seq<string>): (argv: seq<string>)
    ensures |argv| == |features| + 4 && argv[2] == profile && argv[|argv| - 1] == "--force"
    ensures forall i :: 0 <= i < |features| ==> argv[3 + i] == features[i]
  {
    Words(profile, features)
  }

  /** `self.command.split(' ')`, as written. */
  function ArgvAsWritten(profile: string, features: seq<string>): seq<string> {
    Split(Command(profile, features), ' ')
  }

  /** Splitting the command gives back its words when there is a feature and no word holds a space:
      the two agree on every call the scanner can suggest with features. */
  lemma ArgvAgrees(profile: string, features: seq<string>)
    requires features != []
    requires ' ' !in profile && forall i :: 0 <= i < |features| ==> ' ' !in features[i]
    ensures ArgvAsWritten(profile, features) == Argv(profile, features)
  {
    CommandWords(profile, features);
    var w := Words(profile, features);
    assert forall i :: 0 <= i < |w| ==> ' ' !in w[i] by {
      forall i | 0 <= i < |w| ensures ' ' !in w[i] {
        if 3 <= i < |w| - 1 {
          assert w[i] == features[i - 3];
        }
      }
    }
    SplitJoin(w, ' ');
  }

  /** Finding: without features, `run` receives an empty argument between the profile and `--force`. */
  lemma EmptyFeatureArgument(profile: string)
    requires ' ' !in profile
    ensures ArgvAsWritten(profile, []) == ["authselect", "select", profile, "", "--force"]
    ensures ArgvAsWritten(profile, []) != Argv(profile, [])
  {
    CommandWords(profile, []);
    var head, tail := ["authselect", "select", profile], ["", "--force"];
    var parts := head + tail;
    assert parts == ["authselect", "select", profile, "", "--force"];
    HeadJoin(profile);
    JoinAppend(head, tail, ' ');
    assert tail[1..] == ["--force"];
    assert Join(tail, ' ') == [' '] + "--force";
    assert "authselect select " + profile + [' '] + ([' '] + "--force") == "authselect select " + profile + "  --force";
    assert forall i :: 0 <= i < |parts| ==> ' ' !in parts[i] by {
      assert ' ' !in "authselect" && ' ' !in "select" && ' ' !in "--force";
    }
    SplitJoin(parts, ' ');
  }
}
