/** The authselect scanner (`actors/authselectscanner/actor.py`): from the PAM stack, the authconfig and
    dconf settings, `nsswitch.conf` and whether `ypbind` is enabled, the authselect call to suggest and
    whether the administrator has to confirm it. */
module AuthselectScanner {
  import opened Text
  import opened Failures
  import opened FileSystem
  import opened Pam
  import CF = ConfigFile
  import opened AuthselectModel

  /** `known_modules`: the PAM modules an authselect profile can stand in for. */
  const KnownModules: seq<string> := [
    "pam_access", "pam_deny", "pam_ecryptfs", "pam_env", "pam_faildelay", "pam_faillock",
    "pam_fprintd", "pam_keyinit", "pam_krb5", "pam_lastlog", "pam_limits", "pam_localuser",
    "pam_mkhomedir", "pam_oddjob_mkhomedir", "pam_permit", "pam_pkcs11", "pam_pwquality", "pam_sss",
    "pam_succeed_if", "pam_systemd", "pam_u2f", "pam_umask", "pam_unix", "pam_winbind"
  ]

  /** The `pam_map` of `step_detect_features`: a module and the feature it calls for. */
  const FeatureTable: seq<(string, string)> := [
    ("pam_faillock", "with-faillock"),
    ("pam_fprintd", "with-fingerprint"),
    ("pam_access", "with-pamaccess"),
    ("pam_mkhomedir", "with-mkhomedir"),
    ("pam_oddjob_mkhomedir", "with-mkhomedir")
  ]

  /** The `links` of `step_detect_if_confirmation_is_required`: each PAM file and the authconfig file it
      has to be a link to. */
  const Links: seq<(string, string)> := [
    ("/etc/pam.d/fingerprint-auth", "/etc/pam.d/fingerprint-auth-ac"),
    ("/etc/pam.d/password-auth", "/etc/pam.d/password-auth-ac"),
    ("/etc/pam.d/postlogin", "/etc/pam.d/postlogin-ac"),
    ("/etc/pam.d/smartcard-auth", "/etc/pam.d/smartcard-auth-ac"),
    ("/etc/pam.d/system-auth", "/etc/pam.d/system-auth-ac")
  ]

  const Nsswitch: string := "/etc/nsswitch.conf"

  /** The file authconfig writes, whose presence and age show that authconfig made the configuration. */
  const Sysconfig: string := "/etc/sysconfig/authconfig"

  /** The path the source tests instead, misspelled. */
  const SysconfigAsWritten: string := "/etc/sysconfig/authconfg"

  /** `step_detect_profile`: a profile is suggested only when exactly one of the three signals holds. */
  function ProfileOf(sss: bool, winbind: bool, nis: bool): (r: Option<string>)
    ensures r.Some? <==> (if sss then 1 else 0) + (if winbind then 1 else 0) + (if nis then 1 else 0) == 1
    ensures r == Some("sssd") <==> sss && !winbind && !nis
    ensures r == Some("winbind") <==> !sss && winbind && !nis
    ensures r == Some("nis") <==> !sss && !winbind && nis
  {
    if sss && !winbind && !nis then Some("sssd")
    else if !sss && winbind && !nis then Some("winbind")
    else if !sss && !winbind && nis then Some("nis")
    else None
  }

  /** The profile the PAM stack and `ypbind` call for. */
  function DetectProfile(modules: seq<string>, ypbind: bool): Option<string> {
    ProfileOf("pam_sss" in modules, "pam_winbind" in modules, ypbind)
  }

  /** The features of the first `n` rows of the table, in table order. */
  function TableFeaturesUpTo(modules: seq<string>, n: nat): seq<string>
    requires n <= |FeatureTable|
  {
    if n == 0 then []
    else TableFeaturesUpTo(modules, n - 1)
         + (if FeatureTable[n - 1].0 in modules then [FeatureTable[n - 1].1] else [])
  }

  function TableFeatures(modules: seq<string>): seq<string> {
    TableFeaturesUpTo(modules, |FeatureTable|)
  }

  /** `^[ \t]*sudoers[ \t]*:.*sss.*$` on one line: `sudoers` after the indentation, blanks, a colon, and
      `sss` somewhere after the colon. */
  predicate SudoLine(line: string) {
    var n := Indent(line);
    OccursAt(line, "sudoers", n)
    && var m := n + 7 + Indent(line[n + 7..]);
    m < |line| && line[m] == ':' && Contains(line[m + 1..], "sss")
  }

  /** The `re.search` of `step_detect_sssd_features` finds a line. */
  predicate SudoEnabled(text: string) {
    var lines := Split(text, '\n');
    exists i :: 0 <= i < |lines| && SudoLine(lines[i])
  }

  /** What `step_detect_sssd_features` adds, given the `nsswitch.conf` text: the sudo feature, and the
      smartcard features unless `pam_pkcs11` handles smartcards. Nothing for another profile. */
  function SssdFeatures(profile: Option<string>, modules: seq<string>, ac: map<string, string>,
                        dconf: map<string, string>, nsswitch: string): seq<string>
  {
    if profile != Some("sssd") then []
    else
      var smartcard := "pam_pkcs11" !in modules;
      SssdFeatureList(SudoEnabled(nsswitch), smartcard && CF.BoolValue(ac, "yes", "USESMARTCARD"),
                      smartcard && CF.BoolValue(ac, "yes", "FORCESMARTCARD"),
                      smartcard && CF.StringValue(dconf, "removal-action") == Some("lock-screen"))
  }

  /** The sssd features, each added when its condition holds, in the order the step adds them. */
  function SssdFeatureList(sudo: bool, smartcard: bool, required: bool, lock: bool): seq<string> {
    (if sudo then ["with-sudo"] else [])
    + (if smartcard then ["with-smartcard"] else [])
    + (if required then ["with-smartcard-required"] else [])
    + (if lock then ["with-smartcard-lock-on-removal"] else [])
  }

  lemma SssdFeatureListRules(sudo: bool, smartcard: bool, required: bool, lock: bool)
    ensures var f := SssdFeatureList(sudo, smartcard, required, lock);
      ("with-sudo" in f <==> sudo) && ("with-smartcard" in f <==> smartcard)
      && ("with-smartcard-required" in f <==> required) && ("with-smartcard-lock-on-removal" in f <==> lock)
      && "with-faillock" !in f && "with-fingerprint" !in f && "with-pamaccess" !in f
      && "with-mkhomedir" !in f && "with-krb5" !in f
  {
  }

  /** What `step_detect_winbind_features` adds. */
  function WinbindFeatures(profile: Option<string>, ac: map<string, string>): seq<string> {
    if profile == Some("winbind") && CF.BoolValue(ac, "yes", "WINBINDKRB5") then ["with-krb5"] else []
  }

  /** `step_detect_sssd_features` as written: without `pam_pkcs11` the smartcard flags come from
      `get_bool`, which raises before any smartcard feature is added. */
  function SssdFeaturesAsWritten(profile: Option<string>, modules: seq<string>, ac: map<string, string>,
                                 dconf: map<string, string>, nsswitch: string): Result<seq<string>>
  {
    if profile != Some("sssd") then Ok([])
    else if "pam_pkcs11" in modules then Ok(SssdFeatureList(SudoEnabled(nsswitch), false, false, false))
    else
      match CF.BoolValueAsWritten(ac, "yes", "USESMARTCARD")
      case Err(e) => Err(e)
      case Ok(use) =>
        match CF.BoolValueAsWritten(ac, "yes", "FORCESMARTCARD")
        case Err(e) => Err(e)
        case Ok(force) =>
          Ok(SssdFeatureList(SudoEnabled(nsswitch), use, force,
                             CF.StringValue(dconf, "removal-action") == Some("lock-screen")))
  }

  /** `step_detect_winbind_features` as written: the `WINBINDKRB5` flag comes from `get_bool`. */
  function WinbindFeaturesAsWritten(profile: Option<string>, ac: map<string, string>): Result<seq<string>> {
    if profile != Some("winbind") then Ok([])
    else
      match CF.BoolValueAsWritten(ac, "yes", "WINBINDKRB5")
      case Err(e) => Err(e)
      case Ok(krb5) => Ok(if krb5 then ["with-krb5"] else [])
  }

  /** Finding: as written, every sssd scan without `pam_pkcs11` and every winbind scan raises
      `NameError`; every other scan detects what the intended steps detect. */
  lemma DetectionRaisesAsWritten(profile: Option<string>, modules: seq<string>, ac: map<string, string>,
                                 dconf: map<string, string>, nsswitch: string)
    ensures SssdFeaturesAsWritten(profile, modules, ac, dconf, nsswitch).Err?
      <==> profile == Some("sssd") && "pam_pkcs11" !in modules
    ensures WinbindFeaturesAsWritten(profile, ac).Err? <==> profile == Some("winbind")
    ensures SssdFeaturesAsWritten(profile, modules, ac, dconf, nsswitch).Err?
      ==> SssdFeaturesAsWritten(profile, modules, ac, dconf, nsswitch).failure == NameError("option")
    ensures WinbindFeaturesAsWritten(profile, ac).Err?
      ==> WinbindFeaturesAsWritten(profile, ac).failure == NameError("option")
    ensures SssdFeaturesAsWritten(profile, modules, ac, dconf, nsswitch).Ok?
      ==> SssdFeaturesAsWritten(profile, modules, ac, dconf, nsswitch).value
          == SssdFeatures(profile, modules, ac, dconf, nsswitch)
    ensures WinbindFeaturesAsWritten(profile, ac).Ok? ==> WinbindFeaturesAsWritten(profile, ac).value == []
  {
  }

  /** The `nsswitch.conf` text, read only for the sssd profile. */
  function NsswitchText(fs: Fs, profile: Option<string>): Result<string> {
    if profile == Some("sssd") then ReadFile(fs, Nsswitch) else Ok("")
  }

  /** All features the detection steps add, in the order they add them. */
  function Features(modules: seq<string>, profile: Option<string>, ac: map<string, string>,
                    dconf: map<string, string>, nsswitch: string): seq<string>
  {
    TableFeatures(modules) + SssdFeatures(profile, modules, ac, dconf, nsswitch) + WinbindFeatures(profile, ac)
  }

  /** The table, written out. */
  lemma TableFeaturesExplicit(modules: seq<string>)
    ensures TableFeatures(modules)
            == (if "pam_faillock" in modules then ["with-faillock"] else [])
               + (if "pam_fprintd" in modules then ["with-fingerprint"] else [])
               + (if "pam_access" in modules then ["with-pamaccess"] else [])
               + (if "pam_mkhomedir" in modules then ["with-mkhomedir"] else [])
               + (if "pam_oddjob_mkhomedir" in modules then ["with-mkhomedir"] else [])
  {
    var f1 := if "pam_faillock" in modules then ["with-faillock"] else [];
    var f2 := if "pam_fprintd" in modules then ["with-fingerprint"] else [];
    var f3 := if "pam_access" in modules then ["with-pamaccess"] else [];
    var f4 := if "pam_mkhomedir" in modules then ["with-mkhomedir"] else [];
    var f5 := if "pam_oddjob_mkhomedir" in modules then ["with-mkhomedir"] else [];
    assert TableFeaturesUpTo(modules, 0) == [];
    assert TableFeaturesUpTo(modules, 1) == [] + f1 == f1;
    assert TableFeaturesUpTo(modules, 2) == f1 + f2;
    assert TableFeaturesUpTo(modules, 3) == f1 + f2 + f3;
    assert TableFeaturesUpTo(modules, 4) == f1 + f2 + f3 + f4;
    assert TableFeaturesUpTo(modules, 5) == f1 + f2 + f3 + f4 + f5;
  }

  /** A feature from the table is detected whatever the profile, exactly when one of its modules is
      present; `with-mkhomedir` has two sources. */
  lemma TableFeatureRules(modules: seq<string>)
    ensures var t := TableFeatures(modules);
      ("with-faillock" in t <==> "pam_faillock" in modules)
      && ("with-fingerprint" in t <==> "pam_fprintd" in modules)
      && ("with-pamaccess" in t <==> "pam_access" in modules)
      && ("with-mkhomedir" in t <==> "pam_mkhomedir" in modules || "pam_oddjob_mkhomedir" in modules)
  {
    TableFeaturesExplicit(modules);
  }

  /** The table gives none of the profile-specific features. */
  lemma TableFeaturesExclude(modules: seq<string>)
    ensures var t := TableFeatures(modules);
      "with-sudo" !in t && "with-smartcard" !in t && "with-smartcard-required" !in t
      && "with-smartcard-lock-on-removal" !in t && "with-krb5" !in t
  {
    TableFeaturesExplicit(modules);
    TableListExcludes("pam_faillock" in modules, "pam_fprintd" in modules, "pam_access" in modules,
                      "pam_mkhomedir" in modules, "pam_oddjob_mkhomedir" in modules);
  }

  lemma TableListExcludes(faillock: bool, fprintd: bool, access: bool, mkhomedir: bool, oddjob: bool)
    ensures var t := (if faillock then ["with-faillock"] else []) + (if fprintd then ["with-fingerprint"] else [])
                     + (if access then ["with-pamaccess"] else []) + (if mkhomedir then ["with-mkhomedir"] else [])
                     + (if oddjob then ["with-mkhomedir"] else []);
      "with-sudo" !in t && "with-smartcard" !in t && "with-smartcard-required" !in t
      && "with-smartcard-lock-on-removal" !in t && "with-krb5" !in t
  {
  }

  /** The sssd features and the condition for each. */
  lemma SssdFeatureRules(profile: Option<string>, modules: seq<string>, ac: map<string, string>,
                         dconf: map<string, string>, nsswitch: string)
    ensures var f := SssdFeatures(profile, modules, ac, dconf, nsswitch);
      ("with-sudo" in f <==> profile == Some("sssd") && SudoEnabled(nsswitch))
      && ("with-smartcard" in f <==>
            profile == Some("sssd") && "pam_pkcs11" !in modules && CF.BoolValue(ac, "yes", "USESMARTCARD"))
      && ("with-smartcard-required" in f <==>
            profile == Some("sssd") && "pam_pkcs11" !in modules && CF.BoolValue(ac, "yes", "FORCESMARTCARD"))
      && ("with-smartcard-lock-on-removal" in f <==>
            profile == Some("sssd") && "pam_pkcs11" !in modules
            && CF.StringValue(dconf, "removal-action") == Some("lock-screen"))
      && "with-faillock" !in f && "with-fingerprint" !in f && "with-pamaccess" !in f
      && "with-mkhomedir" !in f && "with-krb5" !in f
  {
    var smartcard := "pam_pkcs11" !in modules;
    SssdFeatureListRules(SudoEnabled(nsswitch), smartcard && CF.BoolValue(ac, "yes", "USESMARTCARD"),
                         smartcard && CF.BoolValue(ac, "yes", "FORCESMARTCARD"),
                         smartcard && CF.StringValue(dconf, "removal-action") == Some("lock-screen"));
  }

  /** The winbind feature and its condition; no other feature comes from this step. */
  lemma WinbindFeatureRules(profile: Option<string>, ac: map<string, string>)
    ensures var w := WinbindFeatures(profile, ac);
      ("with-krb5" in w <==> profile == Some("winbind") && CF.BoolValue(ac, "yes", "WINBINDKRB5"))
      && "with-faillock" !in w && "with-fingerprint" !in w && "with-pamaccess" !in w && "with-mkhomedir" !in w
      && "with-sudo" !in w && "with-smartcard" !in w && "with-smartcard-required" !in w
      && "with-smartcard-lock-on-removal" !in w
  {
    WinbindListExcludes(profile == Some("winbind") && CF.BoolValue(ac, "yes", "WINBINDKRB5"));
  }

  lemma WinbindListExcludes(krb5: bool)
    ensures var w := if krb5 then ["with-krb5"] else [];
      ("with-krb5" in w <==> krb5)
      && "with-faillock" !in w && "with-fingerprint" !in w && "with-pamaccess" !in w && "with-mkhomedir" !in w
      && "with-sudo" !in w && "with-smartcard" !in w && "with-smartcard-required" !in w
      && "with-smartcard-lock-on-removal" !in w
  {
  }

  /** Every feature the scanner detects, and the condition under which it does. */
  lemma FeatureRules(modules: seq<string>, profile: Option<string>, ac: map<string, string>,
                     dconf: map<string, string>, nsswitch: string)
    ensures var f := Features(modules, profile, ac, dconf, nsswitch);
      ("with-faillock" in f <==> "pam_faillock" in modules)
      && ("with-fingerprint" in f <==> "pam_fprintd" in modules)
      && ("with-pamaccess" in f <==> "pam_access" in modules)
      && ("with-mkhomedir" in f <==> "pam_mkhomedir" in modules || "pam_oddjob_mkhomedir" in modules)
      && ("with-sudo" in f <==> profile == Some("sssd") && SudoEnabled(nsswitch))
      && ("with-smartcard" in f <==>
            profile == Some("sssd") && "pam_pkcs11" !in modules && CF.BoolValue(ac, "yes", "USESMARTCARD"))
      && ("with-smartcard-required" in f <==>
            profile == Some("sssd") && "pam_pkcs11" !in modules && CF.BoolValue(ac, "yes", "FORCESMARTCARD"))
      && ("with-smartcard-lock-on-removal" in f <==>
            profile == Some("sssd") && "pam_pkcs11" !in modules
            && CF.StringValue(dconf, "removal-action") == Some("lock-screen"))
      && ("with-krb5" in f <==> profile == Some("winbind") && CF.BoolValue(ac, "yes", "WINBINDKRB5"))
  {
    var t, sssd, w := TableFeatures(modules), SssdFeatures(profile, modules, ac, dconf, nsswitch),
                      WinbindFeatures(profile, ac);
    TableFeatureRules(modules);
    TableFeaturesExclude(modules);
    SssdFeatureRules(profile, modules, ac, dconf, nsswitch);
    WinbindFeatureRules(profile, ac);
    assert forall x :: x in Features(modules, profile, ac, dconf, nsswitch) <==> x in t || x in sssd || x in w;
  }

  /** The facts `process` loads first: the authconfig and dconf options and the PAM modules. */
  datatype Facts = Facts(ac: map<string, string>, dconf: map<string, string>, modules: seq<string>)

  function LoadFacts(fs: Fs): Result<Facts> {
    var ac :- ReadFile(fs, CF.AuthconfigPath);
    var dconf :- ReadFile(fs, CF.DConfPath);
    var pam :- ReadAll(fs, Files);
    Ok(Facts(CF.Options(ac, "yes", "no"), CF.Options(dconf, "true", "false"), ParseModules(pam)))
  }

  lemma LoadFactsOk(fs: Fs, ac: map<string, string>, dconf: map<string, string>, modules: seq<string>)
    requires ReadFile(fs, CF.AuthconfigPath).Ok? && ac == CF.Options(ReadFile(fs, CF.AuthconfigPath).value, "yes", "no")
    requires ReadFile(fs, CF.DConfPath).Ok? && dconf == CF.Options(ReadFile(fs, CF.DConfPath).value, "true", "false")
    requires ReadAll(fs, Files).Ok? && modules == ParseModules(ReadAll(fs, Files).value)
    ensures LoadFacts(fs) == Ok(Facts(ac, dconf, modules))
  {
  }

  lemma LoadFactsFails(fs: Fs)
    ensures ReadFile(fs, CF.AuthconfigPath).Err? ==> LoadFacts(fs) == Err(ReadFile(fs, CF.AuthconfigPath).failure)
    ensures ReadFile(fs, CF.AuthconfigPath).Ok? && ReadFile(fs, CF.DConfPath).Err? ==>
              LoadFacts(fs) == Err(ReadFile(fs, CF.DConfPath).failure)
    ensures ReadFile(fs, CF.AuthconfigPath).Ok? && ReadFile(fs, CF.DConfPath).Ok? && ReadAll(fs, Files).Err? ==>
              LoadFacts(fs) == Err(ReadAll(fs, Files).failure)
  {
  }

  /** All five PAM files are links to their authconfig files. */
  predicate LinksInPlace(fs: Fs) {
    forall i :: 0 <= i < |Links| ==> IsLink(fs, Links[i].0) && ReadLink(fs, Links[i].0) == Links[i].1
  }

  /** The mtime loop over `links.values()`: true (confirmation needed) at the first file newer than
      `limit`; `getmtime` raises on a file that is not there. */
  function MtimeCheck(fs: Fs, limit: int, targets: seq<string>): (r: Result<bool>)
    ensures r == Ok(false) <==> forall i :: 0 <= i < |targets| ==>
                                  GetMtime(fs, targets[i]).Ok? && GetMtime(fs, targets[i]).value <= limit
    ensures r.Err? ==> exists i :: 0 <= i < |targets| && GetMtime(fs, targets[i]).Err?
  {
    if targets == [] then Ok(false)
    else
      var rest := MtimeCheck(fs, limit, targets[1..]);
      assert forall i :: 1 <= i < |targets| ==> targets[i] == targets[1..][i - 1];
      assert rest.Err? ==> exists i :: 1 <= i < |targets| && GetMtime(fs, targets[i]).Err? by {
        if rest.Err? {
          var j :| 0 <= j < |targets[1..]| && GetMtime(fs, targets[1..][j]).Err?;
          assert GetMtime(fs, targets[j + 1]).Err?;
        }
      }
      match GetMtime(fs, targets[0])
      case Err(e) => Err(e)
      case Ok(m) => if m > limit then Ok(true) else rest
  }

  /** The target exists and is not newer than `limit`: the mtime loop goes on past it. */
  predicate NotNewer(fs: Fs, limit: int, target: string) {
    GetMtime(fs, target).Ok? && GetMtime(fs, target).value <= limit
  }

  /** The raise of the mtime loop, in terms of the order it walks: it raises exactly when a missing target
      comes before any newer one. */
  lemma {:induction false} MtimeCheckRaises(fs: Fs, limit: int, targets: seq<string>)
    ensures MtimeCheck(fs, limit, targets).Err? <==>
      exists i :: 0 <= i < |targets| && GetMtime(fs, targets[i]).Err? &&
        forall j :: 0 <= j < i ==> NotNewer(fs, limit, targets[j])
  {
    if targets != [] {
      var rest := targets[1..];
      MtimeCheckRaises(fs, limit, rest);
      if NotNewer(fs, limit, targets[0]) {
        assert MtimeCheck(fs, limit, targets) == MtimeCheck(fs, limit, rest);
        if MtimeCheck(fs, limit, rest).Err? {
          var k :| 0 <= k < |rest| && GetMtime(fs, rest[k]).Err? &&
            forall j :: 0 <= j < k ==> NotNewer(fs, limit, rest[j]);
          assert forall j :: 0 <= j < k + 1 ==> NotNewer(fs, limit, targets[j]) by {
            forall j | 0 <= j < k + 1 ensures NotNewer(fs, limit, targets[j]) {
              if j > 0 { assert targets[j] == rest[j - 1]; }
            }
          }
          assert GetMtime(fs, targets[k + 1]).Err?;
        } else {
          forall i | 0 < i < |targets| && GetMtime(fs, targets[i]).Err?
            ensures exists j :: 0 <= j < i && !NotNewer(fs, limit, targets[j])
          {
            assert targets[i] == rest[i - 1];
            var j :| 0 <= j < i - 1 && !NotNewer(fs, limit, rest[j]);
            assert targets[j + 1] == rest[j];
          }
        }
      }
    }
  }

  /** What the raise condition means for the order: when no target is missing the outcome does not depend
      on the order, and when one is missing and none is newer every order raises. */
  lemma MtimeCheckOrderFree(fs: Fs, limit: int, targets: seq<string>)
    ensures (forall i :: 0 <= i < |targets| ==> GetMtime(fs, targets[i]).Ok?) ==>
      MtimeCheck(fs, limit, targets) == Ok(exists i :: 0 <= i < |targets| && GetMtime(fs, targets[i]).value > limit)
    ensures (exists i :: 0 <= i < |targets| && GetMtime(fs, targets[i]).Err?) &&
            (forall i :: 0 <= i < |targets| && GetMtime(fs, targets[i]).Ok? ==> NotNewer(fs, limit, targets[i]))
      ==> MtimeCheck(fs, limit, targets).Err?
  {
    MtimeCheckRaises(fs, limit, targets);
    if (exists i :: 0 <= i < |targets| && GetMtime(fs, targets[i]).Err?) &&
       (forall i :: 0 <= i < |targets| && GetMtime(fs, targets[i]).Ok? ==> NotNewer(fs, limit, targets[i])) {
      var i :| 0 <= i < |targets| && GetMtime(fs, targets[i]).Err?;
      var m := FirstMissing(fs, targets, i);
      assert forall j :: 0 <= j < m ==> NotNewer(fs, limit, targets[j]);
    }
  }

  /** The index of the first missing target, given one at `i`. */
  function FirstMissing(fs: Fs, targets: seq<string>, i: nat): (m: nat)
    requires i < |targets| && GetMtime(fs, targets[i]).Err?
    ensures m <= i && GetMtime(fs, targets[m]).Err?
    ensures forall j :: 0 <= j < m ==> GetMtime(fs, targets[j]).Ok?
    decreases i
  {
    if i == 0 || forall j :: 0 <= j < i ==> GetMtime(fs, targets[j]).Ok? then i
    else
      var k :| 0 <= k < i && GetMtime(fs, targets[k]).Err?;
      FirstMissing(fs, targets, k)
  }

  function LinkTargets(): (targets: seq<string>)
    ensures |targets| == |Links| && forall i :: 0 <= i < |Links| ==> targets[i] == Links[i].1
  {
    ["/etc/pam.d/fingerprint-auth-ac", "/etc/pam.d/password-auth-ac", "/etc/pam.d/postlogin-ac",
     "/etc/pam.d/smartcard-auth-ac", "/etc/pam.d/system-auth-ac"]
  }

  /** `step_detect_if_confirmation_is_required`, with `sysconfig` the file it checks. */
  function ConfirmationRequired(fs: Fs, sysconfig: string): Result<bool> {
    if !IsFile(fs, sysconfig) || !LinksInPlace(fs) then Ok(true)
    else MtimeCheck(fs, GetMtime(fs, sysconfig).value, LinkTargets())
  }

  /** No confirmation is needed exactly when the sysconfig file exists, all five PAM files are links to
      the authconfig files, and none of those is newer than the sysconfig file; a single violation keeps
      the confirmation. The call raises only when the links are in place and an authconfig file is
      missing. */
  lemma ConfirmationRule(fs: Fs, sysconfig: string)
    ensures ConfirmationRequired(fs, sysconfig) == Ok(false) <==>
      IsFile(fs, sysconfig) && LinksInPlace(fs)
      && forall i :: 0 <= i < |Links| ==> GetMtime(fs, Links[i].1).Ok?
                                          && GetMtime(fs, Links[i].1).value <= GetMtime(fs, sysconfig).value
    ensures ConfirmationRequired(fs, sysconfig).Err? ==>
      IsFile(fs, sysconfig) && LinksInPlace(fs) && exists i :: 0 <= i < |Links| && !IsFile(fs, Links[i].1)
  {
    var targets := LinkTargets();
    if IsFile(fs, sysconfig) && LinksInPlace(fs) {
      var r := MtimeCheck(fs, GetMtime(fs, sysconfig).value, targets);
      if r.Err? {
        var i :| 0 <= i < |targets| && GetMtime(fs, targets[i]).Err?;
        assert !IsFile(fs, Links[i].1);
      }
    }
  }

  /** Finding: the source tests `/etc/sysconfig/authconfg`, which authconfig never writes, so on a system
      without that file the administrator is always asked, even when authconfig made the configuration
      and the intended test would convert it at once. */
  lemma MisspelledSysconfig(fs: Fs)
    requires SysconfigAsWritten !in fs
    ensures ConfirmationRequired(fs, SysconfigAsWritten) == Ok(true)
    ensures IsFile(fs, Sysconfig) && LinksInPlace(fs)
            && (forall i :: 0 <= i < |Links| ==>
                  GetMtime(fs, Links[i].1).Ok? && GetMtime(fs, Links[i].1).value <= GetMtime(fs, Sysconfig).value)
            ==> ConfirmationRequired(fs, Sysconfig) == Ok(false)
  {
    ConfirmationRule(fs, Sysconfig);
  }

  /** `process`: the `Authselect` message the scanner produces, or the exception that stops it. `carried`
      is what the class-level `features` list already holds when the step methods append to it (empty on
      the first run in a process). */
  function Scan(fs: Fs, ypbind: bool, carried: seq<string>): Result<Authselect> {
    var facts :- LoadFacts(fs);
    ScanFacts(fs, ypbind, carried, facts)
  }

  /** What `process` does once the configuration is loaded. */
  function ScanFacts(fs: Fs, ypbind: bool, carried: seq<string>, facts: Facts): Result<Authselect> {
    var profile := DetectProfile(facts.modules, ypbind);
    var nsswitch :- NsswitchText(fs, profile);
    var unknown := HasUnknown(facts.modules, KnownModules);
    var detected := carried + Features(facts.modules, profile, facts.ac, facts.dconf, nsswitch);
    var confirm :- ConfirmationRequired(fs, Sysconfig);
    Ok(Authselect(if unknown then None else profile, if unknown then [] else SortedUnique(detected), confirm))
  }

  /** What the scanner suggests: a profile only when there is exactly one signal and no module outside
      `known_modules`; an unknown module empties the features whatever else was detected; otherwise the
      features are those detected, sorted and without duplicates (so `pam_mkhomedir` with
      `pam_oddjob_mkhomedir` gives one `with-mkhomedir`); the confirmation follows the provenance check
      in every case. */
  lemma ScanOutcome(fs: Fs, ypbind: bool, carried: seq<string>)
    requires Scan(fs, ypbind, carried).Ok?
    ensures LoadFacts(fs).Ok?
    ensures var facts := LoadFacts(fs).value;
      var a := Scan(fs, ypbind, carried).value;
      var profile := DetectProfile(facts.modules, ypbind);
      var unknown := HasUnknown(facts.modules, KnownModules);
      NsswitchText(fs, profile).Ok?
      && (unknown ==> a.profile.None? && a.features == [])
      && (!unknown ==> a.profile == profile)
      && StrictlySorted(a.features) && NoDuplicates(a.features)
      && (forall f :: f in a.features <==>
            (!unknown && (f in carried
                          || f in Features(facts.modules, profile, facts.ac, facts.dconf, NsswitchText(fs, profile).value))))
      && ConfirmationRequired(fs, Sysconfig) == Ok(a.confirm)
  {
    var a := Scan(fs, ypbind, carried).value;
    SortedHasNoDuplicates(a.features);
  }

  /** The order in which the steps append features never shows: any two detections with the same
      features give the same suggestion. */
  lemma FeatureOrderIrrelevant(xs: seq<string>, ys: seq<string>)
    requires forall f :: f in xs <==> f in ys
    ensures SortedUnique(xs) == SortedUnique(ys)
  {
    SortedByElements(SortedUnique(xs), SortedUnique(ys));
  }

  lemma Concat4(base: seq<string>, a: seq<string>, b: seq<string>, c: seq<string>, d: seq<string>)
    ensures base + a + b + c + d == base + (a + b + c + d)
  {
  }

  lemma Concat3(base: seq<string>, a: seq<string>, b: seq<string>, c: seq<string>)
    ensures base + a + b + c == base + (a + b + c)
  {
  }

  /** The actor with its class attributes: the suggestion it builds and the configuration it loads. */
  class AuthselectScanner {
    var profile: Option<string>
    var features: seq<string>
    var confirm: bool
    var pam: Pam?
    var ac: CF.ConfigFile?
    var dconf: CF.ConfigFile?

    /** A new instance sees the class attributes: no profile, the shared `features` list, confirmation. */
    constructor (carried: seq<string>)
      ensures profile.None? && features == carried && confirm
      ensures pam == null && ac == null && dconf == null
    {
      profile := None;
      features := carried;
      confirm := true;
      pam := null;
      ac := null;
      dconf := null;
    }

    method StepDetectProfile(ypbind: bool)
      requires pam != null
      modifies this
      ensures pam == old(pam) && ac == old(ac) && dconf == old(dconf)
      ensures profile == DetectProfile(pam.modules, ypbind)
      ensures features == old(features) && confirm == old(confirm)
    {
      var enabledNo := 0;
      var detected: Option<string> := None;
      if pam.Has("pam_sss") {
        detected := Some("sssd");
        enabledNo := enabledNo + 1;
      }
      if pam.Has("pam_winbind") {
        detected := Some("winbind");
        enabledNo := enabledNo + 1;
      }
      if ypbind {
        detected := Some("nis");
        enabledNo := enabledNo + 1;
      }
      profile := if enabledNo == 1 then detected else None;
    }

    method StepDetectFeatures()
      requires pam != null
      modifies this
      ensures pam == old(pam) && ac == old(ac) && dconf == old(dconf)
      ensures features == old(features) + TableFeatures(pam.modules)
      ensures profile == old(profile) && confirm == old(confirm)
    {
      var i := 0;
      while i < |FeatureTable|
        invariant 0 <= i <= |FeatureTable|
        invariant pam == old(pam) && ac == old(ac) && dconf == old(dconf)
        invariant features == old(features) + TableFeaturesUpTo(pam.modules, i)
        invariant profile == old(profile) && confirm == old(confirm)
      {
        var (name, feature) := FeatureTable[i];
        if pam.Has(name) {
          features := features + [feature];
        }
        i := i + 1;
      }
    }

    method StepDetectSssdFeatures(fs: Fs) returns (outcome: Result<()>)
      requires pam != null && ac != null && dconf != null && ac.valueYes == "yes"
      modifies this
      ensures pam == old(pam) && ac == old(ac) && dconf == old(dconf)
      ensures outcome.Ok? <==> NsswitchText(fs, profile).Ok?
      ensures outcome.Err? ==> outcome.failure == NsswitchText(fs, profile).failure && features == old(features)
      ensures outcome.Ok? ==> features == old(features) + SssdFeatures(profile, pam.modules, ac.options,
                                                                      dconf.options, NsswitchText(fs, profile).value)
      ensures profile == old(profile) && confirm == old(confirm)
    {
      if profile != Some("sssd") {
        assert features + [] == features;
        return Ok(());
      }
      var text := ReadFile(fs, Nsswitch);
      if text.Err? {
        return Err(text.failure);
      }
      var sudo := SudoEnabled(text.value);
      var smartcard := !pam.Has("pam_pkcs11");
      var use := smartcard && ac.GetBool("USESMARTCARD");
      var force := smartcard && ac.GetBool("FORCESMARTCARD");
      var lock := smartcard && dconf.GetString("removal-action") == Some("lock-screen");
      assert SssdFeatures(profile, pam.modules, ac.options, dconf.options, text.value)
          == SssdFeatureList(sudo, use, force, lock);
      AddSssdFeatures(sudo, use, force, lock);
      return Ok(());
    }

    /** The appends of `step_detect_sssd_features`, given whether sudo is configured through sssd and
        the three smartcard conditions (all false when `pam_pkcs11` is loaded). */
    method AddSssdFeatures(sudo: bool, use: bool, force: bool, lock: bool)
      modifies this
      ensures pam == old(pam) && ac == old(ac) && dconf == old(dconf)
      ensures profile == old(profile) && confirm == old(confirm)
      ensures features == old(features) + SssdFeatureList(sudo, use, force, lock)
    {
      ghost var base := features;
      ghost var p1 := if sudo then ["with-sudo"] else [];
      ghost var p2 := if use then ["with-smartcard"] else [];
      ghost var p3 := if force then ["with-smartcard-required"] else [];
      ghost var p4 := if lock then ["with-smartcard-lock-on-removal"] else [];
      if sudo {
        features := features + ["with-sudo"];
      }
      assert features == base + p1;
      if use {
        features := features + ["with-smartcard"];
      }
      assert features == base + p1 + p2;
      if force {
        features := features + ["with-smartcard-required"];
      }
      assert features == base + p1 + p2 + p3;
      if lock {
        features := features + ["with-smartcard-lock-on-removal"];
      }
      assert features == base + p1 + p2 + p3 + p4;
      Concat4(base, p1, p2, p3, p4);
    }

    method StepDetectWinbindFeatures()
      requires ac != null && ac.valueYes == "yes"
      modifies this
      ensures pam == old(pam) && ac == old(ac) && dconf == old(dconf)
      ensures features == old(features) + WinbindFeatures(profile, ac.options)
      ensures profile == old(profile) && confirm == old(confirm)
    {
      if profile != Some("winbind") {
        assert features + [] == features;
        return;
      }
      if ac.GetBool("WINBINDKRB5") {
        features := features + ["with-krb5"];
      } else {
        assert features + [] == features;
      }
      assert WinbindFeatures(profile, ac.options) == if ac.GetBool("WINBINDKRB5") then ["with-krb5"] else [];
    }

    method StepDetectIfConfirmationIsRequired(fs: Fs) returns (outcome: Result<()>)
      modifies this
      ensures pam == old(pam) && ac == old(ac) && dconf == old(dconf)
      ensures outcome.Ok? <==> ConfirmationRequired(fs, Sysconfig).Ok?
      ensures outcome.Ok? ==> confirm == ConfirmationRequired(fs, Sysconfig).value
      ensures outcome.Err? ==> outcome.failure == ConfirmationRequired(fs, Sysconfig).failure && confirm
      ensures profile == old(profile) && features == old(features)
    {
      confirm := true;
      if !IsFile(fs, Sysconfig) {
        return Ok(());
      }
      var i := 0;
      while i < |Links|
        invariant 0 <= i <= |Links|
        invariant forall j :: 0 <= j < i ==> IsLink(fs, Links[j].0) && ReadLink(fs, Links[j].0) == Links[j].1
        invariant confirm && profile == old(profile) && features == old(features)
        invariant pam == old(pam) && ac == old(ac) && dconf == old(dconf)
      {
        var (name, target) := Links[i];
        if !IsLink(fs, name) {
          return Ok(());
        }
        if ReadLink(fs, name) != target {
          return Ok(());
        }
        i := i + 1;
      }
      var mtime := GetMtime(fs, Sysconfig).value;
      var targets := LinkTargets();
      var k := 0;
      while k < |targets|
        invariant 0 <= k <= |targets|
        invariant MtimeCheck(fs, mtime, targets) == MtimeCheck(fs, mtime, targets[k..])
        invariant confirm && profile == old(profile) && features == old(features)
        invariant pam == old(pam) && ac == old(ac) && dconf == old(dconf)
      {
        assert targets[k..][1..] == targets[k + 1..];
        var m := GetMtime(fs, targets[k]);
        if m.Err? {
          return Err(m.failure);
        }
        if m.value > mtime {
          return Ok(());
        }
        k := k + 1;
      }
      confirm := false;
      return Ok(());
    }

    /** The first lines of `process`: the authconfig, dconf and PAM configurations, in this order. */
    method LoadConfiguration(fs: Fs) returns (outcome: Result<()>)
      modifies this
      ensures profile == old(profile) && features == old(features) && confirm == old(confirm)
      ensures outcome.Ok? <==> LoadFacts(fs).Ok?
      ensures outcome.Err? ==> outcome.failure == LoadFacts(fs).failure
      ensures outcome.Ok? ==> pam != null && ac != null && dconf != null && ac.valueYes == "yes"
                              && LoadFacts(fs).value == Facts(ac.options, dconf.options, pam.modules)
    {
      var loaded := LoadAll(fs);
      if loaded.Err? {
        return Err(loaded.failure);
      }
      ac, dconf, pam := loaded.value.0, loaded.value.1, loaded.value.2;
      return Ok(());
    }

    /** The three loads, stopping at the first that raises. */
    static method LoadAll(fs: Fs) returns (r: Result<(CF.ConfigFile, CF.ConfigFile, Pam)>)
      ensures r.Ok? <==> LoadFacts(fs).Ok?
      ensures r.Err? ==> r.failure == LoadFacts(fs).failure
      ensures r.Ok? ==> r.value.0.valueYes == "yes"
                        && LoadFacts(fs).value == Facts(r.value.0.options, r.value.1.options, r.value.2.modules)
    {
      LoadFactsFails(fs);
      var acR := CF.AuthconfigFromSystem(fs);
      if acR.Err? {
        return Err(acR.failure);
      }
      var dconfR := CF.DConfFromSystem(fs);
      if dconfR.Err? {
        return Err(dconfR.failure);
      }
      var pamR := Pam.FromSystemConfiguration(fs);
      if pamR.Err? {
        return Err(pamR.failure);
      }
      LoadFactsOk(fs, acR.value.options, dconfR.value.options, pamR.value.modules);
      return Ok((acR.value, dconfR.value, pamR.value));
    }

    /** The detection steps, in the order `process` runs them. */
    method Detect(fs: Fs, ypbind: bool) returns (outcome: Result<()>)
      requires pam != null && ac != null && dconf != null && ac.valueYes == "yes"
      modifies this
      ensures pam == old(pam) && ac == old(ac) && dconf == old(dconf) && confirm == old(confirm)
      ensures profile == DetectProfile(pam.modules, ypbind)
      ensures outcome.Ok? <==> NsswitchText(fs, profile).Ok?
      ensures outcome.Err? ==> outcome.failure == NsswitchText(fs, profile).failure
      ensures outcome.Ok? ==>
        features == old(features)
                    + Features(pam.modules, profile, ac.options, dconf.options, NsswitchText(fs, profile).value)
    {
      StepDetectProfile(ypbind);
      StepDetectFeatures();
      ghost var table := TableFeatures(pam.modules);
      var sssd := StepDetectSssdFeatures(fs);
      if sssd.Err? {
        return Err(sssd.failure);
      }
      ghost var sssdFeatures := SssdFeatures(profile, pam.modules, ac.options, dconf.options,
                                             NsswitchText(fs, profile).value);
      StepDetectWinbindFeatures();
      Concat3(old(features), table, sssdFeatures, WinbindFeatures(profile, ac.options));
      return Ok(());
    }

    /** `process`: loads the configuration, runs the steps in order, applies the unknown-module veto,
        and produces the suggestion, or stops at the first exception. */
    method Process(fs: Fs, ypbind: bool) returns (r: Result<Authselect>)
      modifies this
      ensures r == Scan(fs, ypbind, old(features))
      ensures r.Ok? ==> profile == r.value.profile && features == r.value.features && confirm == r.value.confirm
    {
      var loaded := LoadConfiguration(fs);
      if loaded.Err? {
        return Err(loaded.failure);
      }
      ghost var facts := LoadFacts(fs).value;
      r := Run(fs, ypbind);
      assert Scan(fs, ypbind, old(features)) == ScanFacts(fs, ypbind, old(features), facts);
    }

    /** `process` after the loads. */
    method Run(fs: Fs, ypbind: bool) returns (r: Result<Authselect>)
      requires pam != null && ac != null && dconf != null && ac.valueYes == "yes"
      modifies this
      ensures pam == old(pam) && ac == old(ac) && dconf == old(dconf)
      ensures r == ScanFacts(fs, ypbind, old(features), Facts(ac.options, dconf.options, pam.modules))
      ensures r.Ok? ==> profile == r.value.profile && features == r.value.features && confirm == r.value.confirm
    {
      var detected := Detect(fs, ypbind);
      if detected.Err? {
        return Err(detected.failure);
      }
      r := Conclude(fs);
    }

    /** The end of `process`: the unknown-module veto, the confirmation step, and the suggestion. */
    method Conclude(fs: Fs) returns (r: Result<Authselect>)
      requires pam != null
      modifies this
      ensures pam == old(pam) && ac == old(ac) && dconf == old(dconf)
      ensures var unknown := HasUnknown(pam.modules, KnownModules);
        r == (var confirm :- ConfirmationRequired(fs, Sysconfig);
              Ok(Authselect(if unknown then None else old(profile),
                            if unknown then [] else SortedUnique(old(features)), confirm)))
      ensures r.Ok? ==> profile == r.value.profile && features == r.value.features && confirm == r.value.confirm
    {
      var unknown := pam.HasUnknownModule(KnownModules);
      if unknown {
        profile := None;
        features := [];
      }
      var confirmation := StepDetectIfConfirmationIsRequired(fs);
      if confirmation.Err? {
        return Err(confirmation.failure);
      }
      features := SortedUnique(features);
      return Ok(Authselect(profile, features, confirm));
    }
  }
}
