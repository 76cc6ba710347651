# Authselect, PAM and target repositories in the RHEL 7 to 8 upgrade

This project models, in Dafny, a group of actors from the `system_upgrade/el7toel8` repository of the
in-place upgrade tool, along with the libraries they share:

- **The PAM configuration reader.** The `PAM` class reads the five files under `/etc/pam.d` that authconfig
  generates, concatenates them, and lists every module an active line loads. The regular expression is
  modelled one line at a time. The name it captures is the rightmost `pam_` name followed by `.so`, and
  the longest such name (`Pam.ModuleOf`).
- **The key/value configuration readers.** `ConfigFile`, `Authconfig` and `DConf` read
  `/etc/sysconfig/authconfig` and the dconf database with a `key="value"` regular expression. The last
  occurrence of a key wins.
- **The authselect scanner.** It suggests an authselect profile (sssd, winbind or nis), a sorted list of
  features, and whether the administrator must confirm.
- **The authselect check.** It decides whether to call authselect, asking in a dialog when needed, and
  produces a report.
- **The authselect apply.** It runs `authselect select <profile> <features> --force` and reports the
  outcome.
- **The message models** `Authselect` and `AuthselectDecision`.
- **The three actors that remove deprecated PAM modules.**
  - The scanner finds pam_krb5 and pam_pkcs11.
  - The check asks about each one, producing an informational report or an inhibitor.
  - The apply comments the lines that load them out of every PAM file.
- **The target repository setup.** It maps the enabled RHEL 7 repositories to RHEL 8 ones, adds setup
  tasks, and removes blacklisted repositories. It also reports enabled repositories that the map does not
  know, together with the packages installed from them.
- **The check of skipped repositories.** It turns that report into a low-severity report that lists the
  repositories and the packages.

The file system is a value, `FileSystem.Fs`. It maps a path to a regular file (content, modification time,
readability) or to a symbolic link. Paths resolve through at most 40 links, as on Linux. `open`, `stat`,
`os.path.isfile`, `os.path.islink`, `os.readlink` and `os.path.getmtime` are functions on it.

Actors whose methods set their own attributes are classes with those fields. Their messages and reports are
fields of type `seq` that the methods append to. Each method is proved against a specification function:
- `Pam.ParseModules` for the PAM reader;
- `AuthselectScanner.Scan` for the scanner;
- `AuthselectCheck.Check` and `AuthselectApply.Apply` for the check and the apply;
- `RemovedPamCheck.Confirmations` and `RemovedPamApply.RemoveModules` for the module removal;
- `SetupTargetRepos.Setup` and `Target` for the repository setup.

The properties the code promises are lemmas about those functions.

Where the code and the documented design differ in a choice the code evidently makes on purpose, the model
follows the code. The five bugs under "## Findings" are the exception: the actor members use the corrected
definitions, and the code as written is modelled only by the members that table names and the members they use. The choices the
model follows are:
- **The authselect dialog's missing answer.** The dialog's component defaults to True, but
  `get_confirmation` reads the answer with `.get('confirm', False)`. A missing answer therefore counts as a
  refusal (`AuthselectCheck.Check`).
- **The removal dialog's answer.** `removeoldpammodulescheck` reads each answer with
  `.get('confirm', False)`. A refusal produces an inhibitor that names no module. The unused
  `produce_inhibitor` is left out.
- **The removal apply comments out every listed module.** The apply does not look at the answers. The
  inhibitor stops the upgrade before the apply actor runs.
- **A stale loop variable in the repository setup.** Lines 77-78 of `setuptargetrepos` read `repo_file`,
  the loop variable of the earlier loop. The model does the same:
  - it adds that file's repository ids to `enabled_repos` once the skipped set is already computed, so the
    result is unaffected;
  - when there are used repositories but no repository file was ever seen, it raises `UnboundLocalError`
    (`SetupTargetRepos.Setup`).

## Model

Definitions without a contract of their own (`Pam.Pam.Has`, `ConfigFile.ConfigFile.GetString`,
`ConfigFile.ConfigFile.GetBool`, `ConfigFile.ConfigFile.GetBoolAsWritten`, `AuthselectModel.Command` and
the like) are described by the rows of the lemmas about them.

| member | source | states |
|---|---|---|
| `Pam.ModuleOf` | repos/system_upgrade/el7toel8/libraries/pam.py:18-22 | when a line yields a capture, it is what `(pam_\S+)` can capture: `pam_`, at least one more character, and no whitespace |
| `Pam.ModuleOfMeaning` | repos/system_upgrade/el7toel8/libraries/pam.py:18-22 | a line contributes a module exactly when it is active (its first character after spaces and tabs is neither `#` nor whitespace) and a `pam_` name followed by `.so` starts after the indentation; the module is the rightmost such name, and the longest one at that start |
| `Pam.CollectMembers` | repos/system_upgrade/el7toel8/libraries/pam.py:18-24 | a module is in the list exactly when some line of the text loads it |
| `Pam.CollectAppend` | repos/system_upgrade/el7toel8/libraries/pam.py:18-24 | `findall` works line by line: the modules of two lists of lines are the modules of the first, then those of the second |
| `Pam.ParseConcat` | repos/system_upgrade/el7toel8/libraries/pam.py:49-54 | parsing a text that ends in a newline followed by another text gives the modules of the first, then those of the second |
| `Pam.ParseModules` | repos/system_upgrade/el7toel8/libraries/pam.py:17-24 | every captured name is `pam_` and at least one non-whitespace character |
| `Pam.ReadAll` | repos/system_upgrade/el7toel8/libraries/pam.py:37-54 | reading the files succeeds exactly when every single read succeeds (a missing file reads as the empty text) |
| `Pam.ReadAllStops` | repos/system_upgrade/el7toel8/libraries/pam.py:49-52 | the first read that raises ends the loop, and its exception is the outcome |
| `Pam.SystemConfigurationOrder` | repos/system_upgrade/el7toel8/libraries/pam.py:5-11 | when every read succeeds, the configuration is the five texts concatenated in the order of `PAM.files`, and a missing file contributes nothing |
| `Pam.MissingPamFileAsWritten` | repos/system_upgrade/el7toel8/libraries/pam.py:37-46 | as written, under Python 2, a missing PAM file lets the `IOError` of `open` (ENOENT) escape, because the handler catches only `OSError`; the intended reading of the same files succeeds |
| `Pam.ReadAllAsWritten` | repos/system_upgrade/el7toel8/libraries/pam.py:37-54 | as written, reading the five files succeeds exactly when every `open` succeeds |
| `Pam.AsWrittenRaisesMissing` | repos/system_upgrade/el7toel8/libraries/pam.py:37-54 | where the intended reading succeeds, the reading as written either gives the same text or raises ENOENT |
| `Pam.Pam.constructor` | repos/system_upgrade/el7toel8/libraries/pam.py:13-15 | the object holds the modules of its configuration |
| `Pam.Pam.Parse` | repos/system_upgrade/el7toel8/libraries/pam.py:17-24 | the module list is replaced by the modules of the new text |
| `Pam.Pam.HasUnknownModule` | repos/system_upgrade/el7toel8/libraries/pam.py:29-35 | true exactly when some loaded module is not in the known list |
| `Pam.Pam.ReadConfiguration` | repos/system_upgrade/el7toel8/libraries/pam.py:49-52 | the loop computes the concatenation of the five reads, or the first exception |
| `Pam.Pam.FromSystemConfiguration` | repos/system_upgrade/el7toel8/libraries/pam.py:48-54 | a new object over the five files' modules, or the exception of the first read that raises |
| `FileSystem.ReadFile` | repos/system_upgrade/el7toel8/actors/authselectscanner/libraries/library.py:7-18 | a missing file reads as the empty text; a readable file gives its content; any other failure (permission, too many links) is raised |
| `FileSystem.ReadFileIsOpen` | repos/system_upgrade/el7toel8/actors/authselectscanner/libraries/library.py:7-18 | `read_file` gives what `open` gives, except that a missing file (ENOENT) becomes the empty text |
| `FileSystem.Resolve` | repos/system_upgrade/el7toel8/actors/authselectscanner/libraries/library.py:12-13 | resolution ends at a regular file, or fails with ENOENT (nothing there) or ELOOP (more than 40 links) |
| `FileSystem.GetMtime` | repos/system_upgrade/el7toel8/actors/authselectscanner/actor.py:217-220 | `getmtime` succeeds exactly when the path leads to a file, and gives that file's time |
| `FileSystem.WriteFile` | repos/system_upgrade/el7toel8/actors/removeoldpammodulesapply/actor.py:46-48 | writing through a path replaces the content of the file it leads to, and no other node changes |
| `FileSystem.WriteKeepsResolve` | repos/system_upgrade/el7toel8/actors/removeoldpammodulesapply/actor.py:46-48 | writing a file changes no link, so every path resolves as before |
| `ConfigFile.LastOccurrenceWins` | repos/system_upgrade/el7toel8/actors/authselectscanner/libraries/library.py:54-55 | a key is stored exactly when it was there or some pair names it; the last pair for a key wins, and a key no pair names keeps its value |
| `ConfigFile.ValueIsPlain` | repos/system_upgrade/el7toel8/actors/authselectscanner/libraries/library.py:45-52 | the yes and no alternatives of the value group capture nothing that the general alternative would not |
| `ConfigFile.QuotesStripped` | repos/system_upgrade/el7toel8/actors/authselectscanner/libraries/library.py:45-52 | a captured value holds no quote or newline and sits between an optional opening and an optional closing quote |
| `ConfigFile.FramedValueStored` | repos/system_upgrade/el7toel8/actors/authselectscanner/libraries/library.py:45-52 | conversely, a quote-free value between optional quotes is captured as it is |
| `ConfigFile.ParsedLine` | repos/system_upgrade/el7toel8/actors/authselectscanner/libraries/library.py:45-52 | a line made of blanks, a key, `=` and a rest gives the pair (key, value) exactly when the rest fits the value pattern |
| `ConfigFile.MatchedLineShape` | repos/system_upgrade/el7toel8/actors/authselectscanner/libraries/library.py:45-52 | every matched line is blanks, the key (with no whitespace and no `=`), `=`, then a rest whose value is the captured value |
| `ConfigFile.ConfigFile.constructor` | repos/system_upgrade/el7toel8/actors/authselectscanner/libraries/library.py:38-42 | the object keeps its yes and no literals and starts from the options of its text |
| `ConfigFile.ConfigFile.Authconfig` | repos/system_upgrade/el7toel8/actors/authselectscanner/libraries/library.py:73-79 | the authconfig family reads with `yes` and `no` |
| `ConfigFile.ConfigFile.DConf` | repos/system_upgrade/el7toel8/actors/authselectscanner/libraries/library.py:86-92 | the dconf family reads with `true` and `false` |
| `ConfigFile.ConfigFile.Parse` | repos/system_upgrade/el7toel8/actors/authselectscanner/libraries/library.py:44-55 | the text's pairs are stored in line order over the options already there |
| `ConfigFile.GetStringOfParsed` | repos/system_upgrade/el7toel8/actors/authselectscanner/libraries/library.py:57-61 | `get_string` gives None exactly when no line sets the key, and otherwise the value of the last line that does |
| `ConfigFile.GetBoolIsYes` | repos/system_upgrade/el7toel8/actors/authselectscanner/libraries/library.py:63-70 | the intended `get_bool` is true exactly when the value is the yes literal; the no literal and a missing key give false |
| `ConfigFile.GetBoolFails` | repos/system_upgrade/el7toel8/actors/authselectscanner/libraries/library.py:63-64 | as written, every call raises `NameError` for `option`, never giving the intended answer |
| `ConfigFile.AuthconfigFromSystem` | repos/system_upgrade/el7toel8/actors/authselectscanner/libraries/library.py:81-83 | the options of `/etc/sysconfig/authconfig` (empty when missing), or the exception of the read |
| `ConfigFile.DConfFromSystem` | repos/system_upgrade/el7toel8/actors/authselectscanner/libraries/library.py:94-96 | the options of the dconf file (empty when missing), or the exception of the read |
| `AuthselectModel.DefaultAuthselect` | repos/system_upgrade/el7toel8/models/authselect.py:15-25 | by default there is no profile, no feature, and confirmation is required |
| `AuthselectModel.DefaultDecision` | repos/system_upgrade/el7toel8/models/authselect.py:39 | by default nothing is to be applied |
| `AuthselectModel.CommandWords` | repos/system_upgrade/el7toel8/actors/authselectcheck/actor.py:57-60 | with a feature, the call is its words joined by single spaces; with none, two spaces stand before `--force` |
| `AuthselectModel.Argv` | repos/system_upgrade/el7toel8/actors/authselectapply/actor.py:29-35 | the intended argument vector is `authselect`, `select`, the profile, each feature, and `--force` |
| `AuthselectModel.ArgvAgrees` | repos/system_upgrade/el7toel8/actors/authselectapply/actor.py:35 | splitting the command gives back those words when there is a feature and no word holds a space |
| `AuthselectModel.EmptyFeatureArgument` | repos/system_upgrade/el7toel8/actors/authselectapply/actor.py:29-35 | with no feature, the split command passes an empty argument to authselect |
| `AuthselectScanner.ProfileOf` | repos/system_upgrade/el7toel8/actors/authselectscanner/actor.py:127-142 | a profile is suggested exactly when one of pam_sss, pam_winbind and ypbind is present, and it is that signal's profile |
| `AuthselectScanner.TableFeatureRules` | repos/system_upgrade/el7toel8/actors/authselectscanner/actor.py:144-155 | each table feature is added exactly when its module is loaded (mkhomedir for either of its two modules) |
| `AuthselectScanner.SssdFeatureRules` | repos/system_upgrade/el7toel8/actors/authselectscanner/actor.py:157-182 | under sssd: sudo when a `sudoers` line of nsswitch.conf names sss; the three smartcard features from USESMARTCARD, FORCESMARTCARD and the removal action, only without pam_pkcs11; nothing under another profile |
| `AuthselectScanner.WinbindFeatureRules` | repos/system_upgrade/el7toel8/actors/authselectscanner/actor.py:184-189 | krb5 is added exactly under winbind with WINBINDKRB5 set, and nothing else |
| `AuthselectScanner.FeatureRules` | repos/system_upgrade/el7toel8/actors/authselectscanner/actor.py:144-189 | every feature the detection steps add, with the exact condition for each |
| `AuthselectScanner.LoadFactsOk` | repos/system_upgrade/el7toel8/actors/authselectscanner/actor.py:86-89 | when all three reads succeed, the scanner works on the authconfig options, the dconf options and the PAM modules |
| `AuthselectScanner.LoadFactsFails` | repos/system_upgrade/el7toel8/actors/authselectscanner/actor.py:86-89 | the loads happen in order (authconfig, dconf, PAM), and the first that raises is the outcome |
| `AuthselectScanner.MtimeCheck` | repos/system_upgrade/el7toel8/actors/authselectscanner/actor.py:217-220 | no file is newer than the limit exactly when the check passes; a missing target raises |
| `AuthselectScanner.MtimeCheckRaises` | repos/system_upgrade/el7toel8/actors/authselectscanner/actor.py:217-220 | the mtime loop raises exactly when a missing target comes before every newer one in the order it walks |
| `AuthselectScanner.MtimeCheckOrderFree` | repos/system_upgrade/el7toel8/actors/authselectscanner/actor.py:217-220 | with every target present the outcome is the same in any order (confirmation exactly when some target is newer); with a target missing and none newer every order raises |
| `AuthselectScanner.ConfirmationRule` | repos/system_upgrade/el7toel8/actors/authselectscanner/actor.py:191-222 | no confirmation is needed exactly when the sysconfig file exists, the five PAM files are links to their `-ac` files, and none of those is newer than the sysconfig file |
| `AuthselectScanner.MisspelledSysconfig` | repos/system_upgrade/el7toel8/actors/authselectscanner/actor.py:192-205 | as written, the misspelled path always demands confirmation, even on a system that the intended path would let through |
| `AuthselectScanner.ScanOutcome` | repos/system_upgrade/el7toel8/actors/authselectscanner/actor.py:85-114 | an unknown module clears the profile and the features; otherwise the detected profile is kept; the features are sorted, unique, and exactly the carried and detected ones; `confirm` follows the confirmation rule |
| `AuthselectScanner.FeatureOrderIrrelevant` | repos/system_upgrade/el7toel8/actors/authselectscanner/actor.py:107-108 | `sorted(set(...))` depends only on which features were added |
| `AuthselectScanner.AuthselectScanner.constructor` | repos/system_upgrade/el7toel8/actors/authselectscanner/actor.py:51-53 | a new instance has no profile, the shared feature list and confirmation required |
| `AuthselectScanner.AuthselectScanner.StepDetectProfile` | repos/system_upgrade/el7toel8/actors/authselectscanner/actor.py:116-142 | sets the profile to the detected one and changes nothing else |
| `AuthselectScanner.AuthselectScanner.StepDetectFeatures` | repos/system_upgrade/el7toel8/actors/authselectscanner/actor.py:144-155 | appends the table features in table order |
| `AuthselectScanner.AuthselectScanner.StepDetectSssdFeatures` | repos/system_upgrade/el7toel8/actors/authselectscanner/actor.py:157-182 | appends the sssd features, or raises the exception of reading nsswitch.conf |
| `AuthselectScanner.AuthselectScanner.AddSssdFeatures` | repos/system_upgrade/el7toel8/actors/authselectscanner/actor.py:168-182 | appends each sssd feature whose condition holds, in the order the step checks them |
| `AuthselectScanner.AuthselectScanner.StepDetectWinbindFeatures` | repos/system_upgrade/el7toel8/actors/authselectscanner/actor.py:184-189 | appends the winbind feature when its condition holds |
| `AuthselectScanner.DetectionRaisesAsWritten` | repos/system_upgrade/el7toel8/actors/authselectscanner/actor.py:174-189 | as written, the sssd step raises `NameError` for `option` (from `get_bool`) exactly when the profile is sssd and `pam_pkcs11` is not loaded, and the winbind step exactly when the profile is winbind; every other scan detects what the intended steps detect |
| `AuthselectScanner.AuthselectScanner.StepDetectIfConfirmationIsRequired` | repos/system_upgrade/el7toel8/actors/authselectscanner/actor.py:191-222 | resets `confirm` to true, then clears it exactly under the confirmation rule; a missing target raises |
| `AuthselectScanner.AuthselectScanner.LoadConfiguration` | repos/system_upgrade/el7toel8/actors/authselectscanner/actor.py:86-89 | sets the three configurations, or raises the first failing load |
| `AuthselectScanner.AuthselectScanner.LoadAll` | repos/system_upgrade/el7toel8/actors/authselectscanner/actor.py:87-89 | the three loads, stopping at the first that raises |
| `AuthselectScanner.AuthselectScanner.Detect` | repos/system_upgrade/el7toel8/actors/authselectscanner/actor.py:91-95 | the four steps set the profile and append every detected feature in step order |
| `AuthselectScanner.AuthselectScanner.Run` | repos/system_upgrade/el7toel8/actors/authselectscanner/actor.py:91-114 | after the loads, the actor computes the specified suggestion |
| `AuthselectScanner.AuthselectScanner.Conclude` | repos/system_upgrade/el7toel8/actors/authselectscanner/actor.py:97-114 | the veto, the confirmation step and the sorting give the produced message |
| `AuthselectScanner.AuthselectScanner.Process` | repos/system_upgrade/el7toel8/actors/authselectscanner/actor.py:85-114 | the produced message is the specified scan of the system, and the attributes end equal to it |
| `AuthselectCheck.Check` | repos/system_upgrade/el7toel8/actors/authselectcheck/actor.py:47-70 | without a profile, nothing is applied and the configuration is kept; authconfig configurations are converted without a dialog; otherwise the dialog shows the call and only an explicit yes applies it; every report names the call, and a refusal gives it as the remediation |
| `AuthselectCheck.AuthselectCheck.constructor` | repos/system_upgrade/el7toel8/actors/authselectcheck/actor.py:23-45 | a new actor with its dialog caption and nothing produced |
| `AuthselectCheck.AuthselectCheck.Process` | repos/system_upgrade/el7toel8/actors/authselectcheck/actor.py:47-70 | one decision and one report per run, a dialog only when confirmation is required, and the command set exactly when there is a profile |
| `AuthselectCheck.AuthselectCheck.GetConfirmation` | repos/system_upgrade/el7toel8/actors/authselectcheck/actor.py:72-80 | the call is appended to the caption, which is shown; the answer counts only when it is yes |
| `AuthselectCheck.AuthselectCheck.ProduceAuthconfigConfiguration` | repos/system_upgrade/el7toel8/actors/authselectcheck/actor.py:82-96 | a positive decision and a report naming the call |
| `AuthselectCheck.AuthselectCheck.ProduceCurrentConfiguration` | repos/system_upgrade/el7toel8/actors/authselectcheck/actor.py:98-112 | a negative decision and the report that the configuration is kept |
| `AuthselectCheck.AuthselectCheck.ProduceSuggestedConfiguration` | repos/system_upgrade/el7toel8/actors/authselectcheck/actor.py:114-140 | the decision as answered; the report that the system will be switched, or the one with the call as the remediation |
| `AuthselectApply.Apply` | repos/system_upgrade/el7toel8/actors/authselectapply/actor.py:22-40 | authselect runs exactly when the decision is positive and there is a profile; then there is one report, the exception's text on failure or the call on success |
| `AuthselectApply.CheckedCallIsApplied` | repos/system_upgrade/el7toel8/actors/authselectapply/actor.py:26-35 | the apply actor runs exactly what the check decided, and, with a feature and no spaces in the words, runs the words of the command shown |
| `AuthselectApply.AuthselectApply.Process` | repos/system_upgrade/el7toel8/actors/authselectapply/actor.py:22-40 | changes nothing when gated; otherwise it records the run, sets the command and adds the outcome's report |
| `AuthselectApply.AuthselectApply.Failure` | repos/system_upgrade/el7toel8/actors/authselectapply/actor.py:42-46 | adds a report with the exception's text |
| `AuthselectApply.AuthselectApply.Success` | repos/system_upgrade/el7toel8/actors/authselectapply/actor.py:48-53 | adds a report naming the call |
| `RemovedPamScanner.Present` | repos/system_upgrade/el7toel8/actors/removeoldpammodulesscanner/actor.py:28-30 | the candidates that are loaded, in candidate order, each once |
| `RemovedPamScanner.PresentShape` | repos/system_upgrade/el7toel8/actors/removeoldpammodulesscanner/actor.py:28-30 | the list is empty, one of the two modules, or pam_krb5 followed by pam_pkcs11 |
| `RemovedPamScanner.FreshScan` | repos/system_upgrade/el7toel8/actors/removeoldpammodulesscanner/actor.py:20-34 | a fresh instance lists a module exactly when it is one of the two candidates and is loaded, with no duplicates |
| `RemovedPamScanner.RemovedPamScanner.constructor` | repos/system_upgrade/el7toel8/actors/removeoldpammodulesscanner/actor.py:20 | a new instance starts from the list shared by the class |
| `RemovedPamScanner.RemovedPamScanner.Process` | repos/system_upgrade/el7toel8/actors/removeoldpammodulesscanner/actor.py:22-34 | the present candidates are appended to the shared list, which is produced once; a failing read raises and changes nothing |
| `RemovedPamScanner.RemovedPamScanner.AppendPresent` | repos/system_upgrade/el7toel8/actors/removeoldpammodulesscanner/actor.py:28-30 | the loop appends exactly the present candidates |
| `RemovedPamCheck.DialogFor` | repos/system_upgrade/el7toel8/actors/removeoldpammodulescheck/actor.py:76-82 | pam_pkcs11 gets the first dialog and pam_krb5 the second; any other name raises `KeyError` |
| `RemovedPamCheck.Accepted` | repos/system_upgrade/el7toel8/actors/removeoldpammodulescheck/actor.py:84-101 | an informational, passing report that names the module in its summary, details and solution |
| `RemovedPamCheck.ConfirmationsFacts` | repos/system_upgrade/el7toel8/actors/removeoldpammodulescheck/actor.py:58-82 | one message and dialog per module, in order, until the first module without a dialog, whose `KeyError` ends the run |
| `RemovedPamCheck.ConfirmationsMessages` | repos/system_upgrade/el7toel8/actors/removeoldpammodulescheck/actor.py:62-73 | the i-th message and the i-th dialog belong to the i-th module |
| `RemovedPamCheck.ConfirmationsFailure` | repos/system_upgrade/el7toel8/actors/removeoldpammodulescheck/actor.py:62-82 | the run fails exactly when some module has no dialog; then the failure is the `KeyError` of the first such module |
| `RemovedPamCheck.OneMessagePerModule` | repos/system_upgrade/el7toel8/actors/removeoldpammodulescheck/actor.py:62-73 | for the two known modules, an explicit yes gives the report about that module and anything else gives the inhibitor |
| `RemovedPamCheck.RemovedPamCheck.constructor` | repos/system_upgrade/el7toel8/actors/removeoldpammodulescheck/actor.py:58-60 | a new actor with nothing produced or asked |
| `RemovedPamCheck.RemovedPamCheck.Process` | repos/system_upgrade/el7toel8/actors/removeoldpammodulescheck/actor.py:58-74 | a failing PAM read raises before anything is asked; otherwise the messages and dialogs are those of the specified loop |
| `RemovedPamCheck.RemovedPamCheck.AskAll` | repos/system_upgrade/el7toel8/actors/removeoldpammodulescheck/actor.py:62-74 | the loop produces the specified messages and dialogs, and raises the specified `KeyError` |
| `RemovedPamCheck.RemovedPamCheck.Turn` | repos/system_upgrade/el7toel8/actors/removeoldpammodulescheck/actor.py:63-73 | one module: its dialog and message, or a `KeyError` that changes nothing |
| `RemovedPamCheck.RemovedPamCheck.Confirm` | repos/system_upgrade/el7toel8/actors/removeoldpammodulescheck/actor.py:76-82 | the dialog is recorded and the answer counts only when it is yes; without a dialog, `KeyError` |
| `RemovedPamCheck.RemovedPamCheck.ProduceReport` | repos/system_upgrade/el7toel8/actors/removeoldpammodulescheck/actor.py:84-101 | adds the report about the module |
| `RemovedPamApply.CommentedIsInactive` | repos/system_upgrade/el7toel8/actors/removeoldpammodulesapply/actor.py:38-39 | a commented line is inactive and matches no module any more |
| `RemovedPamApply.CommentedLines` | repos/system_upgrade/el7toel8/actors/removeoldpammodulesapply/actor.py:34-43 | the result has the same lines, each active line that loads a listed module with `#` in front and every other line unchanged |
| `RemovedPamApply.SubstituteMarked` | repos/system_upgrade/el7toel8/actors/removeoldpammodulesapply/actor.py:36-42 | one more substitution extends the marking to one more module |
| `RemovedPamApply.CommentModulesIsCommentAll` | repos/system_upgrade/el7toel8/actors/removeoldpammodulesapply/actor.py:35-43 | the chain of substitutions equals commenting every line that loads some listed module |
| `RemovedPamApply.NoModulesNoChange` | repos/system_upgrade/el7toel8/actors/removeoldpammodulesapply/actor.py:35-43 | with no module listed, the text comes back unchanged |
| `RemovedPamApply.ModuleOrderIrrelevant` | repos/system_upgrade/el7toel8/actors/removeoldpammodulesapply/actor.py:36-42 | neither the order of the modules nor a repeated module changes the result |
| `RemovedPamApply.CommentIdempotent` | repos/system_upgrade/el7toel8/actors/removeoldpammodulesapply/actor.py:37-42 | commenting out twice is commenting out once |
| `FileSystem.Open` | repos/system_upgrade/el7toel8/actors/removeoldpammodulesapply/actor.py:26-27 | a successful open reads the file the path leads to |
| `RemovedPamApply.ReadPresent` | repos/system_upgrade/el7toel8/actors/removeoldpammodulesapply/actor.py:23-32 | the intended reading succeeds exactly when every file can be read or is missing; it gives one entry for each readable file, with its content |
| `RemovedPamApply.ReadPresentStops` | repos/system_upgrade/el7toel8/actors/removeoldpammodulesapply/actor.py:24-32 | the first read that raises ends the loop, and its exception is the outcome |
| `RemovedPamApply.MissingFileAsWritten` | repos/system_upgrade/el7toel8/actors/removeoldpammodulesapply/actor.py:28-32 | as written, a missing PAM file ends in `NameError` for `errno`, where the intended reading skips it |
| `RemovedPamApply.RemovalEffect` | repos/system_upgrade/el7toel8/actors/removeoldpammodulesapply/actor.py:19-48 | the actor raises exactly when some PAM file is there but unreadable; otherwise no path appears or vanishes, no link changes, and each read file gets its commented text; every other file is as it was |
| `RemovedPamApply.NoModulesKeepsContent` | repos/system_upgrade/el7toel8/actors/removeoldpammodulesapply/actor.py:34-48 | with no listed module every file keeps its text |
| `RemovedPamApply.Process` | repos/system_upgrade/el7toel8/actors/removeoldpammodulesapply/actor.py:19-48 | the three loops together compute the specified removal |
| `RemovedPamApply.ReadFiles` | repos/system_upgrade/el7toel8/actors/removeoldpammodulesapply/actor.py:23-32 | the reading loop computes the specified entries or exception |
| `RemovedPamApply.CommentFiles` | repos/system_upgrade/el7toel8/actors/removeoldpammodulesapply/actor.py:34-43 | each entry's text is replaced by its commented text, path by path |
| `RemovedPamApply.WriteFiles` | repos/system_upgrade/el7toel8/actors/removeoldpammodulesapply/actor.py:45-48 | the writing loop writes every entry back through its path |
| `RemovedPamApply.RewriteAppend` | repos/system_upgrade/el7toel8/actors/removeoldpammodulesapply/actor.py:46-48 | writing one more entry is one more write through its path |
| `SetupTargetRepos.Process` | repos/system_upgrade/el7toel8/actors/setuptargetrepos/actor.py:41-102 | the targets are the specified ones; a skipped-repositories message is produced exactly when some repository is skipped, and it lists the skipped repositories and their packages, each once; the stale loop variable raises exactly when specified |
| `SetupTargetRepos.EnabledExactly` | repos/system_upgrade/el7toel8/actors/setuptargetrepos/actor.py:46-51 | a repository is enabled exactly when some repository file of some message lists it as enabled |
| `SetupTargetRepos.MappedTargetsMembers` | repos/system_upgrade/el7toel8/actors/setuptargetrepos/actor.py:53-69 | a repository is a mapped target exactly when an entry for this architecture, with a source outside Extras that is enabled, maps to it |
| `SetupTargetRepos.UsedKeys` | repos/system_upgrade/el7toel8/actors/setuptargetrepos/actor.py:73-76 | the recorded repositories are exactly the listed ones |
| `SetupTargetRepos.UsedLastWins` | repos/system_upgrade/el7toel8/actors/setuptargetrepos/actor.py:73-76 | the packages recorded for a repository come from its last listing |
| `SetupTargetRepos.SkippedExactly` | repos/system_upgrade/el7toel8/actors/setuptargetrepos/actor.py:71-81 | a repository is skipped exactly when it is enabled, not the source of a mapping entry for this architecture, used by some package, and not an Extras channel |
| `SetupTargetRepos.PackagesFromSkipped` | repos/system_upgrade/el7toel8/actors/setuptargetrepos/actor.py:83-86 | every reported package was listed for a skipped repository |
| `SetupTargetRepos.TargetsMeaning` | repos/system_upgrade/el7toel8/actors/setuptargetrepos/actor.py:89-102 | the RHEL targets are the mapped targets, then the setup tasks' repositories, minus blacklisted ones in both cases; no blacklisted id remains; the custom repositories are those not blacklisted |
| `SetupTargetRepos.KeepRhelMembers` | repos/system_upgrade/el7toel8/actors/setuptargetrepos/actor.py:96 | the filter keeps exactly the repositories that are not blacklisted |
| `SetupTargetRepos.KeepCustomMembers` | repos/system_upgrade/el7toel8/actors/setuptargetrepos/actor.py:97 | the filter keeps exactly the custom repositories that are not blacklisted |
| `SetupTargetRepos.KeepRhelAppend` | repos/system_upgrade/el7toel8/actors/setuptargetrepos/actor.py:96 | the filter keeps the order |
| `SetupTargetRepos.CollectEnabled` | repos/system_upgrade/el7toel8/actors/setuptargetrepos/actor.py:46-51 | the loops compute the enabled ids and leave the last repository file in the loop variable |
| `SetupTargetRepos.EnabledOfFiles` | repos/system_upgrade/el7toel8/actors/setuptargetrepos/actor.py:48-51 | one message's loop adds its files' enabled ids |
| `SetupTargetRepos.EnabledOfData` | repos/system_upgrade/el7toel8/actors/setuptargetrepos/actor.py:49-51 | one file's loop adds its enabled ids |
| `SetupTargetRepos.MapRepositories` | repos/system_upgrade/el7toel8/actors/setuptargetrepos/actor.py:53-69 | the loops compute the mapped targets in map order, and the mapped sources |
| `SetupTargetRepos.MapEntries` | repos/system_upgrade/el7toel8/actors/setuptargetrepos/actor.py:56-69 | one message's loop appends its mapped targets and adds its sources |
| `SetupTargetRepos.CollectUsed` | repos/system_upgrade/el7toel8/actors/setuptargetrepos/actor.py:73-78 | the loop computes the used map; it raises `UnboundLocalError` exactly when some repository is used and no repository file was seen |
| `SetupTargetRepos.RecordUsed` | repos/system_upgrade/el7toel8/actors/setuptargetrepos/actor.py:75-78 | one message's loop records its repositories, or raises on the unbound loop variable |
| `SetupTargetRepos.AddIds` | repos/system_upgrade/el7toel8/actors/setuptargetrepos/actor.py:77-78 | adds every id of the stale repository file |
| `SetupTargetRepos.SkippedPackages` | repos/system_upgrade/el7toel8/actors/setuptargetrepos/actor.py:84-86 | the loop computes the packages of the skipped repositories |
| `SetupTargetRepos.ToList` | repos/system_upgrade/el7toel8/actors/setuptargetrepos/actor.py:87 | `list(s)` lists each element once |
| `SetupTargetRepos.AppendTasks` | repos/system_upgrade/el7toel8/actors/setuptargetrepos/actor.py:89-91 | every repository of every task is appended, in order |
| `SetupTargetRepos.CollectBlacklist` | repos/system_upgrade/el7toel8/actors/setuptargetrepos/actor.py:93-95 | the loop computes the union of the blacklists |
| `CheckSkippedRepositories.InAll` | repos/system_upgrade/el7toel8/actors/checkskippedrepositories/actor.py:24-26 | a repository (a package) is reported exactly when some message lists it |
| `CheckSkippedRepositories.Collect` | repos/system_upgrade/el7toel8/actors/checkskippedrepositories/actor.py:24-26 | the loop computes the union of all messages' repositories and packages |
| `CheckSkippedRepositories.SummaryLayout` | repos/system_upgrade/el7toel8/actors/checkskippedrepositories/actor.py:30-35 | the summary's lines are the repository header, one `- ` line per repository, the package header, and one `- ` line per package |
| `CheckSkippedRepositories.Process` | repos/system_upgrade/el7toel8/actors/checkskippedrepositories/actor.py:20-41 | a report is produced exactly when some repository was reported, and it lists every repository and every package once |
| `CheckSkippedRepositories.SkippedAreReported` | repos/system_upgrade/el7toel8/actors/setuptargetrepos/actor.py:83-87 | every message the setup actor produces leads to a report, which lists exactly its repositories and packages |

## Left out

- The file system's directories, owners and permission bits are not modelled. A file is either readable or
  raises `EACCES`. A path that does not resolve raises `ENOENT`, and more than 40 links raise `ELOOP`.
- `is_service_enabled('ypbind')` runs `systemctl`. Its answer is the parameter `ypbind`.
- The dialog answers are parameters: `answer` and `answers`, with `None` for a missing answer.
- The outcome of `run` for the authselect call is the parameter `outcome`. A `Raised` outcome stands for
  any exception, and its message is `str(err)`.
- `platform.machine()` is the parameter `machine`. The time of a write is the parameter `now`.
- Consumed messages are parameters. Produced messages and reports are appended to sequences or returned.
  `next(self.consume(...))` on an empty stream is not modelled: every actor receives its message.
- The `print` in `has_unknown_module` and the verbose log of `checkskippedrepositories` (lines 43-44) do not
  affect any message.
- `produce_inhibitor` of `removeoldpammodulescheck` is never called and is not modelled. The `modules`
  attribute of that class is never used.
- A `RHELTargetRepository` is modelled as its repository id. The other fields of the consumed messages are
  left out.
- Python 2 iterates dictionaries in hash order; the model takes the order in which they are written. The
  scanner's feature table is sorted afterwards (`AuthselectScanner.FeatureOrderIrrelevant`). The link loop
  of the confirmation step never raises, so its order does not matter. In the removal apply, two entries
  for the same file carry the same text.
- AuthselectScanner.AuthselectScanner.StepDetectIfConfirmationIsRequired: walks the link targets in the
  order `links` is written. Under Python 2's hash order the outcome can differ when one target is missing
  and another is newer: the order decides between raising and keeping `confirm` true (for example
  `system-auth-ac` missing and `fingerprint-auth-ac` newer gives true in the written order and raises in
  the reverse). `AuthselectScanner.MtimeCheckRaises` states the raise for a given order, and
  `AuthselectScanner.MtimeCheckOrderFree` states the outcomes that every order shares.
- Iterating a `set` is also in hash order: `SetupTargetRepos.ToList` may list a set in any order, and the
  contracts allow any.
- SetupTargetRepos.ToList: promises each element once and no order, because Python's set order depends on
  hashing.
- CheckSkippedRepositories.Process: promises some order of the repositories and packages, each once, for the
  same reason.
- Strings are Python 2 byte strings. `\s` is ASCII whitespace.
- Python 2 `IOError` is not an `OSError`, so the handler in `pam.py` does not catch a failing `open` at all:
  as written, the error of `open` escapes, a missing file included (`Pam.ReadAllAsWritten`). The handler of
  `removeoldpammodulesapply` does catch `IOError`, and then fails on the missing `errno` import with
  `NameError` (`RemovedPamApply.ReadPresentAsWritten`).
- FileSystem.WriteFile: a write always succeeds. `open(file, 'w')` failing (permission, a read-only file
  system) is not modelled.
- RemovedPamApply.RemovalEffect: does not model a failing write. In the source, an `open(file, 'w')` that
  raises part way through the writing loop leaves the earlier files rewritten and the later ones untouched;
  the model promises every read file rewritten.
- RemovedPamApply.WriteFiles: the same: every write succeeds, so no partial rewrite is modelled.
- AuthselectScanner.AuthselectScanner.Process: composes the corrected definitions, not the code as written:
  the sysconfig path `/etc/sysconfig/authconfig` (`AuthselectScanner.Sysconfig`), the intended `get_bool`
  (`ConfigFile.BoolValue`) and the intended PAM reading (`Pam.ReadAll`). The code as written is modelled by
  `AuthselectScanner.MisspelledSysconfig`, `AuthselectScanner.DetectionRaisesAsWritten` and
  `Pam.MissingPamFileAsWritten`.
- AuthselectScanner.AuthselectScanner.StepDetectSssdFeatures: uses the intended `get_bool`; as written the
  step raises `NameError` whenever the profile is sssd and `pam_pkcs11` is not loaded (`AuthselectScanner.DetectionRaisesAsWritten`).
- AuthselectScanner.AuthselectScanner.StepDetectWinbindFeatures: uses the intended `get_bool`; as written
  the step raises `NameError` whenever the profile is winbind (`AuthselectScanner.DetectionRaisesAsWritten`).
- AuthselectScanner.LoadFactsOk: reads the PAM files with the intended `Pam.ReadAll`, where the code as
  written raises on a missing file (`Pam.MissingPamFileAsWritten`).
- Pam.Pam.FromSystemConfiguration: reads with the intended `Pam.ReadAll`; the code as written is
  `Pam.ReadAllAsWritten`.
- RemovedPamScanner.RemovedPamScanner.Process: reads the PAM configuration with the intended `Pam.ReadAll`.
- RemovedPamCheck.RemovedPamCheck.Process: reads the PAM configuration with the intended `Pam.ReadAll`.
- AuthselectApply.Apply: runs the intended words of the call (`AuthselectModel.Argv`), not the split with
  an empty argument (`AuthselectModel.EmptyFeatureArgument`).
- AuthselectApply.AuthselectApply.Process: the same as `AuthselectApply.Apply`.
- RemovedPamApply.Process: reads with the intended `RemovedPamApply.ReadPresent`, where the code as written
  raises `NameError` on a missing file (`RemovedPamApply.MissingFileAsWritten`).
- Regular-expression behaviour is modelled only for the expressions these actors use, one line at a time.

## Findings

| source | as written | input that shows it | evidently intended | confidence | as-written member | corrected member |
|---|---|---|---|---|---|---|
| repos/system_upgrade/el7toel8/libraries/pam.py:43 | `read_file` handles only `OSError`, which a Python 2 `IOError` is not, and compares with `errno`, which `pam.py` never imports | one of the five PAM files is missing: the `IOError` of `open` escapes | a missing file reads as the empty text | not executed | `Pam.MissingPamFileAsWritten` | `Pam.ReadAll` |
| repos/system_upgrade/el7toel8/actors/removeoldpammodulesapply/actor.py:29 | the handler uses `errno`, which the actor never imports | one of the five PAM files is missing | a missing file is skipped | not executed | `RemovedPamApply.MissingFileAsWritten` | `RemovedPamApply.ReadPresent` |
| repos/system_upgrade/el7toel8/actors/authselectscanner/libraries/library.py:63-64 | the parameter is `options` but the body reads `option` | any call, e.g. `get_bool('USESMARTCARD')` on the sssd profile | the value of the key is the yes literal | not executed | `ConfigFile.GetBoolFails` | `ConfigFile.GetBoolIsYes` |
| repos/system_upgrade/el7toel8/actors/authselectscanner/actor.py:192 | the sysconfig path is `/etc/sysconfig/authconfg` | an authconfig-made system: sysconfig file present, links in place, no newer file | `/etc/sysconfig/authconfig`, which alone shows that authconfig made the configuration | not executed | `AuthselectScanner.MisspelledSysconfig` | `AuthselectScanner.ConfirmationRule` |
| repos/system_upgrade/el7toel8/actors/authselectapply/actor.py:35 | the command split on single spaces | a profile with no features: `authselect select sssd  --force` | the words of the call, with no empty argument | not executed | `AuthselectModel.EmptyFeatureArgument` | `AuthselectModel.ArgvAgrees` |
