/** The scanner of the deprecated PAM modules (`actors/removeoldpammodulesscanner/actor.py`): it lists
    which of pam_krb5 and pam_pkcs11, both gone in RHEL 8, the PAM configuration loads. */
module RemovedPamScanner {
  import opened Text
  import opened Failures
  import opened FileSystem
  import opened Pam

  /** The modules RHEL 8 no longer ships, in the order the scanner looks for them. */
  const Candidates: seq<string> := ["pam_krb5", "pam_pkcs11"]

  /** The candidates that occur in `modules`, in the order of `candidates`. */
  function Present(modules: seq<string>, candidates: seq<string>): (r: seq<string>)
    ensures forall m :: m in r <==> m in candidates && m in modules
    ensures |r| <= |candidates|
    ensures NoDuplicates(candidates) ==> NoDuplicates(r)
  {
    if candidates == [] then []
    else
      var init, c := candidates[..|candidates| - 1], candidates[|candidates| - 1];
      assert forall m :: m in candidates <==> m in init || m == c;
      var r := Present(modules, init);
      if c in modules then
        assert NoDuplicates(candidates) ==> NoDuplicates(init) && c !in init by {
          if NoDuplicates(candidates) {
            forall m | m in init ensures m != c {
              var k :| 0 <= k < |init| && init[k] == m;
              assert candidates[k] == m;
            }
          }
        }
        r + [c]
      else r
  }

  lemma PresentStep(modules: seq<string>, candidates: seq<string>, i: nat)
    requires i < |candidates|
    ensures Present(modules, candidates[..i + 1])
         == if candidates[i] in modules then Present(modules, candidates[..i]) + [candidates[i]]
            else Present(modules, candidates[..i])
  {
    assert candidates[..i + 1][..i] == candidates[..i];
  }

  /** The list is one of the four subsequences of the candidates: nothing, one of them, or both in
      the order pam_krb5, pam_pkcs11. */
  lemma PresentShape(modules: seq<string>)
    ensures var r := Present(modules, Candidates);
      r == [] || r == ["pam_krb5"] || r == ["pam_pkcs11"] || r == ["pam_krb5", "pam_pkcs11"]
    ensures var r := Present(modules, Candidates); |r| <= 2 && NoDuplicates(r)
  {
    assert Candidates[..1] == ["pam_krb5"];
    assert Candidates[..1][..0] == [];
    var r1 := Present(modules, Candidates[..1]);
    assert r1 == if "pam_krb5" in modules then ["pam_krb5"] else [];
    assert Present(modules, Candidates) == if "pam_pkcs11" in modules then r1 + ["pam_pkcs11"] else r1;
    assert NoDuplicates(Candidates);
  }

  /** The actor. The source keeps the list on the class, so every instance starts from what earlier
      instances appended: `carried`. */
  class RemovedPamScanner {
    var pam: Pam?
    var modules: seq<string>
    /** The `RemovedPAMModules` messages, each with its module list. */
    var produced: seq<seq<string>>

    constructor (carried: seq<string>)
      ensures pam == null && modules == carried && produced == []
    {
      pam := null;
      modules := carried;
      produced := [];
    }

    /** `process`: the candidates the five PAM files load are appended to the list, and the list is
        produced, once, even when it is empty. */
    method Process(fs: Fs) returns (r: Result<()>)
      modifies this
      ensures r.Ok? <==> ReadAll(fs, Files).Ok?
      ensures r.Err? ==> r.failure == ReadAll(fs, Files).failure && modules == old(modules) && produced == old(produced)
      ensures r.Ok? ==>
        (modules == old(modules) + Present(ParseModules(ReadAll(fs, Files).value), Candidates)
         && produced == old(produced) + [modules])
    {
      var loaded := Pam.FromSystemConfiguration(fs);
      if loaded.Err? {
        return Err(loaded.failure);
      }
      pam := loaded.value;
      AppendPresent(loaded.value);
      produced := produced + [modules];
      return Ok(());
    }

    /** The loop over the candidates: each one the configuration loads is appended to the list. */
    method AppendPresent(p: Pam)
      modifies this
      ensures pam == old(pam) && produced == old(produced)
      ensures modules == old(modules) + Present(p.modules, Candidates)
    {
      var i := 0;
      while i < |Candidates|
        invariant pam == old(pam) && produced == old(produced)
        invariant 0 <= i <= |Candidates|
        invariant modules == old(modules) + Present(p.modules, Candidates[..i])
      {
        PresentStep(p.modules, Candidates, i);
        if p.Has(Candidates[i]) {
          modules := modules + [Candidates[i]];
        }
        i := i + 1;
      }
      assert Candidates[..i] == Candidates;
    }
  }

  /** A fresh instance reports each present candidate exactly once, in the candidates' order, and
      nothing else. */
  lemma FreshScan(config: string, m: string)
    ensures var r := Present(ParseModules(config), Candidates);
      (m in r <==> (m == "pam_krb5" || m == "pam_pkcs11") && m in ParseModules(config))
      && |r| <= 2 && NoDuplicates(r)
  {
    PresentShape(ParseModules(config));
  }
}
