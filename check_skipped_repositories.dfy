/** The check of the skipped repositories (`actors/checkskippedrepositories/actor.py`): when enabled
    repositories that the repository map does not know were used by installed packages, it reports them
    and those packages. */
module CheckSkippedRepositories {
  import opened Text
  import opened Failures
  import opened Reporting
  import opened SetupTargetRepos

  const Title: string := "Some enabled RPM repositories are unknown to Leapp"
  // The two headers, in pieces that keep the proofs about their characters short.
  const RepositoriesHeader: string :=
    "The following " + "repositories " + "with Red Hat-signed " + "packages " + "are unknown " + "to Leapp:"
  const PackagesHeader: string :=
    "And the following " + "packages installed " + "from those " + "repositories " + "may not be upgraded:"
  const Remediation: string :=
    "You can file a request to add this repository to the scope of in-place upgrades by filing a support ticket"

  /** The repositories of all messages. */
  function AllRepos(messages: seq<SkippedRepositories>): set<string> {
    if messages == [] then {}
    else AllRepos(messages[..|messages| - 1]) + Elements(messages[|messages| - 1].repos)
  }

  /** The packages of all messages. */
  function AllPackages(messages: seq<SkippedRepositories>): set<string> {
    if messages == [] then {}
    else AllPackages(messages[..|messages| - 1]) + Elements(messages[|messages| - 1].packages)
  }

  /** A repository is reported exactly when some message lists it, and likewise a package. */
  lemma {:induction false} InAll(messages: seq<SkippedRepositories>, x: string)
    ensures x in AllRepos(messages) <==> exists i :: 0 <= i < |messages| && x in messages[i].repos
    ensures x in AllPackages(messages) <==> exists i :: 0 <= i < |messages| && x in messages[i].packages
  {
    if messages != [] {
      var n := |messages| - 1;
      InAll(messages[..n], x);
      assert forall i :: 0 <= i < n ==> messages[..n][i] == messages[i];
    }
  }

  /** The lines of the summary: a header, one `- ` line per repository, another header, one `- ` line
      per package. */
  function SummaryLines(repos: seq<string>, packages: seq<string>): seq<string> {
    [RepositoriesHeader] + MapPrefix("- ", repos) + [PackagesHeader] + MapPrefix("- ", packages)
  }

  /** The summary: its lines joined by newlines. */
  function Summary(repos: seq<string>, packages: seq<string>): string {
    Join(SummaryLines(repos, packages), '\n')
  }

  /** When no id holds a newline, the summary's lines are the two headers and one line per repository
      and per package, in the listed order. */
  lemma SummaryLayout(repos: seq<string>, packages: seq<string>)
    requires forall i :: 0 <= i < |repos| ==> '\n' !in repos[i]
    requires forall i :: 0 <= i < |packages| ==> '\n' !in packages[i]
    ensures var lines := Split(Summary(repos, packages), '\n');
      |lines| == |repos| + |packages| + 2
      && lines[0] == RepositoriesHeader && lines[|repos| + 1] == PackagesHeader
      && (forall i :: 0 <= i < |repos| ==> lines[i + 1] == "- " + repos[i])
      && (forall i :: 0 <= i < |packages| ==> lines[|repos| + 2 + i] == "- " + packages[i])
  {
    var lines := SummaryLines(repos, packages);
    SummaryLinesAreLines(repos, packages);
    SplitJoin(lines, '\n');
    SummaryLinesLayout(repos, packages);
  }

  /** Where each header and each id sits in the list of lines. */
  lemma SummaryLinesLayout(repos: seq<string>, packages: seq<string>)
    ensures var lines := SummaryLines(repos, packages);
      |lines| == |repos| + |packages| + 2
      && lines[0] == RepositoriesHeader && lines[|repos| + 1] == PackagesHeader
      && (forall i :: 0 <= i < |repos| ==> lines[i + 1] == "- " + repos[i])
      && (forall i :: 0 <= i < |packages| ==> lines[|repos| + 2 + i] == "- " + packages[i])
  {
    var rs, ps := MapPrefix("- ", repos), MapPrefix("- ", packages);
    var lines := SummaryLines(repos, packages);
    assert lines == [RepositoriesHeader] + rs + [PackagesHeader] + ps;
  }

  /** No line of the summary holds a newline when no id does. */
  lemma SummaryLinesAreLines(repos: seq<string>, packages: seq<string>)
    requires forall i :: 0 <= i < |repos| ==> '\n' !in repos[i]
    requires forall i :: 0 <= i < |packages| ==> '\n' !in packages[i]
    ensures var lines := SummaryLines(repos, packages);
      forall i :: 0 <= i < |lines| ==> '\n' !in lines[i]
  {
    var lines := SummaryLines(repos, packages);
    SummaryLinesLayout(repos, packages);
    RepositoriesHeaderIsOneLine();
    PackagesHeaderIsOneLine();
    forall i | 0 <= i < |lines| ensures '\n' !in lines[i] {
      if 0 < i < |repos| + 1 {
        PrefixedLine(repos[i - 1]);
      } else if i > |repos| + 1 {
        PrefixedLine(packages[i - |repos| - 2]);
      }
    }
  }

  lemma RepositoriesHeaderIsOneLine()
    ensures '\n' !in RepositoriesHeader
  {
  }

  lemma PackagesHeaderIsOneLine()
    ensures '\n' !in PackagesHeader
  {
  }

  lemma PrefixedLine(x: string)
    requires '\n' !in x
    ensures '\n' !in "- " + x
  {
    assert forall c :: c in "- " + x ==> c in "- " || c in x;
  }

  /** The report, for the repositories and packages in the order they were listed. */
  function ReportFor(repos: seq<string>, packages: seq<string>): Report {
    WithRemediation(Title, Summary(repos, packages), Remediation, Some("low"))
  }

  /** `process`: the union of all messages' repositories and packages; a low-severity report with a
      remediation when there is any repository. The sets are listed in some order, each member once. */
  method Process(messages: seq<SkippedRepositories>) returns (report: Option<Report>)
    ensures report.Some? <==> AllRepos(messages) != {}
    ensures report.Some? ==>
      exists repos, packages ::
        Elements(repos) == AllRepos(messages) && NoDuplicates(repos)
        && Elements(packages) == AllPackages(messages) && NoDuplicates(packages)
        && report.value == ReportFor(repos, packages)
  {
    var repos, packages := Collect(messages);
    report := None;
    if repos != {} {
      var repoList := ToList(repos);
      var packageList := ToList(packages);
      report := Some(ReportFor(repoList, packageList));
    }
  }

  /** The loop of lines 24-26. */
  method Collect(messages: seq<SkippedRepositories>) returns (repos: set<string>, packages: set<string>)
    ensures repos == AllRepos(messages) && packages == AllPackages(messages)
  {
    repos, packages := {}, {};
    var i := 0;
    while i < |messages|
      invariant 0 <= i <= |messages|
      invariant repos == AllRepos(messages[..i]) && packages == AllPackages(messages[..i])
    {
      assert messages[..i + 1][..i] == messages[..i];
      repos := repos + Elements(messages[i].repos);
      packages := packages + Elements(messages[i].packages);
      i := i + 1;
    }
    assert messages[..i] == messages;
  }

  /** The two actors together: the skipped repositories that the setup actor reports always lead to a
      report, which lists exactly them. */
  lemma SkippedAreReported(m: SkippedRepositories)
    requires m.repos != []
    ensures AllRepos([m]) != {} && AllRepos([m]) == Elements(m.repos)
    ensures AllPackages([m]) == Elements(m.packages)
  {
    assert [m][..0] == [];
    assert m.repos[0] in Elements(m.repos);
  }
}
