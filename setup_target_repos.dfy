/** The actor that chooses the repositories of the upgrade transaction
    (`actors/setuptargetrepos/actor.py`): every enabled RHEL 7 repository that the repository map maps
    for this machine gives its RHEL 8 counterpart; the enabled ones the map does not know, but that
    installed packages came from, are reported as skipped; setup tasks add repositories, and blacklisted
    ones are dropped. */
module SetupTargetRepos {
  import opened Text
  import opened Failures

  /** `EXTRAS_REPOS`: the Extras channels, whose mapping is skipped. */
  const ExtrasRepos: set<string> := {
    "rhel-7-for-arm-64-extras-rhui-rpms",
    "rhel-7-for-arm-64-extras-rpms",
    "rhel-7-for-power-9-extras-rpms",
    "rhel-7-for-power-le-extras-rpms",
    "rhel-7-for-system-z-a-extras-rpms",
    "rhel-7-for-system-z-extras-rpms",
    "rhel-7-server-extras-rpms",
    "rhel-7-server-rhui-extras-rpms"
  }

  // The consumed messages, with the fields the actor reads.
  datatype RepositoryData = RepositoryData(repoid: string, enabled: bool)
  datatype RepositoryFile = RepositoryFile(file: string, data: seq<RepositoryData>)
  datatype RepositoriesFacts = RepositoriesFacts(repositories: seq<RepositoryFile>)
  datatype RepositoryMap = RepositoryMap(fromRepoid: string, toRepoid: string, arch: string)
  datatype RepositoriesMap = RepositoriesMap(repositories: seq<RepositoryMap>)
  datatype UsedRepository = UsedRepository(repository: string, packages: seq<string>)
  datatype UsedRepositories = UsedRepositories(repositories: seq<UsedRepository>)
  datatype RepositoriesSetupTasks = RepositoriesSetupTasks(toEnable: seq<string>)
  datatype RepositoriesBlacklisted = RepositoriesBlacklisted(repoids: seq<string>)
  datatype CustomTargetRepository =
    CustomTargetRepository(repoid: string, name: Option<string>, baseurl: Option<string>, enabled: bool)

  // The produced messages; a `RHELTargetRepository` is its repository id.
  datatype SkippedRepositories = SkippedRepositories(repos: seq<string>, packages: seq<string>)
  datatype TargetRepositories =
    TargetRepositories(rhelRepos: seq<string>, customRepos: seq<CustomTargetRepository>)

  /** The actor's messages: the skipped repositories, if any, then the target repositories. */
  datatype Output = Output(skipped: Option<SkippedRepositories>, target: TargetRepositories)

  // ---- The nested lists, flattened in the order the loops visit them.

  function FilesOf(facts: seq<RepositoriesFacts>): seq<RepositoryFile> {
    if facts == [] then [] else FilesOf(facts[..|facts| - 1]) + facts[|facts| - 1].repositories
  }

  function DataOf(files: seq<RepositoryFile>): seq<RepositoryData> {
    if files == [] then [] else DataOf(files[..|files| - 1]) + files[|files| - 1].data
  }

  function EntriesOf(maps: seq<RepositoriesMap>): seq<RepositoryMap> {
    if maps == [] then [] else EntriesOf(maps[..|maps| - 1]) + maps[|maps| - 1].repositories
  }

  function UsedOf(used: seq<UsedRepositories>): seq<UsedRepository> {
    if used == [] then [] else UsedOf(used[..|used| - 1]) + used[|used| - 1].repositories
  }

  function TaskIdsOf(tasks: seq<RepositoriesSetupTasks>): seq<string> {
    if tasks == [] then [] else TaskIdsOf(tasks[..|tasks| - 1]) + tasks[|tasks| - 1].toEnable
  }

  function BlacklistOf(blacklists: seq<RepositoriesBlacklisted>): set<string> {
    if blacklists == [] then {}
    else BlacklistOf(blacklists[..|blacklists| - 1]) + Elements(blacklists[|blacklists| - 1].repoids)
  }

  lemma {:induction false} InFilesOf(facts: seq<RepositoriesFacts>, f: RepositoryFile)
    ensures f in FilesOf(facts) <==> exists i :: 0 <= i < |facts| && f in facts[i].repositories
  {
    if facts != [] {
      var n := |facts| - 1;
      InFilesOf(facts[..n], f);
      assert forall i :: 0 <= i < n ==> facts[..n][i] == facts[i];
    }
  }

  lemma {:induction false} InDataOf(files: seq<RepositoryFile>, d: RepositoryData)
    ensures d in DataOf(files) <==> exists f :: f in files && d in f.data
  {
    if files != [] {
      var n := |files| - 1;
      InDataOf(files[..n], d);
      assert files == files[..n] + [files[n]];
    }
  }

  lemma FilesOfStep(facts: seq<RepositoriesFacts>, i: nat)
    requires i < |facts|
    ensures FilesOf(facts[..i + 1]) == FilesOf(facts[..i]) + facts[i].repositories
  {
    assert facts[..i + 1][..i] == facts[..i];
  }

  lemma EntriesOfStep(maps: seq<RepositoriesMap>, i: nat)
    requires i < |maps|
    ensures EntriesOf(maps[..i + 1]) == EntriesOf(maps[..i]) + maps[i].repositories
  {
    assert maps[..i + 1][..i] == maps[..i];
  }

  lemma UsedOfStep(used: seq<UsedRepositories>, i: nat)
    requires i < |used|
    ensures UsedOf(used[..i + 1]) == UsedOf(used[..i]) + used[i].repositories
  {
    assert used[..i + 1][..i] == used[..i];
  }

  lemma {:induction false} DataOfAppend(a: seq<RepositoryFile>, b: seq<RepositoryFile>)
    ensures DataOf(a + b) == DataOf(a) + DataOf(b)
  {
    if b == [] {
      assert a + b == a;
    } else {
      var init := b[..|b| - 1];
      assert (a + b)[..|a + b| - 1] == a + init;
      DataOfAppend(a, init);
    }
  }

  /** The ids of the enabled repositories among `data`. */
  function EnabledIds(data: seq<RepositoryData>): set<string> {
    set d | d in data && d.enabled :: d.repoid
  }

  lemma EnabledIdsAppend(a: seq<RepositoryData>, b: seq<RepositoryData>)
    ensures EnabledIds(a + b) == EnabledIds(a) + EnabledIds(b)
  {
    assert forall d :: d in a + b <==> d in a || d in b;
  }

  /** The ids of all repositories among `data`. */
  function AllIds(data: seq<RepositoryData>): set<string> {
    set d | d in data :: d.repoid
  }

  // ---- What the actor computes.

  /** `enabled_repos`: the ids of the enabled repositories of all repository files. */
  function Enabled(facts: seq<RepositoriesFacts>): set<string> {
    EnabledIds(DataOf(FilesOf(facts)))
  }

  /** A repository id is enabled exactly when some repository of some file of some facts message has
      that id and is enabled. */
  lemma EnabledExactly(facts: seq<RepositoriesFacts>, x: string)
    ensures x in Enabled(facts) <==>
      exists i, f, d :: 0 <= i < |facts| && f in facts[i].repositories && d in f.data && d.enabled && d.repoid == x
  {
    if x in Enabled(facts) {
      var d :| d in DataOf(FilesOf(facts)) && d.enabled && d.repoid == x;
      InDataOf(FilesOf(facts), d);
      var f :| f in FilesOf(facts) && d in f.data;
      InFilesOf(facts, f);
    }
    if exists i, f, d :: 0 <= i < |facts| && f in facts[i].repositories && d in f.data && d.enabled && d.repoid == x {
      var i, f, d :| 0 <= i < |facts| && f in facts[i].repositories && d in f.data && d.enabled && d.repoid == x;
      InFilesOf(facts, f);
      InDataOf(FilesOf(facts), d);
    }
  }

  /** A map entry counts when it is for this machine's architecture and does not map an Extras
      channel; the others contribute nothing. */
  predicate Relevant(e: RepositoryMap, machine: string) {
    e.arch == machine && e.fromRepoid !in ExtrasRepos
  }

  /** The sources of the counting entries among `entries`. */
  function MappedIds(entries: seq<RepositoryMap>, machine: string): set<string> {
    set e | e in entries && Relevant(e, machine) :: e.fromRepoid
  }

  lemma MappedIdsAppend(a: seq<RepositoryMap>, b: seq<RepositoryMap>, machine: string)
    ensures MappedIds(a + b, machine) == MappedIds(a, machine) + MappedIds(b, machine)
  {
    assert forall e :: e in a + b <==> e in a || e in b;
  }

  /** `mapped_repos` */
  function Mapped(maps: seq<RepositoriesMap>, machine: string): set<string> {
    MappedIds(EntriesOf(maps), machine)
  }

  /** The target repositories the map gives, in map order: one per counting entry whose source is
      enabled. */
  function MappedTargets(entries: seq<RepositoryMap>, machine: string, enabled: set<string>): seq<string> {
    if entries == [] then []
    else
      var init, e := entries[..|entries| - 1], entries[|entries| - 1];
      MappedTargets(init, machine, enabled) + (if Relevant(e, machine) && e.fromRepoid in enabled then [e.toRepoid] else [])
  }

  /** A repository is a mapped target exactly when a counting entry whose source is enabled maps to it. */
  lemma {:induction false} MappedTargetsMembers(entries: seq<RepositoryMap>, machine: string, enabled: set<string>,
                                                x: string)
    ensures x in MappedTargets(entries, machine, enabled) <==>
      exists e :: e in entries && Relevant(e, machine) && e.fromRepoid in enabled && e.toRepoid == x
  {
    if entries != [] {
      var init, e := entries[..|entries| - 1], entries[|entries| - 1];
      assert entries == init + [e];
      MappedTargetsMembers(init, machine, enabled, x);
    }
  }

  /** One more entry: its target, when it counts and its source is enabled, and its source, when it
      counts. */
  lemma MappedStep(entries: seq<RepositoryMap>, machine: string, enabled: set<string>, j: nat)
    requires j < |entries|
    ensures var e := entries[j];
      MappedTargets(entries[..j + 1], machine, enabled)
      == MappedTargets(entries[..j], machine, enabled)
         + (if Relevant(e, machine) && e.fromRepoid in enabled then [e.toRepoid] else [])
    ensures var e := entries[j];
      MappedIds(entries[..j + 1], machine)
      == MappedIds(entries[..j], machine) + (if Relevant(e, machine) then {e.fromRepoid} else {})
  {
    assert entries[..j + 1][..j] == entries[..j] && entries[..j + 1][j] == entries[j];
    MappedIdsAppend(entries[..j], [entries[j]], machine);
    assert entries[..j + 1] == entries[..j] + [entries[j]];
  }

  lemma {:induction false} MappedTargetsAppend(a: seq<RepositoryMap>, b: seq<RepositoryMap>, machine: string,
                                               enabled: set<string>)
    ensures MappedTargets(a + b, machine, enabled) == MappedTargets(a, machine, enabled) + MappedTargets(b, machine, enabled)
  {
    if b == [] {
      assert a + b == a;
    } else {
      var init := b[..|b| - 1];
      assert (a + b)[..|a + b| - 1] == a + init;
      MappedTargetsAppend(a, init, machine, enabled);
    }
  }

  /** `used`: each used repository's packages; a repository listed again replaces its packages. */
  function UsedMap(entries: seq<UsedRepository>): map<string, seq<string>> {
    if entries == [] then map[]
    else
      var init, u := entries[..|entries| - 1], entries[|entries| - 1];
      UsedMap(init)[u.repository := u.packages]
  }

  /** The recorded repositories are exactly the listed ones. */
  lemma {:induction false} UsedKeys(entries: seq<UsedRepository>, k: string)
    ensures k in UsedMap(entries) <==> exists i :: 0 <= i < |entries| && entries[i].repository == k
  {
    if entries != [] {
      var n := |entries| - 1;
      UsedKeys(entries[..n], k);
      assert forall i :: 0 <= i < n ==> entries[..n][i] == entries[i];
    }
  }

  lemma {:induction false} UsedMapAppend(a: seq<UsedRepository>, b: seq<UsedRepository>)
    ensures UsedMap(a + b) == UsedMap(a) + UsedMap(b)
  {
    if b == [] {
      assert a + b == a;
    } else {
      var init, u := b[..|b| - 1], b[|b| - 1];
      assert (a + b)[..|a + b| - 1] == a + init && (a + b)[|a + b| - 1] == u;
      UsedMapAppend(a, init);
    }
  }

  /** `entries[i]` lists `k`, and no later entry does. */
  predicate LastListing(entries: seq<UsedRepository>, k: string, i: int) {
    0 <= i < |entries| && entries[i].repository == k
    && forall j :: i < j < |entries| ==> entries[j].repository != k
  }

  /** The packages a repository is recorded with come from its last listing. */
  lemma {:induction false} UsedLastWins(entries: seq<UsedRepository>, k: string)
    requires k in UsedMap(entries)
    ensures exists i :: LastListing(entries, k, i) && UsedMap(entries)[k] == entries[i].packages
  {
    var n := |entries| - 1;
    var init := entries[..n];
    if entries[n].repository == k {
      assert LastListing(entries, k, n);
    } else {
      UsedLastWins(init, k);
      var i :| LastListing(init, k, i) && UsedMap(init)[k] == init[i].packages;
      assert entries[i] == init[i];
      forall j | i < j < |entries| ensures entries[j].repository != k {
        if j < n {
          assert entries[j] == init[j];
        }
      }
      assert LastListing(entries, k, i);
    }
  }

  /** The skipped repositories: enabled, unknown to the map, used by installed packages, and not an
      Extras channel. */
  function Skipped(enabled: set<string>, mapped: set<string>, used: map<string, seq<string>>): set<string> {
    ((enabled - mapped) * used.Keys) - ExtrasRepos
  }

  /** `pkgs`: the packages of all skipped repositories. */
  function Packages(skipped: set<string>, used: map<string, seq<string>>): set<string> {
    set r, p | r in skipped && r in used && p in used[r] :: p
  }

  /** The blacklist filter, keeping the order of the rest. */
  function KeepRhel(repos: seq<string>, blacklisted: set<string>): seq<string> {
    if repos == [] then []
    else (if repos[0] in blacklisted then [] else [repos[0]]) + KeepRhel(repos[1..], blacklisted)
  }

  function KeepCustom(repos: seq<CustomTargetRepository>, blacklisted: set<string>): seq<CustomTargetRepository> {
    if repos == [] then []
    else (if repos[0].repoid in blacklisted then [] else [repos[0]]) + KeepCustom(repos[1..], blacklisted)
  }

  /** The filter keeps exactly the repositories that are not blacklisted. */
  lemma {:induction false} KeepRhelMembers(repos: seq<string>, blacklisted: set<string>, x: string)
    ensures x in KeepRhel(repos, blacklisted) <==> x in repos && x !in blacklisted
  {
    if repos != [] {
      KeepRhelMembers(repos[1..], blacklisted, x);
      assert x in repos <==> x == repos[0] || x in repos[1..];
    }
  }

  lemma {:induction false} KeepCustomMembers(repos: seq<CustomTargetRepository>, blacklisted: set<string>,
                                             x: CustomTargetRepository)
    ensures x in KeepCustom(repos, blacklisted) <==> x in repos && x.repoid !in blacklisted
  {
    if repos != [] {
      KeepCustomMembers(repos[1..], blacklisted, x);
      assert x in repos <==> x == repos[0] || x in repos[1..];
    }
  }

  /** Filtering keeps the order: the filtered concatenation is the concatenation of the filtered parts. */
  lemma {:induction false} KeepRhelAppend(a: seq<string>, b: seq<string>, blacklisted: set<string>)
    ensures KeepRhel(a + b, blacklisted) == KeepRhel(a, blacklisted) + KeepRhel(b, blacklisted)
  {
    if a != [] {
      assert (a + b)[0] == a[0] && (a + b)[1..] == a[1..] + b;
      KeepRhelAppend(a[1..], b, blacklisted);
    } else {
      assert a + b == b;
    }
  }

  lemma {:induction false} KeepCustomAppend(a: seq<CustomTargetRepository>, b: seq<CustomTargetRepository>,
                                            blacklisted: set<string>)
    ensures KeepCustom(a + b, blacklisted) == KeepCustom(a, blacklisted) + KeepCustom(b, blacklisted)
  {
    if a != [] {
      assert (a + b)[0] == a[0] && (a + b)[1..] == a[1..] + b;
      KeepCustomAppend(a[1..], b, blacklisted);
    } else {
      assert a + b == b;
    }
  }

  /** The target repositories: the mapped ones, then those of the setup tasks, then the custom ones,
      without the blacklisted. */
  function Target(custom: seq<CustomTargetRepository>, facts: seq<RepositoriesFacts>, maps: seq<RepositoriesMap>,
                  tasks: seq<RepositoriesSetupTasks>, blacklists: seq<RepositoriesBlacklisted>,
                  machine: string): TargetRepositories
  {
    var rhel := MappedTargets(EntriesOf(maps), machine, Enabled(facts)) + TaskIdsOf(tasks);
    TargetRepositories(KeepRhel(rhel, BlacklistOf(blacklists)), KeepCustom(custom, BlacklistOf(blacklists)))
  }

  /** Every repository of a setup task ends among the RHEL targets unless blacklisted, after the mapped
      ones, and no blacklisted id is a target. */
  lemma TargetsMeaning(custom: seq<CustomTargetRepository>, facts: seq<RepositoriesFacts>,
                       maps: seq<RepositoriesMap>, tasks: seq<RepositoriesSetupTasks>,
                       blacklists: seq<RepositoriesBlacklisted>, machine: string)
    ensures var t := Target(custom, facts, maps, tasks, blacklists, machine);
      t.rhelRepos == KeepRhel(MappedTargets(EntriesOf(maps), machine, Enabled(facts)), BlacklistOf(blacklists))
                     + KeepRhel(TaskIdsOf(tasks), BlacklistOf(blacklists))
    ensures var t := Target(custom, facts, maps, tasks, blacklists, machine);
      forall x :: x in t.rhelRepos ==> x !in BlacklistOf(blacklists)
    ensures var t := Target(custom, facts, maps, tasks, blacklists, machine);
      forall c :: c in t.customRepos <==> c in custom && c.repoid !in BlacklistOf(blacklists)
  {
    var rhel := MappedTargets(EntriesOf(maps), machine, Enabled(facts)) + TaskIdsOf(tasks);
    KeepRhelAppend(MappedTargets(EntriesOf(maps), machine, Enabled(facts)), TaskIdsOf(tasks), BlacklistOf(blacklists));
    forall x | x in KeepRhel(rhel, BlacklistOf(blacklists)) ensures x !in BlacklistOf(blacklists) {
      KeepRhelMembers(rhel, BlacklistOf(blacklists), x);
    }
    forall c ensures c in KeepCustom(custom, BlacklistOf(blacklists)) <==> c in custom && c.repoid !in BlacklistOf(blacklists) {
      KeepCustomMembers(custom, BlacklistOf(blacklists), c);
    }
  }

  /** The actor as a whole. Reading the stale `repo_file` raises `UnboundLocalError` when some
      repository is used but no facts message listed a repository file. */
  function Setup(custom: seq<CustomTargetRepository>, facts: seq<RepositoriesFacts>, maps: seq<RepositoriesMap>,
                 used: seq<UsedRepositories>, tasks: seq<RepositoriesSetupTasks>,
                 blacklists: seq<RepositoriesBlacklisted>, machine: string): (r: Result<(set<string>, set<string>)>)
  {
    if UsedOf(used) != [] && FilesOf(facts) == [] then Err(UnboundLocalError("repo_file"))
    else
      var usedMap := UsedMap(UsedOf(used));
      var skipped := Skipped(Enabled(facts), Mapped(maps, machine), usedMap);
      Ok((skipped, Packages(skipped, usedMap)))
  }

  /** A repository is skipped exactly when it is enabled, no counting map entry has it as source, some
      package was installed from it, and it is not an Extras channel. */
  lemma SkippedExactly(facts: seq<RepositoriesFacts>, maps: seq<RepositoriesMap>, used: seq<UsedRepositories>,
                       machine: string, x: string)
    ensures x in Skipped(Enabled(facts), Mapped(maps, machine), UsedMap(UsedOf(used))) <==>
      x in Enabled(facts) && x !in Mapped(maps, machine) && x !in ExtrasRepos
      && exists i :: 0 <= i < |UsedOf(used)| && UsedOf(used)[i].repository == x
  {
    UsedKeys(UsedOf(used), x);
  }

  /** Every reported package was listed for a skipped repository, in that repository's last listing. */
  lemma PackagesFromSkipped(skipped: set<string>, entries: seq<UsedRepository>, p: string)
    requires p in Packages(skipped, UsedMap(entries))
    ensures exists i :: 0 <= i < |entries| && entries[i].repository in skipped && p in entries[i].packages
  {
    var r :| r in skipped && r in UsedMap(entries) && p in UsedMap(entries)[r];
    UsedLastWins(entries, r);
  }

  /** The elements of a list, as a set. */
  function Elements(xs: seq<string>): set<string> {
    set x | x in xs
  }

  // ---- The actor.

  /** `process`, block by block. */
  method Process(custom: seq<CustomTargetRepository>, facts: seq<RepositoriesFacts>, maps: seq<RepositoriesMap>,
                 used: seq<UsedRepositories>, tasks: seq<RepositoriesSetupTasks>,
                 blacklists: seq<RepositoriesBlacklisted>, machine: string) returns (r: Result<Output>)
    ensures r.Err? <==> Setup(custom, facts, maps, used, tasks, blacklists, machine).Err?
    ensures r.Err? ==> r.failure == UnboundLocalError("repo_file")
    ensures r.Ok? ==> r.value.target == Target(custom, facts, maps, tasks, blacklists, machine)
    ensures r.Ok? ==>
      var (skipped, packages) := Setup(custom, facts, maps, used, tasks, blacklists, machine).value;
      (r.value.skipped.Some? <==> skipped != {})
      && (r.value.skipped.Some? ==>
            Elements(r.value.skipped.value.repos) == skipped && NoDuplicates(r.value.skipped.value.repos)
            && Elements(r.value.skipped.value.packages) == packages && NoDuplicates(r.value.skipped.value.packages))
  {
    var customRepos: seq<CustomTargetRepository> := [];
    var i := 0;
    while i < |custom|
      invariant 0 <= i <= |custom| && customRepos == custom[..i]
    {
      customRepos := customRepos + [custom[i]];
      i := i + 1;
    }
    assert custom[..i] == custom;

    var enabled, repoFile := CollectEnabled(facts);
    var rhelRepos, mapped := MapRepositories(maps, machine, enabled);
    var skipped := enabled - mapped;
    var usedMap, _ := CollectUsed(used, repoFile, enabled);
    if usedMap.Err? {
      return Err(usedMap.failure);
    }
    skipped := skipped * usedMap.value.Keys - ExtrasRepos;

    var skippedMessage: Option<SkippedRepositories> := None;
    if skipped != {} {
      var pkgs := SkippedPackages(skipped, usedMap.value);
      var repoList := ToList(skipped);
      var packageList := ToList(pkgs);
      skippedMessage := Some(SkippedRepositories(repoList, packageList));
    }

    rhelRepos := AppendTasks(rhelRepos, tasks);
    var blacklisted := CollectBlacklist(blacklists);
    var target := TargetRepositories(KeepRhel(rhelRepos, blacklisted), KeepCustom(customRepos, blacklisted));
    return Ok(Output(skippedMessage, target));
  }

  function LastFile(files: seq<RepositoryFile>): Option<RepositoryFile> {
    if files == [] then None else Some(files[|files| - 1])
  }

  /** The loops of lines 46-51: the enabled ids, and the last repository file the loop variable is left
      holding. */
  method CollectEnabled(facts: seq<RepositoriesFacts>) returns (enabled: set<string>, repoFile: Option<RepositoryFile>)
    ensures enabled == Enabled(facts)
    ensures repoFile == LastFile(FilesOf(facts))
  {
    enabled := {};
    repoFile := None;
    var i := 0;
    while i < |facts|
      invariant 0 <= i <= |facts|
      invariant enabled == Enabled(facts[..i])
      invariant repoFile == LastFile(FilesOf(facts[..i]))
    {
      FilesOfStep(facts, i);
      DataOfAppend(FilesOf(facts[..i]), facts[i].repositories);
      EnabledIdsAppend(DataOf(FilesOf(facts[..i])), DataOf(facts[i].repositories));
      if facts[i].repositories == [] {
        assert FilesOf(facts[..i + 1]) == FilesOf(facts[..i]);
      }
      enabled, repoFile := EnabledOfFiles(facts[i].repositories, enabled, repoFile);
      i := i + 1;
    }
    assert facts[..i] == facts;
  }

  /** The loop over one message's repository files. */
  method EnabledOfFiles(files: seq<RepositoryFile>, enabled0: set<string>, repoFile0: Option<RepositoryFile>)
    returns (enabled: set<string>, repoFile: Option<RepositoryFile>)
    ensures enabled == enabled0 + EnabledIds(DataOf(files))
    ensures repoFile == if files == [] then repoFile0 else Some(files[|files| - 1])
  {
    enabled := enabled0;
    repoFile := repoFile0;
    var j := 0;
    while j < |files|
      invariant 0 <= j <= |files|
      invariant enabled == enabled0 + EnabledIds(DataOf(files[..j]))
      invariant repoFile == if j == 0 then repoFile0 else Some(files[j - 1])
    {
      assert files[..j + 1][..j] == files[..j];
      EnabledIdsAppend(DataOf(files[..j]), files[j].data);
      repoFile := Some(files[j]);
      enabled := EnabledOfData(files[j].data, enabled);
      j := j + 1;
    }
    assert files[..j] == files;
  }

  /** The loop over one repository file's repositories. */
  method EnabledOfData(data: seq<RepositoryData>, enabled0: set<string>) returns (enabled: set<string>)
    ensures enabled == enabled0 + EnabledIds(data)
  {
    enabled := enabled0;
    var k := 0;
    while k < |data|
      invariant 0 <= k <= |data|
      invariant enabled == enabled0 + EnabledIds(data[..k])
    {
      assert data[..k + 1] == data[..k] + [data[k]];
      EnabledIdsAppend(data[..k], [data[k]]);
      if data[k].enabled {
        enabled := enabled + {data[k].repoid};
      }
      k := k + 1;
    }
    assert data[..k] == data;
  }

  /** The loops of lines 55-69: the targets of the counting entries whose source is enabled, and the
      sources of all counting entries. */
  method MapRepositories(maps: seq<RepositoriesMap>, machine: string, enabled: set<string>)
    returns (rhel: seq<string>, mapped: set<string>)
    ensures rhel == MappedTargets(EntriesOf(maps), machine, enabled)
    ensures mapped == Mapped(maps, machine)
  {
    rhel := [];
    mapped := {};
    var i := 0;
    while i < |maps|
      invariant 0 <= i <= |maps|
      invariant rhel == MappedTargets(EntriesOf(maps[..i]), machine, enabled)
      invariant mapped == Mapped(maps[..i], machine)
    {
      EntriesOfStep(maps, i);
      MappedTargetsAppend(EntriesOf(maps[..i]), maps[i].repositories, machine, enabled);
      MappedIdsAppend(EntriesOf(maps[..i]), maps[i].repositories, machine);
      rhel, mapped := MapEntries(maps[i].repositories, machine, enabled, rhel, mapped);
      i := i + 1;
    }
    assert maps[..i] == maps;
  }

  /** The loop over one map message's entries: an entry for another architecture, or from an Extras
      channel, is passed over. */
  method MapEntries(entries: seq<RepositoryMap>, machine: string, enabled: set<string>,
                    rhel0: seq<string>, mapped0: set<string>) returns (rhel: seq<string>, mapped: set<string>)
    ensures rhel == rhel0 + MappedTargets(entries, machine, enabled)
    ensures mapped == mapped0 + MappedIds(entries, machine)
  {
    rhel, mapped := rhel0, mapped0;
    var j := 0;
    while j < |entries|
      invariant 0 <= j <= |entries|
      invariant rhel == rhel0 + MappedTargets(entries[..j], machine, enabled)
      invariant mapped == mapped0 + MappedIds(entries[..j], machine)
    {
      var entry := entries[j];
      MappedStep(entries, machine, enabled, j);
      j := j + 1;
      if machine != entry.arch {
        continue;
      }
      if entry.fromRepoid in ExtrasRepos {
        continue;
      }
      mapped := mapped + {entry.fromRepoid};
      if entry.fromRepoid in enabled {
        rhel := rhel + [entry.toRepoid];
      }
    }
    assert entries[..j] == entries;
  }

  /** The loops of lines 73-78: the `used` map. Each used repository also reads the loop variable
      `repo_file` of the facts loop, which raises when no repository file bound it, and otherwise adds
      that file's ids to `enabled_repos`, which nothing reads any more. */
  method CollectUsed(used: seq<UsedRepositories>, repoFile: Option<RepositoryFile>, enabled: set<string>)
    returns (r: Result<map<string, seq<string>>>, enabled': set<string>)
    ensures r.Err? <==> UsedOf(used) != [] && repoFile.None?
    ensures r.Err? ==> r.failure == UnboundLocalError("repo_file")
    ensures r.Ok? ==> r.value == UsedMap(UsedOf(used))
    ensures r.Ok? ==> enabled' == enabled + if UsedOf(used) == [] then {} else AllIds(repoFile.value.data)
  {
    var m: map<string, seq<string>> := map[];
    enabled' := enabled;
    var i := 0;
    while i < |used|
      invariant 0 <= i <= |used|
      invariant m == UsedMap(UsedOf(used[..i]))
      invariant UsedOf(used[..i]) != [] ==> repoFile.Some?
      invariant enabled' == enabled + if UsedOf(used[..i]) == [] then {} else AllIds(repoFile.value.data)
    {
      UsedOfStep(used, i);
      UsedMapAppend(UsedOf(used[..i]), used[i].repositories);
      var step, e := RecordUsed(used[i].repositories, m, repoFile, enabled');
      if step.Err? {
        UsedOfPrefix(used, i + 1);
        return Err(step.failure), e;
      }
      m, enabled' := step.value, e;
      i := i + 1;
    }
    assert used[..i] == used;
    return Ok(m), enabled';
  }

  /** The loop over one message's used repositories. */
  method RecordUsed(repos: seq<UsedRepository>, m0: map<string, seq<string>>, repoFile: Option<RepositoryFile>,
                    enabled0: set<string>) returns (r: Result<map<string, seq<string>>>, enabled: set<string>)
    ensures r.Err? <==> repos != [] && repoFile.None?
    ensures r.Err? ==> r.failure == UnboundLocalError("repo_file")
    ensures r.Ok? ==> r.value == m0 + UsedMap(repos)
    ensures r.Ok? ==> enabled == enabled0 + if repos == [] then {} else AllIds(repoFile.value.data)
  {
    var m := m0;
    enabled := enabled0;
    var j := 0;
    while j < |repos|
      invariant 0 <= j <= |repos|
      invariant j > 0 ==> repoFile.Some?
      invariant m == m0 + UsedMap(repos[..j])
      invariant enabled == enabled0 + if j == 0 then {} else AllIds(repoFile.value.data)
    {
      var usedRepo := repos[j];
      UsedStep(repos, m0, j);
      m := m[usedRepo.repository := usedRepo.packages];
      if repoFile.None? {
        return Err(UnboundLocalError("repo_file")), enabled;
      }
      enabled := AddIds(repoFile.value.data, enabled);
      j := j + 1;
    }
    assert repos[..j] == repos;
    return Ok(m), enabled;
  }

  /** One more used repository replaces the packages recorded for it. */
  lemma UsedStep(repos: seq<UsedRepository>, m0: map<string, seq<string>>, j: nat)
    requires j < |repos|
    ensures m0 + UsedMap(repos[..j + 1]) == (m0 + UsedMap(repos[..j]))[repos[j].repository := repos[j].packages]
  {
    assert repos[..j + 1][..j] == repos[..j] && repos[..j + 1][j] == repos[j];
  }

  /** The innermost loop of lines 77-78. */
  method AddIds(data: seq<RepositoryData>, enabled0: set<string>) returns (enabled: set<string>)
    ensures enabled == enabled0 + AllIds(data)
  {
    enabled := enabled0;
    var k := 0;
    while k < |data|
      invariant 0 <= k <= |data|
      invariant enabled == enabled0 + AllIds(data[..k])
    {
      assert data[..k + 1] == data[..k] + [data[k]];
      enabled := enabled + {data[k].repoid};
      k := k + 1;
    }
    assert data[..k] == data;
  }

  /** A used repository in a prefix of the messages is a used repository of them all. */
  lemma {:induction false} UsedOfPrefix(used: seq<UsedRepositories>, n: nat)
    requires n <= |used|
    ensures exists rest :: UsedOf(used) == UsedOf(used[..n]) + rest
  {
    if n < |used| {
      var init := used[..|used| - 1];
      assert init[..n] == used[..n];
      UsedOfPrefix(init, n);
      var rest :| UsedOf(init) == UsedOf(init[..n]) + rest;
      assert UsedOf(used) == UsedOf(used[..n]) + (rest + used[|used| - 1].repositories);
    } else {
      assert used[..n] == used;
      assert UsedOf(used) == UsedOf(used[..n]) + [];
    }
  }

  /** The loop of lines 85-86: the packages of the skipped repositories, one repository at a time, in
      whatever order the set yields them. */
  method SkippedPackages(skipped: set<string>, used: map<string, seq<string>>) returns (pkgs: set<string>)
    requires skipped <= used.Keys
    ensures pkgs == Packages(skipped, used)
  {
    pkgs := {};
    var left := skipped;
    while left != {}
      invariant left <= skipped
      invariant pkgs == Packages(skipped - left, used)
      decreases |left|
    {
      var repo :| repo in left;
      pkgs := pkgs + set p | p in used[repo];
      left := left - {repo};
    }
  }

  /** `list(s)`: the elements of a set in some order, each once. */
  method ToList(s: set<string>) returns (xs: seq<string>)
    ensures Elements(xs) == s && NoDuplicates(xs) && |xs| == |s|
  {
    xs := [];
    var left := s;
    while left != {}
      invariant left <= s
      invariant Elements(xs) == s - left
      invariant NoDuplicates(xs)
      invariant |xs| + |left| == |s|
      decreases |left|
    {
      var x :| x in left;
      assert x !in xs by {
        assert x !in Elements(xs);
      }
      assert |left - {x}| == |left| - 1;
      assert Elements(xs + [x]) == Elements(xs) + {x};
      xs := xs + [x];
      left := left - {x};
    }
  }

  /** The loops of lines 89-91: every repository of every setup task is appended, in order. */
  method AppendTasks(rhel: seq<string>, tasks: seq<RepositoriesSetupTasks>) returns (r: seq<string>)
    ensures r == rhel + TaskIdsOf(tasks)
  {
    r := rhel;
    var i := 0;
    while i < |tasks|
      invariant 0 <= i <= |tasks|
      invariant r == rhel + TaskIdsOf(tasks[..i])
    {
      assert tasks[..i + 1][..i] == tasks[..i];
      var toEnable := tasks[i].toEnable;
      var j := 0;
      while j < |toEnable|
        invariant 0 <= j <= |toEnable|
        invariant r == rhel + TaskIdsOf(tasks[..i]) + toEnable[..j]
      {
        assert toEnable[..j + 1] == toEnable[..j] + [toEnable[j]];
        r := r + [toEnable[j]];
        j := j + 1;
      }
      assert toEnable[..j] == toEnable;
      i := i + 1;
    }
    assert tasks[..i] == tasks;
  }

  /** The loop of lines 94-95: the union of all blacklists. */
  method CollectBlacklist(blacklists: seq<RepositoriesBlacklisted>) returns (blacklisted: set<string>)
    ensures blacklisted == BlacklistOf(blacklists)
  {
    blacklisted := {};
    var i := 0;
    while i < |blacklists|
      invariant 0 <= i <= |blacklists|
      invariant blacklisted == BlacklistOf(blacklists[..i])
    {
      assert blacklists[..i + 1][..i] == blacklists[..i];
      blacklisted := blacklisted + Elements(blacklists[i].repoids);
      i := i + 1;
    }
    assert blacklists[..i] == blacklists;
  }
}
