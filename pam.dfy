/** The PAM configuration library shared by both pipelines (`libraries/pam.py`): the names of the
    modules that the five PAM service files use, in file order. */
module Pam {
  import opened Text
  import opened Failures
  import opened FileSystem

  /** `PAM.files`, in the order their contents are concatenated. */
  const Files: seq<string> := [
    "/etc/pam.d/system-auth",
    "/etc/pam.d/smartcard-auth",
    "/etc/pam.d/password-auth",
    "/etc/pam.d/fingerprint-auth",
    "/etc/pam.d/postlogin"
  ]

  /** After its spaces and tabs, the line goes on with a character that is neither `#` nor whitespace:
      the `^[ \t]*[^#\s]` both PAM patterns start with. A comment line is never active. */
  predicate IsActive(line: string) {
    var n := Indent(line);
    n < |line| && line[n] != '#' && !IsSpace(line[n])
  }

  /** `line[p..q]` is `pam_` and at least one more non-whitespace character, and `.so` follows it:
      a place where `(pam_\S+)\.so` matches. */
  predicate HasToken(line: string, p: int, q: int) {
    p + 4 < q && OccursAt(line, "pam_", p) && OccursAt(line, ".so", q)
    && forall k :: p <= k < q ==> !IsSpace(line[k])
  }

  /** What `(pam_\S+)` can capture. */
  predicate IsModuleName(m: string) {
    |m| > 4 && m[..4] == "pam_" && forall i :: 0 <= i < |m| ==> !IsSpace(m[i])
  }

  /** The end of the run of non-whitespace characters that starts at `i`. */
  function RunEnd(line: string, i: nat): (e: nat)
    requires i <= |line|
    ensures i <= e <= |line|
    ensures forall k :: i <= k < e ==> !IsSpace(line[k])
    ensures e < |line| ==> IsSpace(line[e])
    decreases |line| - i
  {
    if i < |line| && !IsSpace(line[i]) then RunEnd(line, i + 1) else i
  }

  lemma {:induction false} RunEndReaches(line: string, i: nat, j: nat)
    requires i <= j <= |line|
    requires forall k :: i <= k < j ==> !IsSpace(line[k])
    ensures j <= RunEnd(line, i)
    decreases j - i
  {
    if i < j {
      RunEndReaches(line, i + 1, j);
    }
  }

  /** The largest `q` with `lo < q <= hi` at which `.so` occurs. */
  function LastSo(line: string, lo: int, hi: int): (r: Option<int>)
    ensures r.Some? ==> lo < r.value <= hi && OccursAt(line, ".so", r.value)
    ensures forall q :: lo < q <= hi && OccursAt(line, ".so", q) ==> r.Some? && q <= r.value
    decreases hi - lo
  {
    if hi <= lo then None
    else if OccursAt(line, ".so", hi) then Some(hi)
    else LastSo(line, lo, hi - 1)
  }

  lemma TokenInRun(line: string, p: int, q: int)
    requires HasToken(line, p, q)
    ensures q + 3 <= RunEnd(line, p + 4)
  {
    assert line[q..q + 3] == ".so";
    forall k | p + 4 <= k < q + 3 ensures !IsSpace(line[k]) {
      if q <= k {
        assert line[k] == line[q..q + 3][k - q];
      }
    }
    RunEndReaches(line, p + 4, q + 3);
  }

  lemma TokenFromRun(line: string, p: int, q: int)
    requires OccursAt(line, "pam_", p) && OccursAt(line, ".so", q)
    requires p + 4 < q && q + 3 <= RunEnd(line, p + 4)
    ensures HasToken(line, p, q)
  {
    assert line[p..p + 4] == "pam_";
    forall k | p <= k < q ensures !IsSpace(line[k]) {
      if k < p + 4 {
        assert line[k] == line[p..p + 4][k - p];
      }
    }
  }

  /** Where the name that starts at `p` ends: `\S+` is greedy, so the regex takes the longest name
      that `.so` follows. */
  function NameEnd(line: string, p: int): (r: Option<int>)
    ensures r.Some? ==> HasToken(line, p, r.value)
    ensures forall q :: HasToken(line, p, q) ==> r.Some? && q <= r.value
  {
    if OccursAt(line, "pam_", p) then
      var e := RunEnd(line, p + 4);
      var r := LastSo(line, p + 4, e - 3);
      assert r.Some? ==> HasToken(line, p, r.value) by {
        if r.Some? {
          TokenFromRun(line, p, r.value);
        }
      }
      assert forall q :: HasToken(line, p, q) ==> r.Some? && q <= r.value by {
        forall q | HasToken(line, p, q) ensures r.Some? && q <= r.value {
          TokenInRun(line, p, q);
        }
      }
      r
    else None
  }

  /** The largest start `p` with `lo <= p <= hi` at which a name begins. */
  function LastToken(line: string, lo: int, hi: int): (r: Option<int>)
    ensures r.Some? ==> lo <= r.value <= hi && NameEnd(line, r.value).Some?
    ensures forall p :: lo <= p <= hi && NameEnd(line, p).Some? ==> r.Some? && p <= r.value
    decreases hi - lo + 1
  {
    if hi < lo then None
    else if NameEnd(line, hi).Some? then Some(hi)
    else LastToken(line, lo, hi - 1)
  }

  /** The first name is the rightmost one, and the longest one among those that start where it does. */
  ghost predicate Rightmost(line: string, p: int, q: int) {
    forall p', q' :: Indent(line) < p' && HasToken(line, p', q') ==> p' < p || (p' == p && q' <= q)
  }

  /** The module one line contributes to `re.findall(r"^[ \t]*[^#\s]+.*(pam_\S+)\.so.*$", config, re.MULTILINE)`.
      A line contributes exactly when it is active and holds a `pam_<name>.so` token after the first
      character of its first word. Backtracking makes `[^#\s]+.*` as long as it can be, so the captured
      name is the rightmost such token, taken as long as it can be. */
  function ModuleOf(line: string): (r: Option<string>)
    ensures r.Some? ==> IsModuleName(r.value)
  {
    if !IsActive(line) then None
    else
      var lo := Indent(line) + 1;
      match LastToken(line, lo, |line|)
      case None => None
      case Some(p) =>
        var q := NameEnd(line, p).value;
        assert IsModuleName(line[p..q]) by {
          LastTokenIsModule(line, lo, p, q);
        }
        Some(line[p..q])
  }

  /** A line contributes exactly when it is active and holds a `pam_<name>.so` token after the first
      character of its first word, and the name is the rightmost and longest such token. */
  lemma ModuleOfMeaning(line: string)
    ensures ModuleOf(line).Some? <==> IsActive(line) && exists p, q :: Indent(line) < p && HasToken(line, p, q)
    ensures ModuleOf(line).Some? ==>
      exists p, q :: Indent(line) < p && HasToken(line, p, q) && ModuleOf(line).value == line[p..q]
                     && Rightmost(line, p, q)
  {
    if IsActive(line) {
      var lo := Indent(line) + 1;
      LastTokenFindsAll(line, lo);
      if LastToken(line, lo, |line|).Some? {
        var p := LastToken(line, lo, |line|).value;
        var q := NameEnd(line, p).value;
        LastTokenIsModule(line, lo, p, q);
        assert HasToken(line, p, q);
      }
    }
  }

  /** Every name that starts at `lo` or later is seen by the search from the end. */
  lemma LastTokenFindsAll(line: string, lo: int)
    ensures forall p, q :: lo <= p && HasToken(line, p, q) ==> LastToken(line, lo, |line|).Some?
  {
    forall p, q | lo <= p && HasToken(line, p, q) ensures LastToken(line, lo, |line|).Some? {
      assert NameEnd(line, p).Some?;
    }
  }

  /** The name the search finds is a module name, and the rightmost, longest one. */
  lemma LastTokenIsModule(line: string, lo: int, p: int, q: int)
    requires lo == Indent(line) + 1
    requires LastToken(line, lo, |line|) == Some(p) && NameEnd(line, p) == Some(q)
    ensures IsModuleName(line[p..q]) && Rightmost(line, p, q)
  {
    var m := line[p..q];
    assert m[..4] == line[p..p + 4];
    assert forall i :: 0 <= i < |m| ==> m[i] == line[p + i];
    forall p', q' | Indent(line) < p' && HasToken(line, p', q') ensures p' < p || (p' == p && q' <= q) {
      assert NameEnd(line, p').Some?;
    }
  }

  /** What one line adds to the module list: one name or nothing. */
  function Contribution(line: string): (r: seq<string>)
    ensures |r| <= 1
  {
    match ModuleOf(line)
    case Some(m) => [m]
    case None => []
  }

  /** The modules of a sequence of lines, in line order. */
  function Collect(lines: seq<string>): (r: seq<string>)
    ensures |r| <= |lines|
    ensures forall i :: 0 <= i < |r| ==> IsModuleName(r[i])
  {
    if lines == [] then [] else Contribution(lines[0]) + Collect(lines[1..])
  }

  /** A module is collected exactly when some line contributes it. */
  lemma {:induction false} CollectMembers(lines: seq<string>, m: string)
    ensures m in Collect(lines) <==> exists i :: 0 <= i < |lines| && ModuleOf(lines[i]) == Some(m)
  {
    if lines != [] {
      var t := lines[1..];
      CollectMembers(t, m);
      assert Collect(lines) == Contribution(lines[0]) + Collect(t);
      assert m in Contribution(lines[0]) <==> ModuleOf(lines[0]) == Some(m);
      ContributesCons(lines, m);
    }
  }

  /** Some line of a non-empty sequence contributes `m` exactly when its first line or one of the rest
      does. */
  lemma ContributesCons(lines: seq<string>, m: string)
    requires lines != []
    ensures (exists i :: 0 <= i < |lines| && ModuleOf(lines[i]) == Some(m))
        <==> ModuleOf(lines[0]) == Some(m) || exists j :: 0 <= j < |lines| - 1 && ModuleOf(lines[1..][j]) == Some(m)
  {
    if exists i :: 1 <= i < |lines| && ModuleOf(lines[i]) == Some(m) {
      var i :| 1 <= i < |lines| && ModuleOf(lines[i]) == Some(m);
      assert lines[1..][i - 1] == lines[i];
    }
    if exists j :: 0 <= j < |lines| - 1 && ModuleOf(lines[1..][j]) == Some(m) {
      var j :| 0 <= j < |lines| - 1 && ModuleOf(lines[1..][j]) == Some(m);
      assert lines[1..][j] == lines[j + 1];
    }
  }

  /** `PAM.parse`: the modules of a configuration text, line by line. */
  function ParseModules(config: string): (r: seq<string>)
    ensures forall i :: 0 <= i < |r| ==> IsModuleName(r[i])
  {
    Collect(Split(config, '\n'))
  }

  /** Lines keep their order: the modules of two runs of lines are those of the first run, then those
      of the second. */
  lemma {:induction false} CollectAppend(a: seq<string>, b: seq<string>)
    ensures Collect(a + b) == Collect(a) + Collect(b)
  {
    if a != [] {
      assert (a + b)[0] == a[0];
      assert (a + b)[1..] == a[1..] + b;
      CollectAppend(a[1..], b);
    } else {
      assert a + b == b;
    }
  }

  lemma ParseEmpty()
    ensures ParseModules([]) == []
  {
    assert Split([], '\n') == [[]];
    assert Collect([[]]) == Contribution([]) + Collect([]);
  }

  /** Concatenating a text that ends with a newline and another text gives the modules of the first,
      then those of the second. (A text without a final newline instead merges its last line with the
      first line of the next text, as `config +=` does.) */
  lemma ParseConcat(c1: string, c2: string)
    requires c1 == [] || c1[|c1| - 1] == '\n'
    ensures ParseModules(c1 + c2) == ParseModules(c1) + ParseModules(c2)
  {
    ParseEmpty();
    if c1 == [] {
      assert c1 + c2 == c2;
    } else {
      var x := c1[..|c1| - 1];
      assert c1 == x + ['\n'];
      assert c1 + c2 == x + ['\n'] + c2;
      LinesAfterNewline(x, c2);
      CollectAppend(Split(x, '\n'), Split(c2, '\n'));
      CollectAppend(Split(x, '\n'), [[]]);
    }
  }

  /** The lines of a text that ends in a newline, then another text. */
  lemma LinesAfterNewline(x: string, c2: string)
    ensures Split(x + ['\n'] + c2, '\n') == Split(x, '\n') + Split(c2, '\n')
    ensures Split(x + ['\n'], '\n') == Split(x, '\n') + [[]]
  {
    SplitAround(x, c2, '\n');
    SplitAround(x, [], '\n');
    assert x + ['\n'] + [] == x + ['\n'];
    assert Split([], '\n') == [[]];
  }

  /** The five texts, read in order and concatenated; the first failing read is raised. */
  function ReadAll(fs: Fs, paths: seq<string>): (r: Result<string>)
    ensures r.Ok? <==> forall i :: 0 <= i < |paths| ==> ReadFile(fs, paths[i]).Ok?
  {
    if paths == [] then Ok("")
    else
      var init := paths[..|paths| - 1];
      assert forall i :: 0 <= i < |init| ==> init[i] == paths[i];
      match ReadAll(fs, init)
      case Err(e) => Err(e)
      case Ok(prefix) =>
        match ReadFile(fs, paths[|paths| - 1])
        case Err(e) => Err(e)
        case Ok(content) => Ok(prefix + content)
  }

  /** Once a read fails, the reads after it do not happen and the failure is the result. */
  lemma {:induction false} ReadAllStops(fs: Fs, paths: seq<string>, j: nat)
    requires j <= |paths| && ReadAll(fs, paths[..j]).Err?
    ensures ReadAll(fs, paths) == ReadAll(fs, paths[..j])
  {
    if j < |paths| {
      var init := paths[..|paths| - 1];
      assert init[..j] == paths[..j];
      ReadAllStops(fs, init, j);
    } else {
      assert paths[..j] == paths;
    }
  }

  /** `from_system_configuration` reads system-auth, smartcard-auth, password-auth, fingerprint-auth and
      postlogin, in this order, and concatenates their texts; a missing file adds the empty text. */
  lemma SystemConfigurationOrder(fs: Fs)
    requires forall i :: 0 <= i < |Files| ==> ReadFile(fs, Files[i]).Ok?
    ensures ReadFile(fs, Files[0]).Ok? && ReadFile(fs, Files[1]).Ok? && ReadFile(fs, Files[2]).Ok?
    ensures ReadFile(fs, Files[3]).Ok? && ReadFile(fs, Files[4]).Ok?
    ensures ReadAll(fs, Files) == Ok(ReadFile(fs, Files[0]).value + ReadFile(fs, Files[1]).value
                                     + ReadFile(fs, Files[2]).value + ReadFile(fs, Files[3]).value
                                     + ReadFile(fs, Files[4]).value)
    ensures forall i :: 0 <= i < |Files| && Files[i] !in fs ==> ReadFile(fs, Files[i]) == Ok("")
  {
    assert ReadFile(fs, Files[0]).Ok? && ReadFile(fs, Files[1]).Ok? && ReadFile(fs, Files[2]).Ok?;
    assert ReadFile(fs, Files[3]).Ok? && ReadFile(fs, Files[4]).Ok?;
    var t0, t1, t2 := ReadFile(fs, Files[0]).value, ReadFile(fs, Files[1]).value, ReadFile(fs, Files[2]).value;
    var t3, t4 := ReadFile(fs, Files[3]).value, ReadFile(fs, Files[4]).value;
    assert Files[..1][..0] == [];
    assert ReadAll(fs, Files[..1]) == Ok("" + t0);
    assert Files[..2][..1] == Files[..1];
    assert ReadAll(fs, Files[..2]) == Ok("" + t0 + t1);
    assert Files[..3][..2] == Files[..2];
    assert ReadAll(fs, Files[..3]) == Ok("" + t0 + t1 + t2);
    assert Files[..4][..3] == Files[..3];
    assert ReadAll(fs, Files[..4]) == Ok("" + t0 + t1 + t2 + t3);
    assert Files[..5][..4] == Files[..4];
    assert Files[..5] == Files;
    assert "" + t0 == t0;
  }

  /** `from_system_configuration` as written, under Python 2. `PAM.read_file` handles only `OSError`,
      and the `IOError` a failing `open` raises there is not one, so the handler (and its `errno`, which
      the module never imports) is never reached: the error of the first failing `open` escapes, a
      missing file included. */
  function ReadAllAsWritten(fs: Fs, paths: seq<string>): (r: Result<string>)
    ensures r.Ok? <==> forall i :: 0 <= i < |paths| ==> Open(fs, paths[i]).Ok?
  {
    if paths == [] then Ok("")
    else
      var init := paths[..|paths| - 1];
      assert forall i :: 0 <= i < |init| ==> init[i] == paths[i];
      match ReadAllAsWritten(fs, init)
      case Err(e) => Err(e)
      case Ok(prefix) =>
        match Open(fs, paths[|paths| - 1])
        case Err(e) => Err(e)
        case Ok(content) => Ok(prefix + content)
  }

  /** When the intended reading succeeds but some `open` fails, the reading as written raises ENOENT:
      the only failure of `open` that the intended handler absorbs. */
  lemma {:induction false} AsWrittenRaisesMissing(fs: Fs, paths: seq<string>)
    requires forall i :: 0 <= i < |paths| ==> ReadFile(fs, paths[i]).Ok?
    ensures ReadAllAsWritten(fs, paths).Err? ==> ReadAllAsWritten(fs, paths) == Err(OsError(ENOENT))
    ensures ReadAllAsWritten(fs, paths).Ok? ==> ReadAllAsWritten(fs, paths) == ReadAll(fs, paths)
  {
    if paths != [] {
      var n := |paths| - 1;
      var init := paths[..n];
      assert forall i :: 0 <= i < |init| ==> init[i] == paths[i];
      AsWrittenRaisesMissing(fs, init);
      ReadFileIsOpen(fs, paths[n]);
    }
  }

  /** Finding: on a system without one of the five files, the scanners fail with the ENOENT of `open`,
      where the intended reading adds the empty text for it. */
  lemma MissingPamFileAsWritten(fs: Fs, i: int)
    requires 0 <= i < |Files| && Files[i] !in fs
    requires forall j :: 0 <= j < |Files| && j != i ==> ReadFile(fs, Files[j]).Ok?
    ensures ReadAllAsWritten(fs, Files) == Err(OsError(ENOENT))
    ensures ReadAll(fs, Files).Ok?
  {
    assert Open(fs, Files[i]).Err?;
    AsWrittenRaisesMissing(fs, Files);
  }

  predicate HasUnknown(modules: seq<string>, known: seq<string>) {
    exists m :: m in modules && m !in known
  }

  /** The `PAM` object: the module list of one parsed configuration. */
  class Pam {
    var modules: seq<string>

    constructor (config: string)
      ensures modules == ParseModules(config)
    {
      modules := [];
      new;
      Parse(config);
    }

    /** `parse`: the module list becomes the modules of `config`; what it held before plays no part. */
    method Parse(config: string)
      modifies this
      ensures modules == ParseModules(config)
    {
      modules := ParseModules(config);
    }

    /** `has` */
    predicate Has(name: string)
      reads this
    {
      name in modules
    }

    /** `has_unknown_module`: scans the modules in order and stops at the first one outside `known`.
        It is false for an empty list. */
    method HasUnknownModule(known: seq<string>) returns (found: bool)
      ensures found <==> exists i :: 0 <= i < |modules| && modules[i] !in known
      ensures found <==> HasUnknown(modules, known)
    {
      var i := 0;
      while i < |modules|
        invariant 0 <= i <= |modules|
        invariant forall j :: 0 <= j < i ==> modules[j] in known
      {
        if modules[i] !in known {
          return true;
        }
        i := i + 1;
      }
      return false;
    }

    /** The reading loop of `from_system_configuration`: `config += read_file(file)` over `PAM.files`. */
    static method ReadConfiguration(fs: Fs) returns (r: Result<string>)
      ensures r == ReadAll(fs, Files)
    {
      var config := "";
      var i := 0;
      while i < |Files|
        invariant 0 <= i <= |Files|
        invariant ReadAll(fs, Files[..i]) == Ok(config)
      {
        assert Files[..i + 1][..i] == Files[..i];
        var content := ReadFile(fs, Files[i]);
        if content.Err? {
          ReadAllStops(fs, Files, i + 1);
          return Err(content.failure);
        }
        config := config + content.value;
        i := i + 1;
      }
      assert Files[..i] == Files;
      return Ok(config);
    }

    /** `from_system_configuration`: a `PAM` object over the five files. */
    static method FromSystemConfiguration(fs: Fs) returns (r: Result<Pam>)
      ensures r.Ok? <==> ReadAll(fs, Files).Ok?
      ensures r.Err? ==> r.failure == ReadAll(fs, Files).failure
      ensures r.Ok? ==> fresh(r.value) && r.value.modules == ParseModules(ReadAll(fs, Files).value)
    {
      var config := ReadConfiguration(fs);
      if config.Err? {
        return Err(config.failure);
      }
      var pam := new Pam(config.value);
      return Ok(pam);
    }
  }
}
