/** The apply actor of the deprecated PAM modules (`actors/removeoldpammodulesapply/actor.py`): before
    the upgrade it comments out, in the five PAM files, every active line that loads a module the
    scanner listed. */
module RemovedPamApply {
  import opened Text
  import opened Failures
  import opened FileSystem
  import opened Pam

  /** The pattern `^([ \t]*[^#\s]+.*MODULE\.so.*)$` matches a whole line: after the blanks, a
      non-empty run without `#` and whitespace, then anything, then `MODULE.so`. The blanks cannot stop
      short of the first other character, so the line is active and `MODULE.so` starts after its
      first visible character. The module name is taken literally. */
  predicate Mentions(line: string, name: string) {
    IsActive(line) && exists p :: Indent(line) < p <= |line| && OccursAt(line, name + ".so", p)
  }

  /** The replacement `#\1`: a matched line gets a `#` in front. */
  function CommentLine(line: string, name: string): string {
    if Mentions(line, name) then "#" + line else line
  }

  function CommentLines(lines: seq<string>, name: string): (r: seq<string>)
    ensures |r| == |lines|
    ensures forall i :: 0 <= i < |lines| ==> r[i] == CommentLine(lines[i], name)
  {
    if lines == [] then [] else [CommentLine(lines[0], name)] + CommentLines(lines[1..], name)
  }

  /** `re.sub(pattern, r'#\1', content, flags=re.MULTILINE)` for one module: the match never holds a
      newline, so the substitution works line by line. */
  function Substitute(content: string, name: string): string {
    Join(CommentLines(Split(content, '\n'), name), '\n')
  }

  /** The inner loop: `content` goes through one substitution per listed module, in list order. */
  function CommentModules(content: string, names: seq<string>): string {
    if names == [] then content
    else Substitute(CommentModules(content, names[..|names| - 1]), names[|names| - 1])
  }

  /** Some listed module is loaded on the line. */
  predicate Listed(line: string, names: seq<string>) {
    exists m :: m in names && Mentions(line, m)
  }

  function MarkLines(lines: seq<string>, names: seq<string>): (r: seq<string>)
    ensures |r| == |lines|
    ensures forall i :: 0 <= i < |lines| ==> r[i] == if Listed(lines[i], names) then "#" + lines[i] else lines[i]
  {
    if lines == [] then []
    else [if Listed(lines[0], names) then "#" + lines[0] else lines[0]] + MarkLines(lines[1..], names)
  }

  /** The transformation as a whole, line by line: a line that loads some listed module gets one `#`
      in front, every other line is kept. */
  function CommentAll(content: string, names: seq<string>): string {
    Join(MarkLines(Split(content, '\n'), names), '\n')
  }

  /** A commented line is not active, so no later substitution matches it again. */
  lemma CommentedIsInactive(line: string)
    ensures !IsActive("#" + line)
    ensures forall m :: !Mentions("#" + line, m)
  {
    assert ("#" + line)[0] == '#';
    assert Indent("#" + line) == 0;
  }

  lemma MarkedHasNoNewline(lines: seq<string>, names: seq<string>)
    requires forall i :: 0 <= i < |lines| ==> '\n' !in lines[i]
    ensures forall i :: 0 <= i < |lines| ==> '\n' !in MarkLines(lines, names)[i]
  {
    var r := MarkLines(lines, names);
    forall i | 0 <= i < |lines| ensures '\n' !in r[i] {
      if Listed(lines[i], names) {
        CommentedHasNoNewline(lines[i]);
      }
    }
  }

  lemma CommentedHasNoNewline(line: string)
    requires '\n' !in line
    ensures '\n' !in "#" + line
  {
    assert forall c :: c in "#" + line ==> c == '#' || c in line;
  }

  /** The lines of the result are the marked lines: as many lines as before, each one commented
      exactly when it loads a listed module. */
  lemma CommentedLines(content: string, names: seq<string>)
    ensures Split(CommentAll(content, names), '\n') == MarkLines(Split(content, '\n'), names)
    ensures |Split(CommentAll(content, names), '\n')| == |Split(content, '\n')|
  {
    var lines := Split(content, '\n');
    MarkedHasNoNewline(lines, names);
    SplitJoin(MarkLines(lines, names), '\n');
  }

  /** One more substitution turns the marking for `names` into the marking for `names + [m]`. */
  lemma SubstituteMarked(lines: seq<string>, names: seq<string>, m: string)
    ensures CommentLines(MarkLines(lines, names), m) == MarkLines(lines, names + [m])
  {
    var marked := MarkLines(lines, names);
    var a, b := CommentLines(marked, m), MarkLines(lines, names + [m]);
    forall i | 0 <= i < |lines| ensures a[i] == b[i] {
      assert a[i] == CommentLine(marked[i], m);
      MarkOne(lines[i], names, m);
    }
  }

  /** The same for one line. */
  lemma MarkOne(line: string, names: seq<string>, m: string)
    ensures CommentLine(if Listed(line, names) then "#" + line else line, m)
         == if Listed(line, names + [m]) then "#" + line else line
  {
    ListedAppend(line, names, m);
    if Listed(line, names) {
      CommentedIsInactive(line);
    }
  }

  /** A line loads one of `names + [m]` exactly when it loads one of `names`, or `m`. */
  lemma ListedAppend(line: string, names: seq<string>, m: string)
    ensures Listed(line, names + [m]) <==> Listed(line, names) || Mentions(line, m)
  {
    if Listed(line, names + [m]) {
      var n :| n in names + [m] && Mentions(line, n);
      assert n in names || n == m;
    }
    if Listed(line, names) {
      var n :| n in names && Mentions(line, n);
      assert n in names + [m];
    }
    if Mentions(line, m) {
      assert m in names + [m];
    }
  }

  /** With no module listed, the content comes back unchanged. */
  lemma NoModulesNoChange(content: string)
    ensures CommentAll(content, []) == content
    ensures CommentModules(content, []) == content
  {
    var lines := Split(content, '\n');
    assert MarkLines(lines, []) == lines;
    JoinSplit(content, '\n');
  }

  /** The loop of substitutions is the line-by-line transformation: each changed line got one `#`,
      however many listed modules it loads. */
  lemma {:induction false} CommentModulesIsCommentAll(content: string, names: seq<string>)
    ensures CommentModules(content, names) == CommentAll(content, names)
  {
    if names == [] {
      NoModulesNoChange(content);
    } else {
      var init, m := names[..|names| - 1], names[|names| - 1];
      CommentModulesIsCommentAll(content, init);
      CommentedLines(content, init);
      SubstituteMarked(Split(content, '\n'), init, m);
      assert init + [m] == names;
    }
  }

  /** The order of the listed modules does not matter, nor does a module listed twice. */
  lemma ModuleOrderIrrelevant(content: string, names1: seq<string>, names2: seq<string>)
    requires forall m :: m in names1 <==> m in names2
    ensures CommentModules(content, names1) == CommentModules(content, names2)
  {
    CommentModulesIsCommentAll(content, names1);
    CommentModulesIsCommentAll(content, names2);
    var lines := Split(content, '\n');
    assert forall i :: 0 <= i < |lines| ==> (Listed(lines[i], names1) <==> Listed(lines[i], names2));
    assert MarkLines(lines, names1) == MarkLines(lines, names2);
  }

  /** Commenting out twice is commenting out once: commented lines no longer match. */
  lemma CommentIdempotent(content: string, names: seq<string>)
    ensures CommentAll(CommentAll(content, names), names) == CommentAll(content, names)
  {
    var lines := Split(content, '\n');
    var marked := MarkLines(lines, names);
    CommentedLines(content, names);
    forall i | 0 <= i < |marked| ensures MarkLines(marked, names)[i] == marked[i] {
      if Listed(lines[i], names) {
        CommentedIsInactive(lines[i]);
      }
    }
    assert MarkLines(marked, names) == marked;
  }

  /** An entry of the `files` dictionary: a path and the text read from it. */
  datatype Entry = Entry(path: string, content: string)

  /** A file that is missing is skipped; any other failure of `open` is raised. */
  predicate Readable(fs: Fs, path: string) {
    Open(fs, path).Ok? || Open(fs, path) == Err(OsError(ENOENT))
  }

  /** The reading loop, with the `errno` it needs: one entry per file that could be read, in order. */
  function ReadPresent(fs: Fs, paths: seq<string>): (r: Result<seq<Entry>>)
    ensures r.Ok? <==> forall i :: 0 <= i < |paths| ==> Readable(fs, paths[i])
    ensures r.Ok? ==> forall e :: e in r.value ==> e.path in paths && Open(fs, e.path) == Ok(e.content)
    ensures r.Ok? ==> forall i :: 0 <= i < |paths| && Open(fs, paths[i]).Ok? ==>
      Entry(paths[i], Open(fs, paths[i]).value) in r.value
  {
    if paths == [] then Ok([])
    else
      var init, path := paths[..|paths| - 1], paths[|paths| - 1];
      assert forall i :: 0 <= i < |init| ==> init[i] == paths[i];
      match ReadPresent(fs, init)
      case Err(e) => Err(e)
      case Ok(files) =>
        match Open(fs, path)
        case Ok(content) => Ok(files + [Entry(path, content)])
        case Err(e) => if e == OsError(ENOENT) then Ok(files) else Err(e)
  }

  lemma {:induction false} ReadPresentStops(fs: Fs, paths: seq<string>, j: nat)
    requires j <= |paths| && ReadPresent(fs, paths[..j]).Err?
    ensures ReadPresent(fs, paths) == ReadPresent(fs, paths[..j])
  {
    if j < |paths| {
      var init := paths[..|paths| - 1];
      assert init[..j] == paths[..j];
      ReadPresentStops(fs, init, j);
    } else {
      assert paths[..j] == paths;
    }
  }

  /** The reading loop as written: the handler compares with `errno.ENOENT`, but the actor does not
      import `errno`, so every failing `open` ends in `NameError`. */
  function ReadPresentAsWritten(fs: Fs, paths: seq<string>): Result<seq<Entry>> {
    if forall i :: 0 <= i < |paths| ==> Open(fs, paths[i]).Ok? then ReadPresent(fs, paths)
    else Err(NameError("errno"))
  }

  /** Finding: on a system without one of the five PAM files the actor fails, where the intended
      handler skips the missing file. */
  lemma MissingFileAsWritten(fs: Fs, i: int)
    requires 0 <= i < |Files| && Files[i] !in fs
    requires forall j :: 0 <= j < |Files| && j != i ==> Open(fs, Files[j]).Ok?
    ensures ReadPresentAsWritten(fs, Files) == Err(NameError("errno"))
    ensures ReadPresent(fs, Files).Ok?
  {
    assert Open(fs, Files[i]) == Err(OsError(ENOENT));
  }

  /** The file system after the write-back of `entries`: the file each entry's path leads to holds
      the commented text and the new time; every other node is as it was. */
  function Rewrite(fs: Fs, entries: seq<Entry>, names: seq<string>, now: int): (fs': Fs)
    requires forall e :: e in entries ==> IsFile(fs, e.path)
    ensures fs'.Keys == fs.Keys
  {
    map p | p in fs :: if exists e :: e in entries && IsFile(fs, e.path) && Stat(fs, e.path).value == p
                       then Regular(CommentAll(fs[p].content, names), now, fs[p].readable)
                       else fs[p]
  }

  /** The actor: read, comment out, write back; the first failure of a read is raised. */
  function RemoveModules(fs: Fs, names: seq<string>, now: int): (r: Result<Fs>) {
    match ReadPresent(fs, Files)
    case Err(e) => Err(e)
    case Ok(entries) => Ok(Rewrite(fs, entries, names, now))
  }

  /** What the actor promises: it raises exactly when some PAM file is there but cannot be read;
      otherwise it creates no file, so a missing file stays missing, it leaves every link alone, the
      file behind each PAM path that could be read holds that file's text, commented out, and every other
      file is as it was. */
  lemma RemovalEffect(fs: Fs, names: seq<string>, now: int)
    ensures RemoveModules(fs, names, now).Ok? <==> forall i :: 0 <= i < |Files| ==> Readable(fs, Files[i])
    ensures RemoveModules(fs, names, now).Ok? ==>
      var fs' := RemoveModules(fs, names, now).value;
      fs'.Keys == fs.Keys
      && (forall p :: p in fs && fs[p].Symlink? ==> fs'[p] == fs[p])
      && (forall i :: 0 <= i < |Files| && Open(fs, Files[i]).Ok? ==>
            fs'[Stat(fs, Files[i]).value].content == CommentAll(Open(fs, Files[i]).value, names))
    ensures RemoveModules(fs, names, now).Ok? ==>
      forall p :: p in fs && (forall i :: 0 <= i < |Files| && Open(fs, Files[i]).Ok? ==> Stat(fs, Files[i]).value != p)
        ==> RemoveModules(fs, names, now).value[p] == fs[p]
  {
    var r := ReadPresent(fs, Files);
    if r.Ok? {
      var fs' := Rewrite(fs, r.value, names, now);
      forall p | p in fs && (forall i :: 0 <= i < |Files| && Open(fs, Files[i]).Ok? ==> Stat(fs, Files[i]).value != p)
        ensures fs'[p] == fs[p]
      {
        forall e | e in r.value && IsFile(fs, e.path) ensures Stat(fs, e.path).value != p {
          var i :| 0 <= i < |Files| && Files[i] == e.path;
          assert Open(fs, Files[i]).Ok?;
        }
      }
      forall i | 0 <= i < |Files| && Open(fs, Files[i]).Ok?
        ensures fs'[Stat(fs, Files[i]).value].content == CommentAll(Open(fs, Files[i]).value, names)
      {
        assert Entry(Files[i], Open(fs, Files[i]).value) in r.value;
      }
    }
  }

  /** With an empty module list every file keeps its text; only the time of the write changes. */
  lemma NoModulesKeepsContent(fs: Fs, now: int)
    requires RemoveModules(fs, [], now).Ok?
    ensures RemoveModules(fs, [], now).value.Keys == fs.Keys
    ensures forall p :: p in fs && fs[p].Regular? ==>
      RemoveModules(fs, [], now).value[p].Regular? && RemoveModules(fs, [], now).value[p].content == fs[p].content
  {
    forall p | p in fs && fs[p].Regular? {
      NoModulesNoChange(fs[p].content);
    }
  }

  /** The actor. */
  method Process(fs: Fs, names: seq<string>, now: int) returns (r: Result<Fs>)
    ensures r == RemoveModules(fs, names, now)
  {
    var read :- ReadFiles(fs);
    var files := CommentFiles(read, names);
    var fs' := WriteFiles(fs, files, names, now, read);
    return Ok(fs');
  }

  /** Read files: the `files` dictionary, filled in the order of `PAM.files`. */
  method ReadFiles(fs: Fs) returns (r: Result<seq<Entry>>)
    ensures r == ReadPresent(fs, Files)
  {
    var files: seq<Entry> := [];
    var i := 0;
    while i < |Files|
      invariant 0 <= i <= |Files|
      invariant ReadPresent(fs, Files[..i]) == Ok(files)
    {
      assert Files[..i + 1][..i] == Files[..i];
      var content := Open(fs, Files[i]);
      if content.Ok? {
        files := files + [Entry(Files[i], content.value)];
      } else if content.failure != OsError(ENOENT) {
        ReadPresentStops(fs, Files, i + 1);
        return Err(content.failure);
      }
      i := i + 1;
    }
    assert Files[..i] == Files;
    return Ok(files);
  }

  /** Comment modules: each entry's text goes through the substitution of every listed module, and
      the entry is overwritten with the result. */
  method CommentFiles(read: seq<Entry>, names: seq<string>) returns (files: seq<Entry>)
    ensures |files| == |read|
    ensures forall k :: 0 <= k < |read| ==> files[k] == Entry(read[k].path, CommentAll(read[k].content, names))
  {
    files := read;
    var j := 0;
    while j < |files|
      invariant 0 <= j <= |files| && |files| == |read|
      invariant forall k :: 0 <= k < j ==> files[k] == Entry(read[k].path, CommentAll(read[k].content, names))
      invariant forall k :: j <= k < |files| ==> files[k] == read[k]
    {
      var content := files[j].content;
      var k := 0;
      while k < |names|
        invariant 0 <= k <= |names|
        invariant content == CommentModules(read[j].content, names[..k])
      {
        assert names[..k + 1][..k] == names[..k];
        content := Substitute(content, names[k]);
        k := k + 1;
      }
      assert names[..k] == names;
      CommentModulesIsCommentAll(read[j].content, names);
      files := files[j := Entry(files[j].path, content)];
      j := j + 1;
    }
  }

  /** Rewriting changes no link and no kind of node, so every path resolves as before. */
  lemma RewriteKeepsStat(fs: Fs, entries: seq<Entry>, names: seq<string>, now: int, path: string)
    requires forall e :: e in entries ==> IsFile(fs, e.path)
    ensures Stat(Rewrite(fs, entries, names, now), path) == Stat(fs, path)
  {
    SameLinksResolve(fs, Rewrite(fs, entries, names, now), path, MaxSymlinks);
  }

  /** `RewriteAppend` for the next entry of a list. */
  lemma RewriteStep(fs: Fs, read: seq<Entry>, names: seq<string>, now: int, j: nat)
    requires forall e :: e in read ==> IsFile(fs, e.path) && Open(fs, e.path) == Ok(e.content)
    requires j < |read|
    ensures forall x :: x in read[..j + 1] ==> IsFile(fs, x.path)
    ensures IsFile(Rewrite(fs, read[..j], names, now), read[j].path)
    ensures WriteFile(Rewrite(fs, read[..j], names, now), read[j].path, CommentAll(read[j].content, names), now)
         == Rewrite(fs, read[..j + 1], names, now)
  {
    assert read[j] in read;
    assert forall x :: x in read[..j + 1] ==> x in read;
    RewriteAppend(fs, read[..j], read[j], names, now);
    assert read[..j + 1] == read[..j] + [read[j]];
  }

  /** Writing the commented text of one more entry over the file its path leads to rewrites that
      file too. */
  lemma RewriteAppend(fs: Fs, entries: seq<Entry>, e: Entry, names: seq<string>, now: int)
    requires forall x :: x in entries ==> IsFile(fs, x.path)
    requires IsFile(fs, e.path) && Open(fs, e.path) == Ok(e.content)
    ensures IsFile(Rewrite(fs, entries, names, now), e.path)
    ensures WriteFile(Rewrite(fs, entries, names, now), e.path, CommentAll(e.content, names), now)
         == Rewrite(fs, entries + [e], names, now)
  {
    var cur := Rewrite(fs, entries, names, now);
    RewriteKeepsStat(fs, entries, names, now, e.path);
    var file := Stat(fs, e.path).value;
    var lhs := WriteFile(cur, e.path, CommentAll(e.content, names), now);
    var rhs := Rewrite(fs, entries + [e], names, now);
    forall p | p in fs ensures lhs[p] == rhs[p] {
      if p != file {
        if exists x :: x in entries + [e] && IsFile(fs, x.path) && Stat(fs, x.path).value == p {
          var x :| x in entries + [e] && IsFile(fs, x.path) && Stat(fs, x.path).value == p;
          assert x in entries;
        }
      } else {
        assert e in entries + [e];
      }
    }
  }

  /** Write new content: every entry's text goes back over the file its path leads to. */
  method WriteFiles(fs: Fs, files: seq<Entry>, names: seq<string>, now: int, ghost read: seq<Entry>)
    returns (fs': Fs)
    requires forall e :: e in read ==> IsFile(fs, e.path) && Open(fs, e.path) == Ok(e.content)
    requires |files| == |read|
    requires forall k :: 0 <= k < |read| ==> files[k] == Entry(read[k].path, CommentAll(read[k].content, names))
    ensures fs' == Rewrite(fs, read, names, now)
  {
    fs' := fs;
    var j := 0;
    assert read[..0] == [];
    assert Rewrite(fs, [], names, now) == fs;
    while j < |files|
      invariant 0 <= j <= |files|
      invariant fs' == Rewrite(fs, read[..j], names, now)
    {
      RewriteStep(fs, read, names, now, j);
      fs' := WriteFile(fs', files[j].path, files[j].content, now);
      j := j + 1;
    }
    assert read[..j] == read;
  }
}
