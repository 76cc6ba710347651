/** The `KEY=VALUE` parsers of the authselect scanner (`actors/authselectscanner/libraries/library.py`):
    `ConfigFile` and its two families, `Authconfig` (yes/no) and `DConf` (true/false). */
module ConfigFile {
  import opened Text
  import opened Failures
  import opened FileSystem

  datatype Pair = Pair(key: string, value: string)

  /** The `[^\s=]` class of a key. */
  predicate IsKeyChar(c: char) {
    !IsSpace(c) && c != '='
  }

  /** The `[^\"\n]` class of a value. */
  predicate IsValueChar(c: char) {
    c != '"' && c != '\n'
  }

  /** The end of the run of key characters that starts at `i`. */
  function KeyEnd(line: string, i: nat): (e: nat)
    requires i <= |line|
    ensures i <= e <= |line|
    ensures forall k :: i <= k < e ==> IsKeyChar(line[k])
    ensures e < |line| ==> !IsKeyChar(line[e])
    decreases |line| - i
  {
    if i < |line| && IsKeyChar(line[i]) then KeyEnd(line, i + 1) else i
  }

  /** The length of the longest prefix of `s` made of value characters. */
  function ValueEnd(s: string): (n: nat)
    ensures n <= |s|
    ensures forall k :: 0 <= k < n ==> IsValueChar(s[k])
    ensures n < |s| ==> !IsValueChar(s[n])
  {
    if s != [] && IsValueChar(s[0]) then 1 + ValueEnd(s[1..]) else 0
  }

  /** What `\"?$` accepts at the end of a line. */
  predicate TailOk(t: string) {
    t == [] || t == ['"']
  }

  /** `(lit|...)\"?$` through its first alternative, the literal `lit`. */
  predicate LiteralFits(s: string, lit: string) {
    |lit| <= |s| && s[..|lit|] == lit && TailOk(s[|lit|..])
  }

  /** `[^\"\n]*\"?$`: the greedy run is only worth taking in full, since anything shorter leaves a
      value character that neither `\"?` nor `$` accepts. */
  function RunValue(s: string): Option<string> {
    var n := ValueEnd(s);
    if TailOk(s[n..]) then Some(s[..n]) else None
  }

  /** The group `(yes|no|[^\"\n]*)` followed by `\"?$`, tried on `s` alternative by alternative. */
  function BodyValue(s: string, yes: string, no: string): Option<string> {
    if LiteralFits(s, yes) then Some(yes)
    else if LiteralFits(s, no) then Some(no)
    else RunValue(s)
  }

  /** What the value part of the pattern, `\"?(yes|no|[^\"\n]*)\"?$`, captures from the text after `=`:
      first with the opening quote taken, then without it. */
  function ValueOf(rest: string, yes: string, no: string): Option<string> {
    if rest != [] && rest[0] == '"' && BodyValue(rest[1..], yes, no).Some? then BodyValue(rest[1..], yes, no)
    else BodyValue(rest, yes, no)
  }

  /** `\"?([^\"\n]*)\"?$`: the value pattern without its two literal alternatives. */
  function PlainValue(rest: string): Option<string> {
    ValueOf(rest, [], [])
  }

  /** `v` between an optional opening and an optional closing quote. */
  predicate Framed(rest: string, v: string) {
    rest == v || rest == ['"'] + v || rest == v + ['"'] || rest == ['"'] + v + ['"']
  }

  /** The pair one line contributes to `re.findall(r"^[ \t]*([^\s=]*)=\"?(yes|no|[^\"\n]*)\"?$", config,
      re.MULTILINE)`. The indentation and the key are both taken in full: a shorter run leaves a blank or a
      key character where the pattern needs `=`. */
  function MatchLine(line: string, yes: string, no: string): Option<Pair> {
    var n := Indent(line);
    var k := KeyEnd(line, n);
    if k < |line| && line[k] == '=' then
      match ValueOf(line[k + 1..], yes, no)
      case Some(v) => Some(Pair(line[n..k], v))
      case None => None
    else None
  }

  /** The pairs of a sequence of lines, in line order. */
  function Matches(lines: seq<string>, yes: string, no: string): (r: seq<Pair>)
    ensures |r| <= |lines|
  {
    if lines == [] then []
    else
      match MatchLine(lines[0], yes, no)
      case Some(p) => [p] + Matches(lines[1..], yes, no)
      case None => Matches(lines[1..], yes, no)
  }

  /** The `(key, value)` tuples `findall` returns for a configuration text. */
  function Pairs(config: string, yes: string, no: string): seq<Pair> {
    Matches(Split(config, '\n'), yes, no)
  }

  /** The loop `for key, value in result: self.options[key] = value`, over a prefix of the pairs. */
  function Store(m: map<string, string>, pairs: seq<Pair>): map<string, string> {
    if pairs == [] then m
    else
      var last := pairs[|pairs| - 1];
      Store(m, pairs[..|pairs| - 1])[last.key := last.value]
  }

  /** The options of a freshly parsed text. */
  function Options(config: string, yes: string, no: string): map<string, string> {
    Store(map[], Pairs(config, yes, no))
  }

  /** `pairs[i]` is the last pair with key `key`. */
  predicate LastWithKey(pairs: seq<Pair>, key: string, i: int) {
    0 <= i < |pairs| && pairs[i].key == key && forall j :: i < j < |pairs| ==> pairs[j].key != key
  }

  /** When a key appears on several lines the last one wins; a key no pair mentions keeps what it had. */
  lemma {:induction false} LastOccurrenceWins(m: map<string, string>, pairs: seq<Pair>, key: string)
    ensures key in Store(m, pairs) <==> key in m || exists i :: 0 <= i < |pairs| && pairs[i].key == key
    ensures (forall i :: 0 <= i < |pairs| ==> pairs[i].key != key) && key in m ==> Store(m, pairs)[key] == m[key]
    ensures forall i :: LastWithKey(pairs, key, i) ==> Store(m, pairs)[key] == pairs[i].value
  {
    if pairs != [] {
      var init := pairs[..|pairs| - 1];
      LastOccurrenceWins(m, init, key);
      assert forall i :: 0 <= i < |init| ==> init[i] == pairs[i];
      forall i | LastWithKey(pairs, key, i) ensures Store(m, pairs)[key] == pairs[i].value {
        if i < |pairs| - 1 {
          assert LastWithKey(init, key, i);
        }
      }
    }
  }

  lemma {:induction false} ValueEndAt(s: string, j: nat)
    requires j <= |s|
    requires forall k :: 0 <= k < j ==> IsValueChar(s[k])
    requires j < |s| ==> !IsValueChar(s[j])
    ensures ValueEnd(s) == j
  {
    if j > 0 {
      ValueEndAt(s[1..], j - 1);
    }
  }

  /** The value `v` followed by at most a closing quote is captured as `v`. */
  lemma RunValueOf(s: string, v: string, tail: string)
    requires s == v + tail
    requires forall k :: 0 <= k < |v| ==> IsValueChar(v[k])
    requires TailOk(tail)
    ensures RunValue(s) == Some(v)
  {
    assert forall k :: 0 <= k < |v| ==> s[k] == v[k];
    assert |v| < |s| ==> s[|v|] == '"';
    ValueEndAt(s, |v|);
    assert s[..|v|] == v && s[|v|..] == tail;
  }

  /** The literal alternatives never change the stored value: a literal free of quotes and newlines is
      captured only where the third alternative captures the same text. */
  lemma LiteralIsRun(s: string, lit: string)
    requires forall k :: 0 <= k < |lit| ==> IsValueChar(lit[k])
    requires LiteralFits(s, lit)
    ensures RunValue(s) == Some(lit)
  {
    assert s == lit + s[|lit|..];
    RunValueOf(s, lit, s[|lit|..]);
  }

  lemma BodyValueIsRun(s: string, yes: string, no: string)
    requires forall k :: 0 <= k < |yes| ==> IsValueChar(yes[k])
    requires forall k :: 0 <= k < |no| ==> IsValueChar(no[k])
    ensures BodyValue(s, yes, no) == RunValue(s)
  {
    if LiteralFits(s, yes) {
      LiteralIsRun(s, yes);
    } else if LiteralFits(s, no) {
      LiteralIsRun(s, no);
    }
  }

  /** Whatever the two literals of a family (when neither holds a quote or a newline), the stored value
      is what the plain pattern `\"?([^\"\n]*)\"?$` captures. */
  lemma ValueIsPlain(rest: string, yes: string, no: string)
    requires forall k :: 0 <= k < |yes| ==> IsValueChar(yes[k])
    requires forall k :: 0 <= k < |no| ==> IsValueChar(no[k])
    ensures ValueOf(rest, yes, no) == PlainValue(rest)
  {
    BodyValueIsRun(rest, yes, no);
    BodyValueIsRun(rest, [], []);
    if rest != [] {
      BodyValueIsRun(rest[1..], yes, no);
      BodyValueIsRun(rest[1..], [], []);
    }
  }

  lemma RunValueFrames(s: string)
    requires RunValue(s).Some?
    ensures var v := RunValue(s).value;
      (forall k :: 0 <= k < |v| ==> IsValueChar(v[k])) && (s == v || s == v + ['"'])
  {
    var n := ValueEnd(s);
    assert s == s[..n] + s[n..];
  }

  /** `KEY=v`, `KEY="v"` and the two half-quoted forms all store `v`, which holds no quote and no newline:
      the quotes around a value are stripped. */
  lemma QuotesStripped(rest: string)
    requires PlainValue(rest).Some?
    ensures var v := PlainValue(rest).value;
      (forall k :: 0 <= k < |v| ==> IsValueChar(v[k])) && Framed(rest, v)
  {
    BodyValueIsRun(rest, [], []);
    if rest != [] && rest[0] == '"' && BodyValue(rest[1..], [], []).Some? {
      BodyValueIsRun(rest[1..], [], []);
      RunValueFrames(rest[1..]);
      assert rest == ['"'] + rest[1..];
    } else {
      RunValueFrames(rest);
    }
  }

  /** Conversely, every framed quote-free value is captured as it is. */
  lemma FramedValueStored(rest: string, v: string)
    requires forall k :: 0 <= k < |v| ==> IsValueChar(v[k])
    requires Framed(rest, v)
    ensures PlainValue(rest) == Some(v)
  {
    BodyValueIsRun(rest, [], []);
    if rest != [] {
      BodyValueIsRun(rest[1..], [], []);
    }
    if rest == ['"'] + v + ['"'] || rest == ['"'] + v {
      var tail := if rest == ['"'] + v + ['"'] then ['"'] else [];
      assert rest[1..] == v + tail;
      RunValueOf(rest[1..], v, tail);
    } else {
      var tail := if rest == v then [] else ['"'];
      assert rest == v + tail;
      RunValueOf(rest, v, tail);
      assert v != [] ==> rest[0] == v[0];
    }
  }

  /** A line `<blanks><key>=<rest>` stores `key` with the value its `rest` frames; leading spaces and tabs
      play no part, and a key holds no whitespace and no `=`. */
  lemma ParsedLine(b: string, key: string, rest: string, yes: string, no: string)
    requires forall k :: 0 <= k < |b| ==> IsBlank(b[k])
    requires forall k :: 0 <= k < |key| ==> IsKeyChar(key[k])
    requires forall k :: 0 <= k < |yes| ==> IsValueChar(yes[k])
    requires forall k :: 0 <= k < |no| ==> IsValueChar(no[k])
    ensures MatchLine(b + key + ['='] + rest, yes, no)
            == if PlainValue(rest).Some? then Some(Pair(key, PlainValue(rest).value)) else None
  {
    var line := b + key + ['='] + rest;
    var e := |b| + |key|;
    assert forall k :: |b| <= k < e ==> line[k] == key[k - |b|];
    assert line[e] == '=';
    IndentAt(line, |b|);
    KeyEndAt(line, |b|, e);
    assert line[|b|..e] == key;
    assert line[e + 1..] == rest;
    ValueIsPlain(rest, yes, no);
  }

  lemma {:induction false} IndentAt(line: string, n: nat)
    requires n <= |line| && (n < |line| ==> !IsBlank(line[n]))
    requires forall k :: 0 <= k < n ==> IsBlank(line[k])
    ensures Indent(line) == n
  {
    if n > 0 {
      IndentAt(line[1..], n - 1);
    }
  }

  lemma {:induction false} KeyEndAt(line: string, i: nat, j: nat)
    requires i <= j <= |line| && (j < |line| ==> !IsKeyChar(line[j]))
    requires forall k :: i <= k < j ==> IsKeyChar(line[k])
    ensures KeyEnd(line, i) == j
    decreases j - i
  {
    if i < j {
      KeyEndAt(line, i + 1, j);
    }
  }

  /** A line without `=` after its key, and a line whose value part does not fit, contributes nothing. */
  lemma MatchedLineShape(line: string, yes: string, no: string)
    requires MatchLine(line, yes, no).Some?
    ensures var p := MatchLine(line, yes, no).value;
      exists n: nat :: n <= |line| && (forall k :: 0 <= k < n ==> IsBlank(line[k]))
        && line[n..] == p.key + ['='] + line[n + |p.key| + 1..]
        && ValueOf(line[n + |p.key| + 1..], yes, no) == Some(p.value)
    ensures forall k :: 0 <= k < |MatchLine(line, yes, no).value.key| ==> IsKeyChar(MatchLine(line, yes, no).value.key[k])
  {
    var n := Indent(line);
    var e := KeyEnd(line, n);
    var p := MatchLine(line, yes, no).value;
    assert p.key == line[n..e];
    assert line[n..] == line[n..e] + ['='] + line[e + 1..];
  }

  /** The lookup of `get_string`: None for an absent key. */
  function StringValue(options: map<string, string>, key: string): Option<string> {
    if key in options then Some(options[key]) else None
  }

  /** The lookup `get_bool` is evidently meant to make: the key is present and holds the yes literal. */
  function BoolValue(options: map<string, string>, yes: string, key: string): bool {
    key in options && options[key] == yes
  }

  /** The lookup `get_bool` makes as written: its body reads `option`, a name defined nowhere, so it
      raises `NameError` whatever the options and the key. */
  function BoolValueAsWritten(options: map<string, string>, yes: string, key: string): Result<bool> {
    Err(NameError("option"))
  }

  /** `ConfigFile`: the options of one configuration text, read with a family's yes and no literals. */
  class ConfigFile {
    const valueYes: string
    const valueNo: string
    var options: map<string, string>

    /** `ConfigFile.__init__`: starts from no options and parses `config`. */
    constructor (config: string, yes: string, no: string)
      ensures valueYes == yes && valueNo == no
      ensures options == Options(config, yes, no)
    {
      valueYes := yes;
      valueNo := no;
      options := map[];
      new;
      Parse(config);
    }

    /** `Authconfig.__init__`: the yes/no family. */
    constructor Authconfig(config: string)
      ensures valueYes == "yes" && valueNo == "no"
      ensures options == Options(config, "yes", "no")
    {
      valueYes := "yes";
      valueNo := "no";
      options := map[];
      new;
      Parse(config);
    }

    /** `DConf.__init__`: the true/false family. */
    constructor DConf(config: string)
      ensures valueYes == "true" && valueNo == "false"
      ensures options == Options(config, "true", "false")
    {
      valueYes := "true";
      valueNo := "false";
      options := map[];
      new;
      Parse(config);
    }

    /** `parse`: stores the pairs of `config` in line order over the options already there. */
    method Parse(config: string)
      modifies this
      ensures options == Store(old(options), Pairs(config, valueYes, valueNo))
    {
      var result := Pairs(config, valueYes, valueNo);
      var i := 0;
      while i < |result|
        invariant 0 <= i <= |result|
        invariant options == Store(old(options), result[..i])
      {
        assert result[..i + 1][..i] == result[..i];
        options := options[result[i].key := result[i].value];
        i := i + 1;
      }
      assert result[..i] == result;
    }

    /** `get_string` */
    function GetString(option: string): Option<string>
      reads this
    {
      StringValue(options, option)
    }

    /** `get_bool` as its authors evidently meant it. */
    function GetBool(option: string): bool
      reads this
    {
      BoolValue(options, valueYes, option)
    }

    /** `get_bool` as written: its parameter is `options` but its body reads `option`, a name defined
        nowhere, so every call raises `NameError`. */
    function GetBoolAsWritten(option: string): Result<bool>
      reads this
    {
      BoolValueAsWritten(options, valueYes, option)
    }
  }

  /** On a freshly parsed text, `get_string` is None exactly when no line sets the key, and otherwise the
      value that the last line setting it gives. */
  lemma GetStringOfParsed(cf: ConfigFile, config: string, key: string)
    requires cf.options == Options(config, cf.valueYes, cf.valueNo)
    ensures var ps := Pairs(config, cf.valueYes, cf.valueNo);
      cf.GetString(key).None? <==> forall i :: 0 <= i < |ps| ==> ps[i].key != key
    ensures var ps := Pairs(config, cf.valueYes, cf.valueNo);
      forall i :: LastWithKey(ps, key, i) ==> cf.GetString(key) == Some(ps[i].value)
  {
    LastOccurrenceWins(map[], Pairs(config, cf.valueYes, cf.valueNo), key);
  }

  /** The intended `get_bool` is true exactly when `get_string` gives the yes literal: false for an absent
      key, for the no literal and for any other text. */
  lemma GetBoolIsYes(cf: ConfigFile, key: string)
    ensures cf.GetBool(key) <==> cf.GetString(key) == Some(cf.valueYes)
    ensures cf.GetString(key) == Some(cf.valueNo) && cf.valueNo != cf.valueYes ==> !cf.GetBool(key)
    ensures cf.GetString(key).None? ==> !cf.GetBool(key)
  {
  }

  /** Finding: every `get_bool` call fails, where the intended one answers for every key. */
  lemma GetBoolFails(cf: ConfigFile, key: string)
    ensures cf.GetBoolAsWritten(key) == Err(NameError("option"))
    ensures cf.GetBoolAsWritten(key) != Ok(cf.GetBool(key))
  {
  }

  const AuthconfigPath: string := "/etc/sysconfig/authconfig"
  const DConfPath: string := "/etc/dconf/db/distro.d/10-authconfig"

  /** `Authconfig.from_system_configuration`: a missing file parses as the empty text. */
  method AuthconfigFromSystem(fs: Fs) returns (r: Result<ConfigFile>)
    ensures r.Ok? <==> ReadFile(fs, AuthconfigPath).Ok?
    ensures r.Err? ==> r.failure == ReadFile(fs, AuthconfigPath).failure
    ensures r.Ok? ==> fresh(r.value) && r.value.valueYes == "yes" && r.value.valueNo == "no"
                      && r.value.options == Options(ReadFile(fs, AuthconfigPath).value, "yes", "no")
  {
    var text := ReadFile(fs, AuthconfigPath);
    if text.Err? {
      return Err(text.failure);
    }
    var cf := new ConfigFile.Authconfig(text.value);
    return Ok(cf);
  }

  /** `DConf.from_system_configuration`: a missing file parses as the empty text. */
  method DConfFromSystem(fs: Fs) returns (r: Result<ConfigFile>)
    ensures r.Ok? <==> ReadFile(fs, DConfPath).Ok?
    ensures r.Err? ==> r.failure == ReadFile(fs, DConfPath).failure
    ensures r.Ok? ==> fresh(r.value) && r.value.valueYes == "true" && r.value.valueNo == "false"
                      && r.value.options == Options(ReadFile(fs, DConfPath).value, "true", "false")
  {
    var text := ReadFile(fs, DConfPath);
    if text.Err? {
      return Err(text.failure);
    }
    var cf := new ConfigFile.DConf(text.value);
    return Ok(cf);
  }
}
