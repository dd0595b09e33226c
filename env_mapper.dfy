/**
 * `EnvMapper`: reads a `.env` file into a case-insensitive variable table seeded with the
 * system environment, then rewrites every configuration value holding a `${name}`
 * placeholder with the variable's value, counting the placeholders found and resolved.
 *
 * Which file is chosen (`.env.*.local` first, then `.env`) is file-system I/O: the mapping
 * receives the text of the file found, or `None` when there is none.
 */
module EnvMapper {
  import opened Wrappers
  import opened Text

  // ---------------------------------------------------------------------------
  // The case-insensitive dictionary

  /** An entry of the merge dictionary: the key with the casing it was first added with, and its value. */
  datatype Entry = Entry(key: string, value: string)

  /** `Dictionary<string, string>(StringComparer.OrdinalIgnoreCase)`, indexed by the folded key. */
  type Dict = map<string, Entry>

  /** Each entry sits under the folded form of its own key. */
  ghost predicate WellKeyed(d: Dict) {
    forall f :: f in d ==> FoldCase(d[f].key) == f
  }

  /** The value of a key, whatever its casing. */
  function Get(d: Dict, key: string): Option<string> {
    var f := FoldCase(key);
    if f in d then Some(d[f].value) else None
  }

  /**
   * `dict[key] = value`: a key equal to a stored one up to case overwrites its value and
   * keeps the stored casing; any other key is added.
   */
  function Assign(d: Dict, key: string, value: string): (r: Dict)
    requires WellKeyed(d)
    ensures WellKeyed(r)
  {
    var f := FoldCase(key);
    if f in d then d[f := Entry(d[f].key, value)] else d[f := Entry(key, value)]
  }

  /**
   * After `dict[key] = value` the key reads `value` under any casing, every key not equal to
   * it up to case reads as before, and every stored casing is kept.
   */
  lemma AssignSpec(d: Dict, key: string, value: string, other: string)
    requires WellKeyed(d)
    ensures Get(Assign(d, key, value), key) == Some(value)
    ensures FoldCase(other) != FoldCase(key) ==> Get(Assign(d, key, value), other) == Get(d, other)
    ensures Assign(d, key, value).Keys == d.Keys + {FoldCase(key)}
    ensures forall f :: f in d ==> Assign(d, key, value)[f].key == d[f].key
  {
  }

  /** No two system variable names are equal up to case. */
  predicate NoFoldClash(vars: map<string, string>) {
    forall a, b :: a in vars && b in vars && FoldCase(a) == FoldCase(b) ==> a == b
  }

  /** The dictionary copied from the system variables (the copy refuses names equal up to case). */
  function Seed(vars: map<string, string>): (r: Dict)
    requires NoFoldClash(vars)
    ensures WellKeyed(r)
    ensures forall name :: name in vars ==> FoldCase(name) in r && r[FoldCase(name)] == Entry(name, vars[name])
    ensures forall f :: f in r ==> r[f].key in vars
  {
    map name | name in vars :: FoldCase(name) := Entry(name, vars[name])
  }

  /**
   * `ToFrozenDictionary()`: the frozen copy uses the default comparer, so its keys are the
   * stored casings and its lookups are exact.
   */
  function Frozen(d: Dict): (r: map<string, string>)
    requires WellKeyed(d)
    ensures forall f :: f in d ==> d[f].key in r && r[d[f].key] == d[f].value
    ensures forall k :: k in r ==> FoldCase(k) in d && d[FoldCase(k)] == Entry(k, r[k])
  {
    map f | f in d :: d[f].key := d[f].value
  }

  // ---------------------------------------------------------------------------
  // The env file

  /** Blank lines and lines whose first non-blank character is `#` are filtered out. */
  predicate Ignored(line: string) {
    IsNullOrWhiteSpace(Some(line)) || StartsWith(TrimStart(line), "#")
  }

  /** The unquoting of a value (one outer pair of matching quotes removed). */
  function StripQuotes(v: string): string {
    if |v| > 1 && v[0] == '"' && v[|v| - 1] == '"' then v[1..|v| - 1]
    else if |v| > 1 && v[0] == '\'' && v[|v| - 1] == '\'' then v[1..|v| - 1]
    else v
  }

  /**
   * One outer pair of matching double or single quotes is removed from a value longer
   * than one character; any other value is kept as it is.
   */
  lemma StripQuotesSpec(v: string)
    ensures var quoted := |v| > 1 && ((v[0] == '"' && v[|v| - 1] == '"') || (v[0] == '\'' && v[|v| - 1] == '\''));
      && (quoted ==> StripQuotes(v) == v[1..|v| - 1] && |StripQuotes(v)| == |v| - 2)
      && (!quoted ==> StripQuotes(v) == v)
  {
  }

  /** The key and value a line assigns. */
  datatype Assignment = Assignment(key: string, value: string)

  /** The line split at position `i`: the trimmed text before it, the trimmed and unquoted text after it. */
  function SplitAt(line: string, i: nat): Assignment
    requires i < |line|
  {
    Assignment(Trim(line[..i]), StripQuotes(Trim(line[i + 1..])))
  }

  /** A kept line split at its first `=` into a trimmed key and a trimmed, unquoted value. */
  function ParseLine(line: string): Option<Assignment> {
    match IndexOf(line, '=')
    case None => None
    case Some(i) => Some(SplitAt(line, i))
  }

  /** One pass of the parse loop. */
  function ApplyLine(d: Dict, line: string): (r: Dict)
    requires WellKeyed(d)
    ensures WellKeyed(r)
  {
    if Ignored(line) then d
    else match ParseLine(line)
      case None => d
      case Some(a) => Assign(d, a.key, a.value)
  }

  /** The parse loop over the lines of the file, in order. */
  function ApplyLines(d: Dict, lines: seq<string>): (r: Dict)
    requires WellKeyed(d)
    ensures WellKeyed(r)
    decreases |lines|
  {
    if lines == [] then d else ApplyLines(ApplyLine(d, lines[0]), lines[1..])
  }

  // ---------------------------------------------------------------------------
  // Placeholders

  /** `\w`: letters, digits and the underscore (ASCII here). */
  predicate IsWordChar(c: char) {
    ('a' <= c <= 'z') || ('A' <= c <= 'Z') || ('0' <= c <= '9') || c == '_'
  }

  /** The length of the longest prefix of word characters. */
  function WordRun(s: string): (n: nat)
    ensures n <= |s| && (forall i :: 0 <= i < n ==> IsWordChar(s[i])) && (n == |s| || !IsWordChar(s[n]))
  {
    if s == [] || !IsWordChar(s[0]) then 0 else 1 + WordRun(s[1..])
  }

  /** The names of the successive matches of `\$\{(\w+)\}`, scanning left to right. */
  function Placeholders(s: string): (r: seq<string>)
    decreases |s|
  {
    if |s| < 2 then []
    else if s[0] == '$' && s[1] == '{' && 0 < WordRun(s[2..]) < |s| - 2 && s[2 + WordRun(s[2..])] == '}' then
      var n := WordRun(s[2..]);
      [s[2..2 + n]] + Placeholders(s[3 + n..])
    else
      Placeholders(s[1..])
  }

  /** Every match names a non-empty run of word characters. */
  lemma {:induction false} PlaceholderNames(s: string)
    ensures forall n :: n in Placeholders(s) ==> n != [] && forall i :: 0 <= i < |n| ==> IsWordChar(n[i])
    decreases |s|
  {
    if |s| >= 2 {
      if s[0] == '$' && s[1] == '{' && 0 < WordRun(s[2..]) < |s| - 2 && s[2 + WordRun(s[2..])] == '}' {
        var n := WordRun(s[2..]);
        assert forall i :: 0 <= i < n ==> s[2..2 + n][i] == s[2..][i];
        PlaceholderNames(s[3 + n..]);
      } else {
        PlaceholderNames(s[1..]);
      }
    }
  }

  /** Text without `$` holds no placeholder. */
  lemma {:induction false} NoDollarNoPlaceholder(s: string)
    requires '$' !in s
    ensures Placeholders(s) == []
    decreases |s|
  {
    if |s| >= 2 {
      assert s[0] != '$';
      assert '$' !in s[1..];
      NoDollarNoPlaceholder(s[1..]);
    }
  }

  /** What one match writes to the entry: the variable's value, or null when there is none. */
  function Decide(name: string, variables: map<string, string>): Option<string> {
    if name in variables then Some(variables[name]) else None
  }

  /** A configuration value after substitution: unchanged without placeholders, else decided by the last one. */
  function Resolved(value: string, variables: map<string, string>): Option<string> {
    var names := Placeholders(value);
    if names == [] then Some(value) else Decide(names[|names| - 1], variables)
  }

  /** An entry of `IConfiguration.AsEnumerable()`; sections without a value have a null value. */
  datatype ConfigEntry = ConfigEntry(key: string, value: Option<string>)

  function SubstituteEntry(e: ConfigEntry, variables: map<string, string>): ConfigEntry {
    if e.value.None? then e else ConfigEntry(e.key, Resolved(e.value.value, variables))
  }

  /** The configuration after the substitution loop. */
  function Substitute(config: seq<ConfigEntry>, variables: map<string, string>): (r: seq<ConfigEntry>)
    ensures |r| == |config|
    ensures forall i :: 0 <= i < |config| ==> r[i].key == config[i].key
  {
    seq(|config|, i requires 0 <= i < |config| => SubstituteEntry(config[i], variables))
  }

  /** How many of the names are variables. */
  function CountIn(names: seq<string>, variables: map<string, string>): (n: nat)
    ensures n <= |names|
  {
    if names == [] then 0
    else CountIn(names[..|names| - 1], variables) + (if names[|names| - 1] in variables then 1 else 0)
  }

  function EntryNames(e: ConfigEntry): seq<string> {
    if e.value.None? then [] else Placeholders(e.value.value)
  }

  /** `count`: the placeholders matched over the whole configuration. */
  function PlaceholderCount(config: seq<ConfigEntry>): nat {
    if config == [] then 0 else PlaceholderCount(config[..|config| - 1]) + |EntryNames(config[|config| - 1])|
  }

  /** `mapped`: the placeholders matched that named a variable. */
  function MappedCount(config: seq<ConfigEntry>, variables: map<string, string>): nat {
    if config == [] then 0
    else MappedCount(config[..|config| - 1], variables) + CountIn(EntryNames(config[|config| - 1]), variables)
  }

  /** Writing entry `j`'s substituted value extends the substituted prefix by one. */
  lemma SubstitutedThrough(config: seq<ConfigEntry>, original: seq<ConfigEntry>, j: nat, e: ConfigEntry, variables: map<string, string>)
    requires j < |config| == |original|
    requires forall m :: 0 <= m < j ==> config[m] == SubstituteEntry(original[m], variables)
    requires forall m :: j < m < |config| ==> config[m] == original[m]
    requires e == SubstituteEntry(original[j], variables)
    ensures forall m :: 0 <= m <= j ==> config[j := e][m] == SubstituteEntry(original[m], variables)
    ensures forall m :: j < m < |config| ==> config[j := e][m] == original[m]
  {
  }

  /** The counters over one more entry of the configuration. */
  lemma CountsStep(config: seq<ConfigEntry>, j: nat, variables: map<string, string>)
    requires j < |config|
    ensures PlaceholderCount(config[..j + 1]) == PlaceholderCount(config[..j]) + |EntryNames(config[j])|
    ensures MappedCount(config[..j + 1], variables) == MappedCount(config[..j], variables) + CountIn(EntryNames(config[j]), variables)
  {
    assert config[..j + 1][..j] == config[..j];
  }

  // ---------------------------------------------------------------------------
  // The whole mapping

  /** The state of the mapper: the configuration, the system-variables switch and `Variables`. */
  datatype Mapper = Mapper(config: seq<ConfigEntry>, includeSystemVariables: bool, variables: map<string, string>)

  /** How `MapVariables` ends: no env file, the system-variables copy throwing, or the counters logged. */
  datatype MapOutcome = NoEnvironmentFile | DuplicateSystemVariable | Mapped(count: nat, mapped: nat)

  /** The variable table built from the system variables (when included) and the file. */
  function Variables(includeSystemVariables: bool, systemVars: map<string, string>, envFile: string): map<string, string>
    requires includeSystemVariables ==> NoFoldClash(systemVars)
  {
    var seed := if includeSystemVariables then Seed(systemVars) else map[];
    Frozen(ApplyLines(seed, Split(envFile, '\n')))
  }

  /** `MapVariables` on the state `st`, given the env file found and the system environment. */
  function MapState(st: Mapper, envFile: Option<string>, systemVars: map<string, string>): (MapOutcome, Mapper) {
    if envFile.None? then (NoEnvironmentFile, st)
    else if st.includeSystemVariables && !NoFoldClash(systemVars) then (DuplicateSystemVariable, st)
    else
      var variables := Variables(st.includeSystemVariables, systemVars, envFile.value);
      (Mapped(PlaceholderCount(st.config), MappedCount(st.config, variables)),
       st.(variables := variables, config := Substitute(st.config, variables)))
  }

  // ---------------------------------------------------------------------------
  // Properties of the parser

  /** Blank lines, comment lines and lines without `=` leave the dictionary as it is. */
  lemma SkippedLines(d: Dict, line: string)
    requires WellKeyed(d)
    requires Ignored(line) || '=' !in line
    ensures ApplyLine(d, line) == d
  {
  }

  /**
   * A line is split at its first `=`: the key is the trimmed text before it, and the value
   * is everything after it, `=` and `#` included, trimmed and unquoted.
   */
  lemma SplitAtFirstEquals(key: string, value: string)
    requires '=' !in key
    ensures ParseLine(key + "=" + value) == Some(Assignment(Trim(key), StripQuotes(Trim(value))))
  {
    var line := key + "=" + value;
    assert line[|key|] == '=';
    assert line[..|key|] == key;
    assert line[|key| + 1..] == value;
  }

  /** Lines are applied in order: the loop over `a + b` is the loop over `a`, then over `b`. */
  lemma {:induction false} ApplyLinesAppend(d: Dict, a: seq<string>, b: seq<string>)
    requires WellKeyed(d)
    ensures ApplyLines(d, a + b) == ApplyLines(ApplyLines(d, a), b)
    decreases |a|
  {
    if a == [] {
      assert a + b == b;
    } else {
      assert (a + b)[0] == a[0];
      assert (a + b)[1..] == a[1..] + b;
      ApplyLinesAppend(ApplyLine(d, a[0]), a[1..], b);
    }
  }

  /** The line is kept and assigns a key equal up to case to `key`. */
  predicate Assigns(line: string, key: string) {
    !Ignored(line) && ParseLine(line).Some? && FoldCase(ParseLine(line).value.key) == FoldCase(key)
  }

  /** A line that does not assign `key` leaves its value alone. */
  lemma OtherLineKeeps(d: Dict, line: string, key: string)
    requires WellKeyed(d) && !Assigns(line, key)
    ensures Get(ApplyLine(d, line), key) == Get(d, key)
  {
    if !Ignored(line) && ParseLine(line).Some? {
      AssignSpec(d, ParseLine(line).value.key, ParseLine(line).value.value, key);
    }
  }

  /** Lines that assign no key equal up to case to `key` leave its value alone. */
  lemma {:induction false} OtherLinesKeep(d: Dict, lines: seq<string>, key: string)
    requires WellKeyed(d)
    requires forall i :: 0 <= i < |lines| ==> !Assigns(lines[i], key)
    ensures Get(ApplyLines(d, lines), key) == Get(d, key)
    decreases |lines|
  {
    if lines != [] {
      OtherLineKeeps(d, lines[0], key);
      assert forall i :: 0 <= i < |lines[1..]| ==> lines[1..][i] == lines[i + 1];
      OtherLinesKeep(ApplyLine(d, lines[0]), lines[1..], key);
    }
  }

  /** The loop keeps the casing under which a key was first stored. */
  lemma {:induction false} CasingKept(d: Dict, lines: seq<string>, f: string)
    requires WellKeyed(d) && f in d
    ensures f in ApplyLines(d, lines) && ApplyLines(d, lines)[f].key == d[f].key
    decreases |lines|
  {
    if lines != [] {
      var next := ApplyLine(d, lines[0]);
      if !Ignored(lines[0]) && ParseLine(lines[0]).Some? {
        AssignSpec(d, ParseLine(lines[0]).value.key, ParseLine(lines[0]).value.value, f);
      }
      assert f in next && next[f].key == d[f].key;
      CasingKept(next, lines[1..], f);
    }
  }

  /** A kept line with `=` leaves the value it assigns under its key. */
  lemma AssigningLine(d: Dict, line: string)
    requires WellKeyed(d)
    requires !Ignored(line) && ParseLine(line).Some?
    ensures Get(ApplyLine(d, line), ParseLine(line).value.key) == Some(ParseLine(line).value.value)
  {
    var a := ParseLine(line).value;
    AssignSpec(d, a.key, a.value, a.key);
  }

  /**
   * Later assignments override earlier ones, whatever the casing of the key: after a line
   * assigning a key, the dictionary holds the value it assigns until a later line assigns
   * a key equal to it up to case.
   */
  lemma LastAssignmentWins(d: Dict, before: seq<string>, line: string, after: seq<string>)
    requires WellKeyed(d)
    requires !Ignored(line) && ParseLine(line).Some?
    requires forall i :: 0 <= i < |after| ==> !Assigns(after[i], ParseLine(line).value.key)
    ensures Get(ApplyLines(d, before + [line] + after), ParseLine(line).value.key) == Some(ParseLine(line).value.value)
  {
    ApplyLinesSplit(d, before, line, after);
    AssignedThenKept(ApplyLines(d, before), line, after);
  }

  /** The loop over `before + [line] + after`, seen as the three parts in turn. */
  lemma ApplyLinesSplit(d: Dict, before: seq<string>, line: string, after: seq<string>)
    requires WellKeyed(d)
    ensures ApplyLines(d, before + [line] + after) == ApplyLines(ApplyLine(ApplyLines(d, before), line), after)
  {
    var mid := ApplyLines(d, before);
    calc {
      ApplyLines(d, before + [line] + after);
      { assert before + [line] + after == before + ([line] + after); }
      ApplyLines(d, before + ([line] + after));
      { ApplyLinesAppend(d, before, [line] + after); }
      ApplyLines(mid, [line] + after);
      { ApplyLinesCons(mid, line, after); }
      ApplyLines(ApplyLine(mid, line), after);
    }
  }

  /** The line's assignment survives the later lines that do not assign its key. */
  lemma AssignedThenKept(d: Dict, line: string, after: seq<string>)
    requires WellKeyed(d)
    requires !Ignored(line) && ParseLine(line).Some?
    requires forall i :: 0 <= i < |after| ==> !Assigns(after[i], ParseLine(line).value.key)
    ensures Get(ApplyLines(ApplyLine(d, line), after), ParseLine(line).value.key) == Some(ParseLine(line).value.value)
  {
    AssigningLine(d, line);
    OtherLinesKeep(ApplyLine(d, line), after, ParseLine(line).value.key);
  }

  lemma ApplyLinesCons(d: Dict, line: string, after: seq<string>)
    requires WellKeyed(d)
    ensures ApplyLines(d, [line] + after) == ApplyLines(ApplyLine(d, line), after)
  {
    var rest := [line] + after;
    assert rest[0] == line && rest[1..] == after;
  }

  /** The loop over the lines from `i` on is line `i`, then the loop over the lines after it. */
  lemma ApplyLinesAt(d: Dict, lines: seq<string>, i: nat)
    requires WellKeyed(d) && i < |lines|
    ensures ApplyLines(d, lines[i..]) == ApplyLines(ApplyLine(d, lines[i]), lines[i + 1..])
  {
    assert lines[i..] == [lines[i]] + lines[i + 1..];
    ApplyLinesCons(d, lines[i], lines[i + 1..]);
  }

  /**
   * The file overrides the system environment: when the last assignment in the file to a
   * key equal up to case to a system variable's name gives `value`, `Variables` holds
   * `value` under the system variable's own name.
   */
  lemma FileOverridesSystem(systemVars: map<string, string>, name: string, before: seq<string>, line: string, after: seq<string>)
    requires NoFoldClash(systemVars) && name in systemVars
    requires !Ignored(line) && ParseLine(line).Some? && FoldCase(ParseLine(line).value.key) == FoldCase(name)
    requires forall i :: 0 <= i < |after| ==> !Assigns(after[i], name)
    ensures var d := ApplyLines(Seed(systemVars), before + [line] + after);
      name in Frozen(d) && Frozen(d)[name] == ParseLine(line).value.value
  {
    var key := ParseLine(line).value.key;
    assert forall i :: 0 <= i < |after| ==> !Assigns(after[i], key);
    LastAssignmentWins(Seed(systemVars), before, line, after);
    CasingKept(Seed(systemVars), before + [line] + after, FoldCase(name));
  }

  // ---------------------------------------------------------------------------
  // Properties of the substitution

  /** The name of a placeholder followed by `}` and anything: the word run stops at the brace. */
  lemma WordRunOfName(name: string, rest: string)
    requires forall i :: 0 <= i < |name| ==> IsWordChar(name[i])
    ensures WordRun(name + "}" + rest) == |name|
    decreases |name|
  {
    if name != [] {
      assert (name + "}" + rest)[1..] == name[1..] + "}" + rest;
      WordRunOfName(name[1..], rest);
    }
  }

  /** A leading placeholder is the first match, and scanning resumes after its closing brace. */
  lemma LeadingPlaceholder(name: string, rest: string)
    requires name != [] && forall i :: 0 <= i < |name| ==> IsWordChar(name[i])
    ensures Placeholders("${" + name + "}" + rest) == [name] + Placeholders(rest)
  {
    var s := "${" + name + "}" + rest;
    assert s[2..] == name + "}" + rest;
    WordRunOfName(name, rest);
    assert s[2 + |name|] == '}';
    assert s[2..2 + |name|] == name;
    assert s[3 + |name|..] == rest;
  }

  /** Text without `$` before a placeholder is skipped by the scan. */
  lemma {:induction false} PlainPrefix(prefix: string, rest: string)
    requires '$' !in prefix
    ensures Placeholders(prefix + rest) == Placeholders(rest)
    decreases |prefix|
  {
    if prefix != [] {
      var s := prefix + rest;
      assert s[0] == prefix[0] && s[0] != '$';
      assert '$' !in prefix[1..];
      if |s| >= 2 {
        assert s[1..] == prefix[1..] + rest;
        assert Placeholders(s) == Placeholders(s[1..]);
        PlainPrefix(prefix[1..], rest);
      } else {
        assert rest == [];
      }
    } else {
      assert prefix + rest == rest;
    }
  }

  /**
   * A value with one placeholder among plain text is overwritten with the bare variable
   * value, the surrounding text dropped; when the variable is unknown the entry becomes null.
   */
  lemma SurroundingTextDropped(prefix: string, name: string, suffix: string, variables: map<string, string>)
    requires '$' !in prefix && '$' !in suffix
    requires name != [] && forall i :: 0 <= i < |name| ==> IsWordChar(name[i])
    ensures name in variables ==> Resolved(prefix + "${" + name + "}" + suffix, variables) == Some(variables[name])
    ensures name !in variables ==> Resolved(prefix + "${" + name + "}" + suffix, variables).None?
  {
    assert prefix + "${" + name + "}" + suffix == prefix + ("${" + name + "}" + suffix);
    PlainPrefix(prefix, "${" + name + "}" + suffix);
    LeadingPlaceholder(name, suffix);
    NoDollarNoPlaceholder(suffix);
  }

  /** With several placeholders, the last one decides: two adjacent placeholders resolve to the second. */
  lemma LastPlaceholderDecides(first: string, second: string, variables: map<string, string>)
    requires first != [] && forall i :: 0 <= i < |first| ==> IsWordChar(first[i])
    requires second != [] && forall i :: 0 <= i < |second| ==> IsWordChar(second[i])
    ensures Resolved("${" + first + "}" + "${" + second + "}", variables) == Decide(second, variables)
  {
    var tail := "${" + second + "}";
    assert "${" + first + "}" + "${" + second + "}" == "${" + first + "}" + tail;
    LeadingPlaceholder(first, tail);
    assert Placeholders(tail) == [second] by {
      assert tail == tail + "";
      LeadingPlaceholder(second, "");
    }
    assert Placeholders("${" + first + "}" + tail) == [first, second];
  }

  /** A value without placeholders keeps its text. */
  lemma PlainValueKept(value: string, variables: map<string, string>)
    requires '$' !in value
    ensures Resolved(value, variables) == Some(value)
  {
    NoDollarNoPlaceholder(value);
  }

  /** The counters: `mapped <= count`. */
  lemma {:induction false} MappedAtMostCount(config: seq<ConfigEntry>, variables: map<string, string>)
    ensures MappedCount(config, variables) <= PlaceholderCount(config)
    decreases |config|
  {
    if config != [] {
      MappedAtMostCount(config[..|config| - 1], variables);
    }
  }

  /**
   * The whole mapping: without an env file nothing changes; a case clash among the system
   * variables (when they are included) throws before anything changes; otherwise the keys of
   * the configuration stay, null values stay null, and the counters satisfy `mapped <= count`.
   */
  lemma MapStateSpec(st: Mapper, envFile: Option<string>, systemVars: map<string, string>)
    ensures var (outcome, after) := MapState(st, envFile, systemVars);
      && (envFile.None? ==> outcome == NoEnvironmentFile && after == st)
      && (outcome.DuplicateSystemVariable? <==> envFile.Some? && st.includeSystemVariables && !NoFoldClash(systemVars))
      && (outcome.DuplicateSystemVariable? ==> after == st)
      && (outcome.Mapped? ==>
            && outcome.mapped <= outcome.count
            && after.includeSystemVariables == st.includeSystemVariables
            && |after.config| == |st.config|
            && (forall i :: 0 <= i < |st.config| ==> after.config[i].key == st.config[i].key)
            && (forall i :: 0 <= i < |st.config| && st.config[i].value.None? ==> after.config[i].value.None?))
  {
    if envFile.Some? && !(st.includeSystemVariables && !NoFoldClash(systemVars)) {
      MappedAtMostCount(st.config, Variables(st.includeSystemVariables, systemVars, envFile.value));
    }
  }

  // ---------------------------------------------------------------------------
  // The mapper

  class EnvMapper {
    var config: seq<ConfigEntry>
    var includeSystemVariables: bool
    var variables: map<string, string>

    constructor (config: seq<ConfigEntry>)
      ensures this.config == config && includeSystemVariables && variables == map[]
    {
      this.config := config;
      includeSystemVariables := true;
      variables := map[];
    }

    function Snapshot(): Mapper
      reads this
    {
      Mapper(config, includeSystemVariables, variables)
    }

    method WithSystemVariables(enabled: bool)
      modifies this
      ensures Snapshot() == old(Snapshot()).(includeSystemVariables := enabled)
    {
      includeSystemVariables := enabled;
    }

    /** The parse loop: the file's lines applied one by one to the seeded dictionary. */
    method ParseFile(seed: Dict, text: string) returns (dict: Dict)
      requires WellKeyed(seed)
      ensures dict == ApplyLines(seed, Split(text, '\n'))
    {
      var lines := Split(text, '\n');
      dict := seed;
      var i := 0;
      while i < |lines|
        invariant 0 <= i <= |lines|
        invariant WellKeyed(dict)
        invariant ApplyLines(dict, lines[i..]) == ApplyLines(seed, lines)
      {
        var line := lines[i];
        ghost var previous := dict;
        if !Ignored(line) {
          var separator := IndexOf(line, '=');
          if separator.Some? {
            var assignment := SplitAt(line, separator.value);
            dict := Assign(dict, assignment.key, assignment.value);
          }
        }
        assert dict == ApplyLine(previous, line);
        ApplyLinesAt(previous, lines, i);
        i := i + 1;
      }
    }

    /**
     * One entry of the substitution loop: a null value is skipped; otherwise the
     * `Regex.Replace` over the value visits each match in order, writes the named variable's
     * value (or null) to the entry and bumps the counters it returns.
     */
    method ReplacePlaceholders(j: nat) returns (matched: nat, found: nat)
      requires j < |config|
      modifies this
      ensures config == old(config)[j := SubstituteEntry(old(config)[j], variables)]
      ensures matched == |EntryNames(old(config)[j])| && found == CountIn(EntryNames(old(config)[j]), variables)
      ensures variables == old(variables) && includeSystemVariables == old(includeSystemVariables)
    {
      matched, found := 0, 0;
      var entry := config[j];
      if entry.value.None? {
        return;
      }
      var names := Placeholders(entry.value.value);
      var k := 0;
      while k < |names|
        invariant 0 <= k <= |names|
        invariant variables == old(variables) && includeSystemVariables == old(includeSystemVariables)
        invariant config == old(config)[j := ConfigEntry(entry.key,
          if k == 0 then entry.value else Decide(names[k - 1], variables))]
        invariant matched == k && found == CountIn(names[..k], variables)
      {
        assert names[..k + 1][..k] == names[..k];
        matched := matched + 1;
        var name := names[k];
        if name in variables {
          config := config[j := ConfigEntry(entry.key, Some(variables[name]))];
          found := found + 1;
        } else {
          config := config[j := ConfigEntry(entry.key, None)];
        }
        k := k + 1;
      }
      assert names[..k] == names;
    }

    /** The substitution loop over the configuration, each value's matches in order. */
    method SubstituteAll() returns (count: nat, mapped: nat)
      modifies this
      ensures config == Substitute(old(config), variables)
      ensures count == PlaceholderCount(old(config)) && mapped == MappedCount(old(config), variables)
      ensures variables == old(variables) && includeSystemVariables == old(includeSystemVariables)
    {
      ghost var original := config;
      count, mapped := 0, 0;
      var j := 0;
      while j < |config|
        invariant 0 <= j <= |config| == |original|
        invariant variables == old(variables) && includeSystemVariables == old(includeSystemVariables)
        invariant forall m :: 0 <= m < j ==> config[m] == SubstituteEntry(original[m], variables)
        invariant forall m :: j <= m < |config| ==> config[m] == original[m]
        invariant count == PlaceholderCount(original[..j]) && mapped == MappedCount(original[..j], variables)
      {
        ghost var before := config;
        var matched, found := ReplacePlaceholders(j);
        count, mapped := count + matched, mapped + found;
        SubstitutedThrough(before, original, j, config[j], variables);
        CountsStep(original, j, variables);
        j := j + 1;
      }
      assert original[..j] == original;
    }

    /**
     * `MapVariables`: the outcome and the new state are those of `MapState` on the state
     * before the call.
     */
    method MapVariables(envFile: Option<string>, systemVars: map<string, string>) returns (outcome: MapOutcome)
      modifies this
      ensures (outcome, Snapshot()) == MapState(old(Snapshot()), envFile, systemVars)
    {
      if envFile.None? {
        return NoEnvironmentFile;
      }
      if includeSystemVariables && !NoFoldClash(systemVars) {
        return DuplicateSystemVariable;
      }
      var seed := if includeSystemVariables then Seed(systemVars) else map[];
      var dict := ParseFile(seed, envFile.value);
      variables := Frozen(dict);
      var count, mapped := SubstituteAll();
      outcome := Mapped(count, mapped);
    }
  }
}
