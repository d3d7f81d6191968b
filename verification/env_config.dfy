/** `config.py`: the `.env` loader and the two settings read from the
    environment afterwards. The file's lines and the environment are
    values here: `load_env_from_file` becomes a fold of the lines into a
    map from names to values. */
module EnvConfig {
  import opened Wrappers
  import opened Strings

  /** What one line of the file does to the environment. */
  datatype LineEffect =
    | Skip                                 // blank or comment line
    | Assign(key: string, value: string)   // `os.environ[key] = value`
    | Abort                                // raises; the blanket handler ends the load

  /** The characters `strip('"\'')` removes. */
  predicate IsQuote(c: char) {
    c == '"' || c == '\''
  }

  /** Index of the first `c` in `s`, or `|s|` when there is none. */
  function FirstIndex(s: string, c: char): (i: nat)
    ensures i <= |s|
    ensures i < |s| ==> s[i] == c
    ensures forall k :: 0 <= k < i ==> s[k] != c
  {
    if |s| == 0 then 0
    else if s[0] == c then 0
    else 1 + FirstIndex(s[1..], c)
  }

  /** The index of a `c` with no `c` before it is the first index of `c`. */
  lemma FirstIndexIsFirst(s: string, c: char, i: int)
    requires 0 <= i < |s| && s[i] == c && c !in s[..i]
    ensures FirstIndex(s, c) == i
  {
  }

  /** Whether `os.environ[key] = value` goes through: the variable name must
      be non-empty, and neither part may hold a null character. */
  predicate AcceptedByEnviron(key: string, value: string) {
    key != [] && '\0' !in key && '\0' !in value
  }

  /** One turn of the loop: strip the line; skip it when blank or a comment;
      otherwise split it at the first `=`, strip the key, strip the value
      and then any quotes around it. */
  function ParseEnvLine(raw: string): LineEffect {
    var line := Strip(raw);
    if line == [] || line[0] == '#' then Skip
    else
      var i := FirstIndex(line, '=');
      if i == |line| then Abort   // `key, value = [line]` cannot unpack
      else SplitAt(line, i)
  }

  /** The effect of a line split at the `=` at index `i`: the stripped key
      and the value stripped of whitespace and then of quotes are assigned
      when the environment accepts them; otherwise the line raises. */
  function SplitAt(line: string, i: nat): (e: LineEffect)
    requires i < |line|
    ensures e.Assign? ==> AcceptedByEnviron(e.key, e.value)
  {
    var key := Strip(line[..i]);
    var value := Trim(Strip(line[i + 1..]), IsQuote);
    if AcceptedByEnviron(key, value) then Assign(key, value) else Abort
  }

  /** Blank lines and comment lines leave the environment alone. */
  lemma SkippedLines(raw: string)
    ensures ParseEnvLine(raw).Skip? <==> Strip(raw) == [] || Strip(raw)[0] == '#'
  {
  }

  /** An assignment splits the stripped line at its FIRST `=` (later ones
      stay in the value); the key is stripped, the value is stripped of
      whitespace and then of surrounding quotes. */
  lemma AssignedLines(raw: string)
    requires ParseEnvLine(raw).Assign?
    ensures var line := Strip(raw);
      var e := ParseEnvLine(raw);
      exists i ::
        && 0 <= i < |line| && line[i] == '='
        && '=' !in line[..i]
        && e.key == Strip(line[..i])
        && e.value == Trim(Strip(line[i + 1..]), IsQuote)
        && AcceptedByEnviron(e.key, e.value)
  {
    var line := Strip(raw);
    var i := FirstIndex(line, '=');
    assert '=' !in line[..i];
  }

  /** A line that is neither blank nor a comment and has no `=` raises. */
  lemma LineWithoutEqualsAborts(raw: string)
    requires Strip(raw) != [] && Strip(raw)[0] != '#' && '=' !in Strip(raw)
    ensures ParseEnvLine(raw).Abort?
  {
    var i := FirstIndex(Strip(raw), '=');
  }

  /** Conversely, a line that is neither blank nor a comment and has an `=`
      is split at its first `=`: it becomes that assignment when the
      environment accepts the key and value, and raises otherwise. */
  lemma LinesWithEquals(raw: string, i: int)
    requires Strip(raw) != [] && Strip(raw)[0] != '#'
    requires 0 <= i < |Strip(raw)| && Strip(raw)[i] == '=' && '=' !in Strip(raw)[..i]
    ensures var line := Strip(raw);
      var key := Strip(line[..i]);
      var value := Trim(Strip(line[i + 1..]), IsQuote);
      && (AcceptedByEnviron(key, value) ==> ParseEnvLine(raw) == Assign(key, value))
      && (!AcceptedByEnviron(key, value) ==> ParseEnvLine(raw) == Abort)
  {
    var line := Strip(raw);
    FirstIndexIsFirst(line, '=', i);
    assert ParseEnvLine(raw) == SplitAt(line, i);
  }

  /** `f` applied to each element, in order. */
  function MapSeq<A, B>(f: A -> B, s: seq<A>): (r: seq<B>)
    ensures |r| == |s|
    ensures forall i :: 0 <= i < |s| ==> r[i] == f(s[i])
  {
    seq(|s|, i requires 0 <= i < |s| => f(s[i]))
  }

  /** Mapping distributes over concatenation. */
  lemma MapSeqAppend<A, B>(f: A -> B, a: seq<A>, b: seq<A>)
    ensures MapSeq(f, a + b) == MapSeq(f, a) + MapSeq(f, b)
  {
  }

  /** The effect of each line, in file order. */
  function Effects(lines: seq<string>): (es: seq<LineEffect>) {
    MapSeq(ParseEnvLine, lines)
  }

  /** Applies the effects in order until one raises. */
  function Apply(effects: seq<LineEffect>, env: map<string, string>): (r: map<string, string>)
    ensures env.Keys <= r.Keys
  {
    if |effects| == 0 then env
    else
      match effects[0]
      case Skip => Apply(effects[1..], env)
      case Assign(k, v) => Apply(effects[1..], env[k := v])
      case Abort => env
  }

  /** Number of effects the load gets through: the index of the first one
      that raises, or all of them. */
  function Applied(effects: seq<LineEffect>): (n: nat)
    ensures n <= |effects|
    ensures forall i :: 0 <= i < n ==> !effects[i].Abort?
    ensures n < |effects| ==> effects[n].Abort?
  {
    if |effects| == 0 then 0
    else if effects[0].Abort? then 0
    else
      assert forall i :: 1 <= i < |effects| ==> effects[i] == effects[1..][i - 1];
      1 + Applied(effects[1..])
  }

  /** The value the LAST assignment of `key` among `effects` gives, if any. */
  function LastAssigned(effects: seq<LineEffect>, key: string): Option<string> {
    if |effects| == 0 then None
    else
      var later := LastAssigned(effects[1..], key);
      if later.Some? then later
      else if effects[0].Assign? && effects[0].key == key then Some(effects[0].value)
      else None
  }

  /** Reference reading of the fold: afterwards a name holds the value of
      the last assignment to it before the first raise; a name no such
      assignment names keeps its old value, or stays absent. */
  lemma {:induction false} ApplyLookup(effects: seq<LineEffect>, env: map<string, string>, key: string)
    ensures var r := Apply(effects, env);
      var last := LastAssigned(effects[..Applied(effects)], key);
      && (key in r <==> last.Some? || key in env)
      && (last.Some? ==> r[key] == last.value)
      && (last.None? && key in env ==> r[key] == env[key])
  {
    if |effects| > 0 {
      var n := Applied(effects);
      match effects[0]
      case Skip =>
        ApplyLookup(effects[1..], env, key);
        assert effects[..n][1..] == effects[1..][..n - 1];
      case Assign(k, v) =>
        ApplyLookup(effects[1..], env[k := v], key);
        assert effects[..n][1..] == effects[1..][..n - 1];
      case Abort =>
        assert effects[..n] == [];
    } else {
      assert effects[..0] == [];
    }
  }

  /** The effects of the lines the load gets through: those before the
      first line that raises. */
  function AppliedEffects(lines: seq<string>): seq<LineEffect> {
    var effects := Effects(lines);
    effects[..Applied(effects)]
  }

  /** `load_env_from_file()` over the file's lines, starting from the
      environment `env`: assignments in file order, until a line raises.
      (Parsing a line has no side effect, so parsing every line first and
      then applying the effects up to the first raise is the same loop.)
      Read line by line: afterwards a name holds the value of the last line
      assigning it before the first line that raises, and otherwise keeps
      its value from the environment. So a later line for the same name
      overrides an earlier one, and lines after a raising one are never
      applied. */
  function LoadEnv(lines: seq<string>, env: map<string, string>): (r: map<string, string>)
    ensures forall key ::
      key in r <==> LastAssigned(AppliedEffects(lines), key).Some? || key in env
    ensures forall key :: LastAssigned(AppliedEffects(lines), key).Some? ==>
      key in r && r[key] == LastAssigned(AppliedEffects(lines), key).value
    ensures forall key :: LastAssigned(AppliedEffects(lines), key).None? && key in env ==>
      key in r && r[key] == env[key]
  {
    var effects := Effects(lines);
    forall key
      ensures var last := LastAssigned(AppliedEffects(lines), key);
        && (key in Apply(effects, env) <==> last.Some? || key in env)
        && (last.Some? ==> Apply(effects, env)[key] == last.value)
        && (last.None? && key in env ==> Apply(effects, env)[key] == env[key])
    {
      ApplyLookup(effects, env, key);
    }
    Apply(effects, env)
  }

  /** Once a line raises, whatever follows it is ignored. */
  lemma {:induction false} ApplyStopsAtAbort(a: seq<LineEffect>, b: seq<LineEffect>, env: map<string, string>)
    ensures Apply(a + [Abort] + b, env) == Apply(a, env)
  {
    if |a| > 0 {
      assert (a + [Abort] + b)[1..] == a[1..] + [Abort] + b;
      match a[0]
      case Skip => ApplyStopsAtAbort(a[1..], b, env);
      case Assign(k, v) => ApplyStopsAtAbort(a[1..], b, env[k := v]);
      case Abort =>
    } else {
      assert a + [Abort] + b == [Abort] + b;
    }
  }

  /** Lines after one that raises have no effect: the load stops there. */
  lemma AbortIgnoresRest(a: seq<string>, bad: string, b: seq<string>, env: map<string, string>)
    requires ParseEnvLine(bad).Abort?
    ensures LoadEnv(a + [bad] + b, env) == LoadEnv(a, env)
  {
    MapSeqAppend(ParseEnvLine, a + [bad], b);
    MapSeqAppend(ParseEnvLine, a, [bad]);
    assert MapSeq(ParseEnvLine, [bad]) == [Abort];
    ApplyStopsAtAbort(Effects(a), Effects(b), env);
  }

  /** The database URL used when `DATABASE_URL` is not set. */
  const DefaultDatabaseUrl := "sqlite:///app.db"

  /** The session key used when `SECRET_KEY` is not set. */
  const DefaultSecretKey := "uma_chave_secreta_para_desenvolvimento_local"

  /** `os.environ.get(name, default)`. */
  function EnvGet(env: map<string, string>, name: string, default: string): (r: string)
    ensures name in env ==> r == env[name]
    ensures name !in env ==> r == default
  {
    if name in env then env[name] else default
  }

  datatype Settings = Settings(databaseUri: string, secretKey: string)

  /** Reference reading of a setting, in terms of the file's lines: the
      value of the last line assigning `name` before the first line that
      raises; failing that, the value already in the environment; failing
      that, the default. */
  ghost function SettingFromLines(lines: seq<string>, env: map<string, string>, name: string, default: string): string {
    var last := LastAssigned(AppliedEffects(lines), name);
    if last.Some? then last.value
    else if name in env then env[name]
    else default
  }

  /** Reading a name after loading gives its reference value. */
  lemma ReadAfterLoad(lines: seq<string>, env: map<string, string>, name: string, default: string)
    ensures EnvGet(LoadEnv(lines, env), name, default) == SettingFromLines(lines, env, name, default)
  {
    var last := LastAssigned(AppliedEffects(lines), name);
    assert name in LoadEnv(lines, env) <==> last.Some? || name in env;
  }

  /** The module's settings, computed after loading the file's lines into
      the process environment `env`: each is the file's last assignment
      before any failing line, else the environment's value, else the
      default. */
  function LoadSettings(lines: seq<string>, env: map<string, string>): (s: Settings)
    ensures s.databaseUri == SettingFromLines(lines, env, "DATABASE_URL", DefaultDatabaseUrl)
    ensures s.secretKey == SettingFromLines(lines, env, "SECRET_KEY", DefaultSecretKey)
  {
    ReadAfterLoad(lines, env, "DATABASE_URL", DefaultDatabaseUrl);
    ReadAfterLoad(lines, env, "SECRET_KEY", DefaultSecretKey);
    var loaded := LoadEnv(lines, env);
    Settings(EnvGet(loaded, "DATABASE_URL", DefaultDatabaseUrl),
             EnvGet(loaded, "SECRET_KEY", DefaultSecretKey))
  }

  /** With no file lines and nothing set, both settings take their defaults
      (the simplest instance of `LoadSettings`'s contract). */
  lemma DefaultsWithoutEnvironment()
    ensures LoadSettings([], map[]) == Settings(DefaultDatabaseUrl, DefaultSecretKey)
  {
  }
}
