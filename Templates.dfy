/**
 * The two text templates of the generator: `makeTfModule`, the root module
 * that wires a blueprint to its remote state, and `makeOutputs`, the blocks
 * that re-export the blueprint's outputs.
 */
module Templates {
  import opened Wrappers
  import opened Text
  import opened Settings
  import Extract

  /** The `environment = "<env>"` argument; left empty unless the name is a non-empty string. */
  function EnvArgument(env: Option<string>): string {
    if env.Some? && env.value != "" then "environment = \"" + env.value + "\"" else ""
  }

  /** The opening blank lines and the state backend, keyed by `key`. */
  function BackendLines(cfg: Config, key: string): seq<string> {
    [ "",
      "",
      "terraform {",
      "  required_version = \"> 0.11.0\"",
      "",
      "  backend \"s3\" {",
      "    bucket  = \"" + cfg.stateBucket + "\"",
      "    key     = \"" + key + "\"",
      "    region  = \"" + cfg.stateBucketRegion + "\"",
      "    encrypt = true",
      "  }",
      "}",
      ""
    ]
  }

  /** The provider, assuming the configured role. */
  function ProviderLines(cfg: Config): seq<string> {
    [ "provider \"aws\" {",
      "  region = \"" + cfg.stateBucketRegion + "\"",
      "",
      "  assume_role {",
      "    role_arn = \"" + cfg.role + "\"",
      "  }",
      "}",
      ""
    ]
  }

  /** The module call and the closing blank lines. */
  function ModuleLines(env: Option<string>, moduleName: string, moduleRoot: string): seq<string> {
    [ "module \"" + moduleName + "\" {",
      "  source = \"" + moduleRoot + "\"",
      "  " + EnvArgument(env),
      "}",
      "",
      ""
    ]
  }

  /** The lines of the document `makeTfModule` renders. */
  function TfModuleLines(cfg: Config, key: string, env: Option<string>, moduleName: string, moduleRoot: string)
    : seq<string>
  {
    BackendLines(cfg, key) + ProviderLines(cfg) + ModuleLines(env, moduleName, moduleRoot)
  }

  /** `makeTfModule`: the backend, provider and module blocks of one generated root module. */
  function MakeTfModule(cfg: Config, key: string, env: Option<string>, moduleName: string, moduleRoot: string)
    : string
  {
    JoinLines(TfModuleLines(cfg, key, env, moduleName, moduleRoot))
  }

  /** One re-export block, `output "<o>" { value = "${module.<m>.<o>}" }` on three lines and a line break. */
  function OutputBlockLines(output: string, moduleName: string): seq<string> {
    [ "output \"" + output + "\"" + " {",
      "  value = \"${module." + moduleName + "." + output + "}\"",
      "}",
      ""
    ]
  }

  function OutputBlock(output: string, moduleName: string): string {
    JoinLines(OutputBlockLines(output, moduleName))
  }

  /**
   * `makeOutputs`: the reduce that wraps the text so far in newlines and
   * appends one block per output.
   */
  function MakeOutputs(outputs: seq<string>, moduleName: string): string
    decreases |outputs|
  {
    if outputs == [] then ""
    else
      "\n" + MakeOutputs(outputs[..|outputs| - 1], moduleName) + "\n" +
      OutputBlock(outputs[|outputs| - 1], moduleName)
  }

  /** `n` newline characters. */
  function Newlines(n: nat): (r: string)
    ensures |r| == n && forall c :: c in r ==> c == '\n'
  {
    if n == 0 then "" else "\n" + Newlines(n - 1)
  }

  /** The blocks of `outputs`, each after a blank line. */
  function Blocks(outputs: seq<string>, moduleName: string): string
    decreases |outputs|
  {
    if outputs == [] then ""
    else Blocks(outputs[..|outputs| - 1], moduleName) + "\n" + OutputBlock(outputs[|outputs| - 1], moduleName)
  }

  /**
   * The reduce puts every block after the previous ones, in the order of
   * `outputs`, and pushes one newline per output to the front of the text.
   */
  lemma {:induction false} MakeOutputsLayout(outputs: seq<string>, moduleName: string)
    ensures MakeOutputs(outputs, moduleName) == Newlines(|outputs|) + Blocks(outputs, moduleName)
    decreases |outputs|
  {
    if outputs != [] {
      var xs := outputs[..|outputs| - 1];
      MakeOutputsLayout(xs, moduleName);
    }
  }

  /** Every output name a generated document can mention: a non-empty run of word characters. */
  predicate ValidNames(outputs: seq<string>) {
    forall i :: 0 <= i < |outputs| ==> outputs[i] != "" && AllWordChars(outputs[i])
  }

  lemma OutputsOfBlock(output: string, moduleName: string)
    requires output != "" && AllWordChars(output)
    requires NoLineBreak(moduleName)
    ensures Extract.Outputs(OutputBlock(output, moduleName)) == [output]
  {
    var ls := OutputBlockLines(output, moduleName);
    assert NoLineBreak(output);
    InertField("  value = \"${module.", moduleName + "." + output, "}\"");
    assert InertLines(ls[1..]);
    NoOutputsInLines(ls[1..]);
    var rest := JoinLines(ls[1..]);
    assert JoinLines(ls) == ls[0] + "\n" + rest;
    assert rest[0] == ' ';
    Extract.OutputsJoin(ls[0], rest);
    Extract.OutputsOfDeclaration(output, " {");
  }

  /**
   * Reading the re-export blocks back with `getOutputs` gives the outputs
   * they were made from, in order and with repeats.
   */
  lemma {:induction false} ExportsRoundTrip(outputs: seq<string>, moduleName: string)
    requires ValidNames(outputs)
    requires NoLineBreak(moduleName)
    ensures Extract.Outputs(MakeOutputs(outputs, moduleName)) == outputs
    decreases |outputs|
  {
    if outputs != [] {
      var xs, o := outputs[..|outputs| - 1], outputs[|outputs| - 1];
      ExportsRoundTrip(xs, moduleName);
      MakeOutputsStart(xs, moduleName);
      OutputsOfBlock(o, moduleName);
      OutputBlockStart(o, moduleName);
      OutputsAroundNewline(MakeOutputs(xs, moduleName), OutputBlock(o, moduleName));
      assert outputs == xs + [o];
    }
  }

  lemma OutputBlockStart(output: string, moduleName: string)
    ensures OutputBlock(output, moduleName) != "" && OutputBlock(output, moduleName)[0] == 'o'
  {
    var ls := OutputBlockLines(output, moduleName);
    assert JoinLines(ls) == ls[0] + "\n" + JoinLines(ls[1..]);
    assert ls[0][0] == 'o';
  }

  /** The text `makeOutputs` builds is empty or starts with a line break. */
  lemma MakeOutputsStart(outputs: seq<string>, moduleName: string)
    ensures MakeOutputs(outputs, moduleName) == "" || MakeOutputs(outputs, moduleName)[0] == '\n'
  {
  }

  /** One reduce step of `makeOutputs`, read back by `getOutputs`. */
  lemma OutputsAroundNewline(f: string, b: string)
    requires f == "" || f[0] == '\n'
    requires b != "" && b[0] == 'o'
    ensures Extract.Outputs("\n" + f + "\n" + b) == Extract.Outputs(f) + Extract.Outputs(b)
  {
    assert "\n" + f == "" + "\n" + f;
    Extract.OutputsJoin("", f);
    Extract.NoOutputsInLine("");
    Extract.OutputsJoin("\n" + f, b);
  }

  /** A line that neither starts a declaration nor continues one from the line before. */
  predicate Inert(line: string) {
    NoLineBreak(line) && (line == "" || (line[0] != 'o' && line[0] != '"'))
  }

  predicate InertLines(ls: seq<string>) {
    forall i :: 0 <= i < |ls| ==> Inert(ls[i])
  }

  lemma InertField(prefix: string, value: string, suffix: string)
    requires NoLineBreak(prefix) && NoLineBreak(value) && NoLineBreak(suffix)
    requires prefix != "" && prefix[0] != 'o' && prefix[0] != '"'
    ensures Inert(prefix + value + suffix)
  {
    var s := prefix + value + suffix;
    assert s[0] == prefix[0];
    forall i | 0 <= i < |s| ensures !IsLineTerminator(s[i]) {
      if i < |prefix| {
        assert s[i] == prefix[i];
      } else if i < |prefix| + |value| {
        assert s[i] == value[i - |prefix|];
      } else {
        assert s[i] == suffix[i - |prefix| - |value|];
      }
    }
  }

  lemma {:induction false} NoOutputsInLines(ls: seq<string>)
    requires |ls| >= 1 && InertLines(ls)
    ensures Extract.Outputs(JoinLines(ls)) == []
    decreases |ls|
  {
    Extract.NoOutputsInLine(ls[0]);
    if |ls| > 1 {
      var rest := JoinLines(ls[1..]);
      NoOutputsInLines(ls[1..]);
      assert rest == "" || rest[0] != '"' by {
        if |ls[1..]| > 1 {
          assert rest == ls[1] + "\n" + JoinLines(ls[2..]);
          if ls[1] == "" {
            assert rest[0] == '\n';
          } else {
            assert rest[0] == ls[1][0];
          }
        }
      }
      Extract.OutputsJoin(ls[0], rest);
    }
  }

  /** The configuration values and names fit on one line. */
  predicate OneLineArguments(cfg: Config, key: string, env: Option<string>, moduleName: string, moduleRoot: string) {
    && NoLineBreak(cfg.stateBucket) && NoLineBreak(cfg.stateBucketRegion) && NoLineBreak(cfg.role)
    && NoLineBreak(key) && NoLineBreak(moduleName) && NoLineBreak(moduleRoot)
    && (env.Some? ==> NoLineBreak(env.value))
  }

  lemma BackendHeadInert(cfg: Config, key: string)
    ensures forall i :: 0 <= i < 6 ==> Inert(BackendLines(cfg, key)[i])
  {
  }

  lemma BackendLinesInert(cfg: Config, key: string)
    requires NoLineBreak(cfg.stateBucket) && NoLineBreak(cfg.stateBucketRegion) && NoLineBreak(key)
    ensures InertLines(BackendLines(cfg, key))
  {
    BackendHeadInert(cfg, key);
    InertField("    bucket  = \"", cfg.stateBucket, "\"");
    InertField("    key     = \"", key, "\"");
    InertField("    region  = \"", cfg.stateBucketRegion, "\"");
  }

  lemma ProviderLinesInert(cfg: Config)
    requires NoLineBreak(cfg.stateBucketRegion) && NoLineBreak(cfg.role)
    ensures InertLines(ProviderLines(cfg))
  {
    InertField("  region = \"", cfg.stateBucketRegion, "\"");
    InertField("    role_arn = \"", cfg.role, "\"");
  }

  lemma ModuleLinesInert(env: Option<string>, moduleName: string, moduleRoot: string)
    requires NoLineBreak(moduleName) && NoLineBreak(moduleRoot) && (env.Some? ==> NoLineBreak(env.value))
    ensures InertLines(ModuleLines(env, moduleName, moduleRoot))
  {
    InertField("module \"", moduleName, "\" {");
    InertField("  source = \"", moduleRoot, "\"");
    if env.Some? && env.value != "" {
      InertField("  ", "environment = \"" + env.value + "\"", "");
      assert "  " + EnvArgument(env) + "" == "  " + EnvArgument(env);
    } else {
      assert "  " + EnvArgument(env) == "  ";
    }
  }

  lemma TfModuleLinesInert(cfg: Config, key: string, env: Option<string>, moduleName: string, moduleRoot: string)
    requires OneLineArguments(cfg, key, env, moduleName, moduleRoot)
    ensures InertLines(TfModuleLines(cfg, key, env, moduleName, moduleRoot))
  {
    BackendLinesInert(cfg, key);
    ProviderLinesInert(cfg);
    ModuleLinesInert(env, moduleName, moduleRoot);
  }

  /** How the `environment` argument line begins. */
  const EnvironmentPrefix := "  environment = \""

  lemma NotEnvironmentLine(line: string)
    requires |line| < 3 || line[2] != 'e'
    ensures !StartsWith(line, EnvironmentPrefix)
  {
    if |EnvironmentPrefix| <= |line| {
      assert line[..|EnvironmentPrefix|][2] == line[2];
    }
  }

  lemma BackendHasNoEnvironment(cfg: Config, key: string)
    ensures forall i :: 0 <= i < 13 ==> !StartsWith(BackendLines(cfg, key)[i], EnvironmentPrefix)
  {
    var ls := BackendLines(cfg, key);
    forall i | 0 <= i < 13 ensures !StartsWith(ls[i], EnvironmentPrefix) {
      NotEnvironmentLine(ls[i]);
    }
  }

  lemma ProviderHasNoEnvironment(cfg: Config)
    ensures forall i :: 0 <= i < 8 ==> !StartsWith(ProviderLines(cfg)[i], EnvironmentPrefix)
  {
    var ls := ProviderLines(cfg);
    forall i | 0 <= i < 8 ensures !StartsWith(ls[i], EnvironmentPrefix) {
      NotEnvironmentLine(ls[i]);
    }
  }

  /** Only the line after the module source can carry the `environment` argument, and it does exactly for a non-empty name. */
  lemma ModuleEnvironmentLine(env: Option<string>, moduleName: string, moduleRoot: string)
    ensures forall i :: 0 <= i < 6 && i != 2 ==> !StartsWith(ModuleLines(env, moduleName, moduleRoot)[i], EnvironmentPrefix)
    ensures StartsWith(ModuleLines(env, moduleName, moduleRoot)[2], EnvironmentPrefix) <==> env.Some? && env.value != ""
  {
    var ls := ModuleLines(env, moduleName, moduleRoot);
    forall i | 0 <= i < 6 && i != 2 ensures !StartsWith(ls[i], EnvironmentPrefix) {
      NotEnvironmentLine(ls[i]);
    }
    if env.Some? && env.value != "" {
      assert ls[2] == EnvironmentPrefix + env.value + "\"";
    } else {
      assert ls[2] == "  ";
    }
  }

  /**
   * Cut at its newlines, the generated root module gives back its lines: the
   * backend key line carries the state key, the module block names the module
   * and its source, and an `environment` argument appears, on the line after
   * the source, exactly when a non-empty environment name was given.
   */
  lemma TfModuleLayout(cfg: Config, key: string, env: Option<string>, moduleName: string, moduleRoot: string)
    requires OneLineArguments(cfg, key, env, moduleName, moduleRoot)
    ensures var lines := SplitLines(MakeTfModule(cfg, key, env, moduleName, moduleRoot));
      && |lines| == 27
      && lines[7] == "    key     = \"" + key + "\""
      && lines[21] == "module \"" + moduleName + "\" {"
      && lines[22] == "  source = \"" + moduleRoot + "\""
      && ((exists i :: 0 <= i < |lines| && StartsWith(lines[i], EnvironmentPrefix)) <==> env.Some? && env.value != "")
      && (env.Some? && env.value != "" ==> lines[23] == EnvironmentPrefix + env.value + "\"")
  {
    var b, p, m := BackendLines(cfg, key), ProviderLines(cfg), ModuleLines(env, moduleName, moduleRoot);
    var ls := b + p + m;
    TfModuleLinesInert(cfg, key, env, moduleName, moduleRoot);
    forall i | 0 <= i < |ls|
      ensures '\n' !in ls[i]
    {
      assert Inert(ls[i]);
    }
    SplitJoin(ls);
    BackendHasNoEnvironment(cfg, key);
    ProviderHasNoEnvironment(cfg);
    ModuleEnvironmentLine(env, moduleName, moduleRoot);
    forall i | 0 <= i < 27 && i != 23
      ensures !StartsWith(ls[i], EnvironmentPrefix)
    {
      if i < 13 {
        assert ls[i] == b[i];
      } else if i < 21 {
        assert ls[i] == p[i - 13];
      } else {
        assert ls[i] == m[i - 21];
      }
    }
    assert ls[23] == m[2];
    if env.Some? && env.value != "" {
      assert ls[23] == EnvironmentPrefix + env.value + "\"";
    }
  }

  /** The root module has 27 lines, the last one empty. */
  lemma TfModuleLinesEnd(cfg: Config, key: string, env: Option<string>, moduleName: string, moduleRoot: string)
    ensures var ls := TfModuleLines(cfg, key, env, moduleName, moduleRoot);
      |ls| == 27 && ls[26] == ""
  {
  }

  /**
   * The generated `main.tf`, root module followed by the re-export blocks,
   * declares exactly the outputs it was given: `getOutputs` on it yields
   * them back, in order.
   */
  lemma GeneratedMainReexports(cfg: Config, key: string, env: Option<string>, moduleName: string,
                               moduleRoot: string, outputs: seq<string>)
    requires OneLineArguments(cfg, key, env, moduleName, moduleRoot)
    requires ValidNames(outputs)
    ensures Extract.Outputs(MakeTfModule(cfg, key, env, moduleName, moduleRoot) + MakeOutputs(outputs, moduleName))
            == outputs
  {
    var ls := TfModuleLines(cfg, key, env, moduleName, moduleRoot);
    TfModuleLinesEnd(cfg, key, env, moduleName, moduleRoot);
    var head := ls[..26];
    assert ls == head + [""];
    JoinLinesSnoc(head, "");
    var x := MakeOutputs(outputs, moduleName);
    assert JoinLines(ls) + x == JoinLines(head) + "\n" + x;
    MakeOutputsStart(outputs, moduleName);
    TfModuleLinesInert(cfg, key, env, moduleName, moduleRoot);
    NoOutputsInLines(head);
    Extract.OutputsJoin(JoinLines(head), x);
    ExportsRoundTrip(outputs, moduleName);
  }
}
