/**
 * `projectBlueprints`: for every blueprint `Blueprints/<rel>/main.tf` and
 * every environment in ["stage", "prod"], and then for every override
 * `Environments/<rel>/<env>/main.tf`, write a root module `main.tf` and a
 * dependency manifest `dependencies.json` into `Live/<rel>/<env>`.
 *
 * The file system is a `FileTree` object holding a map from paths to file
 * text. What `glob.sync` returns is passed in: the blueprint and override
 * `main.tf` files in discovery order, and for each directory the `*.tf` files
 * it holds; `Discovered` says which files those are. The passes are methods
 * that change the tree; each is proved to leave it as a list of writes,
 * computed by functions from the tree as it was, would leave it.
 */
module Materialize {
  import opened Wrappers
  import opened Paths
  import opened Text
  import opened Settings
  import opened Templates
  import Extract
  import Manifest

  // ---------------------------------------------------------------------------
  // The tree layout
  // ---------------------------------------------------------------------------

  function BlueprintRoot(tr: Path): Path { tr + ["Blueprints"] }
  function LiveRoot(tr: Path): Path { tr + ["Live"] }
  function EnvironmentsRoot(tr: Path): Path { tr + ["Environments"] }

  /** The environments every blueprint is wired into, in this order. */
  const Envs: seq<string> := ["stage", "prod"]

  const MainFile := "main.tf"
  const ManifestFile := "dependencies.json"

  /** A file or directory whose name starts with '.', which `glob` skips. */
  predicate Hidden(seg: string) {
    seg != "" && seg[0] == '.'
  }

  /** `glob(join(root, '**' + '/main.tf'))` lists `p`: a `main.tf` at or below `root`, reached through no hidden directory. */
  predicate MatchesMainGlob(root: Path, p: Path) {
    && ValidPath(p) && IsPrefix(root, p) && |p| > |root| && p[|p| - 1] == MainFile
    && forall k :: |root| <= k < |p| ==> !Hidden(p[k])
  }

  /** A file name `*.tf` matches. */
  predicate IsTfName(s: string) {
    |s| >= 3 && s[|s| - 3..] == ".tf" && !Hidden(s)
  }

  /** `glob(join(dir, '*.tf'))` lists `p`: a `.tf` file directly in `dir`. */
  predicate MatchesTfGlob(dir: Path, p: Path) {
    ValidPath(p) && p != [] && Dirname(p) == dir && IsTfName(p[|p| - 1])
  }

  /** `mains` is what the `main.tf` glob below `root` returns on the files `m`: each match once. */
  predicate MainGlob(m: map<Path, string>, root: Path, mains: seq<Path>) {
    && (forall i :: 0 <= i < |mains| ==> mains[i] in m && MatchesMainGlob(root, mains[i]))
    && (forall p :: p in m && MatchesMainGlob(root, p) ==> p in mains)
    && (forall i, j :: 0 <= i < j < |mains| ==> mains[i] != mains[j])
  }

  /** `ps` is what the `*.tf` glob in `dir` returns on the files `m`: each match once. */
  predicate TfGlob(m: map<Path, string>, dir: Path, ps: seq<Path>) {
    && (forall i :: 0 <= i < |ps| ==> ps[i] in m && MatchesTfGlob(dir, ps[i]))
    && (forall p :: p in m && MatchesTfGlob(dir, p) ==> p in ps)
    && (forall i, j :: 0 <= i < j < |ps| ==> ps[i] != ps[j])
  }

  /** The `*.tf` listing of the directory holding `file` is known. */
  predicate Listed(m: map<Path, string>, listing: map<Path, seq<Path>>, file: Path) {
    Dirname(file) in listing && TfGlob(m, Dirname(file), listing[Dirname(file)])
  }

  /** The results of every glob a run performs on the files `m` under the root `tr`. */
  predicate Discovered(m: map<Path, string>, tr: Path, mains: seq<Path>, overrides: seq<Path>,
                       listing: map<Path, seq<Path>>)
  {
    && ValidPath(tr)
    && MainGlob(m, BlueprintRoot(tr), mains) && MainGlob(m, EnvironmentsRoot(tr), overrides)
    && (forall i :: 0 <= i < |mains| ==> Listed(m, listing, mains[i]))
    && (forall i :: 0 <= i < |overrides| ==> Listed(m, listing, overrides[i]))
  }

  // ---------------------------------------------------------------------------
  // getLocations
  // ---------------------------------------------------------------------------

  datatype Locations = Locations(keyBase: Path, moduleName: string, liveFolder: Path, moduleRoot: Path)

  /**
   * `getLocations(file, root)`: the module directory, its name, its folder
   * below `Live` (the module directory with `root` taken out) and the key
   * base (that folder with the terraform root taken out).
   */
  function GetLocations(tr: Path, file: Path, root: Path): (loc: Locations)
    ensures loc.moduleRoot == Dirname(file) && loc.moduleName == Name(Dirname(file))
    ensures IsPrefix(root, Dirname(file)) ==> loc.liveFolder == LiveRoot(tr) + Dirname(file)[|root|..]
    ensures IsPrefix(LiveRoot(tr), loc.liveFolder)
    ensures loc.keyBase == loc.liveFolder[|tr|..]
  {
    var moduleRoot := Dirname(file);
    var liveFolder := LiveRoot(tr) + ReplaceFirst(moduleRoot, root);
    assert IsPrefix(tr, liveFolder) by {
      assert liveFolder[..|tr|] == tr;
    }
    Locations(ReplaceFirst(liveFolder, tr), Name(moduleRoot), liveFolder, moduleRoot)
  }

  // ---------------------------------------------------------------------------
  // Writes
  // ---------------------------------------------------------------------------

  /** `fs.writeFileSync(path, text)`. */
  datatype Write = Write(path: Path, text: string)

  /** The files after the writes, in order: a later write to a path replaces an earlier one. */
  function ApplyWrites(m: map<Path, string>, ws: seq<Write>): map<Path, string>
    decreases |ws|
  {
    if ws == [] then m else ApplyWrites(m, ws[..|ws| - 1])[ws[|ws| - 1].path := ws[|ws| - 1].text]
  }

  /** Some write in `ws` is to `p`. */
  predicate WritesTo(ws: seq<Write>, p: Path) {
    exists i :: 0 <= i < |ws| && ws[i].path == p
  }

  /** The files the writes alone produce. */
  function Written(ws: seq<Write>): map<Path, string> {
    ApplyWrites(map[], ws)
  }

  lemma {:induction false} ApplyWritesUnion(m: map<Path, string>, ws: seq<Write>)
    ensures ApplyWrites(m, ws) == m + Written(ws)
    decreases |ws|
  {
    if ws != [] {
      ApplyWritesUnion(m, ws[..|ws| - 1]);
      ApplyWritesUnion(map[], ws[..|ws| - 1]);
    }
  }

  lemma {:induction false} WrittenKeys(ws: seq<Write>, p: Path)
    ensures p in Written(ws) <==> WritesTo(ws, p)
    decreases |ws|
  {
    if ws != [] {
      var init := ws[..|ws| - 1];
      WrittenKeys(init, p);
      if WritesTo(init, p) {
        var i :| 0 <= i < |init| && init[i].path == p;
        assert ws[i].path == p;
      }
      if WritesTo(ws, p) && ws[|ws| - 1].path != p {
        var i :| 0 <= i < |ws| && ws[i].path == p;
        assert init[i].path == p;
      }
    }
  }

  /** A path no write touches keeps its content, or stays absent. */
  lemma ApplyWritesUntouched(m: map<Path, string>, ws: seq<Write>, p: Path)
    requires !WritesTo(ws, p)
    ensures p in ApplyWrites(m, ws) <==> p in m
    ensures p in m ==> ApplyWrites(m, ws)[p] == m[p]
  {
    ApplyWritesUnion(m, ws);
    WrittenKeys(ws, p);
  }

  /** The last write to a path decides its content. */
  lemma {:induction false} LastWriteWins(m: map<Path, string>, ws: seq<Write>, k: nat)
    requires k < |ws|
    requires forall j :: k < j < |ws| ==> ws[j].path != ws[k].path
    ensures ws[k].path in ApplyWrites(m, ws) && ApplyWrites(m, ws)[ws[k].path] == ws[k].text
    decreases |ws|
  {
    if k < |ws| - 1 {
      LastWriteWins(m, ws[..|ws| - 1], k);
    }
  }

  lemma {:induction false} ApplyWritesAppend(m: map<Path, string>, a: seq<Write>, b: seq<Write>)
    ensures ApplyWrites(m, a + b) == ApplyWrites(ApplyWrites(m, a), b)
    decreases |b|
  {
    if b == [] {
      assert a + b == a;
    } else {
      assert (a + b)[..|a + b| - 1] == a + b[..|b| - 1];
      ApplyWritesAppend(m, a, b[..|b| - 1]);
    }
  }

  /** Writing the same list twice leaves what writing it once does. */
  lemma ApplyWritesIdempotent(m: map<Path, string>, ws: seq<Write>)
    ensures ApplyWrites(ApplyWrites(m, ws), ws) == ApplyWrites(m, ws)
  {
    ApplyWritesUnion(m, ws);
    ApplyWritesUnion(m + Written(ws), ws);
    assert (m + Written(ws)) + Written(ws) == m + Written(ws);
  }

  // ---------------------------------------------------------------------------
  // What one module directory produces
  // ---------------------------------------------------------------------------

  /** Every listed file can be read from `m`. */
  predicate Readable(m: map<Path, string>, ps: seq<Path>) {
    forall i :: 0 <= i < |ps| ==> ps[i] in m
  }

  /** The `reduce` that prefixes each file's text with a newline and appends it. */
  function Sources(m: map<Path, string>, ps: seq<Path>): string
    requires Readable(m, ps)
    decreases |ps|
  {
    if ps == [] then "" else Sources(m, ps[..|ps| - 1]) + "\n" + m[ps[|ps| - 1]]
  }

  /** The sources depend on the listed files only. */
  lemma {:induction false} SourcesAgree(m: map<Path, string>, m': map<Path, string>, ps: seq<Path>)
    requires Readable(m, ps)
    requires forall i :: 0 <= i < |ps| ==> ps[i] in m' && m'[ps[i]] == m[ps[i]]
    ensures Readable(m', ps) && Sources(m', ps) == Sources(m, ps)
    decreases |ps|
  {
    if ps != [] {
      SourcesAgree(m, m', ps[..|ps| - 1]);
    }
  }

  /**
   * The two files written into `Live/<rel>/<env>`: the root module, whose
   * source and `environment` argument are given, followed by the re-export
   * of every output the sources declare; and the manifest of the remote
   * states the sources read.
   */
  function EnvWrites(cfg: Config, loc: Locations, env: string, envArg: Option<string>, source: string,
                     src: string): (ws: seq<Write>)
    ensures |ws| == 2
    ensures ws[0].path == loc.liveFolder + [env, MainFile] && ws[1].path == loc.liveFolder + [env, ManifestFile]
  {
    var target := loc.liveFolder + [env];
    var key := StateKey(loc.keyBase, env);
    assert target + [MainFile] == loc.liveFolder + [env, MainFile];
    assert target + [ManifestFile] == loc.liveFolder + [env, ManifestFile];
    [ Write(target + [MainFile],
            MakeTfModule(cfg, key, envArg, loc.moduleName, source) + MakeOutputs(Extract.Outputs(src), loc.moduleName)),
      Write(target + [ManifestFile], Manifest.ManifestText(Extract.Dependencies(env, src))) ]
  }

  /** The `envs.forEach` of a blueprint, over the first `n` environments. */
  function EnvsWrites(cfg: Config, loc: Locations, src: string, n: nat): (ws: seq<Write>)
    requires n <= |Envs|
    ensures |ws| == 2 * n
    decreases n
  {
    if n == 0 then []
    else EnvsWrites(cfg, loc, src, n - 1) + EnvWrites(cfg, loc, Envs[n - 1], Some(Envs[n - 1]), Render(loc.moduleRoot), src)
  }

  /** The locations of a blueprint `main.tf`. */
  function BlueprintLocations(tr: Path, file: Path): Locations {
    GetLocations(tr, file, BlueprintRoot(tr))
  }

  /** The four files a blueprint `main.tf` produces, read from the files `m`. */
  function BlueprintFileWrites(cfg: Config, m: map<Path, string>, listing: map<Path, seq<Path>>, file: Path)
    : seq<Write>
    requires Dirname(file) in listing && Readable(m, listing[Dirname(file)])
  {
    EnvsWrites(cfg, BlueprintLocations(cfg.terraformRoot, file), Sources(m, listing[Dirname(file)]), |Envs|)
  }

  /** The environment of an override: the name of the directory holding it. */
  function OverrideEnv(file: Path): string {
    Name(Dirname(file))
  }

  /** The locations of an override, those of the `main.tf` one directory up. */
  function OverrideLocations(tr: Path, file: Path): Locations {
    GetLocations(tr, Dirname(Dirname(file)) + [MainFile], EnvironmentsRoot(tr))
  }

  /** The two files an override `main.tf` produces, with no `environment` argument. */
  function OverrideFileWrites(cfg: Config, m: map<Path, string>, listing: map<Path, seq<Path>>, file: Path)
    : seq<Write>
    requires Dirname(file) in listing && Readable(m, listing[Dirname(file)])
  {
    var env := OverrideEnv(file);
    var loc := OverrideLocations(cfg.terraformRoot, file);
    EnvWrites(cfg, loc, env, None, Render(loc.moduleRoot + [env]), Sources(m, listing[Dirname(file)]))
  }

  // ---------------------------------------------------------------------------
  // The two passes
  // ---------------------------------------------------------------------------

  /** The listing of the directory of each file is known and readable. */
  predicate AllReadable(m: map<Path, string>, listing: map<Path, seq<Path>>, files: seq<Path>) {
    forall i :: 0 <= i < |files| ==> Dirname(files[i]) in listing && Readable(m, listing[Dirname(files[i])])
  }

  function BlueprintPassWrites(cfg: Config, m: map<Path, string>, listing: map<Path, seq<Path>>, mains: seq<Path>)
    : seq<Write>
    requires AllReadable(m, listing, mains)
    decreases |mains|
  {
    if mains == [] then []
    else
      BlueprintPassWrites(cfg, m, listing, mains[..|mains| - 1]) +
      BlueprintFileWrites(cfg, m, listing, mains[|mains| - 1])
  }

  function OverridePassWrites(cfg: Config, m: map<Path, string>, listing: map<Path, seq<Path>>,
                              overrides: seq<Path>): seq<Write>
    requires AllReadable(m, listing, overrides)
    decreases |overrides|
  {
    if overrides == [] then []
    else
      OverridePassWrites(cfg, m, listing, overrides[..|overrides| - 1]) +
      OverrideFileWrites(cfg, m, listing, overrides[|overrides| - 1])
  }

  /** All writes of a run, blueprints first, every file read from `m`. */
  function RunWrites(cfg: Config, m: map<Path, string>, listing: map<Path, seq<Path>>,
                     mains: seq<Path>, overrides: seq<Path>): seq<Write>
    requires AllReadable(m, listing, mains) && AllReadable(m, listing, overrides)
  {
    BlueprintPassWrites(cfg, m, listing, mains) + OverridePassWrites(cfg, m, listing, overrides)
  }

  /** The files after a run on `m`. */
  function Materialized(cfg: Config, m: map<Path, string>, listing: map<Path, seq<Path>>,
                        mains: seq<Path>, overrides: seq<Path>): map<Path, string>
    requires AllReadable(m, listing, mains) && AllReadable(m, listing, overrides)
  {
    ApplyWrites(m, RunWrites(cfg, m, listing, mains, overrides))
  }

  // ---------------------------------------------------------------------------
  // Where the writes go
  // ---------------------------------------------------------------------------

  /** Every write goes below `Live`. */
  predicate InLive(tr: Path, ws: seq<Write>) {
    forall i :: 0 <= i < |ws| ==> IsPrefix(LiveRoot(tr), ws[i].path)
  }

  /** No listed file lies below `Live`. */
  predicate OutsideLive(tr: Path, ps: seq<Path>) {
    forall i :: 0 <= i < |ps| ==> !IsPrefix(LiveRoot(tr), ps[i])
  }

  /** The listing of the directory of each file is known and lies outside `Live`. */
  predicate AllOutsideLive(tr: Path, listing: map<Path, seq<Path>>, files: seq<Path>) {
    forall i :: 0 <= i < |files| ==> Dirname(files[i]) in listing && OutsideLive(tr, listing[Dirname(files[i])])
  }

  lemma InLiveAppend(tr: Path, a: seq<Write>, b: seq<Write>)
    requires InLive(tr, a) && InLive(tr, b)
    ensures InLive(tr, a + b)
  {
    assert forall i :: |a| <= i < |a + b| ==> (a + b)[i] == b[i - |a|];
  }

  lemma EnvWritesInLive(cfg: Config, loc: Locations, env: string, envArg: Option<string>, source: string, src: string)
    requires IsPrefix(LiveRoot(cfg.terraformRoot), loc.liveFolder)
    ensures InLive(cfg.terraformRoot, EnvWrites(cfg, loc, env, envArg, source, src))
  {
    var live, ws := LiveRoot(cfg.terraformRoot), EnvWrites(cfg, loc, env, envArg, source, src);
    assert ws[0].path[..|live|] == loc.liveFolder[..|live|];
    assert ws[1].path[..|live|] == loc.liveFolder[..|live|];
  }

  lemma {:induction false} EnvsWritesInLive(cfg: Config, loc: Locations, src: string, n: nat)
    requires n <= |Envs| && IsPrefix(LiveRoot(cfg.terraformRoot), loc.liveFolder)
    ensures InLive(cfg.terraformRoot, EnvsWrites(cfg, loc, src, n))
    decreases n
  {
    if n > 0 {
      EnvsWritesInLive(cfg, loc, src, n - 1);
      EnvWritesInLive(cfg, loc, Envs[n - 1], Some(Envs[n - 1]), Render(loc.moduleRoot), src);
      InLiveAppend(cfg.terraformRoot, EnvsWrites(cfg, loc, src, n - 1),
                   EnvWrites(cfg, loc, Envs[n - 1], Some(Envs[n - 1]), Render(loc.moduleRoot), src));
    }
  }

  lemma {:induction false} BlueprintPassInLive(cfg: Config, m: map<Path, string>, listing: map<Path, seq<Path>>,
                                               mains: seq<Path>)
    requires AllReadable(m, listing, mains)
    ensures InLive(cfg.terraformRoot, BlueprintPassWrites(cfg, m, listing, mains))
    decreases |mains|
  {
    if mains != [] {
      var file := mains[|mains| - 1];
      BlueprintPassInLive(cfg, m, listing, mains[..|mains| - 1]);
      EnvsWritesInLive(cfg, BlueprintLocations(cfg.terraformRoot, file), Sources(m, listing[Dirname(file)]), |Envs|);
      InLiveAppend(cfg.terraformRoot, BlueprintPassWrites(cfg, m, listing, mains[..|mains| - 1]),
                   BlueprintFileWrites(cfg, m, listing, file));
    }
  }

  lemma {:induction false} OverridePassInLive(cfg: Config, m: map<Path, string>, listing: map<Path, seq<Path>>,
                                              overrides: seq<Path>)
    requires AllReadable(m, listing, overrides)
    ensures InLive(cfg.terraformRoot, OverridePassWrites(cfg, m, listing, overrides))
    decreases |overrides|
  {
    if overrides != [] {
      var file := overrides[|overrides| - 1];
      var loc := OverrideLocations(cfg.terraformRoot, file);
      OverridePassInLive(cfg, m, listing, overrides[..|overrides| - 1]);
      EnvWritesInLive(cfg, loc, OverrideEnv(file), None, Render(loc.moduleRoot + [OverrideEnv(file)]),
                      Sources(m, listing[Dirname(file)]));
      InLiveAppend(cfg.terraformRoot, OverridePassWrites(cfg, m, listing, overrides[..|overrides| - 1]),
                   OverrideFileWrites(cfg, m, listing, file));
    }
  }

  /** Writes below `Live` leave the sources of a listing outside it as they were. */
  lemma SourcesUnchanged(tr: Path, m: map<Path, string>, ws: seq<Write>, ps: seq<Path>)
    requires Readable(m, ps) && OutsideLive(tr, ps) && InLive(tr, ws)
    ensures Readable(ApplyWrites(m, ws), ps) && Sources(ApplyWrites(m, ws), ps) == Sources(m, ps)
  {
    var m' := ApplyWrites(m, ws);
    forall i | 0 <= i < |ps|
      ensures ps[i] in m' && m'[ps[i]] == m[ps[i]]
    {
      assert forall j :: 0 <= j < |ws| ==> ws[j].path != ps[i];
      ApplyWritesUntouched(m, ws, ps[i]);
    }
    SourcesAgree(m, m', ps);
  }

  // ---------------------------------------------------------------------------
  // The file system and the passes
  // ---------------------------------------------------------------------------

  /** The files on disk. Directories are implicit in the paths. */
  class FileTree {
    var files: map<Path, string>

    constructor (init: map<Path, string>)
      ensures files == init
    {
      files := init;
    }

    /** `fs.readFileSync` of an existing file. */
    method ReadFile(p: Path) returns (text: string)
      requires p in files
      ensures text == files[p]
    {
      text := files[p];
    }

    /** `fs.writeFileSync`: creates the file or replaces its content. */
    method WriteFile(p: Path, text: string)
      modifies this
      ensures files == old(files)[p := text]
    {
      files := files[p := text];
    }
  }

  /** Reads the listed files and joins them as the `reduce` over `tfFiles` does. */
  method ReadSources(tree: FileTree, ps: seq<Path>) returns (content: string)
    requires Readable(tree.files, ps)
    ensures content == Sources(tree.files, ps)
  {
    content := "";
    for i := 0 to |ps|
      invariant content == Sources(tree.files, ps[..i])
    {
      var text := tree.ReadFile(ps[i]);
      assert ps[..i + 1][..i] == ps[..i];
      content := content + "\n" + text;
    }
    assert ps[..|ps|] == ps;
  }

  /** Writes the root module and the manifest of one environment. */
  method WriteEnv(tree: FileTree, cfg: Config, loc: Locations, env: string, envArg: Option<string>, source: string,
                  src: string, outputs: seq<string>)
    modifies tree
    requires outputs == Extract.Outputs(src)
    ensures tree.files == ApplyWrites(old(tree.files), EnvWrites(cfg, loc, env, envArg, source, src))
  {
    ghost var m0 := tree.files;
    ghost var ws := EnvWrites(cfg, loc, env, envArg, source, src);
    var targetFolder := loc.liveFolder + [env];
    var key := StateKey(loc.keyBase, env);
    var content := MakeTfModule(cfg, key, envArg, loc.moduleName, source);
    content := content + MakeOutputs(outputs, loc.moduleName);
    var deps := Extract.GetDependencies(env, src);
    assert ws[0] == Write(targetFolder + [MainFile], content);
    assert ws[1] == Write(targetFolder + [ManifestFile], Manifest.ManifestText(deps));
    tree.WriteFile(targetFolder + [MainFile], content);
    tree.WriteFile(targetFolder + [ManifestFile], Manifest.ManifestText(deps));
    assert ApplyWrites(m0, ws[..1]) == m0[ws[0].path := ws[0].text] by {
      assert ws[..1][..0] == [];
    }
    assert ws[..|ws| - 1] == ws[..1];
  }

  /** The `envs.forEach` of a blueprint: one root module and manifest per environment. */
  method WriteEnvs(tree: FileTree, cfg: Config, loc: Locations, src: string, outputs: seq<string>)
    modifies tree
    requires outputs == Extract.Outputs(src)
    ensures tree.files == ApplyWrites(old(tree.files), EnvsWrites(cfg, loc, src, |Envs|))
  {
    ghost var m0 := tree.files;
    for k := 0 to |Envs|
      invariant tree.files == ApplyWrites(m0, EnvsWrites(cfg, loc, src, k))
    {
      var env := Envs[k];
      ghost var done := EnvsWrites(cfg, loc, src, k);
      ghost var step := EnvWrites(cfg, loc, env, Some(env), Render(loc.moduleRoot), src);
      WriteEnv(tree, cfg, loc, env, Some(env), Render(loc.moduleRoot), src, outputs);
      ApplyWritesAppend(m0, done, step);
    }
  }

  /** The files a blueprint reads are as they were before the pass began. */
  lemma BlueprintReadsUnaffected(cfg: Config, m: map<Path, string>, listing: map<Path, seq<Path>>,
                                 mains: seq<Path>, i: nat)
    requires AllReadable(m, listing, mains) && AllOutsideLive(cfg.terraformRoot, listing, mains) && i < |mains|
    ensures var ps := listing[Dirname(mains[i])];
      var m' := ApplyWrites(m, BlueprintPassWrites(cfg, m, listing, mains[..i]));
      Readable(m', ps) && Sources(m', ps) == Sources(m, ps)
  {
    BlueprintPassInLive(cfg, m, listing, mains[..i]);
    SourcesUnchanged(cfg.terraformRoot, m, BlueprintPassWrites(cfg, m, listing, mains[..i]), listing[Dirname(mains[i])]);
  }

  /** One more blueprint adds its writes after those of the ones before. */
  lemma BlueprintPassStep(cfg: Config, m: map<Path, string>, listing: map<Path, seq<Path>>, mains: seq<Path>, i: nat)
    requires AllReadable(m, listing, mains) && i < |mains|
    ensures var before := BlueprintPassWrites(cfg, m, listing, mains[..i]);
      ApplyWrites(m, BlueprintPassWrites(cfg, m, listing, mains[..i + 1])) ==
      ApplyWrites(ApplyWrites(m, before), BlueprintFileWrites(cfg, m, listing, mains[i]))
  {
    assert mains[..i + 1][..i] == mains[..i];
    ApplyWritesAppend(m, BlueprintPassWrites(cfg, m, listing, mains[..i]), BlueprintFileWrites(cfg, m, listing, mains[i]));
  }

  /** The loop over the blueprint `main.tf` files. */
  method BlueprintPass(tree: FileTree, cfg: Config, mains: seq<Path>, listing: map<Path, seq<Path>>)
    modifies tree
    requires AllReadable(tree.files, listing, mains) && AllOutsideLive(cfg.terraformRoot, listing, mains)
    ensures tree.files == ApplyWrites(old(tree.files), BlueprintPassWrites(cfg, old(tree.files), listing, mains))
  {
    ghost var m0 := tree.files;
    var tr := cfg.terraformRoot;
    for i := 0 to |mains|
      invariant tree.files == ApplyWrites(m0, BlueprintPassWrites(cfg, m0, listing, mains[..i]))
    {
      var file := mains[i];
      BlueprintReadsUnaffected(cfg, m0, listing, mains, i);
      var loc := GetLocations(tr, file, BlueprintRoot(tr));
      var src := ReadSources(tree, listing[Dirname(file)]);
      var outputs := Extract.GetOutputs(src);
      WriteEnvs(tree, cfg, loc, src, outputs);
      BlueprintPassStep(cfg, m0, listing, mains, i);
    }
    assert mains[..|mains|] == mains;
  }

  lemma OverrideReadsUnaffected(cfg: Config, m: map<Path, string>, listing: map<Path, seq<Path>>,
                                overrides: seq<Path>, i: nat)
    requires AllReadable(m, listing, overrides) && AllOutsideLive(cfg.terraformRoot, listing, overrides)
    requires i < |overrides|
    ensures var ps := listing[Dirname(overrides[i])];
      var m' := ApplyWrites(m, OverridePassWrites(cfg, m, listing, overrides[..i]));
      Readable(m', ps) && Sources(m', ps) == Sources(m, ps)
  {
    OverridePassInLive(cfg, m, listing, overrides[..i]);
    SourcesUnchanged(cfg.terraformRoot, m, OverridePassWrites(cfg, m, listing, overrides[..i]),
                     listing[Dirname(overrides[i])]);
  }

  /** One more override adds its writes after those of the ones before. */
  lemma OverridePassStep(cfg: Config, m: map<Path, string>, listing: map<Path, seq<Path>>, overrides: seq<Path>,
                         i: nat)
    requires AllReadable(m, listing, overrides) && i < |overrides|
    ensures var before := OverridePassWrites(cfg, m, listing, overrides[..i]);
      ApplyWrites(m, OverridePassWrites(cfg, m, listing, overrides[..i + 1])) ==
      ApplyWrites(ApplyWrites(m, before), OverrideFileWrites(cfg, m, listing, overrides[i]))
  {
    assert overrides[..i + 1][..i] == overrides[..i];
    ApplyWritesAppend(m, OverridePassWrites(cfg, m, listing, overrides[..i]),
                      OverrideFileWrites(cfg, m, listing, overrides[i]));
  }

  /** The loop over the override `main.tf` files. */
  method OverridePass(tree: FileTree, cfg: Config, overrides: seq<Path>, listing: map<Path, seq<Path>>)
    modifies tree
    requires AllReadable(tree.files, listing, overrides) && AllOutsideLive(cfg.terraformRoot, listing, overrides)
    ensures tree.files == ApplyWrites(old(tree.files), OverridePassWrites(cfg, old(tree.files), listing, overrides))
  {
    ghost var m0 := tree.files;
    var tr := cfg.terraformRoot;
    for i := 0 to |overrides|
      invariant tree.files == ApplyWrites(m0, OverridePassWrites(cfg, m0, listing, overrides[..i]))
    {
      var file := overrides[i];
      OverrideReadsUnaffected(cfg, m0, listing, overrides, i);
      var env := Name(Dirname(file));
      var loc := GetLocations(tr, Dirname(Dirname(file)) + [MainFile], EnvironmentsRoot(tr));
      var src := ReadSources(tree, listing[Dirname(file)]);
      var outputs := Extract.GetOutputs(src);
      WriteEnv(tree, cfg, loc, env, None, Render(loc.moduleRoot + [env]), src, outputs);
      OverridePassStep(cfg, m0, listing, overrides, i);
    }
    assert overrides[..|overrides|] == overrides;
  }

  // ---------------------------------------------------------------------------
  // The whole run
  // ---------------------------------------------------------------------------

  /** A file in a directory below `root`, a sibling of `Live`, is not below `Live`. */
  lemma BesideLive(tr: Path, seg: string, dir: Path, p: Path)
    requires seg != "Live" && IsPrefix(tr + [seg], dir) && p != [] && Dirname(p) == dir
    ensures !IsPrefix(LiveRoot(tr), p)
  {
    assert p[|tr|] == dir[|tr|] == seg;
  }

  /** What the globs found can be read, and none of it lies below `Live`. */
  lemma DiscoveredReads(m: map<Path, string>, tr: Path, mains: seq<Path>, overrides: seq<Path>,
                        listing: map<Path, seq<Path>>)
    requires Discovered(m, tr, mains, overrides, listing)
    ensures AllReadable(m, listing, mains) && AllReadable(m, listing, overrides)
    ensures AllOutsideLive(tr, listing, mains) && AllOutsideLive(tr, listing, overrides)
  {
    ListedReads(m, listing, tr, "Blueprints", mains);
    ListedReads(m, listing, tr, "Environments", overrides);
  }

  /** The listings of files found below a sibling of `Live` can be read and lie outside `Live`. */
  lemma ListedReads(m: map<Path, string>, listing: map<Path, seq<Path>>, tr: Path, seg: string, files: seq<Path>)
    requires seg != "Live"
    requires forall i :: 0 <= i < |files| ==> files[i] in m && MatchesMainGlob(tr + [seg], files[i])
    requires forall i :: 0 <= i < |files| ==> Listed(m, listing, files[i])
    ensures AllReadable(m, listing, files) && AllOutsideLive(tr, listing, files)
  {
    forall i | 0 <= i < |files|
      ensures Readable(m, listing[Dirname(files[i])]) && OutsideLive(tr, listing[Dirname(files[i])])
    {
      ListedRead(m, listing, tr, seg, files[i]);
    }
  }

  lemma ListedRead(m: map<Path, string>, listing: map<Path, seq<Path>>, tr: Path, seg: string, file: Path)
    requires seg != "Live" && MatchesMainGlob(tr + [seg], file) && Listed(m, listing, file)
    ensures Readable(m, listing[Dirname(file)]) && OutsideLive(tr, listing[Dirname(file)])
  {
    var dir := Dirname(file);
    var ps := listing[dir];
    assert IsPrefix(tr + [seg], dir) by {
      assert dir[..|tr| + 1] == file[..|tr| + 1];
    }
    forall j | 0 <= j < |ps|
      ensures !IsPrefix(LiveRoot(tr), ps[j])
    {
      BesideLive(tr, seg, dir, ps[j]);
    }
  }

  /** Writes below `Live` do not change what the override pass writes. */
  lemma {:induction false} OverrideWritesAfter(cfg: Config, m: map<Path, string>, ws: seq<Write>,
                                               listing: map<Path, seq<Path>>, overrides: seq<Path>)
    requires AllReadable(m, listing, overrides) && AllOutsideLive(cfg.terraformRoot, listing, overrides)
    requires InLive(cfg.terraformRoot, ws)
    ensures AllReadable(ApplyWrites(m, ws), listing, overrides)
    ensures OverridePassWrites(cfg, ApplyWrites(m, ws), listing, overrides) == OverridePassWrites(cfg, m, listing, overrides)
    decreases |overrides|
  {
    var m' := ApplyWrites(m, ws);
    forall i | 0 <= i < |overrides|
      ensures Readable(m', listing[Dirname(overrides[i])])
      ensures Sources(m', listing[Dirname(overrides[i])]) == Sources(m, listing[Dirname(overrides[i])])
    {
      SourcesUnchanged(cfg.terraformRoot, m, ws, listing[Dirname(overrides[i])]);
    }
    if overrides != [] {
      OverrideWritesAfter(cfg, m, ws, listing, overrides[..|overrides| - 1]);
    }
  }

  /** Writes below `Live` do not change what the blueprint pass writes. */
  lemma {:induction false} BlueprintWritesAfter(cfg: Config, m: map<Path, string>, ws: seq<Write>,
                                                listing: map<Path, seq<Path>>, mains: seq<Path>)
    requires AllReadable(m, listing, mains) && AllOutsideLive(cfg.terraformRoot, listing, mains)
    requires InLive(cfg.terraformRoot, ws)
    ensures AllReadable(ApplyWrites(m, ws), listing, mains)
    ensures BlueprintPassWrites(cfg, ApplyWrites(m, ws), listing, mains) == BlueprintPassWrites(cfg, m, listing, mains)
    decreases |mains|
  {
    var m' := ApplyWrites(m, ws);
    forall i | 0 <= i < |mains|
      ensures Readable(m', listing[Dirname(mains[i])])
      ensures Sources(m', listing[Dirname(mains[i])]) == Sources(m, listing[Dirname(mains[i])])
    {
      SourcesUnchanged(cfg.terraformRoot, m, ws, listing[Dirname(mains[i])]);
    }
    if mains != [] {
      BlueprintWritesAfter(cfg, m, ws, listing, mains[..|mains| - 1]);
    }
  }

  /**
   * `projectBlueprints`: fails before touching any file when a parameter is
   * missing; otherwise runs the blueprint pass, then the override pass.
   */
  method ProjectBlueprints(tree: FileTree, opts: Options, mains: seq<Path>, overrides: seq<Path>,
                           listing: map<Path, seq<Path>>) returns (fault: Option<Fault>)
    modifies tree
    requires opts.terraformRoot.Some? ==> Discovered(tree.files, opts.terraformRoot.value, mains, overrides, listing)
    ensures ResolveOptions(opts).Failure? ==> fault == Some(ResolveOptions(opts).error) && tree.files == old(tree.files)
    ensures ResolveOptions(opts).Success? ==>
      && fault == None
      && AllReadable(old(tree.files), listing, mains) && AllReadable(old(tree.files), listing, overrides)
      && tree.files == Materialized(ResolveOptions(opts).value, old(tree.files), listing, mains, overrides)
  {
    var resolved := ResolveOptions(opts);
    if resolved.Failure? {
      return Some(resolved.error);
    }
    var cfg := resolved.value;
    ghost var m0 := tree.files;
    DiscoveredReads(m0, cfg.terraformRoot, mains, overrides, listing);
    BlueprintPass(tree, cfg, mains, listing);
    ghost var blueprints := BlueprintPassWrites(cfg, m0, listing, mains);
    BlueprintPassInLive(cfg, m0, listing, mains);
    OverrideWritesAfter(cfg, m0, blueprints, listing, overrides);
    OverridePass(tree, cfg, overrides, listing);
    ApplyWritesAppend(m0, blueprints, OverridePassWrites(cfg, m0, listing, overrides));
    fault := None;
  }

  // ---------------------------------------------------------------------------
  // What a run leaves behind
  // ---------------------------------------------------------------------------

  /** A run writes below `Live` only: every other file keeps its content, and no other file appears. */
  lemma RunTouchesOnlyLive(cfg: Config, m: map<Path, string>, listing: map<Path, seq<Path>>,
                           mains: seq<Path>, overrides: seq<Path>, p: Path)
    requires AllReadable(m, listing, mains) && AllReadable(m, listing, overrides)
    requires !IsPrefix(LiveRoot(cfg.terraformRoot), p)
    ensures p in Materialized(cfg, m, listing, mains, overrides) <==> p in m
    ensures p in m ==> Materialized(cfg, m, listing, mains, overrides)[p] == m[p]
  {
    var tr := cfg.terraformRoot;
    BlueprintPassInLive(cfg, m, listing, mains);
    OverridePassInLive(cfg, m, listing, overrides);
    InLiveAppend(tr, BlueprintPassWrites(cfg, m, listing, mains), OverridePassWrites(cfg, m, listing, overrides));
    ApplyWritesUntouched(m, RunWrites(cfg, m, listing, mains, overrides), p);
  }

  /**
   * The root module written for an environment re-exports exactly the
   * outputs its sources declare, in order, and its manifest reads back as
   * the remote states the sources depend on.
   */
  lemma EnvWritesContent(cfg: Config, loc: Locations, env: string, envArg: Option<string>, source: string,
                         src: string)
    requires OneLineArguments(cfg, StateKey(loc.keyBase, env), envArg, loc.moduleName, source)
    ensures var ws := EnvWrites(cfg, loc, env, envArg, source, src);
      && Extract.Outputs(ws[0].text) == Extract.Outputs(src)
      && Manifest.ParseManifest(ws[1].text) == Some(Extract.Dependencies(env, src))
  {
    Extract.OutputsWellFormed(src);
    GeneratedMainReexports(cfg, StateKey(loc.keyBase, env), envArg, loc.moduleName, source, Extract.Outputs(src));
    Manifest.ManifestRoundTrip(Extract.Dependencies(env, src));
  }

  /** The directory a blueprint writes for an environment. */
  function BlueprintTarget(tr: Path, file: Path, env: string): Path {
    BlueprintLocations(tr, file).liveFolder + [env]
  }

  /** The directory an override writes. */
  function OverrideTarget(tr: Path, file: Path): Path {
    OverrideLocations(tr, file).liveFolder + [OverrideEnv(file)]
  }

  /**
   * A blueprint `Blueprints/<rel>/main.tf` writes `Live/<rel>/<env>` and keeps
   * its state under `Live/<rel>/<env>/terraform.tfstate`, relative to the
   * terraform root.
   */
  lemma BlueprintTargetShape(tr: Path, file: Path, env: string)
    requires MatchesMainGlob(BlueprintRoot(tr), file)
    ensures var rel := Dirname(file)[|BlueprintRoot(tr)|..];
      && BlueprintTarget(tr, file, env) == LiveRoot(tr) + rel + [env]
      && BlueprintLocations(tr, file).keyBase == ["Live"] + rel
      && BlueprintLocations(tr, file).moduleRoot == Dirname(file)
      && IsPrefix(BlueprintRoot(tr), Dirname(file))
  {
    var root := BlueprintRoot(tr);
    assert IsPrefix(root, Dirname(file)) by {
      assert Dirname(file)[..|root|] == file[..|root|];
    }
    var rel := Dirname(file)[|root|..];
    assert (LiveRoot(tr) + rel)[|tr|..] == ["Live"] + rel;
  }

  /**
   * An override `Environments/<rel>/<env>/main.tf` writes `Live/<rel>/<e>`,
   * where `<e>` is the name of its directory without any extension, and keeps
   * its state under `Live/<rel>/<e>/terraform.tfstate`; when the directory
   * name has no '.', it writes `Live/<rel>/<env>` from the module
   * `Environments/<rel>/<env>`.
   */
  lemma OverrideTargetShape(tr: Path, file: Path)
    requires MatchesMainGlob(EnvironmentsRoot(tr), file) && |file| >= |EnvironmentsRoot(tr)| + 2
    ensures var dir := Dirname(file);
      var rel := Dirname(dir)[|EnvironmentsRoot(tr)|..];
      && OverrideEnv(file) == Stem(dir[|dir| - 1])
      && OverrideTarget(tr, file) == LiveRoot(tr) + rel + [Stem(dir[|dir| - 1])]
      && OverrideLocations(tr, file).keyBase == ["Live"] + rel
    ensures IsPrefix(EnvironmentsRoot(tr), Dirname(file))
    ensures var dir := Dirname(file);
      '.' !in dir[|dir| - 1] ==>
      && OverrideEnv(file) == dir[|dir| - 1]
      && OverrideTarget(tr, file) == LiveRoot(tr) + dir[|EnvironmentsRoot(tr)|..]
      && OverrideLocations(tr, file).moduleRoot + [OverrideEnv(file)] == dir
  {
    OverrideTargetStem(tr, file);
    OverrideTargetPlain(tr, file);
  }

  lemma OverrideTargetStem(tr: Path, file: Path)
    requires MatchesMainGlob(EnvironmentsRoot(tr), file) && |file| >= |EnvironmentsRoot(tr)| + 2
    ensures var dir := Dirname(file);
      var rel := Dirname(dir)[|EnvironmentsRoot(tr)|..];
      && OverrideEnv(file) == Stem(dir[|dir| - 1])
      && OverrideTarget(tr, file) == LiveRoot(tr) + rel + [Stem(dir[|dir| - 1])]
      && OverrideLocations(tr, file).keyBase == ["Live"] + rel
  {
    OverrideModuleShape(tr, file);
  }

  lemma OverrideTargetPlain(tr: Path, file: Path)
    requires MatchesMainGlob(EnvironmentsRoot(tr), file) && |file| >= |EnvironmentsRoot(tr)| + 2
    ensures IsPrefix(EnvironmentsRoot(tr), Dirname(file))
    ensures var dir := Dirname(file);
      '.' !in dir[|dir| - 1] ==>
      && OverrideEnv(file) == dir[|dir| - 1]
      && OverrideTarget(tr, file) == LiveRoot(tr) + dir[|EnvironmentsRoot(tr)|..]
      && OverrideLocations(tr, file).moduleRoot + [OverrideEnv(file)] == dir
  {
    var root := EnvironmentsRoot(tr);
    var dir := Dirname(file);
    var up := Dirname(dir);
    var last := dir[|dir| - 1];
    OverrideModuleShape(tr, file);
    DirParts(root, dir);
    if '.' !in last {
      assert OverrideEnv(file) == last;
      calc {
        OverrideTarget(tr, file);
        OverrideLocations(tr, file).liveFolder + [last];
        (LiveRoot(tr) + up[|root|..]) + [last];
        { ConcatAssoc(LiveRoot(tr), up[|root|..], [last]); }
        LiveRoot(tr) + dir[|root|..];
      }
    }
  }

  /** Splitting the last segment off a directory below `root`. */
  lemma DirParts(root: Path, dir: Path)
    requires |dir| > |root| && IsPrefix(root, Dirname(dir))
    ensures IsPrefix(root, dir)
    ensures dir == Dirname(dir) + [dir[|dir| - 1]]
    ensures dir[|root|..] == Dirname(dir)[|root|..] + [dir[|dir| - 1]]
  {
    assert dir[..|root|] == Dirname(dir)[..|root|];
  }

  /** The module of an override is the directory two levels up, below the environments root. */
  lemma OverrideModuleShape(tr: Path, file: Path)
    requires MatchesMainGlob(EnvironmentsRoot(tr), file) && |file| >= |EnvironmentsRoot(tr)| + 2
    ensures var up := Dirname(Dirname(file));
      && IsPrefix(EnvironmentsRoot(tr), up)
      && OverrideLocations(tr, file).moduleRoot == up
      && OverrideLocations(tr, file).liveFolder == LiveRoot(tr) + up[|EnvironmentsRoot(tr)|..]
      && OverrideLocations(tr, file).keyBase == ["Live"] + up[|EnvironmentsRoot(tr)|..]
  {
    var root := EnvironmentsRoot(tr);
    var up := Dirname(Dirname(file));
    assert Dirname(up + [MainFile]) == up;
    assert IsPrefix(root, up) by {
      assert up[..|root|] == file[..|root|];
    }
    var rel := up[|root|..];
    assert (LiveRoot(tr) + rel)[|tr|..] == ["Live"] + rel;
  }

  /**
   * An override and a blueprint for the same `<rel>` and environment write
   * the same directory and share one remote state.
   */
  lemma OverrideMeetsBlueprint(tr: Path, blueprint: Path, override: Path)
    requires MatchesMainGlob(BlueprintRoot(tr), blueprint)
    requires MatchesMainGlob(EnvironmentsRoot(tr), override) && |override| >= |EnvironmentsRoot(tr)| + 2
    requires Dirname(Dirname(override))[|EnvironmentsRoot(tr)|..] == Dirname(blueprint)[|BlueprintRoot(tr)|..]
    requires '.' !in Dirname(override)[|Dirname(override)| - 1]
    ensures var env := Dirname(override)[|Dirname(override)| - 1];
      && OverrideTarget(tr, override) == BlueprintTarget(tr, blueprint, env)
      && StateKey(OverrideLocations(tr, override).keyBase, OverrideEnv(override))
         == StateKey(BlueprintLocations(tr, blueprint).keyBase, env)
  {
    OverrideTargetShape(tr, override);
    BlueprintTargetShape(tr, blueprint, Dirname(override)[|Dirname(override)| - 1]);
  }

  /** A path below `root` is `root` followed by the rest. */
  lemma SplitBelow(root: Path, d: Path)
    requires IsPrefix(root, d)
    ensures d == root + d[|root|..]
  {
  }

  /** Equal paths under the same directory have equal middles and equal last segments. */
  lemma CancelAround(a: Path, r1: Path, x1: string, r2: Path, x2: string)
    requires a + r1 + [x1] == a + r2 + [x2]
    ensures r1 == r2 && x1 == x2
  {
    assert |r1| == |r2|;
    assert r1 == (a + r1 + [x1])[|a|..|a| + |r1|];
    assert r2 == (a + r2 + [x2])[|a|..|a| + |r2|];
  }

  /** Two `main.tf` files in one directory are one file. */
  lemma SameDirectory(f1: Path, f2: Path)
    requires f1 != [] && f2 != [] && Dirname(f1) == Dirname(f2) && f1[|f1| - 1] == f2[|f2| - 1]
    ensures f1 == f2
  {
  }

  /** Different blueprints, or different environments, never share a directory. */
  lemma BlueprintTargetsDistinct(tr: Path, f1: Path, e1: string, f2: Path, e2: string)
    requires MatchesMainGlob(BlueprintRoot(tr), f1) && MatchesMainGlob(BlueprintRoot(tr), f2)
    requires BlueprintTarget(tr, f1, e1) == BlueprintTarget(tr, f2, e2)
    ensures f1 == f2 && e1 == e2
  {
    var root := BlueprintRoot(tr);
    BlueprintTargetShape(tr, f1, e1);
    BlueprintTargetShape(tr, f2, e2);
    CancelAround(LiveRoot(tr), Dirname(f1)[|root|..], e1, Dirname(f2)[|root|..], e2);
    SplitBelow(root, Dirname(f1));
    SplitBelow(root, Dirname(f2));
    SameDirectory(f1, f2);
  }

  /**
   * Different blueprints, or different environments, never share a remote
   * state key.
   */
  lemma BlueprintKeysDistinct(tr: Path, f1: Path, e1: string, f2: Path, e2: string)
    requires MatchesMainGlob(BlueprintRoot(tr), f1) && MatchesMainGlob(BlueprintRoot(tr), f2)
    requires ValidSegment(e1) && ValidSegment(e2)
    requires StateKey(BlueprintLocations(tr, f1).keyBase, e1) == StateKey(BlueprintLocations(tr, f2).keyBase, e2)
    ensures f1 == f2 && e1 == e2
  {
    var root := BlueprintRoot(tr);
    BlueprintTargetShape(tr, f1, e1);
    BlueprintTargetShape(tr, f2, e2);
    var r1, r2 := Dirname(f1)[|root|..], Dirname(f2)[|root|..];
    RelValid(root, f1);
    RelValid(root, f2);
    StateKeyInjective(["Live"] + r1, e1, ["Live"] + r2, e2);
    CancelAround([], ["Live"] + r1, e1, ["Live"] + r2, e2);
    assert r1 == (["Live"] + r1)[1..] && r2 == (["Live"] + r2)[1..];
    BlueprintTargetsDistinct(tr, f1, e1, f2, e2);
  }

  /** The part of a matched file's directory below the root is made of valid segments. */
  lemma RelValid(root: Path, f: Path)
    requires MatchesMainGlob(root, f)
    ensures forall e :: ValidSegment(e) ==> ValidPath(["Live"] + Dirname(f)[|root|..] + [e])
  {
    var r := Dirname(f)[|root|..];
    assert forall k :: 0 <= k < |r| ==> r[k] == f[|root| + k];
  }

  /** Overrides in different directories whose names hold no '.' never share a directory. */
  lemma OverrideTargetsDistinct(tr: Path, o1: Path, o2: Path)
    requires MatchesMainGlob(EnvironmentsRoot(tr), o1) && |o1| >= |EnvironmentsRoot(tr)| + 2
    requires MatchesMainGlob(EnvironmentsRoot(tr), o2) && |o2| >= |EnvironmentsRoot(tr)| + 2
    requires '.' !in Dirname(o1)[|Dirname(o1)| - 1] && '.' !in Dirname(o2)[|Dirname(o2)| - 1]
    requires OverrideTarget(tr, o1) == OverrideTarget(tr, o2)
    ensures o1 == o2
  {
    var root := EnvironmentsRoot(tr);
    OverrideTargetShape(tr, o1);
    OverrideTargetShape(tr, o2);
    var r1, r2 := Dirname(o1)[|root|..], Dirname(o2)[|root|..];
    assert |r1| == |r2|;
    assert r1 == (LiveRoot(tr) + r1)[|LiveRoot(tr)|..];
    assert r2 == (LiveRoot(tr) + r2)[|LiveRoot(tr)|..];
    SplitBelow(root, Dirname(o1));
    SplitBelow(root, Dirname(o2));
    SameDirectory(o1, o2);
  }

  // ---------------------------------------------------------------------------
  // Which write a file ends with
  // ---------------------------------------------------------------------------

  /** No write goes into the directory `dir`. */
  predicate NoneInto(ws: seq<Write>, dir: Path) {
    forall i :: 0 <= i < |ws| ==> Dirname(ws[i].path) != dir
  }

  lemma NoneIntoAppend(a: seq<Write>, b: seq<Write>, dir: Path)
    requires NoneInto(a, dir) && NoneInto(b, dir)
    ensures NoneInto(a + b, dir)
  {
    assert forall i :: |a| <= i < |a + b| ==> (a + b)[i] == b[i - |a|];
  }

  /** The two files of one environment go into `<liveFolder>/<env>`, and are different files. */
  lemma EnvWritesInto(cfg: Config, loc: Locations, env: string, envArg: Option<string>, source: string, src: string)
    ensures var ws := EnvWrites(cfg, loc, env, envArg, source, src);
      && Dirname(ws[0].path) == loc.liveFolder + [env] && Dirname(ws[1].path) == loc.liveFolder + [env]
      && ws[0].path != ws[1].path
  {
    var ws := EnvWrites(cfg, loc, env, envArg, source, src);
    assert ws[0].path[|ws[0].path| - 1] != ws[1].path[|ws[1].path| - 1];
  }

  lemma {:induction false} EnvsWritesAvoid(cfg: Config, loc: Locations, src: string, n: nat, dir: Path)
    requires n <= |Envs|
    requires forall k :: 0 <= k < n ==> loc.liveFolder + [Envs[k]] != dir
    ensures NoneInto(EnvsWrites(cfg, loc, src, n), dir)
    decreases n
  {
    if n > 0 {
      EnvsWritesAvoid(cfg, loc, src, n - 1, dir);
      EnvWritesAvoid(cfg, loc, Envs[n - 1], Some(Envs[n - 1]), Render(loc.moduleRoot), src, dir);
      NoneIntoAppend(EnvsWrites(cfg, loc, src, n - 1),
                     EnvWrites(cfg, loc, Envs[n - 1], Some(Envs[n - 1]), Render(loc.moduleRoot), src), dir);
    }
  }

  /** Blueprints none of which targets `dir` write nothing into it. */
  lemma {:induction false} BlueprintPassAvoids(cfg: Config, m: map<Path, string>, listing: map<Path, seq<Path>>,
                                               mains: seq<Path>, dir: Path)
    requires AllReadable(m, listing, mains)
    requires forall i, k :: 0 <= i < |mains| && 0 <= k < |Envs| ==> BlueprintTarget(cfg.terraformRoot, mains[i], Envs[k]) != dir
    ensures NoneInto(BlueprintPassWrites(cfg, m, listing, mains), dir)
    decreases |mains|
  {
    if mains != [] {
      var file := mains[|mains| - 1];
      BlueprintPassAvoids(cfg, m, listing, mains[..|mains| - 1], dir);
      EnvsWritesAvoid(cfg, BlueprintLocations(cfg.terraformRoot, file), Sources(m, listing[Dirname(file)]), |Envs|, dir);
      NoneIntoAppend(BlueprintPassWrites(cfg, m, listing, mains[..|mains| - 1]), BlueprintFileWrites(cfg, m, listing, file), dir);
    }
  }

  lemma OverrideFileAvoids(cfg: Config, m: map<Path, string>, listing: map<Path, seq<Path>>, file: Path, dir: Path)
    requires Dirname(file) in listing && Readable(m, listing[Dirname(file)])
    requires OverrideTarget(cfg.terraformRoot, file) != dir
    ensures NoneInto(OverrideFileWrites(cfg, m, listing, file), dir)
  {
    var loc := OverrideLocations(cfg.terraformRoot, file);
    EnvWritesAvoid(cfg, loc, OverrideEnv(file), None, Render(loc.moduleRoot + [OverrideEnv(file)]),
                   Sources(m, listing[Dirname(file)]), dir);
  }

  /** The two files of one environment go into its target directory only. */
  lemma EnvWritesAvoid(cfg: Config, loc: Locations, env: string, envArg: Option<string>, source: string, src: string,
                       dir: Path)
    requires loc.liveFolder + [env] != dir
    ensures NoneInto(EnvWrites(cfg, loc, env, envArg, source, src), dir)
  {
    EnvWritesInto(cfg, loc, env, envArg, source, src);
  }

  /** Overrides none of which targets `dir` write nothing into it. */
  lemma {:induction false} OverridePassAvoids(cfg: Config, m: map<Path, string>, listing: map<Path, seq<Path>>,
                                              overrides: seq<Path>, dir: Path)
    requires AllReadable(m, listing, overrides)
    requires forall i :: 0 <= i < |overrides| ==> OverrideTarget(cfg.terraformRoot, overrides[i]) != dir
    ensures NoneInto(OverridePassWrites(cfg, m, listing, overrides), dir)
    decreases |overrides|
  {
    if overrides != [] {
      var file := overrides[|overrides| - 1];
      OverridePassAvoids(cfg, m, listing, overrides[..|overrides| - 1], dir);
      OverrideFileAvoids(cfg, m, listing, file, dir);
      NoneIntoAppend(OverridePassWrites(cfg, m, listing, overrides[..|overrides| - 1]),
                     OverrideFileWrites(cfg, m, listing, file), dir);
    }
  }

  lemma ConcatAssoc<T>(a: seq<T>, b: seq<T>, c: seq<T>)
    ensures (a + b) + c == a + (b + c)
  {
  }

  lemma Regroup<T>(a: seq<T>, b: seq<T>, c: seq<T>, d: seq<T>)
    ensures a + (b + c + d) == a + b + c + d
  {
  }

  lemma RegroupPairs<T>(a: seq<T>, b1: seq<T>, b2: seq<T>, c: seq<T>, d: seq<T>)
    ensures a + (b1 + b2) + c + d == a + b1 + b2 + (c + d)
  {
  }

  lemma LastDiffers(a: Path, x: string, y: string)
    requires x != y
    ensures a + [x] != a + [y]
  {
    assert (a + [x])[|a|] == x;
  }

  lemma AllReadableConcat(m: map<Path, string>, listing: map<Path, seq<Path>>, xs: seq<Path>, ys: seq<Path>)
    requires AllReadable(m, listing, xs) && AllReadable(m, listing, ys)
    ensures AllReadable(m, listing, xs + ys)
  {
    forall i | 0 <= i < |xs + ys|
      ensures Dirname((xs + ys)[i]) in listing && Readable(m, listing[Dirname((xs + ys)[i])])
    {
      if i < |xs| {
        assert (xs + ys)[i] == xs[i];
      } else {
        assert (xs + ys)[i] == ys[i - |xs|];
      }
    }
  }

  lemma AllReadablePrefix(m: map<Path, string>, listing: map<Path, seq<Path>>, xs: seq<Path>, k: nat)
    requires AllReadable(m, listing, xs) && k <= |xs|
    ensures AllReadable(m, listing, xs[..k])
  {
    forall i | 0 <= i < k
      ensures Dirname(xs[..k][i]) in listing && Readable(m, listing[Dirname(xs[..k][i])])
    {
      assert xs[..k][i] == xs[i];
    }
  }

  lemma AllReadableSuffix(m: map<Path, string>, listing: map<Path, seq<Path>>, xs: seq<Path>, k: nat)
    requires AllReadable(m, listing, xs) && k <= |xs|
    ensures AllReadable(m, listing, xs[k..])
  {
    forall i | 0 <= i < |xs| - k
      ensures Dirname(xs[k..][i]) in listing && Readable(m, listing[Dirname(xs[k..][i])])
    {
      assert xs[k..][i] == xs[k + i];
    }
  }

  lemma {:induction false} BlueprintPassAppend(cfg: Config, m: map<Path, string>, listing: map<Path, seq<Path>>,
                                               xs: seq<Path>, ys: seq<Path>)
    requires AllReadable(m, listing, xs) && AllReadable(m, listing, ys)
    ensures AllReadable(m, listing, xs + ys)
    ensures BlueprintPassWrites(cfg, m, listing, xs + ys) ==
            BlueprintPassWrites(cfg, m, listing, xs) + BlueprintPassWrites(cfg, m, listing, ys)
    decreases |ys|
  {
    AllReadableConcat(m, listing, xs, ys);
    if ys == [] {
      assert xs + ys == xs;
    } else {
      AllReadablePrefix(m, listing, ys, |ys| - 1);
      BlueprintPassAppend(cfg, m, listing, xs, ys[..|ys| - 1]);
      BlueprintPassAppendStep(cfg, m, listing, xs, ys);
    }
  }

  lemma BlueprintPassAppendStep(cfg: Config, m: map<Path, string>, listing: map<Path, seq<Path>>, xs: seq<Path>, ys: seq<Path>)
    requires ys != [] && AllReadable(m, listing, xs) && AllReadable(m, listing, ys)
    requires AllReadable(m, listing, ys[..|ys| - 1]) && AllReadable(m, listing, xs + ys[..|ys| - 1])
    requires BlueprintPassWrites(cfg, m, listing, xs + ys[..|ys| - 1]) ==
             BlueprintPassWrites(cfg, m, listing, xs) + BlueprintPassWrites(cfg, m, listing, ys[..|ys| - 1])
    ensures AllReadable(m, listing, xs + ys)
    ensures BlueprintPassWrites(cfg, m, listing, xs + ys) ==
            BlueprintPassWrites(cfg, m, listing, xs) + BlueprintPassWrites(cfg, m, listing, ys)
  {
    var init := ys[..|ys| - 1];
    BlueprintPassLast(cfg, m, listing, ys);
    BlueprintPassSnoc(cfg, m, listing, xs, ys);
    ConcatAssoc(BlueprintPassWrites(cfg, m, listing, xs), BlueprintPassWrites(cfg, m, listing, init), BlueprintFileWrites(cfg, m, listing, ys[|ys| - 1]));
  }

  lemma BlueprintPassLast(cfg: Config, m: map<Path, string>, listing: map<Path, seq<Path>>, ys: seq<Path>)
    requires ys != [] && AllReadable(m, listing, ys)
    ensures AllReadable(m, listing, ys[..|ys| - 1])
    ensures BlueprintPassWrites(cfg, m, listing, ys) ==
            BlueprintPassWrites(cfg, m, listing, ys[..|ys| - 1]) + BlueprintFileWrites(cfg, m, listing, ys[|ys| - 1])
  {
    AllReadablePrefix(m, listing, ys, |ys| - 1);
  }

  lemma BlueprintPassSnoc(cfg: Config, m: map<Path, string>, listing: map<Path, seq<Path>>, xs: seq<Path>, ys: seq<Path>)
    requires ys != [] && AllReadable(m, listing, xs) && AllReadable(m, listing, ys)
    ensures AllReadable(m, listing, xs + ys) && AllReadable(m, listing, xs + ys[..|ys| - 1])
    ensures BlueprintPassWrites(cfg, m, listing, xs + ys) ==
            BlueprintPassWrites(cfg, m, listing, xs + ys[..|ys| - 1]) + BlueprintFileWrites(cfg, m, listing, ys[|ys| - 1])
  {
    AllReadablePrefix(m, listing, ys, |ys| - 1);
    AllReadableConcat(m, listing, xs, ys[..|ys| - 1]);
    AllReadableConcat(m, listing, xs, ys);
    assert (xs + ys)[..|xs + ys| - 1] == xs + ys[..|ys| - 1];
    assert (xs + ys)[|xs + ys| - 1] == ys[|ys| - 1];
  }

  lemma {:induction false} OverridePassAppend(cfg: Config, m: map<Path, string>, listing: map<Path, seq<Path>>,
                                              xs: seq<Path>, ys: seq<Path>)
    requires AllReadable(m, listing, xs) && AllReadable(m, listing, ys)
    ensures AllReadable(m, listing, xs + ys)
    ensures OverridePassWrites(cfg, m, listing, xs + ys) ==
            OverridePassWrites(cfg, m, listing, xs) + OverridePassWrites(cfg, m, listing, ys)
    decreases |ys|
  {
    AllReadableConcat(m, listing, xs, ys);
    if ys == [] {
      assert xs + ys == xs;
    } else {
      AllReadablePrefix(m, listing, ys, |ys| - 1);
      OverridePassAppend(cfg, m, listing, xs, ys[..|ys| - 1]);
      OverridePassAppendStep(cfg, m, listing, xs, ys);
    }
  }

  lemma OverridePassAppendStep(cfg: Config, m: map<Path, string>, listing: map<Path, seq<Path>>, xs: seq<Path>, ys: seq<Path>)
    requires ys != [] && AllReadable(m, listing, xs) && AllReadable(m, listing, ys)
    requires AllReadable(m, listing, ys[..|ys| - 1]) && AllReadable(m, listing, xs + ys[..|ys| - 1])
    requires OverridePassWrites(cfg, m, listing, xs + ys[..|ys| - 1]) ==
             OverridePassWrites(cfg, m, listing, xs) + OverridePassWrites(cfg, m, listing, ys[..|ys| - 1])
    ensures AllReadable(m, listing, xs + ys)
    ensures OverridePassWrites(cfg, m, listing, xs + ys) ==
            OverridePassWrites(cfg, m, listing, xs) + OverridePassWrites(cfg, m, listing, ys)
  {
    var init := ys[..|ys| - 1];
    OverridePassLast(cfg, m, listing, ys);
    OverridePassSnoc(cfg, m, listing, xs, ys);
    ConcatAssoc(OverridePassWrites(cfg, m, listing, xs), OverridePassWrites(cfg, m, listing, init), OverrideFileWrites(cfg, m, listing, ys[|ys| - 1]));
  }

  lemma OverridePassLast(cfg: Config, m: map<Path, string>, listing: map<Path, seq<Path>>, ys: seq<Path>)
    requires ys != [] && AllReadable(m, listing, ys)
    ensures AllReadable(m, listing, ys[..|ys| - 1])
    ensures OverridePassWrites(cfg, m, listing, ys) ==
            OverridePassWrites(cfg, m, listing, ys[..|ys| - 1]) + OverrideFileWrites(cfg, m, listing, ys[|ys| - 1])
  {
    AllReadablePrefix(m, listing, ys, |ys| - 1);
  }

  lemma OverridePassSnoc(cfg: Config, m: map<Path, string>, listing: map<Path, seq<Path>>, xs: seq<Path>, ys: seq<Path>)
    requires ys != [] && AllReadable(m, listing, xs) && AllReadable(m, listing, ys)
    ensures AllReadable(m, listing, xs + ys) && AllReadable(m, listing, xs + ys[..|ys| - 1])
    ensures OverridePassWrites(cfg, m, listing, xs + ys) ==
            OverridePassWrites(cfg, m, listing, xs + ys[..|ys| - 1]) + OverrideFileWrites(cfg, m, listing, ys[|ys| - 1])
  {
    AllReadablePrefix(m, listing, ys, |ys| - 1);
    AllReadableConcat(m, listing, xs, ys[..|ys| - 1]);
    AllReadableConcat(m, listing, xs, ys);
    assert (xs + ys)[..|xs + ys| - 1] == xs + ys[..|ys| - 1];
    assert (xs + ys)[|xs + ys| - 1] == ys[|ys| - 1];
  }

  /** A pair of writes into `dir` that nothing after them writes into decides both files. */
  lemma Survives(m: map<Path, string>, pre: seq<Write>, ws: seq<Write>, post: seq<Write>, dir: Path)
    requires |ws| == 2 && Dirname(ws[0].path) == dir && Dirname(ws[1].path) == dir && ws[0].path != ws[1].path
    requires NoneInto(post, dir)
    ensures var after := ApplyWrites(m, pre + ws + post);
      ws[0].path in after && after[ws[0].path] == ws[0].text && ws[1].path in after && after[ws[1].path] == ws[1].text
  {
    var mid := ApplyWrites(m, pre + ws);
    ApplyWritesAppend(m, pre + ws, post);
    ApplyWritesAppend(m, pre, ws);
    LastWriteWins(ApplyWrites(m, pre), ws, 0);
    LastWriteWins(ApplyWrites(m, pre), ws, 1);
    ApplyWritesUntouched(mid, post, ws[0].path);
    ApplyWritesUntouched(mid, post, ws[1].path);
  }

  /** The pass split around the file at index `j`. */
  lemma BlueprintPassSplit(cfg: Config, m: map<Path, string>, listing: map<Path, seq<Path>>, mains: seq<Path>, j: nat)
    requires AllReadable(m, listing, mains) && j < |mains|
    ensures AllReadable(m, listing, mains[..j]) && AllReadable(m, listing, mains[j + 1..])
    ensures BlueprintPassWrites(cfg, m, listing, mains) ==
            BlueprintPassWrites(cfg, m, listing, mains[..j]) + BlueprintFileWrites(cfg, m, listing, mains[j]) +
            BlueprintPassWrites(cfg, m, listing, mains[j + 1..])
  {
    AllReadablePrefix(m, listing, mains, j);
    AllReadablePrefix(m, listing, mains, j + 1);
    AllReadableSuffix(m, listing, mains, j + 1);
    assert mains == mains[..j + 1] + mains[j + 1..];
    assert mains[..j + 1][..j] == mains[..j];
    BlueprintPassAppend(cfg, m, listing, mains[..j + 1], mains[j + 1..]);
  }

  /** The pass split around the file at index `j`. */
  lemma OverridePassSplit(cfg: Config, m: map<Path, string>, listing: map<Path, seq<Path>>, overrides: seq<Path>, j: nat)
    requires AllReadable(m, listing, overrides) && j < |overrides|
    ensures AllReadable(m, listing, overrides[..j]) && AllReadable(m, listing, overrides[j + 1..])
    ensures OverridePassWrites(cfg, m, listing, overrides) ==
            OverridePassWrites(cfg, m, listing, overrides[..j]) + OverrideFileWrites(cfg, m, listing, overrides[j]) +
            OverridePassWrites(cfg, m, listing, overrides[j + 1..])
  {
    AllReadablePrefix(m, listing, overrides, j);
    AllReadablePrefix(m, listing, overrides, j + 1);
    AllReadableSuffix(m, listing, overrides, j + 1);
    assert overrides == overrides[..j + 1] + overrides[j + 1..];
    assert overrides[..j + 1][..j] == overrides[..j];
    OverridePassAppend(cfg, m, listing, overrides[..j + 1], overrides[j + 1..]);
  }

  /** The two files a blueprint writes for the `k`-th environment. */
  function BlueprintEnvWrites(cfg: Config, m: map<Path, string>, listing: map<Path, seq<Path>>, file: Path, k: nat)
    : seq<Write>
    requires Dirname(file) in listing && Readable(m, listing[Dirname(file)]) && k < |Envs|
  {
    EnvWrites(cfg, BlueprintLocations(cfg.terraformRoot, file), Envs[k], Some(Envs[k]), Render(Dirname(file)),
              Sources(m, listing[Dirname(file)]))
  }

  /** A blueprint writes the `stage` files, then the `prod` files, each into its own directory. */
  lemma BlueprintFileSplit(cfg: Config, m: map<Path, string>, listing: map<Path, seq<Path>>, file: Path)
    requires Dirname(file) in listing && Readable(m, listing[Dirname(file)])
    ensures BlueprintFileWrites(cfg, m, listing, file) ==
            BlueprintEnvWrites(cfg, m, listing, file, 0) + BlueprintEnvWrites(cfg, m, listing, file, 1)
    ensures forall k :: 0 <= k < |Envs| ==>
      var ws := BlueprintEnvWrites(cfg, m, listing, file, k);
      && Dirname(ws[0].path) == BlueprintTarget(cfg.terraformRoot, file, Envs[k])
      && Dirname(ws[1].path) == BlueprintTarget(cfg.terraformRoot, file, Envs[k])
      && ws[0].path != ws[1].path
  {
    var loc := BlueprintLocations(cfg.terraformRoot, file);
    var src := Sources(m, listing[Dirname(file)]);
    assert EnvsWrites(cfg, loc, src, 0) == [];
    assert EnvsWrites(cfg, loc, src, 1) == BlueprintEnvWrites(cfg, m, listing, file, 0);
    forall k | 0 <= k < |Envs|
      ensures var ws := BlueprintEnvWrites(cfg, m, listing, file, k);
        && Dirname(ws[0].path) == BlueprintTarget(cfg.terraformRoot, file, Envs[k])
        && Dirname(ws[1].path) == BlueprintTarget(cfg.terraformRoot, file, Envs[k])
        && ws[0].path != ws[1].path
    {
      BlueprintEnvInto(cfg, m, listing, file, k);
    }
  }

  lemma BlueprintEnvInto(cfg: Config, m: map<Path, string>, listing: map<Path, seq<Path>>, file: Path, k: nat)
    requires Dirname(file) in listing && Readable(m, listing[Dirname(file)]) && k < |Envs|
    ensures var ws := BlueprintEnvWrites(cfg, m, listing, file, k);
      && Dirname(ws[0].path) == BlueprintTarget(cfg.terraformRoot, file, Envs[k])
      && Dirname(ws[1].path) == BlueprintTarget(cfg.terraformRoot, file, Envs[k])
      && ws[0].path != ws[1].path
  {
    EnvWritesInto(cfg, BlueprintLocations(cfg.terraformRoot, file), Envs[k], Some(Envs[k]), Render(Dirname(file)),
                  Sources(m, listing[Dirname(file)]));
  }

  /** The override's two files go into its directory, and are different files. */
  lemma OverrideFileInto(cfg: Config, m: map<Path, string>, listing: map<Path, seq<Path>>, file: Path)
    requires Dirname(file) in listing && Readable(m, listing[Dirname(file)])
    ensures var ws := OverrideFileWrites(cfg, m, listing, file);
      && Dirname(ws[0].path) == OverrideTarget(cfg.terraformRoot, file)
      && Dirname(ws[1].path) == OverrideTarget(cfg.terraformRoot, file)
      && ws[0].path != ws[1].path
  {
    var loc := OverrideLocations(cfg.terraformRoot, file);
    EnvWritesInto(cfg, loc, OverrideEnv(file), None, Render(loc.moduleRoot + [OverrideEnv(file)]),
                  Sources(m, listing[Dirname(file)]));
  }

  /**
   * An override decides both files in its directory, whatever the
   * blueprints wrote there, unless a later override targets the same
   * directory.
   */
  lemma OverrideWins(cfg: Config, m: map<Path, string>, listing: map<Path, seq<Path>>,
                     mains: seq<Path>, overrides: seq<Path>, j: nat)
    requires AllReadable(m, listing, mains) && AllReadable(m, listing, overrides) && j < |overrides|
    requires forall k :: j < k < |overrides| ==>
      OverrideTarget(cfg.terraformRoot, overrides[k]) != OverrideTarget(cfg.terraformRoot, overrides[j])
    ensures var ws := OverrideFileWrites(cfg, m, listing, overrides[j]);
      var after := Materialized(cfg, m, listing, mains, overrides);
      && ws[0].path in after && after[ws[0].path] == ws[0].text
      && ws[1].path in after && after[ws[1].path] == ws[1].text
  {
    var tr := cfg.terraformRoot;
    var dir := OverrideTarget(tr, overrides[j]);
    OverridePassSplit(cfg, m, listing, overrides, j);
    var rest := overrides[j + 1..];
    forall k | 0 <= k < |rest|
      ensures OverrideTarget(tr, rest[k]) != dir
    {
      assert rest[k] == overrides[j + 1 + k];
    }
    OverridePassAvoids(cfg, m, listing, rest, dir);
    OverrideFileInto(cfg, m, listing, overrides[j]);
    var pre := BlueprintPassWrites(cfg, m, listing, mains) + OverridePassWrites(cfg, m, listing, overrides[..j]);
    var ws := OverrideFileWrites(cfg, m, listing, overrides[j]);
    var post := OverridePassWrites(cfg, m, listing, rest);
    Regroup(BlueprintPassWrites(cfg, m, listing, mains), OverridePassWrites(cfg, m, listing, overrides[..j]), ws, post);
    Survives(m, pre, ws, post, dir);
  }

  /**
   * A blueprint decides both files it writes for an environment when no
   * later blueprint and no override targets the same directory.
   */
  lemma BlueprintKept(cfg: Config, m: map<Path, string>, listing: map<Path, seq<Path>>,
                      mains: seq<Path>, overrides: seq<Path>, i: nat, k: nat)
    requires AllReadable(m, listing, mains) && AllReadable(m, listing, overrides) && i < |mains| && k < |Envs|
    requires forall j, e :: i < j < |mains| && 0 <= e < |Envs| ==>
      BlueprintTarget(cfg.terraformRoot, mains[j], Envs[e]) != BlueprintTarget(cfg.terraformRoot, mains[i], Envs[k])
    requires forall j :: 0 <= j < |overrides| ==>
      OverrideTarget(cfg.terraformRoot, overrides[j]) != BlueprintTarget(cfg.terraformRoot, mains[i], Envs[k])
    ensures var ws := BlueprintEnvWrites(cfg, m, listing, mains[i], k);
      var after := Materialized(cfg, m, listing, mains, overrides);
      && ws[0].path in after && after[ws[0].path] == ws[0].text
      && ws[1].path in after && after[ws[1].path] == ws[1].text
  {
    var tr := cfg.terraformRoot;
    var file := mains[i];
    var dir := BlueprintTarget(tr, file, Envs[k]);
    BlueprintPassSplit(cfg, m, listing, mains, i);
    var rest := mains[i + 1..];
    forall j, e | 0 <= j < |rest| && 0 <= e < |Envs|
      ensures BlueprintTarget(tr, rest[j], Envs[e]) != dir
    {
      assert rest[j] == mains[i + 1 + j];
    }
    BlueprintPassAvoids(cfg, m, listing, rest, dir);
    OverridePassAvoids(cfg, m, listing, overrides, dir);
    BlueprintFileSplit(cfg, m, listing, file);
    var before := BlueprintPassWrites(cfg, m, listing, mains[..i]);
    var later := BlueprintPassWrites(cfg, m, listing, rest) + OverridePassWrites(cfg, m, listing, overrides);
    NoneIntoAppend(BlueprintPassWrites(cfg, m, listing, rest), OverridePassWrites(cfg, m, listing, overrides), dir);
    var stage, prod := BlueprintEnvWrites(cfg, m, listing, file, 0), BlueprintEnvWrites(cfg, m, listing, file, 1);
    RegroupPairs(before, stage, prod, BlueprintPassWrites(cfg, m, listing, rest), OverridePassWrites(cfg, m, listing, overrides));
    LastDiffers(BlueprintLocations(tr, file).liveFolder, Envs[1], Envs[0]);
    KeptAmong(m, before, stage, prod, later, k);
  }

  /** Of two pairs of writes into two different directories, the one nothing after writes into stays. */
  lemma KeptAmong(m: map<Path, string>, before: seq<Write>, stage: seq<Write>, prod: seq<Write>, later: seq<Write>,
                  k: nat)
    requires k < 2 && |stage| == 2 && |prod| == 2
    requires Dirname(stage[0].path) == Dirname(stage[1].path) && stage[0].path != stage[1].path
    requires Dirname(prod[0].path) == Dirname(prod[1].path) && prod[0].path != prod[1].path
    requires Dirname(stage[0].path) != Dirname(prod[0].path)
    requires NoneInto(later, Dirname((if k == 0 then stage else prod)[0].path))
    ensures var ws := if k == 0 then stage else prod;
      var after := ApplyWrites(m, before + stage + prod + later);
      && ws[0].path in after && after[ws[0].path] == ws[0].text
      && ws[1].path in after && after[ws[1].path] == ws[1].text
  {
    if k == 0 {
      KeptFirst(m, before, stage, prod, later);
    } else {
      Survives(m, before + stage, prod, later, Dirname(prod[0].path));
    }
  }

  lemma KeptFirst(m: map<Path, string>, before: seq<Write>, stage: seq<Write>, prod: seq<Write>, later: seq<Write>)
    requires |stage| == 2 && |prod| == 2
    requires Dirname(stage[0].path) == Dirname(stage[1].path) && stage[0].path != stage[1].path
    requires Dirname(prod[0].path) == Dirname(prod[1].path)
    requires Dirname(stage[0].path) != Dirname(prod[0].path)
    requires NoneInto(later, Dirname(stage[0].path))
    ensures var after := ApplyWrites(m, before + stage + prod + later);
      && stage[0].path in after && after[stage[0].path] == stage[0].text
      && stage[1].path in after && after[stage[1].path] == stage[1].text
  {
    var dir := Dirname(stage[0].path);
    NoneIntoPair(prod, dir);
    NoneIntoAppend(prod, later, dir);
    ConcatAssoc(before + stage, prod, later);
    Survives(m, before, stage, prod + later, dir);
  }

  lemma NoneIntoPair(ws: seq<Write>, dir: Path)
    requires |ws| == 2 && Dirname(ws[0].path) == Dirname(ws[1].path) != dir
    ensures NoneInto(ws, dir)
  {
  }

  // ---------------------------------------------------------------------------
  // Running again
  // ---------------------------------------------------------------------------

  /** A file present after the writes was there before or was written. */
  lemma KeysAfter(m: map<Path, string>, ws: seq<Write>, p: Path)
    ensures p in m ==> p in ApplyWrites(m, ws)
    ensures p in ApplyWrites(m, ws) && p !in m ==> WritesTo(ws, p)
  {
    ApplyWritesUnion(m, ws);
    WrittenKeys(ws, p);
  }

  lemma NotWrittenOutsideLive(tr: Path, ws: seq<Write>, p: Path)
    requires InLive(tr, ws) && !IsPrefix(LiveRoot(tr), p)
    ensures !WritesTo(ws, p)
  {
  }

  /** Writes below `Live` leave what the `main.tf` glob below a sibling of `Live` finds as it was. */
  lemma MainGlobKept(m: map<Path, string>, ws: seq<Write>, tr: Path, seg: string, mains: seq<Path>)
    requires seg != "Live" && InLive(tr, ws) && MainGlob(m, tr + [seg], mains)
    ensures MainGlob(ApplyWrites(m, ws), tr + [seg], mains)
  {
    var after := ApplyWrites(m, ws);
    forall i | 0 <= i < |mains|
      ensures mains[i] in after
    {
      KeysAfter(m, ws, mains[i]);
    }
    forall p | p in after && MatchesMainGlob(tr + [seg], p)
      ensures p in mains
    {
      assert p[|tr|] == (tr + [seg])[|tr|];
      NotWrittenOutsideLive(tr, ws, p);
      KeysAfter(m, ws, p);
    }
  }

  /** Writes below `Live` leave what the `*.tf` glob in a directory beside `Live` finds as it was. */
  lemma TfGlobKept(m: map<Path, string>, ws: seq<Write>, tr: Path, seg: string, dir: Path, ps: seq<Path>)
    requires seg != "Live" && InLive(tr, ws) && IsPrefix(tr + [seg], dir) && TfGlob(m, dir, ps)
    ensures TfGlob(ApplyWrites(m, ws), dir, ps)
  {
    var after := ApplyWrites(m, ws);
    forall i | 0 <= i < |ps|
      ensures ps[i] in after
    {
      KeysAfter(m, ws, ps[i]);
    }
    forall p | p in after && MatchesTfGlob(dir, p)
      ensures p in ps
    {
      BesideLive(tr, seg, dir, p);
      NotWrittenOutsideLive(tr, ws, p);
      KeysAfter(m, ws, p);
    }
  }

  /** The directory of a file the `main.tf` glob finds below `root` lies below `root`. */
  lemma DirBelowRoot(root: Path, file: Path)
    requires MatchesMainGlob(root, file)
    ensures IsPrefix(root, Dirname(file))
  {
    assert Dirname(file)[..|root|] == file[..|root|];
  }

  /** Writes below `Live` leave every glob of a run finding what it found. */
  lemma DiscoveredKept(m: map<Path, string>, tr: Path, mains: seq<Path>, overrides: seq<Path>,
                       listing: map<Path, seq<Path>>, ws: seq<Write>)
    requires Discovered(m, tr, mains, overrides, listing) && InLive(tr, ws)
    ensures Discovered(ApplyWrites(m, ws), tr, mains, overrides, listing)
  {
    var after := ApplyWrites(m, ws);
    MainGlobKept(m, ws, tr, "Blueprints", mains);
    MainGlobKept(m, ws, tr, "Environments", overrides);
    forall i | 0 <= i < |mains|
      ensures Listed(after, listing, mains[i])
    {
      DirBelowRoot(BlueprintRoot(tr), mains[i]);
      TfGlobKept(m, ws, tr, "Blueprints", Dirname(mains[i]), listing[Dirname(mains[i])]);
    }
    forall i | 0 <= i < |overrides|
      ensures Listed(after, listing, overrides[i])
    {
      DirBelowRoot(EnvironmentsRoot(tr), overrides[i]);
      TfGlobKept(m, ws, tr, "Environments", Dirname(overrides[i]), listing[Dirname(overrides[i])]);
    }
  }

  /**
   * Running again on the files a run left finds the same `main.tf` and
   * `*.tf` files, reads the same sources and leaves the files as they are.
   */
  lemma RerunChangesNothing(cfg: Config, m: map<Path, string>, listing: map<Path, seq<Path>>,
                            mains: seq<Path>, overrides: seq<Path>)
    requires Discovered(m, cfg.terraformRoot, mains, overrides, listing)
    ensures AllReadable(m, listing, mains) && AllReadable(m, listing, overrides)
    ensures var after := Materialized(cfg, m, listing, mains, overrides);
      && Discovered(after, cfg.terraformRoot, mains, overrides, listing)
      && AllReadable(after, listing, mains) && AllReadable(after, listing, overrides)
      && Materialized(cfg, after, listing, mains, overrides) == after
  {
    var tr := cfg.terraformRoot;
    DiscoveredReads(m, tr, mains, overrides, listing);
    var blueprints, overridden := BlueprintPassWrites(cfg, m, listing, mains), OverridePassWrites(cfg, m, listing, overrides);
    var ws := RunWrites(cfg, m, listing, mains, overrides);
    BlueprintPassInLive(cfg, m, listing, mains);
    OverridePassInLive(cfg, m, listing, overrides);
    InLiveAppend(tr, blueprints, overridden);
    DiscoveredKept(m, tr, mains, overrides, listing, ws);
    BlueprintWritesAfter(cfg, m, ws, listing, mains);
    OverrideWritesAfter(cfg, m, ws, listing, overrides);
    ApplyWritesIdempotent(m, ws);
  }
}
