/**
 * `getDeploymentSchema`: for every `stage/main.tf` at any depth below `Live` below the
 * terraform root, reads the manifest `stage/dependencies.json` next to it.
 * Directories whose manifest is empty come first, each as a block that
 * changes into the directory and runs `terraform init` and `terraform apply`;
 * then the marker line `### HAS DEPENDENCIES ###`; then the directories that
 * depend on other states, in a slightly tighter block.
 *
 * What `glob.sync` returns is passed in as `stages`; `StageGlob` says which
 * files those are. The plan is returned instead of printed.
 */
module Schedule {
  import opened Wrappers
  import opened Paths
  import opened Text
  import opened Settings
  import Manifest
  import opened Materialize

  // ---------------------------------------------------------------------------
  // What is scheduled
  // ---------------------------------------------------------------------------

  /** The stage glob lists `p`: a `stage/main.tf` at any depth below `Live`, reached through no hidden directory. */
  predicate MatchesStageGlob(tr: Path, p: Path) {
    && ValidPath(p) && IsPrefix(LiveRoot(tr), p) && |p| >= |LiveRoot(tr)| + 2
    && p[|p| - 1] == MainFile && p[|p| - 2] == "stage"
    && forall k :: |LiveRoot(tr)| <= k < |p| ==> !Hidden(p[k])
  }

  /** `stages` is what the stage glob returns on the files `m`: each match once. */
  predicate StageGlob(m: map<Path, string>, tr: Path, stages: seq<Path>) {
    && (forall i :: 0 <= i < |stages| ==> stages[i] in m && MatchesStageGlob(tr, stages[i]))
    && (forall p :: p in m && MatchesStageGlob(tr, p) ==> p in stages)
    && (forall i, j :: 0 <= i < j < |stages| ==> stages[i] != stages[j])
  }

  /** The `map(dirname)` over the glob's results. */
  function StageDirs(stages: seq<Path>): (dirs: seq<Path>)
    ensures |dirs| == |stages|
    ensures forall i :: 0 <= i < |stages| ==> dirs[i] == Dirname(stages[i])
    decreases |stages|
  {
    if stages == [] then [] else StageDirs(stages[..|stages| - 1]) + [Dirname(stages[|stages| - 1])]
  }

  /** `join(dirname(file), 'stage/dependencies.json')`. */
  function ManifestPath(dir: Path): Path {
    Dirname(dir) + ["stage", ManifestFile]
  }

  /** A directory and the remote states its manifest lists. */
  datatype Stage = Stage(dir: Path, deps: seq<string>)

  /**
   * `JSON.parse(fs.readFileSync(depPath))`: a missing manifest, or one that is
   * not a list of strings, aborts the run.
   */
  function ReadStage(m: map<Path, string>, dir: Path): (r: Result<Stage, Fault>)
    ensures r.Success? ==> r.value.dir == dir && ManifestPath(dir) in m &&
                           Manifest.ParseManifest(m[ManifestPath(dir)]) == Some(r.value.deps)
    ensures ManifestPath(dir) !in m ==> r == Failure(NoSuchFile(ManifestPath(dir)))
    ensures ManifestPath(dir) in m && Manifest.ParseManifest(m[ManifestPath(dir)]).None? ==>
            r == Failure(NotAList(ManifestPath(dir)))
  {
    var p := ManifestPath(dir);
    if p !in m then Failure(NoSuchFile(p))
    else
      match Manifest.ParseManifest(m[p])
      case None => Failure(NotAList(p))
      case Some(deps) => Success(Stage(dir, deps))
  }

  /** Reads the manifests in order; the first one that cannot be read aborts the run. */
  function ReadStages(m: map<Path, string>, dirs: seq<Path>): Result<seq<Stage>, Fault>
    decreases |dirs|
  {
    if dirs == [] then Success([])
    else
      match ReadStages(m, dirs[..|dirs| - 1])
      case Failure(e) => Failure(e)
      case Success(ss) =>
        match ReadStage(m, dirs[|dirs| - 1])
        case Failure(e) => Failure(e)
        case Success(s) => Success(ss + [s])
  }

  /**
   * Reading succeeds exactly when every manifest can be read, and then
   * gives one stage per directory, in order.
   */
  lemma {:induction false} ReadStagesAll(m: map<Path, string>, dirs: seq<Path>)
    ensures ReadStages(m, dirs).Success? <==> forall i :: 0 <= i < |dirs| ==> ReadStage(m, dirs[i]).Success?
    ensures ReadStages(m, dirs).Success? ==>
      && |ReadStages(m, dirs).value| == |dirs|
      && forall i :: 0 <= i < |dirs| ==> ReadStage(m, dirs[i]) == Success(ReadStages(m, dirs).value[i])
    decreases |dirs|
  {
    if dirs != [] {
      var init, last := dirs[..|dirs| - 1], dirs[|dirs| - 1];
      ReadStagesAll(m, init);
      assert forall i :: 0 <= i < |init| ==> init[i] == dirs[i];
      match ReadStages(m, init)
      case Failure(e) =>
        var j :| 0 <= j < |init| && ReadStage(m, init[j]).Failure?;
        assert ReadStage(m, dirs[j]).Failure?;
      case Success(ss) =>
        match ReadStage(m, last)
        case Failure(e) =>
        case Success(st) =>
          forall i | 0 <= i < |dirs|
            ensures ReadStage(m, dirs[i]) == Success((ss + [st])[i])
          {
            if i < |init| {
              assert (ss + [st])[i] == ss[i];
            }
          }
    }
  }

  /** Every manifest before one that was read successfully could be read. */
  lemma PrefixRead(m: map<Path, string>, dirs: seq<Path>, i: nat, read: seq<Stage>)
    requires i <= |dirs| && ReadStages(m, dirs[..i]) == Success(read)
    ensures forall j :: 0 <= j < i ==> ReadStage(m, dirs[j]).Success?
  {
    ReadStagesAll(m, dirs[..i]);
    assert forall j :: 0 <= j < i ==> dirs[..i][j] == dirs[j];
  }

  /** The run aborts with the fault of the first manifest that cannot be read. */
  lemma {:induction false} FirstFaultReported(m: map<Path, string>, dirs: seq<Path>, i: nat)
    requires i < |dirs| && ReadStage(m, dirs[i]).Failure?
    requires forall j :: 0 <= j < i ==> ReadStage(m, dirs[j]).Success?
    ensures ReadStages(m, dirs) == Failure(ReadStage(m, dirs[i]).error)
    decreases |dirs|
  {
    var init := dirs[..|dirs| - 1];
    if i < |dirs| - 1 {
      assert init[i] == dirs[i];
      assert forall j :: 0 <= j < i ==> init[j] == dirs[j];
      FirstFaultReported(m, init, i);
    } else {
      assert forall j :: 0 <= j < |init| ==> init[j] == dirs[j];
      ReadStagesAll(m, init);
    }
  }

  /** A manifest that cannot be read, after all before it were read, aborts the run with its fault. */
  lemma ReadFails(m: map<Path, string>, dirs: seq<Path>, i: nat, read: seq<Stage>)
    requires i < |dirs| && ReadStages(m, dirs[..i]) == Success(read) && ReadStage(m, dirs[i]).Failure?
    ensures ReadStages(m, dirs) == Failure(ReadStage(m, dirs[i]).error)
  {
    PrefixRead(m, dirs, i, read);
    FirstFaultReported(m, dirs, i);
  }

  /** Reading one more manifest extends what was read. */
  lemma ReadStagesSnoc(m: map<Path, string>, dirs: seq<Path>, i: nat, read: seq<Stage>, s: Stage)
    requires i < |dirs| && ReadStages(m, dirs[..i]) == Success(read) && ReadStage(m, dirs[i]) == Success(s)
    ensures ReadStages(m, dirs[..i + 1]) == Success(read + [s])
  {
    assert dirs[..i + 1][..i] == dirs[..i];
  }

  /**
   * Each directory read is a `stage` directory below `Live`, read through
   * its own manifest, and no directory is read twice.
   */
  lemma StagesScheduled(m: map<Path, string>, tr: Path, stages: seq<Path>)
    requires StageGlob(m, tr, stages) && ReadStages(m, StageDirs(stages)).Success?
    ensures var ss := ReadStages(m, StageDirs(stages)).value;
      && |ss| == |stages|
      && (forall i :: 0 <= i < |ss| ==>
            && ss[i].dir == Dirname(stages[i]) && ss[i].dir + [MainFile] == stages[i]
            && IsPrefix(LiveRoot(tr), ss[i].dir) && Dirname(ss[i].dir) + ["stage"] == ss[i].dir
            && ManifestPath(ss[i].dir) == ss[i].dir + [ManifestFile]
            && ReadStage(m, ss[i].dir) == Success(ss[i]))
      && (forall i, j :: 0 <= i < j < |ss| ==> ss[i].dir != ss[j].dir)
  {
    ReadStagesAll(m, StageDirs(stages));
    var ss := ReadStages(m, StageDirs(stages)).value;
    forall i | 0 <= i < |ss|
      ensures ss[i].dir == Dirname(stages[i]) && ss[i].dir + [MainFile] == stages[i]
      ensures IsPrefix(LiveRoot(tr), ss[i].dir) && Dirname(ss[i].dir) + ["stage"] == ss[i].dir
      ensures ManifestPath(ss[i].dir) == ss[i].dir + [ManifestFile]
    {
      StageDirectory(tr, stages[i]);
    }
    forall i, j | 0 <= i < j < |ss|
      ensures ss[i].dir != ss[j].dir
    {
      assert stages[i] != stages[j];
      assert ss[i].dir + [MainFile] == stages[i] && ss[j].dir + [MainFile] == stages[j];
    }
  }

  /** The directory of a stage glob match, and where its manifest lies. */
  lemma StageDirectory(tr: Path, p: Path)
    requires MatchesStageGlob(tr, p)
    ensures var dir := Dirname(p);
      && dir + [MainFile] == p && IsPrefix(LiveRoot(tr), dir) && Dirname(dir) + ["stage"] == dir
      && ManifestPath(dir) == dir + [ManifestFile]
  {
    var dir := Dirname(p);
    assert dir[|dir| - 1] == p[|p| - 2];
    assert Dirname(dir) + [dir[|dir| - 1]] == dir;
    assert LiveRoot(tr) == p[..|LiveRoot(tr)|] == dir[..|LiveRoot(tr)|];
  }

  /** Every `stage/main.tf` below `Live` has its directory scheduled. */
  lemma StagesCovered(m: map<Path, string>, tr: Path, stages: seq<Path>, p: Path)
    requires StageGlob(m, tr, stages) && ReadStages(m, StageDirs(stages)).Success?
    requires p in m && MatchesStageGlob(tr, p)
    ensures var ss := ReadStages(m, StageDirs(stages)).value;
      exists i :: 0 <= i < |ss| && ss[i].dir == Dirname(p)
  {
    ReadStagesAll(m, StageDirs(stages));
    var ss := ReadStages(m, StageDirs(stages)).value;
    var i :| 0 <= i < |stages| && stages[i] == p;
    assert ss[i].dir == Dirname(p);
  }

  /**
   * After the blueprints are materialized, the schedule reads for a
   * blueprint's `stage` directory exactly the remote states its sources
   * refer to for `stage`, unless a later blueprint or an override writes
   * into that directory too.
   */
  lemma BlueprintStageRead(cfg: Config, m: map<Path, string>, listing: map<Path, seq<Path>>,
                           mains: seq<Path>, overrides: seq<Path>, i: nat)
    requires AllReadable(m, listing, mains) && AllReadable(m, listing, overrides) && i < |mains|
    requires forall j, e :: i < j < |mains| && 0 <= e < |Envs| ==>
      BlueprintTarget(cfg.terraformRoot, mains[j], Envs[e]) != BlueprintTarget(cfg.terraformRoot, mains[i], "stage")
    requires forall j :: 0 <= j < |overrides| ==>
      OverrideTarget(cfg.terraformRoot, overrides[j]) != BlueprintTarget(cfg.terraformRoot, mains[i], "stage")
    ensures var dir := BlueprintTarget(cfg.terraformRoot, mains[i], "stage");
      var after := Materialized(cfg, m, listing, mains, overrides);
      ReadStage(after, dir) == Success(Stage(dir, Extract.Dependencies("stage", Sources(m, listing[Dirname(mains[i])]))))
  {
    assert Dirname(mains[i]) in listing && Readable(m, listing[Dirname(mains[i])]);
    BlueprintKept(cfg, m, listing, mains, overrides, i, 0);
    var dir := BlueprintTarget(cfg.terraformRoot, mains[i], "stage");
    var src := Sources(m, listing[Dirname(mains[i])]);
    var ws := BlueprintEnvWrites(cfg, m, listing, mains[i], 0);
    assert ws[1].path == ManifestPath(dir);
    Manifest.ManifestRoundTrip(Extract.Dependencies("stage", src));
  }

  // ---------------------------------------------------------------------------
  // The two sections
  // ---------------------------------------------------------------------------

  /** The directories whose manifest is empty, in discovery order. */
  function Independent(ss: seq<Stage>): seq<Path>
    decreases |ss|
  {
    if ss == [] then []
    else
      var last := ss[|ss| - 1];
      Independent(ss[..|ss| - 1]) + (if |last.deps| > 0 then [] else [last.dir])
  }

  /** The `dependent` list: the directories whose manifest is not empty, in discovery order. */
  function Dependent(ss: seq<Stage>): seq<Path>
    decreases |ss|
  {
    if ss == [] then []
    else
      var last := ss[|ss| - 1];
      Dependent(ss[..|ss| - 1]) + (if |last.deps| > 0 then [last.dir] else [])
  }

  lemma SectionsSnoc(ss: seq<Stage>, s: Stage)
    ensures Independent(ss + [s]) == Independent(ss) + (if |s.deps| > 0 then [] else [s.dir])
    ensures Dependent(ss + [s]) == Dependent(ss) + (if |s.deps| > 0 then [s.dir] else [])
  {
    assert (ss + [s])[..|ss|] == ss;
  }

  /** One more directory either extends the first section's text or joins the `dependent` list. */
  lemma SortStep(ss: seq<Stage>, s: Stage)
    ensures |s.deps| > 0 ==> IndependentEntries(Independent(ss + [s])) == IndependentEntries(Independent(ss))
    ensures |s.deps| == 0 ==>
      IndependentEntries(Independent(ss + [s])) == IndependentEntries(Independent(ss)) + IndependentEntry(s.dir)
    ensures Dependent(ss + [s]) == Dependent(ss) + (if |s.deps| > 0 then [s.dir] else [])
  {
    SectionsSnoc(ss, s);
    if |s.deps| > 0 {
      assert Independent(ss + [s]) == Independent(ss);
    } else {
      EntriesSnoc(Independent(ss), s.dir);
    }
  }

  /** The positions of the directories in one section, in increasing order. */
  function Positions(ss: seq<Stage>, dependent: bool): (ps: seq<nat>)
    ensures forall k :: 0 <= k < |ps| ==> ps[k] < |ss|
    ensures forall k, l :: 0 <= k < l < |ps| ==> ps[k] < ps[l]
    ensures forall i :: 0 <= i < |ss| ==> (i in ps <==> (|ss[i].deps| > 0) == dependent)
    decreases |ss|
  {
    if ss == [] then []
    else
      var init := Positions(ss[..|ss| - 1], dependent);
      assert forall i :: 0 <= i < |ss| - 1 ==> ss[..|ss| - 1][i] == ss[i];
      init + (if (|ss[|ss| - 1].deps| > 0) == dependent then [|ss| - 1] else [])
  }

  /** The first section lists, in discovery order, exactly the directories whose manifest is empty. */
  lemma {:induction false} IndependentAtPositions(ss: seq<Stage>)
    ensures var ps := Positions(ss, false);
      |Independent(ss)| == |ps| && forall k :: 0 <= k < |ps| ==> Independent(ss)[k] == ss[ps[k]].dir
    decreases |ss|
  {
    if ss != [] {
      var init := ss[..|ss| - 1];
      IndependentAtPositions(init);
      assert forall i :: 0 <= i < |init| ==> init[i] == ss[i];
    }
  }

  /** The second section lists, in discovery order, exactly the directories whose manifest is not empty. */
  lemma {:induction false} DependentAtPositions(ss: seq<Stage>)
    ensures var ps := Positions(ss, true);
      |Dependent(ss)| == |ps| && forall k :: 0 <= k < |ps| ==> Dependent(ss)[k] == ss[ps[k]].dir
    decreases |ss|
  {
    if ss != [] {
      var init := ss[..|ss| - 1];
      DependentAtPositions(init);
      assert forall i :: 0 <= i < |init| ==> init[i] == ss[i];
    }
  }

  /** Every directory goes to exactly one section. */
  lemma {:induction false} SectionsPartition(ss: seq<Stage>)
    ensures |Independent(ss)| + |Dependent(ss)| == |ss|
    ensures multiset(Independent(ss)) + multiset(Dependent(ss)) == multiset(Dirs(ss))
    decreases |ss|
  {
    if ss != [] {
      SectionsPartition(ss[..|ss| - 1]);
    }
  }

  /** The directories, in discovery order. */
  function Dirs(ss: seq<Stage>): (ds: seq<Path>)
    ensures |ds| == |ss| && forall i :: 0 <= i < |ss| ==> ds[i] == ss[i].dir
    decreases |ss|
  {
    if ss == [] then [] else Dirs(ss[..|ss| - 1]) + [ss[|ss| - 1].dir]
  }

  // ---------------------------------------------------------------------------
  // The plan text
  // ---------------------------------------------------------------------------

  const MarkerLine := "### HAS DEPENDENCIES ###"
  const InitLine := "terraform init"
  const ApplyLine := "terraform apply -auto-approve"

  /** Lines between a leading and a trailing newline. */
  function Block(lines: seq<string>): string {
    "\n" + JoinLines(lines) + "\n"
  }

  /** The marker between the sections. */
  function Marker(): string {
    "\n" + MarkerLine + "\n"
  }

  function CdLine(dir: Path): string {
    "cd " + Render(dir)
  }

  /** The entry of an independent directory: a blank line between `init` and `apply`. */
  function IndependentEntry(dir: Path): string {
    "\n" + CdLine(dir) + "\n" + "\n" + InitLine + "\n" + "\n" + ApplyLine + "\n"
  }

  /** The entry of a dependent directory: `init` and `apply` on consecutive lines. */
  function DependentEntry(dir: Path): string {
    "\n" + CdLine(dir) + "\n" + "\n" + InitLine + "\n" + ApplyLine + "\n"
  }

  /** The first `reduce`: the entries of the independent directories, in order. */
  function IndependentEntries(ds: seq<Path>): string
    decreases |ds|
  {
    if ds == [] then "" else IndependentEntries(ds[..|ds| - 1]) + IndependentEntry(ds[|ds| - 1])
  }

  /** The second `reduce`: the entries of the dependent directories, in order. */
  function DependentEntries(ds: seq<Path>): string
    decreases |ds|
  {
    if ds == [] then "" else DependentEntries(ds[..|ds| - 1]) + DependentEntry(ds[|ds| - 1])
  }

  lemma EntriesSnoc(ds: seq<Path>, d: Path)
    ensures IndependentEntries(ds + [d]) == IndependentEntries(ds) + IndependentEntry(d)
    ensures DependentEntries(ds + [d]) == DependentEntries(ds) + DependentEntry(d)
  {
    assert (ds + [d])[..|ds|] == ds;
  }

  /** The plan for directories whose manifests have been read. */
  function Plan(ss: seq<Stage>): string {
    IndependentEntries(Independent(ss)) + Marker() + DependentEntries(Dependent(ss))
  }

  /** The plan for the directories the glob found, or the first read fault. */
  function ScheduleOf(m: map<Path, string>, stages: seq<Path>): Result<string, Fault> {
    match ReadStages(m, StageDirs(stages))
    case Failure(e) => Failure(e)
    case Success(ss) => Success(Plan(ss))
  }

  /**
   * `getDeploymentSchema({ terraformRoot })`, with the glob's results given,
   * and with the intended default for a missing root.
   */
  function DeploymentSchema(m: map<Path, string>, root: Option<Path>, stages: seq<Path>): Result<string, Fault> {
    match ResolveScheduleRoot(root)
    case Failure(e) => Failure(e)
    case Success(_) => ScheduleOf(m, stages)
  }

  /** `getDeploymentSchema` as written: its default for a missing root calls an identifier never imported. */
  function DeploymentSchemaAsWritten(m: map<Path, string>, root: Option<Path>, stages: seq<Path>)
    : Result<string, Fault>
  {
    match ResolveScheduleRootAsWritten(root)
    case Failure(e) => Failure(e)
    case Success(_) => ScheduleOf(m, stages)
  }

  /**
   * The entry as written and the corrected one agree whenever a root is
   * supplied; without one, the former throws a `ReferenceError` where the
   * latter names the missing parameter.
   */
  lemma DeploymentSchemaDefault(m: map<Path, string>, root: Option<Path>, stages: seq<Path>)
    ensures root.Some? ==> DeploymentSchemaAsWritten(m, root, stages) == DeploymentSchema(m, root, stages)
    ensures root.None? ==> DeploymentSchemaAsWritten(m, root, stages) == Failure(NotDefined("requiredParam"))
    ensures root.None? ==> DeploymentSchema(m, root, stages) == Failure(MissingParameter("terraformRoot"))
  {
  }

  // ---------------------------------------------------------------------------
  // The plan, line by line
  // ---------------------------------------------------------------------------

  /** The lines of an independent entry. */
  function IndependentLines(dir: Path): seq<string> {
    [CdLine(dir), "", InitLine, "", ApplyLine]
  }

  /** The lines of a dependent entry. */
  function DependentLines(dir: Path): seq<string> {
    [CdLine(dir), "", InitLine, ApplyLine]
  }

  /** Each entry, and the marker, is a block of lines between two newlines. */
  lemma EntriesAreBlocks(dir: Path)
    ensures IndependentEntry(dir) == Block(IndependentLines(dir))
    ensures DependentEntry(dir) == Block(DependentLines(dir))
    ensures Marker() == Block([MarkerLine])
  {
    IndependentIsBlock(dir);
    DependentIsBlock(dir);
  }

  lemma IndependentIsBlock(dir: Path)
    ensures IndependentEntry(dir) == Block(IndependentLines(dir))
  {
    FiveLines(CdLine(dir), InitLine, ApplyLine);
  }

  lemma DependentIsBlock(dir: Path)
    ensures DependentEntry(dir) == Block(DependentLines(dir))
  {
    FourLines(CdLine(dir), InitLine, ApplyLine);
  }

  /** Five lines, the second and fourth empty, joined into a block. */
  lemma FiveLines(c: string, i: string, a: string)
    ensures "\n" + c + "\n" + "\n" + i + "\n" + "\n" + a + "\n" == Block([c, "", i, "", a])
  {
    assert JoinLines([a]) == a;
    assert ["", a][1..] == [a];
    assert JoinLines(["", a]) == "\n" + a;
    assert [i, "", a][1..] == ["", a];
    assert JoinLines([i, "", a]) == i + "\n" + ("\n" + a);
    assert ["", i, "", a][1..] == [i, "", a];
    var j4 := JoinLines(["", i, "", a]);
    assert j4 == "\n" + (i + "\n" + ("\n" + a));
    assert [c, "", i, "", a][1..] == ["", i, "", a];
    assert JoinLines([c, "", i, "", a]) == c + "\n" + j4;
  }

  /** Four lines, the second empty, joined into a block. */
  lemma FourLines(c: string, i: string, a: string)
    ensures "\n" + c + "\n" + "\n" + i + "\n" + a + "\n" == Block([c, "", i, a])
  {
    assert JoinLines([a]) == a;
    assert [i, a][1..] == [a];
    var k2 := JoinLines([i, a]);
    assert k2 == i + "\n" + a;
    assert ["", i, a][1..] == [i, a];
    var k3 := JoinLines(["", i, a]);
    assert k3 == "\n" + k2;
    assert [c, "", i, a][1..] == ["", i, a];
    assert JoinLines([c, "", i, a]) == c + "\n" + k3;
  }

  lemma NotCd(s: string)
    requires |s| > 0 && s[0] != 'c'
    ensures !StartsWith(s, "cd ")
  {
  }

  /** Appending a block adds its lines and an empty line after them. */
  lemma SplitBlock(t: string, lines: seq<string>)
    requires |lines| >= 1 && forall i :: 0 <= i < |lines| ==> '\n' !in lines[i]
    ensures SplitLines(t + Block(lines)) == SplitLines(t) + lines + [""]
  {
    var j := JoinLines(lines);
    assert t + Block(lines) == t + "\n" + (j + "\n");
    SplitLinesAppend(t, j + "\n");
    assert j + "\n" == j + "\n" + "";
    SplitLinesAppend(j, "");
    SplitJoin(lines);
  }

  /** No line of an entry holds a line break when the directory's name does not. */
  lemma EntryLinesOneLine(dir: Path)
    requires '\n' !in Render(dir)
    ensures forall i :: 0 <= i < |IndependentLines(dir)| ==> '\n' !in IndependentLines(dir)[i]
    ensures forall i :: 0 <= i < |DependentLines(dir)| ==> '\n' !in DependentLines(dir)[i]
  {
    assert forall i :: 0 <= i < |InitLine| ==> InitLine[i] != '\n';
    assert forall i :: 0 <= i < |ApplyLine| ==> ApplyLine[i] != '\n';
    assert '\n' !in "cd ";
  }

  /** The lines the first section adds. */
  function IndependentPlanLines(ds: seq<Path>): seq<string>
    decreases |ds|
  {
    if ds == [] then [] else IndependentPlanLines(ds[..|ds| - 1]) + IndependentLines(ds[|ds| - 1]) + [""]
  }

  /** The lines the second section adds. */
  function DependentPlanLines(ds: seq<Path>): seq<string>
    decreases |ds|
  {
    if ds == [] then [] else DependentPlanLines(ds[..|ds| - 1]) + DependentLines(ds[|ds| - 1]) + [""]
  }

  /** No rendered directory holds a line break. */
  predicate OneLineDirs(ds: seq<Path>) {
    forall i :: 0 <= i < |ds| ==> '\n' !in Render(ds[i])
  }

  /** Appending one entry adds its lines and an empty line after them. */
  lemma SplitIndependentEntry(u: string, dir: Path)
    requires '\n' !in Render(dir)
    ensures SplitLines(u + IndependentEntry(dir)) == SplitLines(u) + (IndependentLines(dir) + [""])
  {
    EntriesAreBlocks(dir);
    EntryLinesOneLine(dir);
    SplitBlock(u, IndependentLines(dir));
    ConcatAssoc(SplitLines(u), IndependentLines(dir), [""]);
  }

  lemma SplitDependentEntry(u: string, dir: Path)
    requires '\n' !in Render(dir)
    ensures SplitLines(u + DependentEntry(dir)) == SplitLines(u) + (DependentLines(dir) + [""])
  {
    EntriesAreBlocks(dir);
    EntryLinesOneLine(dir);
    SplitBlock(u, DependentLines(dir));
    ConcatAssoc(SplitLines(u), DependentLines(dir), [""]);
  }

  lemma {:induction false} SplitIndependentEntries(t: string, ds: seq<Path>)
    requires OneLineDirs(ds)
    ensures SplitLines(t + IndependentEntries(ds)) == SplitLines(t) + IndependentPlanLines(ds)
    decreases |ds|
  {
    if ds == [] {
      assert t + IndependentEntries(ds) == t;
    } else {
      var init, last := ds[..|ds| - 1], ds[|ds| - 1];
      assert OneLineDirs(init) by {
        assert forall i :: 0 <= i < |init| ==> init[i] == ds[i];
      }
      var tail := IndependentLines(last) + [""];
      SplitIndependentEntries(t, init);
      ConcatAssoc(t, IndependentEntries(init), IndependentEntry(last));
      SplitIndependentEntry(t + IndependentEntries(init), last);
      ConcatAssoc(SplitLines(t), IndependentPlanLines(init), tail);
      ConcatAssoc(IndependentPlanLines(init), IndependentLines(last), [""]);
      assert IndependentPlanLines(ds) == IndependentPlanLines(init) + tail;
      assert t + IndependentEntries(ds) == (t + IndependentEntries(init)) + IndependentEntry(last);
    }
  }

  lemma {:induction false} SplitDependentEntries(t: string, ds: seq<Path>)
    requires OneLineDirs(ds)
    ensures SplitLines(t + DependentEntries(ds)) == SplitLines(t) + DependentPlanLines(ds)
    decreases |ds|
  {
    if ds == [] {
      assert t + DependentEntries(ds) == t;
    } else {
      var init, last := ds[..|ds| - 1], ds[|ds| - 1];
      assert OneLineDirs(init) by {
        assert forall i :: 0 <= i < |init| ==> init[i] == ds[i];
      }
      var tail := DependentLines(last) + [""];
      SplitDependentEntries(t, init);
      ConcatAssoc(t, DependentEntries(init), DependentEntry(last));
      SplitDependentEntry(t + DependentEntries(init), last);
      ConcatAssoc(SplitLines(t), DependentPlanLines(init), tail);
      ConcatAssoc(DependentPlanLines(init), DependentLines(last), [""]);
      assert DependentPlanLines(ds) == DependentPlanLines(init) + tail;
      assert t + DependentEntries(ds) == (t + DependentEntries(init)) + DependentEntry(last);
    }
  }

  /** The sections hold directories of `ss` only. */
  lemma SectionsFromStages(ss: seq<Stage>)
    requires forall i :: 0 <= i < |ss| ==> '\n' !in Render(ss[i].dir)
    ensures OneLineDirs(Independent(ss)) && OneLineDirs(Dependent(ss))
  {
    IndependentAtPositions(ss);
    DependentAtPositions(ss);
  }

  /**
   * The plan's lines: an empty line, the independent entries, the marker,
   * then the dependent entries; each entry followed by an empty line.
   */
  lemma PlanLines(ss: seq<Stage>)
    requires forall i :: 0 <= i < |ss| ==> '\n' !in Render(ss[i].dir)
    ensures SplitLines(Plan(ss)) ==
      [""] + IndependentPlanLines(Independent(ss)) + [MarkerLine, ""] + DependentPlanLines(Dependent(ss))
  {
    var ind, dep := Independent(ss), Dependent(ss);
    var a := IndependentEntries(ind);
    SectionsFromStages(ss);
    SplitIndependentEntries("", ind);
    assert "" + a == a;
    SplitMarker(a);
    SplitDependentEntries(a + Marker(), dep);
  }

  lemma SplitMarker(t: string)
    ensures SplitLines(t + Marker()) == SplitLines(t) + [MarkerLine, ""]
  {
    EntriesAreBlocks([]);
    MarkerOneLine();
    SplitBlock(t, [MarkerLine]);
  }

  lemma MarkerOneLine()
    ensures '\n' !in MarkerLine
  {
    assert forall i :: 0 <= i < |MarkerLine| ==> MarkerLine[i] != '\n';
  }

  /** The directories the `cd` lines change into, in order. */
  function CdTargets(lines: seq<string>): seq<string>
    decreases |lines|
  {
    if lines == [] then []
    else
      var last := lines[|lines| - 1];
      CdTargets(lines[..|lines| - 1]) + (if StartsWith(last, "cd ") then [last[3..]] else [])
  }

  lemma {:induction false} CdTargetsAppend(a: seq<string>, b: seq<string>)
    ensures CdTargets(a + b) == CdTargets(a) + CdTargets(b)
    decreases |b|
  {
    if b == [] {
      assert a + b == a;
    } else {
      assert (a + b)[..|a + b| - 1] == a + b[..|b| - 1];
      CdTargetsAppend(a, b[..|b| - 1]);
    }
  }

  /** The rendered directories, in order. */
  function Renders(ds: seq<Path>): (rs: seq<string>)
    ensures |rs| == |ds| && forall i :: 0 <= i < |ds| ==> rs[i] == Render(ds[i])
    decreases |ds|
  {
    if ds == [] then [] else Renders(ds[..|ds| - 1]) + [Render(ds[|ds| - 1])]
  }

  lemma {:induction false} NoCdTargets(lines: seq<string>)
    requires forall i :: 0 <= i < |lines| ==> !StartsWith(lines[i], "cd ")
    ensures CdTargets(lines) == []
    decreases |lines|
  {
    if lines != [] {
      NoCdTargets(lines[..|lines| - 1]);
    }
  }

  lemma CdLineTarget(dir: Path)
    ensures CdTargets([CdLine(dir)]) == [Render(dir)]
  {
    var c := CdLine(dir);
    assert StartsWith(c, "cd ") && c[3..] == Render(dir);
    var none: seq<string> := [];
    assert [c][..0] == none;
  }

  lemma CdTargetsOfEntry(dir: Path)
    ensures CdTargets(IndependentLines(dir) + [""]) == [Render(dir)]
    ensures CdTargets(DependentLines(dir) + [""]) == [Render(dir)]
  {
    CdLineTarget(dir);
    NotCd(InitLine);
    NotCd(ApplyLine);
    CdTargetsOfIndependent(dir);
    CdTargetsOfDependent(dir);
  }

  lemma CdTargetsOfIndependent(dir: Path)
    requires CdTargets([CdLine(dir)]) == [Render(dir)]
    requires !StartsWith(InitLine, "cd ") && !StartsWith(ApplyLine, "cd ")
    ensures CdTargets(IndependentLines(dir) + [""]) == [Render(dir)]
  {
    var c := CdLine(dir);
    NoCdTargets(["", InitLine, "", ApplyLine, ""]);
    CdTargetsAppend([c], ["", InitLine, "", ApplyLine, ""]);
    assert [c] + ["", InitLine, "", ApplyLine, ""] == IndependentLines(dir) + [""];
  }

  lemma CdTargetsOfDependent(dir: Path)
    requires CdTargets([CdLine(dir)]) == [Render(dir)]
    requires !StartsWith(InitLine, "cd ") && !StartsWith(ApplyLine, "cd ")
    ensures CdTargets(DependentLines(dir) + [""]) == [Render(dir)]
  {
    var c := CdLine(dir);
    NoCdTargets(["", InitLine, ApplyLine, ""]);
    CdTargetsAppend([c], ["", InitLine, ApplyLine, ""]);
    assert [c] + ["", InitLine, ApplyLine, ""] == DependentLines(dir) + [""];
  }

  /** The first section's `cd` lines change into its directories, in order. */
  lemma {:induction false} IndependentPlanCds(ds: seq<Path>)
    ensures CdTargets(IndependentPlanLines(ds)) == Renders(ds)
    decreases |ds|
  {
    if ds != [] {
      var init, last := ds[..|ds| - 1], ds[|ds| - 1];
      IndependentPlanCds(init);
      CdTargetsOfEntry(last);
      ConcatAssoc(IndependentPlanLines(init), IndependentLines(last), [""]);
      CdTargetsAppend(IndependentPlanLines(init), IndependentLines(last) + [""]);
    }
  }

  /** The second section's `cd` lines change into its directories, in order. */
  lemma {:induction false} DependentPlanCds(ds: seq<Path>)
    ensures CdTargets(DependentPlanLines(ds)) == Renders(ds)
    decreases |ds|
  {
    if ds != [] {
      var init, last := ds[..|ds| - 1], ds[|ds| - 1];
      DependentPlanCds(init);
      CdTargetsOfEntry(last);
      ConcatAssoc(DependentPlanLines(init), DependentLines(last), [""]);
      CdTargetsAppend(DependentPlanLines(init), DependentLines(last) + [""]);
    }
  }

  /** A line that is empty or does not start with '#' is not the marker. */
  predicate NotMarker(line: string) {
    line == [] || line[0] != '#'
  }

  /** No line of an entry is the marker. */
  lemma EntriesNotMarker(dir: Path)
    ensures forall i :: 0 <= i < |IndependentLines(dir) + [""]| ==> NotMarker((IndependentLines(dir) + [""])[i])
    ensures forall i :: 0 <= i < |DependentLines(dir) + [""]| ==> NotMarker((DependentLines(dir) + [""])[i])
  {
    assert CdLine(dir)[0] == 'c' && InitLine[0] == 't' && ApplyLine[0] == 't';
  }

  lemma NotMarkerAppend(a: seq<string>, b: seq<string>)
    requires forall i :: 0 <= i < |a| ==> NotMarker(a[i])
    requires forall i :: 0 <= i < |b| ==> NotMarker(b[i])
    ensures forall i :: 0 <= i < |a + b| ==> NotMarker((a + b)[i])
  {
    forall i | 0 <= i < |a + b| ensures NotMarker((a + b)[i]) {
      if i >= |a| {
        assert (a + b)[i] == b[i - |a|];
      }
    }
  }

  lemma {:induction false} IndependentPlanNotMarker(ds: seq<Path>)
    ensures forall i :: 0 <= i < |IndependentPlanLines(ds)| ==> NotMarker(IndependentPlanLines(ds)[i])
    decreases |ds|
  {
    if ds != [] {
      var init, last := ds[..|ds| - 1], ds[|ds| - 1];
      IndependentPlanNotMarker(init);
      EntriesNotMarker(last);
      ConcatAssoc(IndependentPlanLines(init), IndependentLines(last), [""]);
      NotMarkerAppend(IndependentPlanLines(init), IndependentLines(last) + [""]);
    }
  }

  lemma {:induction false} DependentPlanNotMarker(ds: seq<Path>)
    ensures forall i :: 0 <= i < |DependentPlanLines(ds)| ==> NotMarker(DependentPlanLines(ds)[i])
    decreases |ds|
  {
    if ds != [] {
      var init, last := ds[..|ds| - 1], ds[|ds| - 1];
      DependentPlanNotMarker(init);
      EntriesNotMarker(last);
      ConcatAssoc(DependentPlanLines(init), DependentLines(last), [""]);
      NotMarkerAppend(DependentPlanLines(init), DependentLines(last) + [""]);
    }
  }

  /** Lines none of which is the marker do not hold it. */
  lemma MarkerAbsent(lines: seq<string>)
    requires forall i :: 0 <= i < |lines| ==> NotMarker(lines[i])
    ensures MarkerLine !in lines
  {
    assert MarkerLine[0] == '#';
  }

  /**
   * The marker line occurs exactly once in the plan, even with no
   * directories. The `cd` lines above it change, in discovery order, into
   * exactly the directories with an empty manifest; those below it into
   * exactly the others; so each section has as many entries as it has
   * directories.
   */
  lemma PlanSections(ss: seq<Stage>)
    requires forall i :: 0 <= i < |ss| ==> '\n' !in Render(ss[i].dir)
    ensures var lines := SplitLines(Plan(ss));
      exists k :: 0 <= k < |lines| && lines[k] == MarkerLine
        && (forall j :: 0 <= j < |lines| && lines[j] == MarkerLine ==> j == k)
        && CdTargets(lines[..k]) == Renders(Independent(ss))
        && CdTargets(lines[k + 1..]) == Renders(Dependent(ss))
        && |CdTargets(lines[..k])| == |Positions(ss, false)|
        && |CdTargets(lines[k + 1..])| == |Positions(ss, true)|
  {
    var lines := SplitLines(Plan(ss));
    var before, after := FirstSectionLines(ss), SecondSectionLines(ss);
    PlanLines(ss);
    LinesAround([""] + IndependentPlanLines(Independent(ss)), MarkerLine, DependentPlanLines(Dependent(ss)));
    SectionFacts(ss);
    MarkerOnce(before, after);
    var k := |before|;
    assert lines[k] == MarkerLine && lines[..k] == before && lines[k + 1..] == after;
  }

  /** The lines above the marker. */
  function FirstSectionLines(ss: seq<Stage>): seq<string> {
    [""] + IndependentPlanLines(Independent(ss))
  }

  /** The lines below the marker. */
  function SecondSectionLines(ss: seq<Stage>): seq<string> {
    [""] + DependentPlanLines(Dependent(ss))
  }

  lemma SectionFacts(ss: seq<Stage>)
    ensures CdTargets(FirstSectionLines(ss)) == Renders(Independent(ss)) && MarkerLine !in FirstSectionLines(ss)
    ensures CdTargets(SecondSectionLines(ss)) == Renders(Dependent(ss)) && MarkerLine !in SecondSectionLines(ss)
    ensures |Renders(Independent(ss))| == |Positions(ss, false)| && |Renders(Dependent(ss))| == |Positions(ss, true)|
  {
    var ind, dep := Independent(ss), Dependent(ss);
    IndependentPlanCds(ind);
    DependentPlanCds(dep);
    CdTargetsAppend([""], IndependentPlanLines(ind));
    CdTargetsAppend([""], DependentPlanLines(dep));
    assert CdTargets([""]) == [];
    IndependentPlanNotMarker(ind);
    DependentPlanNotMarker(dep);
    NotMarkerAppend([""], IndependentPlanLines(ind));
    NotMarkerAppend([""], DependentPlanLines(dep));
    MarkerAbsent(FirstSectionLines(ss));
    MarkerAbsent(SecondSectionLines(ss));
    IndependentAtPositions(ss);
    DependentAtPositions(ss);
  }

  lemma LinesAround(x: seq<string>, m: string, y: seq<string>)
    ensures x + [m, ""] + y == x + [m] + ([""] + y)
  {
  }

  /** A line that neither part holds occurs once between them. */
  lemma MarkerOnce(before: seq<string>, after: seq<string>)
    requires MarkerLine !in before && MarkerLine !in after
    ensures var lines, k := before + [MarkerLine] + after, |before|;
      lines[k] == MarkerLine && lines[..k] == before && lines[k + 1..] == after
      && forall j :: 0 <= j < |lines| && lines[j] == MarkerLine ==> j == k
  {
    var lines, k := before + [MarkerLine] + after, |before|;
    assert lines[..k] == before && lines[k + 1..] == after;
  }

  // ---------------------------------------------------------------------------
  // The imperative reading of the source
  // ---------------------------------------------------------------------------

  /**
   * The first `reduce`: reads each manifest in turn and either appends the
   * directory's entry to `schema` or pushes the directory onto `dependent`;
   * a manifest that cannot be read aborts it.
   */
  method SortStages(tree: FileTree, files: seq<Path>) returns (fault: Option<Fault>, schema: string, dependent: seq<Path>)
    ensures ReadStages(tree.files, files).Failure? ==> fault == Some(ReadStages(tree.files, files).error)
    ensures ReadStages(tree.files, files).Success? ==>
      && fault == None
      && schema == IndependentEntries(Independent(ReadStages(tree.files, files).value))
      && dependent == Dependent(ReadStages(tree.files, files).value)
  {
    schema, dependent := "", [];
    ghost var read: seq<Stage> := [];
    for i := 0 to |files|
      invariant ReadStages(tree.files, files[..i]) == Success(read)
      invariant schema == IndependentEntries(Independent(read))
      invariant dependent == Dependent(read)
    {
      var depPath := ManifestPath(files[i]);
      if depPath !in tree.files {
        ReadFails(tree.files, files, i, read);
        return Some(NoSuchFile(depPath)), schema, dependent;
      }
      var text := tree.ReadFile(depPath);
      var parsed := Manifest.ParseManifest(text);
      if parsed.None? {
        ReadFails(tree.files, files, i, read);
        return Some(NotAList(depPath)), schema, dependent;
      }
      var dependencies := parsed.value;
      SortStep(read, Stage(files[i], dependencies));
      ReadStagesSnoc(tree.files, files, i, read, Stage(files[i], dependencies));
      if |dependencies| > 0 {
        dependent := dependent + [files[i]];
      } else {
        schema := schema + IndependentEntry(files[i]);
      }
      read := read + [Stage(files[i], dependencies)];
    }
    assert files[..|files|] == files;
    fault := None;
  }

  /** The second `reduce`: the entries of the dependent directories. */
  method DependentBlock(dependent: seq<Path>) returns (tail: string)
    ensures tail == DependentEntries(dependent)
  {
    tail := "";
    for i := 0 to |dependent|
      invariant tail == DependentEntries(dependent[..i])
    {
      assert dependent[..i + 1] == dependent[..i] + [dependent[i]];
      EntriesSnoc(dependent[..i], dependent[i]);
      tail := tail + DependentEntry(dependent[i]);
    }
    assert dependent[..|dependent|] == dependent;
  }

  /**
   * `getDeploymentSchema`: the first `reduce`, the marker, then the entries
   * of `dependent`.
   */
  method GetDeploymentSchema(tree: FileTree, root: Option<Path>, stages: seq<Path>) returns (r: Result<string, Fault>)
    ensures r == DeploymentSchema(tree.files, root, stages)
  {
    var resolved := ResolveScheduleRoot(root);
    if resolved.Failure? {
      return Failure(resolved.error);
    }
    var files := StageDirs(stages);
    var fault, schema, dependent := SortStages(tree, files);
    if fault.Some? {
      return Failure(fault.value);
    }
    schema := schema + Marker();
    var tail := DependentBlock(dependent);
    schema := schema + tail;
    return Success(schema);
  }
}
