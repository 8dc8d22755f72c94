/**
 * The configuration both entry points take, and the way a missing value
 * aborts a run. A parameter left out of the call is `None`; the default
 * expression `requiredParam(name)` then throws, and since JavaScript evaluates
 * default values from left to right, the first missing parameter is the one
 * the error names.
 */
module Settings {
  import opened Wrappers
  import opened Paths

  /** Why a run aborts. */
  datatype Fault =
    | MissingParameter(name: string)  // `requiredParam(name)` threw
    | NotDefined(identifier: string)  // a ReferenceError: the identifier is not in scope
    | NoSuchFile(path: Path)          // a read of a file that does not exist
    | NotAList(path: Path)            // a dependency manifest that is not a list

  /** The arguments of `projectBlueprints`, each possibly left out. */
  datatype Options = Options(
    terraformRoot: Option<Path>,
    stateBucket: Option<string>,
    stateBucketRegion: Option<string>,
    role: Option<string>)

  /** The configuration once every parameter is known. */
  datatype Config = Config(terraformRoot: Path, stateBucket: string, stateBucketRegion: string, role: string)

  /** The parameters in the order their defaults are evaluated. */
  const ParamNames: seq<string> := ["terraformRoot", "stateBucket", "stateBucketRegion", "role"]

  /** The `i`-th parameter, in declaration order, was supplied. */
  predicate Supplied(o: Options, i: nat) {
    match i
    case 0 => o.terraformRoot.Some?
    case 1 => o.stateBucket.Some?
    case 2 => o.stateBucketRegion.Some?
    case 3 => o.role.Some?
    case _ => true
  }

  /**
   * Evaluation of the parameter defaults of `projectBlueprints`: the run
   * proceeds exactly when all four are supplied, and otherwise fails naming
   * the first one missing.
   */
  function ResolveOptions(o: Options): (r: Result<Config, Fault>)
    ensures r.Success? <==> forall i :: 0 <= i < 4 ==> Supplied(o, i)
    ensures r.Success? ==>
      o.terraformRoot.Some? && o.stateBucket.Some? && o.stateBucketRegion.Some? && o.role.Some? &&
      r.value == Config(o.terraformRoot.value, o.stateBucket.value, o.stateBucketRegion.value, o.role.value)
    ensures r.Failure? ==> exists i :: 0 <= i < 4 && r.error == MissingParameter(ParamNames[i]) &&
                                   !Supplied(o, i) && forall j :: 0 <= j < i ==> Supplied(o, j)
  {
    if o.terraformRoot.None? then
      assert Supplied(o, 0) == false;
      Failure(MissingParameter("terraformRoot"))
    else if o.stateBucket.None? then
      assert Supplied(o, 1) == false;
      Failure(MissingParameter("stateBucket"))
    else if o.stateBucketRegion.None? then
      assert Supplied(o, 2) == false;
      Failure(MissingParameter("stateBucketRegion"))
    else if o.role.None? then
      assert Supplied(o, 3) == false;
      Failure(MissingParameter("role"))
    else
      Success(Config(o.terraformRoot.value, o.stateBucket.value, o.stateBucketRegion.value, o.role.value))
  }

  /**
   * The default of `getDeploymentSchema`'s only parameter as written: the
   * module calls `requiredParam` without importing it, so a missing root
   * fails with a ReferenceError about `requiredParam` instead.
   */
  function ResolveScheduleRootAsWritten(root: Option<Path>): (r: Result<Path, Fault>)
    ensures root.Some? ==> r == Success(root.value)
  {
    if root.None? then Failure(NotDefined("requiredParam")) else Success(root.value)
  }

  /** The intended behaviour: a missing root is reported by name, as in `projectBlueprints`. */
  function ResolveScheduleRoot(root: Option<Path>): (r: Result<Path, Fault>)
    ensures root.Some? ==> r == Success(root.value)
    ensures root.None? ==> r == Failure(MissingParameter(ParamNames[0]))
  {
    if root.None? then Failure(MissingParameter("terraformRoot")) else Success(root.value)
  }

  /** Without its root, the schedule as written does not name the missing parameter. */
  lemma ScheduleRootErrorUnnamed()
    ensures ResolveScheduleRootAsWritten(None).Failure?
    ensures !ResolveScheduleRootAsWritten(None).error.MissingParameter?
    ensures ResolveScheduleRoot(None).error == MissingParameter("terraformRoot")
  {
  }
}
