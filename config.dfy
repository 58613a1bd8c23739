/**
 * `Configuration::check`: the validation of a simulation configuration.
 *
 * The checks run in a fixed order and the first one that fails is reported.
 * Whether a path names an existing file or directory is a question to the
 * filesystem; here the answers are the inputs `isFile` and `isDir`.
 */
module Config {
  import opened Wrappers

  /** The fields of the JSON configuration file. */
  datatype Configuration = Configuration(
    massDistrFilePath: string,
    outputDirectoryPath: string,
    framesNumber: nat,
    simulationFactor: nat,
    targetResolution: nat,
    flowFieldScale: real,
    dynamizeFlowField: bool,
    randomizeFlowField: bool)

  /** The filesystem as seen by the check: which paths are files, which are directories. */
  datatype FileSystem = FileSystem(isFile: string -> bool, isDir: string -> bool)

  /** The reasons a configuration is rejected, in the order they are checked. */
  datatype ConfigError =
    | EmptyMassDistrPath
    | MassDistrFileMissing(path: string)
    | EmptyOutputDirectoryPath
    | OutputDirectoryMissing(path: string)
    | ZeroSimulationFactor
    | ScaleBelowOne
    | UnsupportedResolution

  /** The target resolutions (vertical lines) the simulation can render. */
  const SupportedResolutions: set<nat> := {480, 720, 1080, 1440, 2160}

  /** The number of checks. */
  const CheckCount: nat := 7

  /** Check number `k` (0-based, in the order they run) passes. */
  predicate Holds(c: Configuration, fs: FileSystem, k: nat)
    requires k < CheckCount
  {
    match k
    case 0 => c.massDistrFilePath != ""
    case 1 => fs.isFile(c.massDistrFilePath)
    case 2 => c.outputDirectoryPath != ""
    case 3 => fs.isDir(c.outputDirectoryPath)
    case 4 => c.simulationFactor != 0
    case 5 => c.flowFieldScale >= 1.0
    case _ => c.targetResolution in SupportedResolutions
  }

  /** The error reported when check number `k` fails. */
  function ErrorOf(c: Configuration, k: nat): ConfigError
    requires k < CheckCount
  {
    match k
    case 0 => EmptyMassDistrPath
    case 1 => MassDistrFileMissing(c.massDistrFilePath)
    case 2 => EmptyOutputDirectoryPath
    case 3 => OutputDirectoryMissing(c.outputDirectoryPath)
    case 4 => ZeroSimulationFactor
    case 5 => ScaleBelowOne
    case _ => UnsupportedResolution
  }

  /** Check number `k` is the first to fail. */
  predicate FirstFailure(c: Configuration, fs: FileSystem, k: nat)
  {
    k < CheckCount && !Holds(c, fs, k) && forall m :: 0 <= m < k ==> Holds(c, fs, m)
  }

  /** Every check holds. */
  predicate Acceptable(c: Configuration, fs: FileSystem)
  {
    forall k :: 0 <= k < CheckCount ==> Holds(c, fs, k)
  }

  /**
   * `Configuration::check`: the chain of early returns. A configuration it
   * passes has a positive simulation factor, a scale of at least 1.0 and a
   * supported resolution, which is what the driver relies on.
   */
  function Check(c: Configuration, fs: FileSystem): (r: Outcome<ConfigError>)
    ensures r == Pass ==> c.simulationFactor > 0 && c.flowFieldScale >= 1.0
    ensures r == Pass ==> c.targetResolution in SupportedResolutions
  {
    if c.massDistrFilePath == "" then Fail(EmptyMassDistrPath)
    else if !fs.isFile(c.massDistrFilePath) then Fail(MassDistrFileMissing(c.massDistrFilePath))
    else if c.outputDirectoryPath == "" then Fail(EmptyOutputDirectoryPath)
    else if !fs.isDir(c.outputDirectoryPath) then Fail(OutputDirectoryMissing(c.outputDirectoryPath))
    else if c.simulationFactor == 0 then Fail(ZeroSimulationFactor)
    else if c.flowFieldScale < 1.0 then Fail(ScaleBelowOne)
    else if c.targetResolution !in SupportedResolutions then Fail(UnsupportedResolution)
    else Pass
  }

  /** A rejection reports the first check that fails, and only that one. */
  lemma CheckReportsFirstFailure(c: Configuration, fs: FileSystem, e: ConfigError)
    ensures Check(c, fs) == Fail(e) <==> exists k :: FirstFailure(c, fs, k) && e == ErrorOf(c, k)
  {
    if Check(c, fs) == Fail(e) {
      var k := FailingIndex(c, fs);
      assert FirstFailure(c, fs, k) && e == ErrorOf(c, k);
    }
    if exists k :: FirstFailure(c, fs, k) && e == ErrorOf(c, k) {
      var k :| FirstFailure(c, fs, k) && e == ErrorOf(c, k);
      var k' := FailingIndex(c, fs);
      assert k == k';
    }
  }

  /** The configuration is accepted exactly when every check holds. */
  lemma CheckAccepts(c: Configuration, fs: FileSystem)
    ensures Check(c, fs) == Pass <==> Acceptable(c, fs)
  {
    if Check(c, fs) != Pass {
      var k := FailingIndex(c, fs);
      assert !Holds(c, fs, k);
    }
  }

  /** The position of the check that makes `Check` fail. */
  function FailingIndex(c: Configuration, fs: FileSystem): (k: nat)
    requires Check(c, fs).Fail?
    ensures FirstFailure(c, fs, k) && Check(c, fs) == Fail(ErrorOf(c, k))
  {
    if c.massDistrFilePath == "" then 0
    else if !fs.isFile(c.massDistrFilePath) then 1
    else if c.outputDirectoryPath == "" then 2
    else if !fs.isDir(c.outputDirectoryPath) then 3
    else if c.simulationFactor == 0 then 4
    else if c.flowFieldScale < 1.0 then 5
    else 6
  }

  /**
   * An empty density path is rejected before any existence check: the
   * answer is the same whatever the filesystem says.
   */
  lemma EmptyPathRejectedFirst(c: Configuration, fs1: FileSystem, fs2: FileSystem)
    requires c.massDistrFilePath == ""
    ensures Check(c, fs1) == Check(c, fs2) == Fail(EmptyMassDistrPath)
  {
  }

  /** A simulation factor of 0 is always rejected. */
  lemma ZeroFactorRejected(c: Configuration, fs: FileSystem)
    requires c.simulationFactor == 0
    ensures Check(c, fs).Fail?
    ensures Check(c, fs) != Fail(ScaleBelowOne) && Check(c, fs) != Fail(UnsupportedResolution)
  {
  }

  /**
   * The scale bound is inclusive: once the checks before it pass, a scale
   * below 1.0 is rejected for its scale and a scale of 1.0 or more is not.
   */
  lemma ScaleBound(c: Configuration, fs: FileSystem)
    requires forall k :: 0 <= k < 5 ==> Holds(c, fs, k)
    ensures Check(c, fs) == Fail(ScaleBelowOne) <==> c.flowFieldScale < 1.0
  {
    assert Holds(c, fs, 0) && Holds(c, fs, 1) && Holds(c, fs, 2) && Holds(c, fs, 3) && Holds(c, fs, 4);
  }

  /**
   * Once the other checks pass, the configuration is accepted exactly when
   * its target resolution is one of the five supported ones.
   */
  lemma ResolutionAccepted(c: Configuration, fs: FileSystem)
    requires forall k :: 0 <= k < 6 ==> Holds(c, fs, k)
    ensures Check(c, fs) == Pass <==> c.targetResolution in SupportedResolutions
    ensures Check(c, fs) != Pass ==> Check(c, fs) == Fail(UnsupportedResolution)
  {
    assert Holds(c, fs, 0) && Holds(c, fs, 1) && Holds(c, fs, 2);
    assert Holds(c, fs, 3) && Holds(c, fs, 4) && Holds(c, fs, 5);
  }
}
