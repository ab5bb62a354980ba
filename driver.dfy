/** `main` (scripts/generate_source.py, lines 157-253): pick the directory
    the generators write to, run them for the `vulkan` API, then verify or
    publish the result. */
module Driver {

  import opened Wrappers
  import opened Registry
  import opened Targets
  import opened Files
  import opened Generation
  import opened Reconcile

  /** The parsed command line (lines 164-172). `registry` names the headers'
      registry directory; the document read from its `vk.xml` is passed to
      `GenerateSource` separately. */
  datatype Args = Args(
    registry: string,
    generatedVersion: Option<string>,
    outputDirectory: Option<string>,
    target: Option<seq<string>>,
    incremental: bool,
    verify: bool)

  /** `verify_exclude` (lines 160-162). */
  const VerifyExclude: set<string> := {".clang-format"}

  /** Where the generators write. */
  datatype WorkDir = Scratch | RepoDir | Explicit(path: string)

  /** Lines 201-211: a scratch directory in verify or incremental mode, the
      repository directory otherwise, and the `-o` directory over either. */
  function ChooseWorkDir(verify: bool, incremental: bool, outputDirectory: Option<string>): (w: WorkDir)
    ensures outputDirectory.Some? ==> w == Explicit(outputDirectory.value)
    ensures outputDirectory.None? ==> (w == Scratch <==> verify || incremental)
    ensures w == RepoDir <==> outputDirectory.None? && !verify && !incremental
  {
    var chosen := if verify || incremental then Scratch else RepoDir;
    if outputDirectory.Some? then Explicit(outputDirectory.value) else chosen
  }

  /** The path handed to `RunGenerators` as its output directory. */
  function WorkPath(args: Args, repoPath: string, scratchPath: string): string
  {
    match ChooseWorkDir(args.verify, args.incremental, args.outputDirectory)
    case Scratch => scratchPath
    case RepoDir => repoPath
    case Explicit(p) => p
  }

  /** The files the scratch directory holds once the generators have run: the
      generated files, unless `-o` sent them elsewhere. */
  function ScratchFiles(args: Args, scratchPath: string, registry: Element, gen: Generator): Listing
  {
    if args.outputDirectory.None? then Written(BaseApi, scratchPath, registry, gen, args.target) else map[]
  }

  /** `main(argv)` for a parsed command line. `repoPath` is `utils/generated`
      in the repository and `repo` its files; `scratchPath` is the name the
      temporary directory receives; `explicitOut` is the directory `-o` names
      (when `-o` names `repoPath`, it is the repository directory itself,
      `repo`). The exit code of a bad
      `--target` is the `0` of line 253: `main` drops the `1` that
      `RunGenerators` returns. */
  method GenerateSource(args: Args, repoPath: string, scratchPath: string, registry: Element, gen: Generator,
                        repo: Directory, explicitOut: Directory, state: GeneratorState)
    returns (code: int)
    requires args.outputDirectory == Some(repoPath) ==> explicitOut == repo
    modifies repo, explicitOut, state
    ensures state.outputDirectory == WorkPath(args, repoPath, scratchPath) && state.targetApiName == BaseApi
    ensures !args.verify ==> code == 0
    ensures args.verify ==> code == ExitCode(VerifyOutcome(ScratchFiles(args, scratchPath, registry, gen), repo.files, VerifyExclude))
    ensures args.outputDirectory.Some? ==>
              explicitOut.files == old(explicitOut.files) + Written(BaseApi, args.outputDirectory.value, registry, gen, args.target)
              && (repo != explicitOut ==> repo.files == old(repo.files))
    ensures args.outputDirectory.None? ==>
              (explicitOut != repo ==> explicitOut.files == old(explicitOut.files))
              && repo.files ==
                   if args.verify then old(repo.files)
                   else if args.incremental then old(repo.files) + Written(BaseApi, scratchPath, registry, gen, args.target)
                   else old(repo.files) + Written(BaseApi, repoPath, registry, gen, args.target)
  {
    var generated := Generate(args, repoPath, scratchPath, registry, gen, repo, explicitOut, state);
    code := CompareOrCopy(args.verify, args.incremental, generated, repo);
  }

  /** Lines 201-214: create the temporary directory in verify and incremental
      mode, pick the directory the generators write to and run them there,
      dropping what `RunGenerators` returns. `generated` is what the temporary
      directory holds afterwards. */
  method Generate(args: Args, repoPath: string, scratchPath: string, registry: Element, gen: Generator,
                  repo: Directory, explicitOut: Directory, state: GeneratorState)
    returns (generated: Listing)
    requires args.outputDirectory == Some(repoPath) ==> explicitOut == repo
    modifies repo, explicitOut, state
    ensures state.outputDirectory == WorkPath(args, repoPath, scratchPath) && state.targetApiName == BaseApi
    ensures args.verify || args.incremental ==> generated == ScratchFiles(args, scratchPath, registry, gen)
    ensures args.outputDirectory.Some? ==>
              explicitOut.files == old(explicitOut.files) + Written(BaseApi, args.outputDirectory.value, registry, gen, args.target)
              && (repo != explicitOut ==> repo.files == old(repo.files))
    ensures args.outputDirectory.None? ==>
              (explicitOut != repo ==> explicitOut.files == old(explicitOut.files))
              && repo.files ==
                   if args.verify || args.incremental then old(repo.files)
                   else old(repo.files) + Written(BaseApi, repoPath, registry, gen, args.target)
  {
    var scratch: Directory? := null;
    if args.verify || args.incremental {
      scratch := new Directory.Empty();
    }

    var status: RunStatus;
    match ChooseWorkDir(args.verify, args.incremental, args.outputDirectory) {
      case Scratch =>
        status := RunGenerators(BaseApi, registry, scratchPath, scratch, args.target, gen, state);
        UnionWithEmpty(Written(BaseApi, scratchPath, registry, gen, args.target));
        generated := scratch.files;
      case RepoDir =>
        status := RunGenerators(BaseApi, registry, repoPath, repo, args.target, gen, state);
        generated := map[];
      case Explicit(p) =>
        status := RunGenerators(BaseApi, registry, p, explicitOut, args.target, gen, state);
        generated := map[];
    }
  }

  /** Lines 216-253: compare the scratch directory with the repository in
      verify mode, copy what changed in incremental mode, nothing otherwise. */
  method CompareOrCopy(verify: bool, incremental: bool, generated: Listing, repo: Directory) returns (code: int)
    modifies repo
    ensures verify ==> code == ExitCode(VerifyOutcome(generated, repo.files, VerifyExclude)) && repo.files == old(repo.files)
    ensures !verify ==> code == 0
    ensures !verify && incremental ==> repo.files == old(repo.files) + generated
    ensures !verify && !incremental ==> repo.files == old(repo.files)
    ensures generated == map[] ==> repo.files == old(repo.files)
  {
    if verify {
      var report := Verify(generated, repo.files, VerifyExclude);
      code := ExitCode(report);
    } else if incremental {
      var _ := PublishChanged(generated, repo);
      code := 0;
    } else {
      code := 0;
    }
  }
}
