/** `RunGenerators` (scripts/generate_source.py, lines 39-151): the process-wide
    generator settings, the per-target loop, and the files it leaves in the
    output directory. The generators and the registry loader are one opaque
    function from (generator, file name, settings, filtered registry) to the
    bytes of the generated file; clang-format is not modelled. */
module Generation {

  import opened Wrappers
  import opened Registry
  import opened Targets
  import opened Files
  import Sequences

  /** The values `SetOutputDirectory`, `SetTargetApiName` and
      `SetMergedApiNames` store for the generators to read. */
  datatype Settings = Settings(outputDirectory: string, targetApiName: string, mergedApiName: Option<string>)

  /** A generator run: given the generator class, the custom file name, the
      settings in force and the filtered registry, the bytes it writes. */
  type Generator = (GeneratorKind, string, Settings, Element) -> Bytes

  /** The module-level state of the generators' base module, written by the
      three setter functions and read by every generator. */
  class GeneratorState {
    var outputDirectory: string
    var targetApiName: string
    var mergedApiName: Option<string>

    constructor (outputDirectory: string, targetApiName: string, mergedApiName: Option<string>)
      ensures this.outputDirectory == outputDirectory && this.targetApiName == targetApiName
      ensures this.mergedApiName == mergedApiName
    {
      this.outputDirectory := outputDirectory;
      this.targetApiName := targetApiName;
      this.mergedApiName := mergedApiName;
    }

    /** `SetOutputDirectory(directory)` (line 62). */
    method SetOutputDirectory(directory: string)
      modifies this
      ensures outputDirectory == directory
      ensures targetApiName == old(targetApiName) && mergedApiName == old(mergedApiName)
    {
      outputDirectory := directory;
    }

    /** `SetTargetApiName(api)` (line 63). */
    method SetTargetApiName(api: string)
      modifies this
      ensures targetApiName == api
      ensures outputDirectory == old(outputDirectory) && mergedApiName == old(mergedApiName)
    {
      targetApiName := api;
    }

    /** `SetMergedApiNames(names)` (lines 126 and 129). */
    method SetMergedApiNames(names: Option<string>)
      modifies this
      ensures mergedApiName == names
      ensures outputDirectory == old(outputDirectory) && targetApiName == old(targetApiName)
    {
      mergedApiName := names;
    }

    /** What a generator sees when it reads the state. */
    function Current(): Settings
      reads this
    {
      Settings(outputDirectory, targetApiName, mergedApiName)
    }
  }

  /** The settings in force while the given target is generated: they depend
      on that target alone, never on the target generated before it. */
  function TargetSettings(api: string, directory: string, name: string): Settings
    requires name in TableKeys
  {
    Settings(directory, api, MergedApiName(api, Lookup(name).genCombined))
  }

  /** The bytes of the file the given target writes. */
  function TargetOutput(api: string, directory: string, registry: Element, gen: Generator, name: string): (bytes: Bytes)
    requires name in TableKeys
    ensures api == BaseApi ==>
              bytes == gen(Lookup(name).generator, name, Settings(directory, BaseApi, None), FilterExtensions(registry, [BaseApi]))
  {
    var entry := Lookup(name);
    gen(entry.generator, name, TargetSettings(api, directory, name), FilterExtensions(registry, ApiList(api, entry.genCombined)))
  }

  /** The files the given targets write, run in sequence. */
  function Produced(api: string, directory: string, registry: Element, gen: Generator, names: seq<string>): (files: Listing)
    requires forall n :: n in names ==> n in TableKeys
    ensures files.Keys == set n | n in names
    decreases |names|
  {
    if names == [] then map[]
    else
      var front, last := names[..|names| - 1], names[|names| - 1];
      assert names == front + [last];
      var files := Produced(api, directory, registry, gen, front);
      files[last := TargetOutput(api, directory, registry, gen, last)]
  }

  /** Each file holds what its own target's generator writes with its own
      settings and API list: nothing carries over from an earlier target. */
  lemma {:induction false} ProducedFiles(api: string, directory: string, registry: Element, gen: Generator, names: seq<string>)
    requires forall n :: n in names ==> n in TableKeys
    ensures forall n :: n in Produced(api, directory, registry, gen, names) ==>
              Produced(api, directory, registry, gen, names)[n] == TargetOutput(api, directory, registry, gen, n)
    decreases |names|
  {
    if names != [] {
      ProducedFiles(api, directory, registry, gen, names[..|names| - 1]);
    }
  }

  /** What `RunGenerators` reports: 1 with the message naming the unknown
      targets, or Python's `None` when it falls off its end. */
  datatype RunStatus = UnknownTargetError(names: seq<string>) | Completed
  {
    function ReturnValue(): (r: Option<int>)
      ensures r.Some? <==> UnknownTargetError?
      ensures r.Some? ==> r.value == 1
    {
      if UnknownTargetError? then Some(1) else None
    }
  }

  /** The files a call of `RunGenerators` writes: none when the filter names an
      unknown target, otherwise one per selected target. */
  function Written(api: string, directory: string, registry: Element, gen: Generator, targetFilter: Option<seq<string>>): (files: Listing)
    ensures UnknownTargets(targetFilter) != [] ==> files == map[]
    ensures UnknownTargets(targetFilter) == [] ==> files.Keys == set n | n in SelectTargets(targetFilter)
  {
    if UnknownTargets(targetFilter) != [] then map[]
    else Produced(api, directory, registry, gen, SelectTargets(targetFilter))
  }

  /** `RunGenerators(api, registry, directory, styleFile, targetFilter)`:
      sets the output directory and target API, rejects unknown targets before
      any generator runs, then for each selected target in table order sets
      the merged-API name, parses the registry afresh, filters its extensions
      by the target's API list and writes the target's file into `out`. */
  method RunGenerators(api: string, registry: Element, directory: string, out: Directory,
                       targetFilter: Option<seq<string>>, gen: Generator, state: GeneratorState)
    returns (status: RunStatus)
    modifies state, out
    ensures state.outputDirectory == directory && state.targetApiName == api
    ensures status == if UnknownTargets(targetFilter) == [] then Completed else UnknownTargetError(UnknownTargets(targetFilter))
    ensures out.files == old(out.files) + Written(api, directory, registry, gen, targetFilter)
    ensures state.mergedApiName ==
      if status.UnknownTargetError? || SelectTargets(targetFilter) == [] then old(state.mergedApiName)
      else var targets := SelectTargets(targetFilter);
           MergedApiName(api, Lookup(targets[|targets| - 1]).genCombined)
  {
    state.SetOutputDirectory(directory);
    state.SetTargetApiName(api);

    var unknown := UnknownTargets(targetFilter);
    if unknown != [] {
      UnionWithEmpty(out.files);
      return UnknownTargetError(unknown);
    }

    var targets := SelectTargets(targetFilter);
    GenerateAll(api, registry, targets, out, gen, state);
    status := Completed;
  }

  /** The loop of lines 112-151 over the selected targets, in order. */
  method GenerateAll(api: string, registry: Element, targets: seq<string>, out: Directory,
                     gen: Generator, state: GeneratorState)
    requires forall n :: n in targets ==> n in TableKeys
    requires state.targetApiName == api
    modifies state, out
    ensures state.outputDirectory == old(state.outputDirectory) && state.targetApiName == api
    ensures out.files == old(out.files) + Produced(api, state.outputDirectory, registry, gen, targets)
    ensures state.mergedApiName ==
      if targets == [] then old(state.mergedApiName) else MergedApiName(api, Lookup(targets[|targets| - 1]).genCombined)
  {
    ghost var directory := state.outputDirectory;
    ghost var start := out.files;
    ghost var done: Listing := map[];
    var i := 0;
    while i < |targets|
      invariant 0 <= i <= |targets|
      invariant state.outputDirectory == directory && state.targetApiName == api
      invariant done == Produced(api, directory, registry, gen, targets[..i])
      invariant out.files == start + done
      invariant state.mergedApiName ==
        if i == 0 then old(state.mergedApiName) else MergedApiName(api, Lookup(targets[i - 1]).genCombined)
    {
      var target := targets[i];
      GenerateTarget(api, registry, target, out, gen, state);
      ghost var file := TargetOutput(api, directory, registry, gen, target);
      ProducedAppend(api, directory, registry, gen, targets[..i], target);
      UnionUpdate(start, done, target, file);
      Sequences.PrefixExtend(targets, i);
      done := done[target := file];
      i := i + 1;
    }
    assert targets[..i] == targets;
  }

  lemma ProducedAppend(api: string, directory: string, registry: Element, gen: Generator, names: seq<string>, name: string)
    requires forall n :: n in names ==> n in TableKeys
    requires name in TableKeys
    ensures Produced(api, directory, registry, gen, names + [name])
         == Produced(api, directory, registry, gen, names)[name := TargetOutput(api, directory, registry, gen, name)]
  {
    assert (names + [name])[..|names|] == names;
  }

  lemma UnionUpdate(a: Listing, b: Listing, k: string, v: Bytes)
    ensures (a + b)[k := v] == a + b[k := v]
  {
  }

  /** One pass of the loop of lines 112-151 for one target: set the merged-API
      name, parse the registry afresh, drop the extensions its API list does
      not support and let its generator write the target's file. */
  method GenerateTarget(api: string, registry: Element, target: string, out: Directory,
                        gen: Generator, state: GeneratorState)
    requires target in TableKeys
    requires state.targetApiName == api
    modifies state, out
    ensures state.outputDirectory == old(state.outputDirectory) && state.targetApiName == api
    ensures state.mergedApiName == MergedApiName(api, Lookup(target).genCombined)
    ensures out.files == old(out.files)[target := TargetOutput(api, state.outputDirectory, registry, gen, target)]
  {
    var entry := Lookup(target);

    var apiList := [api];
    if api != BaseApi && entry.genCombined {
      state.SetMergedApiNames(Some(BaseApi));
      apiList := apiList + [BaseApi];
    } else {
      state.SetMergedApiNames(None);
    }
    assert apiList == ApiList(api, entry.genCombined);

    var tree := new DocumentTree.Parse(registry);
    tree.RemoveUnsupportedExtensions(apiList);
    assert state.Current() == TargetSettings(api, state.outputDirectory, target);
    var content := gen(entry.generator, target, state.Current(), tree.root);
    out.files := out.files[target := content];
  }

  /** With the target API `"vulkan"`, which is the only one the driver passes,
      no target merges and every target sees the API list `["vulkan"]`. */
  lemma BaseApiNeverMerges(genCombined: bool)
    ensures ApiList(BaseApi, genCombined) == [BaseApi]
    ensures MergedApiName(BaseApi, genCombined) == None
  {
  }
}
