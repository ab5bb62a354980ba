/** The fixed generator table of `RunGenerators` and the pure decisions taken
    from it: which filter names are unknown, which targets run, and which API
    list and merged-API setting each target gets
    (scripts/generate_source.py, lines 69-129). */
module Targets {

  import opened Wrappers
  import opened Sequences

  /** The generator classes the table refers to. */
  datatype GeneratorKind = SafeStruct | ExtensionHelper | ApiVersion

  /** One value of the table: the generator class and the `genCombined` flag. */
  datatype Entry = Entry(generator: GeneratorKind, genCombined: bool)

  /** The generator table `generators` (lines 69-102), keyed by the name of
      the file each entry generates. */
  const Generators: map<string, Entry> := map[
    "vk_safe_struct.h" := Entry(SafeStruct, true),
    "vk_safe_struct_utils.cpp" := Entry(SafeStruct, true),
    "vk_safe_struct_core.cpp" := Entry(SafeStruct, true),
    "vk_safe_struct_khr.cpp" := Entry(SafeStruct, true),
    "vk_safe_struct_ext.cpp" := Entry(SafeStruct, true),
    "vk_safe_struct_vendor.cpp" := Entry(SafeStruct, true),
    "vk_extension_helper.h" := Entry(ExtensionHelper, true),
    "vk_api_version.h" := Entry(ApiVersion, true)
  ]

  /** `generators.keys()`: the same names in the dict's insertion order. */
  const TableKeys: seq<string> := [
    "vk_safe_struct.h", "vk_safe_struct_utils.cpp", "vk_safe_struct_core.cpp",
    "vk_safe_struct_khr.cpp", "vk_safe_struct_ext.cpp", "vk_safe_struct_vendor.cpp",
    "vk_extension_helper.h", "vk_api_version.h"
  ]

  /** The API that combined generation merges into every other API. */
  const BaseApi: string := "vulkan"

  /** The ordered keys are exactly the dict's keys, each once. */
  lemma TableKeysAreGeneratorKeys()
    ensures forall x :: x in TableKeys <==> x in Generators
    ensures Distinct(TableKeys)
  {
  }

  /** `generators[name]`. */
  function Lookup(name: string): Entry
    requires name in TableKeys
  {
    TableKeysAreGeneratorKeys();
    Generators[name]
  }

  /** The filter as the list comprehension of line 104 walks it:
      `targetFilter if targetFilter else []`. */
  function Entries(targetFilter: Option<seq<string>>): seq<string>
  {
    if targetFilter.Some? then targetFilter.value else []
  }

  /** `not targetFilter` in line 110: no filter, or an empty one. */
  predicate Unfiltered(targetFilter: Option<seq<string>>)
  {
    targetFilter.None? || targetFilter.value == []
  }

  /** The filter entries that are not table keys, in filter order, repeats
      kept (line 104). */
  function UnknownTargets(targetFilter: Option<seq<string>>): (unknown: seq<string>)
    ensures unknown == [] <==> forall x :: x in Entries(targetFilter) ==> x in TableKeys
  {
    var unknown := NotInTable(Entries(targetFilter));
    assert (forall x :: x in Entries(targetFilter) ==> x in TableKeys) ==> unknown == [] by {
      if unknown != [] {
        assert multiset(unknown)[unknown[0]] > 0;
        assert unknown[0] in multiset(Entries(targetFilter));
      }
    }
    unknown
  }

  /** The entries of `names` that are not table keys: each unknown name as
      often as `names` repeats it, each known name never, in the order of
      `names`. */
  function NotInTable(names: seq<string>): (unknown: seq<string>)
    ensures forall x :: multiset(unknown)[x] == if x in TableKeys then 0 else multiset(names)[x]
    ensures Subsequence(unknown, names)
    decreases |names|
  {
    if names == [] then []
    else
      var n := |names|;
      var front := NotInTable(names[..n - 1]);
      assert names == names[..n - 1] + [names[n - 1]];
      if names[n - 1] !in TableKeys then
        assert (front + [names[n - 1]])[..|front|] == front;
        front + [names[n - 1]]
      else front
  }

  /** The targets that run, in table order (line 110). */
  function SelectTargets(targetFilter: Option<seq<string>>): (targets: seq<string>)
    ensures forall x :: x in targets ==> x in TableKeys
  {
    SelectFrom(TableKeys, targetFilter)
  }

  /** A target runs exactly when it is in the table and the filter is empty or
      names it; targets run in table order, each once. */
  lemma SelectTargetsCharacterised(targetFilter: Option<seq<string>>)
    ensures forall x :: x in SelectTargets(targetFilter) <==>
                          x in TableKeys && (Unfiltered(targetFilter) || x in targetFilter.value)
    ensures Subsequence(SelectTargets(targetFilter), TableKeys)
    ensures Distinct(SelectTargets(targetFilter))
  {
  }

  function SelectFrom(keys: seq<string>, targetFilter: Option<seq<string>>): (targets: seq<string>)
    ensures forall x :: x in targets <==> x in keys && (Unfiltered(targetFilter) || x in targetFilter.value)
    ensures Subsequence(targets, keys)
    ensures Distinct(keys) ==> Distinct(targets)
    decreases |keys|
  {
    if keys == [] then []
    else
      var n := |keys|;
      var last := keys[n - 1];
      var front := SelectFrom(keys[..n - 1], targetFilter);
      assert keys == keys[..n - 1] + [last];
      if Unfiltered(targetFilter) || last in targetFilter.value then
        assert (front + [last])[..|front|] == front;
        assert Distinct(keys) ==> last !in keys[..n - 1];
        front + [last]
      else front
  }

  /** No filter, or an empty one, runs every target of the table in table order. */
  lemma {:induction false} UnfilteredSelectsAll(keys: seq<string>, targetFilter: Option<seq<string>>)
    requires Unfiltered(targetFilter)
    ensures SelectFrom(keys, targetFilter) == keys
    decreases |keys|
  {
    if keys != [] {
      var n := |keys|;
      UnfilteredSelectsAll(keys[..n - 1], targetFilter);
      assert keys == keys[..n - 1] + [keys[n - 1]];
    }
  }

  lemma SelectAllWithoutFilter()
    ensures SelectTargets(None) == TableKeys
    ensures SelectTargets(Some([])) == TableKeys
  {
    UnfilteredSelectsAll(TableKeys, None);
    UnfilteredSelectsAll(TableKeys, Some([]));
  }

  /** A filter with no unknown names runs exactly the targets it names. */
  lemma KnownFilterSelectsItsNames(names: seq<string>)
    requires names != [] && UnknownTargets(Some(names)) == []
    ensures forall x :: x in SelectTargets(Some(names)) <==> x in names
  {
    SelectTargetsCharacterised(Some(names));
  }

  /** The API list a target is generated for (lines 124-127): the target API,
      followed by the base API when the two differ and the target merges. */
  function ApiList(api: string, genCombined: bool): (apiList: seq<string>)
    ensures |apiList| > 0 && apiList[0] == api
    ensures |apiList| == 2 <==> api != BaseApi && genCombined
    ensures |apiList| != 2 ==> apiList == [api]
    ensures |apiList| == 2 ==> apiList[1] == BaseApi
  {
    if api != BaseApi && genCombined then [api, BaseApi] else [api]
  }

  /** The argument of `SetMergedApiNames` for a target (lines 126 and 129). */
  function MergedApiName(api: string, genCombined: bool): (merged: Option<string>)
    ensures merged.Some? <==> |ApiList(api, genCombined)| == 2
    ensures merged.Some? ==> merged.value == ApiList(api, genCombined)[1]
  {
    if api != BaseApi && genCombined then Some(BaseApi) else None
  }

  /** The base API is in scope for a target exactly when it is the target API
      or the target merges; no API is listed twice. */
  lemma BaseApiInScope(api: string, genCombined: bool)
    ensures BaseApi in ApiList(api, genCombined) <==> api == BaseApi || genCombined
    ensures Distinct(ApiList(api, genCombined))
  {
  }
}
