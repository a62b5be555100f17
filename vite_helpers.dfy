/**
 * `mergeInput` of plugins/islands/helpers/vite.ts: adds build inputs, keyed by their file
 * name, to the `input` option Rollup already has, which is one path, a list of paths, or a
 * record of named paths.
 */
module ViteHelpers {
  import opened Wrappers
  import opened Paths

  /** Rollup's `InputOption`: `string | string[] | Record<string, string>`. */
  datatype InputOption = Single(input: string) | Many(inputs: seq<string>) | Named(entries: map<string, string>)

  /** `Object.fromEntries(inputs.map((input) => [path.basename(input), input]))`. */
  function ByBasename(inputs: seq<string>): map<string, string> {
    if |inputs| == 0 then map[]
    else ByBasename(inputs[..|inputs| - 1])[Basename(inputs[|inputs| - 1]) := inputs[|inputs| - 1]]
  }

  /** The `i`-th input has basename `name`, and no later one has. */
  predicate LastWithBasename(inputs: seq<string>, name: string, i: int) {
    0 <= i < |inputs| && Basename(inputs[i]) == name &&
    forall j :: i < j < |inputs| ==> Basename(inputs[j]) != name
  }

  /** The last of `inputs` whose basename is `name`. */
  function Latest(inputs: seq<string>, name: string): (r: Option<string>)
    ensures r.Some? ==> exists i :: LastWithBasename(inputs, name, i) && inputs[i] == r.value
    ensures r.None? ==> forall i :: 0 <= i < |inputs| ==> Basename(inputs[i]) != name
  {
    if |inputs| == 0 then None
    else
      var last := |inputs| - 1;
      if Basename(inputs[last]) == name then
        assert LastWithBasename(inputs, name, last);
        Some(inputs[last])
      else
        var init := inputs[..last];
        assert forall i :: 0 <= i < last ==> init[i] == inputs[i];
        assert forall i :: LastWithBasename(init, name, i) ==> LastWithBasename(inputs, name, i);
        Latest(init, name)
  }

  /** Each input is stored under its basename, a later input replacing an earlier one. */
  lemma {:induction false} ByBasenameLatest(inputs: seq<string>)
    ensures forall name :: name in ByBasename(inputs) <==> Latest(inputs, name).Some?
    ensures forall name :: name in ByBasename(inputs) ==> ByBasename(inputs)[name] == Latest(inputs, name).value
  {
    if |inputs| > 0 {
      ByBasenameLatest(inputs[..|inputs| - 1]);
    }
  }

  /** The entry the existing option contributes under `name`. */
  function BaseEntry(base: InputOption, name: string): Option<string> {
    match base
    case Single(input) => if name == input then Some(input) else None
    case Many(inputs) => Latest(inputs, name)
    case Named(entries) => if name in entries then Some(entries[name]) else None
  }

  /**
   * What the merge should hold under `name`: a single-path base maps itself to itself over
   * everything; otherwise the latest addition with that basename wins over the base.
   */
  function MergedEntry(base: InputOption, additions: seq<string>, name: string): Option<string> {
    if base.Single? && name == base.input then Some(name)
    else if Latest(additions, name).Some? then Latest(additions, name)
    else BaseEntry(base, name)
  }

  /**
   * `mergeInput(base, additions)`: the keys are exactly the additions' basenames and the base's
   * keys (the path itself, the basenames of its paths, or its names), each holding
   * `MergedEntry`. The base is a value here, so it is left as it was.
   */
  method MergeInput(base: InputOption, additions: seq<string>) returns (merged: map<string, string>)
    ensures forall name :: name in merged <==> MergedEntry(base, additions, name).Some?
    ensures forall name :: name in merged ==> merged[name] == MergedEntry(base, additions, name).value
  {
    var added := ByBasename(additions);
    ByBasenameLatest(additions);
    merged := added;
    match base
    case Single(input) =>
      merged := merged[input := input];
    case Many(inputs) =>
      var fromBase := ByBasename(inputs);
      ByBasenameLatest(inputs);
      merged := fromBase + merged;
      forall name ensures name in merged <==> MergedEntry(base, additions, name).Some? {
        assert name in merged <==> name in added || name in fromBase;
      }
    case Named(entries) =>
      merged := entries + merged;
  }

  /** Merging the additions into a record of named inputs keeps every earlier name. */
  lemma MergedEntryKeepsNames(entries: map<string, string>, additions: seq<string>, name: string)
    requires name in entries
    ensures MergedEntry(Named(entries), additions, name).Some?
    ensures Latest(additions, name).None? ==> MergedEntry(Named(entries), additions, name) == Some(entries[name])
  {
  }
}
