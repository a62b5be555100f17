/**
 * `islandsImports` of plugins/islands/plugins/imports.ts: every island file gets one
 * `import "virtual:islands-imports-<i>"` line per configured import put in front of its code,
 * and each such virtual specifier resolves back to the configured module, made absolute
 * against the working directory.
 */
module Imports {
  import opened Wrappers
  import opened JsStrings
  import opened Paths
  import opened Config

  const VirtualImportsPrefix: string := "virtual:islands-imports-"

  /**
   * The plugin `islandsImports` returns: its `apply`, the configured imports, the `isIsland`
   * callback and the working directory (`process.cwd()`) the imports are resolved against.
   */
  datatype ImportsPlugin = ImportsPlugin(apply: string, configured: seq<string>, isIsland: string -> bool, cwd: string)

  /**
   * The imports as the plugin resolves them: absolute ones unchanged, the others resolved
   * against `cwd`, each in its configured place.
   */
  function ResolvedImports(cwd: string, configured: seq<string>): (r: seq<string>)
    ensures |r| == |configured|
    ensures forall i :: 0 <= i < |r| && IsAbsolute(configured[i]) ==> r[i] == configured[i]
    ensures forall i :: 0 <= i < |r| && !IsAbsolute(configured[i]) ==> r[i] == Resolve(cwd, configured[i])
    ensures IsAbsolute(cwd) ==> forall i :: 0 <= i < |r| ==> IsAbsolute(r[i])
  {
    if |configured| == 0 then []
    else
      var moduleId := configured[0];
      var resolved := if IsAbsolute(moduleId) then moduleId else Resolve(cwd, moduleId);
      [resolved] + ResolvedImports(cwd, configured[1..])
  }

  function Imports(p: ImportsPlugin): seq<string> {
    ResolvedImports(p.cwd, p.configured)
  }

  /** `islandsImports({ apply, islandsConfig, isIsland })`: no plugin at all without imports. */
  function IslandsImports(apply: string, islandsConfig: IslandsConfig, isIsland: string -> bool, cwd: string): (r: Option<ImportsPlugin>)
    ensures r.None? <==> |islandsConfig.imports| == 0
    ensures r.Some? ==> r.value.configured == islandsConfig.imports && r.value.apply == apply &&
                        r.value.isIsland == isIsland && r.value.cwd == cwd
  {
    if |islandsConfig.imports| == 0 then None
    else Some(ImportsPlugin(apply, islandsConfig.imports, isIsland, cwd))
  }

  function Name(p: ImportsPlugin): (r: string)
    ensures StartsWith(r, "vite-plugin-islands--imports--") && r[|"vite-plugin-islands--imports--"|..] == p.apply
  {
    "vite-plugin-islands--imports--" + p.apply
  }

  /**
   * The `resolveId` hook: a prefixed source resolves to the import at the index `parseInt`
   * reads after the prefix (`None` when `at` gives `undefined`); any other source resolves to
   * nothing.
   */
  function ResolveId(p: ImportsPlugin, source: string): (r: Option<string>)
    ensures !StartsWith(source, VirtualImportsPrefix) ==> r.None?
    ensures r.Some? ==> r.value in Imports(p)
  {
    if StartsWith(source, VirtualImportsPrefix) then
      At(Imports(p), ParseInt(source[|VirtualImportsPrefix|..]))
    else None
  }

  /** The virtual specifier of the `i`-th import. */
  function Specifier(i: nat): string {
    VirtualImportsPrefix + NatToString(i)
  }

  /** The line that imports the `i`-th virtual module. */
  function ImportLine(i: nat): string {
    "import \"" + Specifier(i) + "\""
  }

  function ImportLines(n: nat): (r: seq<string>)
    ensures |r| == n
    ensures forall i :: 0 <= i < n ==> r[i] == ImportLine(i)
  {
    seq(n, (i: int) requires 0 <= i < n => ImportLine(i))
  }

  /**
   * The `transform` hook: nothing under SSR or for a file that is not an island; otherwise the
   * import lines, joined by newlines, then a newline, then the code unchanged.
   */
  function Transform(p: ImportsPlugin, code: string, id: string, ssr: bool): (r: Option<string>)
    ensures r.None? <==> ssr || !p.isIsland(id)
    ensures r.Some? ==> EndsWith(r.value, "\n" + code)
  {
    if ssr || !p.isIsland(id) then None
    else
      var out := Join(ImportLines(|p.configured|), "\n") + "\n" + code;
      assert out == Join(ImportLines(|p.configured|), "\n") + ("\n" + code);
      Some(out)
  }

  /** The import line stands where `join` puts it, and its specifier sits inside the quotes. */
  lemma TransformImportLine(p: ImportsPlugin, code: string, id: string, ssr: bool, i: nat)
    requires Transform(p, code, id, ssr).Some?
    requires i < |p.configured|
    ensures StandsAt(Transform(p, code, id, ssr).value, JoinOffset(ImportLines(|p.configured|), "\n", i), ImportLine(i))
    ensures StandsAt(ImportLine(i), |"import \""|, Specifier(i))
  {
    var lines := ImportLines(|p.configured|);
    var out := Transform(p, code, id, ssr).value;
    assert out == "" + Join(lines, "\n") + ("\n" + code);
    EnclosedJoinPartAt("", lines, "\n", "\n" + code, i);
    assert lines[i] == ImportLine(i);
    SpecifierInImportLine(i);
  }

  lemma SpecifierInImportLine(i: nat)
    ensures StandsAt(ImportLine(i), |"import \""|, Specifier(i))
  {
    var s := Specifier(i);
    assert ImportLine(i) == "import \"" + s + "\"";
    assert ImportLine(i)[|"import \""|..|"import \""| + |s|] == s;
  }

  /** The specifier of the `i`-th import line resolves to the `i`-th import. */
  lemma SpecifierResolves(p: ImportsPlugin, i: nat)
    requires i < |p.configured|
    ensures ResolveId(p, Specifier(i)) == Some(Imports(p)[i])
  {
    var digits := NatToString(i);
    assert Specifier(i)[|VirtualImportsPrefix|..] == digits;
    ParseIntOfNatToString(i);
  }

  /**
   * A prefixed source whose rest is not a number reads as index 0 (`at(NaN)` is `at(0)`), so it
   * resolves to the first import.
   */
  lemma NonNumericSpecifierResolvesToFirst(p: ImportsPlugin, rest: string)
    requires |p.configured| > 0 && ParseInt(rest).None?
    ensures ResolveId(p, VirtualImportsPrefix + rest) == Some(Imports(p)[0])
  {
    assert (VirtualImportsPrefix + rest)[|VirtualImportsPrefix|..] == rest;
  }
}
