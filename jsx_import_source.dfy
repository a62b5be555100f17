/**
 * `islandsJsxImportSource` of plugins/islands/plugins/jsx-import-source.ts: each environment
 * gets its own JSX runtime. Imports of the other environment's runtime are redirected, and every
 * `.tsx`/`.jsx` file is told, by a pragma comment, which runtime compiles its JSX.
 */
module JsxImportSource {
  import opened Wrappers
  import opened JsStrings
  import opened Config

  const Name: string := "vite-plugin-islands--jsx-import-source"

  /**
   * What `resolveId` answers: `null`, or the result of `this.resolve(target, importer, ...)`
   * with the importer and options passed on; resolving `target` is Vite's business.
   */
  datatype Resolution = Null | Delegate(target: string)

  /**
   * The `resolveId` hook. With equal sources nothing is redirected. Otherwise the server
   * runtime imported outside SSR becomes the client runtime, and the client runtime imported
   * under SSR becomes the server runtime; nothing else is redirected.
   */
  function ResolveId(jsx: JsxConfig, source: string, ssr: bool): (r: Resolution)
    ensures r.Delegate? <==>
              jsx.serverImportSource != jsx.clientImportSource &&
              ((source == jsx.serverImportSource && !ssr) || (source == jsx.clientImportSource && ssr))
    ensures r.Delegate? ==> r.target == (if ssr then jsx.serverImportSource else jsx.clientImportSource)
    ensures r.Delegate? ==> r.target != source
  {
    if jsx.serverImportSource == jsx.clientImportSource then Null
    else if source == jsx.serverImportSource && !ssr then Delegate(jsx.clientImportSource)
    else if source == jsx.clientImportSource && ssr then Delegate(jsx.serverImportSource)
    else Null
  }

  /** Resolving the redirected runtime again, in the same environment, redirects no further. */
  lemma RedirectIsFinal(jsx: JsxConfig, source: string, ssr: bool)
    requires ResolveId(jsx, source, ssr).Delegate?
    ensures ResolveId(jsx, ResolveId(jsx, source, ssr).target, ssr) == Null
  {
  }

  /** Whatever the source, a redirect always lands on the runtime of the current environment. */
  lemma RedirectTargetsEnvironment(jsx: JsxConfig, source: string, ssr: bool)
    requires ResolveId(jsx, source, ssr).Delegate?
    ensures ssr ==> source == jsx.clientImportSource && ResolveId(jsx, source, ssr).target == jsx.serverImportSource
    ensures !ssr ==> source == jsx.serverImportSource && ResolveId(jsx, source, ssr).target == jsx.clientImportSource
  {
  }

  const PragmaStart: string := "/** @jsxImportSource "
  const PragmaEnd: string := " */\n"

  /** The comment line that selects the JSX runtime `source`. */
  function Pragma(source: string): string {
    PragmaStart + source + PragmaEnd
  }

  /**
   * The `transform` hook: files that end neither in `.tsx` nor in `.jsx` are left alone; the
   * others get the pragma naming the server runtime under SSR and the client runtime otherwise,
   * with the code following unchanged.
   */
  function Transform(jsx: JsxConfig, code: string, id: string, ssr: bool): (r: Option<string>)
    ensures r.None? <==> !EndsWith(id, ".tsx") && !EndsWith(id, ".jsx")
    ensures r.Some? ==>
              var pragma := Pragma(if ssr then jsx.serverImportSource else jsx.clientImportSource);
              StartsWith(r.value, pragma) && r.value[|pragma|..] == code
  {
    if !EndsWith(id, ".tsx") && !EndsWith(id, ".jsx") then None
    else
      var pragma := Pragma(if ssr then jsx.serverImportSource else jsx.clientImportSource);
      assert (pragma + code)[|pragma|..] == code;
      Some(pragma + code)
  }

  /**
   * The pragma is a single line when the runtime's name has no line break: its only line
   * break is its last character, and it names the runtime right after `@jsxImportSource `.
   */
  lemma PragmaIsOneLine(source: string)
    requires forall i :: 0 <= i < |source| ==> source[i] != '\n'
    ensures var p := Pragma(source); p[|p| - 1] == '\n' && forall i :: 0 <= i < |p| - 1 ==> p[i] != '\n'
    ensures StandsAt(Pragma(source), |PragmaStart|, source)
  {
    var p := Pragma(source);
    forall i | 0 <= i < |p| - 1
      ensures p[i] != '\n'
    {
      if i < |PragmaStart| {
        assert p[i] == PragmaStart[i];
      } else if i < |PragmaStart| + |source| {
        assert p[i] == source[i - |PragmaStart|];
      } else {
        assert p[i] == PragmaEnd[i - |PragmaStart| - |source|];
      }
    }
    assert p == PragmaStart + source + PragmaEnd;
  }

  /**
   * The transform and the redirect agree: the runtime the pragma names for an environment is
   * the one every redirect in that environment lands on.
   */
  lemma PragmaAgreesWithRedirect(jsx: JsxConfig, code: string, id: string, source: string, ssr: bool)
    requires Transform(jsx, code, id, ssr).Some? && ResolveId(jsx, source, ssr).Delegate?
    ensures StartsWith(Transform(jsx, code, id, ssr).value, Pragma(ResolveId(jsx, source, ssr).target))
  {
  }
}
