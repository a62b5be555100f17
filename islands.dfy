/**
 * The configuration defaults of `islands` in plugins/islands/index.ts: the caller's keys are
 * spread over `pattern` and `imports`, and `jsx` is rebuilt from its own defaults with the
 * caller's `jsx` keys spread over them.
 */
module Islands {
  import opened Wrappers
  import opened Config

  const DefaultPattern: string := "src/*.{tsx,jsx}"
  const DefaultClientImportSource: string := "hono/jsx/dom"
  const DefaultServerImportSource: string := "hono/jsx"

  /** The text before the `render` call in the default hydration code. */
  const RenderPrefix: string := "\n            const { render } = await import(\"hono/jsx/dom\"); \n            "

  /** The default `hydrate`: render the element into the HTML element with the DOM renderer. */
  function DefaultHydrate(jsxElement: string, htmlElement: string): string {
    RenderPrefix + "render(" + jsxElement + ", " + htmlElement + ")\n          "
  }

  /** The value of a key after `{ default, ...partial }`: the caller's when present. */
  function Spread<T>(default: T, given: Option<T>): T {
    if given.Some? then given.value else default
  }

  /**
   * The configuration `islands(partialConfig)` hands to its plugins. With nothing given, the
   * pattern is the glob of the `.tsx`/`.jsx` files directly under `src`, there are no imports,
   * the JSX sources are `hono/jsx/dom` for the client and `hono/jsx` for the server, and
   * hydration renders with the default function. Every key the caller gives wins, each JSX key
   * on its own: a partial `jsx` replaces only the keys it has.
   */
  function IslandsConfigOf(partialConfig: PartialIslandsConfig): (c: IslandsConfig)
    ensures partialConfig.pattern.None? ==> c.pattern == Glob("src/*.{tsx,jsx}")
    ensures partialConfig.imports.None? ==> c.imports == []
    ensures (partialConfig.jsx.None? || partialConfig.jsx.value.clientImportSource.None?) ==>
              c.jsx.clientImportSource == "hono/jsx/dom"
    ensures (partialConfig.jsx.None? || partialConfig.jsx.value.serverImportSource.None?) ==>
              c.jsx.serverImportSource == "hono/jsx"
    ensures (partialConfig.jsx.None? || partialConfig.jsx.value.hydrate.None?) ==> c.jsx.hydrate == HydrateRender(DefaultHydrate)
    ensures partialConfig.pattern.Some? ==> c.pattern == partialConfig.pattern.value
    ensures partialConfig.imports.Some? ==> c.imports == partialConfig.imports.value
    ensures partialConfig.jsx.Some? && partialConfig.jsx.value.clientImportSource.Some? ==>
              c.jsx.clientImportSource == partialConfig.jsx.value.clientImportSource.value
    ensures partialConfig.jsx.Some? && partialConfig.jsx.value.serverImportSource.Some? ==>
              c.jsx.serverImportSource == partialConfig.jsx.value.serverImportSource.value
    ensures partialConfig.jsx.Some? && partialConfig.jsx.value.hydrate.Some? ==>
              c.jsx.hydrate == partialConfig.jsx.value.hydrate.value
  {
    var jsx := if partialConfig.jsx.Some? then partialConfig.jsx.value else PartialJsxConfig(None, None, None);
    IslandsConfig(
      Spread(Glob(DefaultPattern), partialConfig.pattern),
      Spread([], partialConfig.imports),
      JsxConfig(
        Spread(DefaultClientImportSource, jsx.clientImportSource),
        Spread(DefaultServerImportSource, jsx.serverImportSource),
        Spread(HydrateRender(DefaultHydrate), jsx.hydrate)))
  }

  /** `islands()` with no argument. */
  function DefaultConfig(): IslandsConfig {
    IslandsConfigOf(PartialIslandsConfig(None, None, None))
  }

  /**
   * The JSX settings depend only on the caller's `jsx` keys: changing the top-level keys
   * never changes them, and giving one JSX key never changes the other two.
   */
  lemma JsxKeysIndependent(a: PartialIslandsConfig, b: PartialIslandsConfig)
    requires a.jsx.Some? && b.jsx.Some?
    ensures a.jsx.value.clientImportSource == b.jsx.value.clientImportSource ==>
              IslandsConfigOf(a).jsx.clientImportSource == IslandsConfigOf(b).jsx.clientImportSource
    ensures a.jsx.value.serverImportSource == b.jsx.value.serverImportSource ==>
              IslandsConfigOf(a).jsx.serverImportSource == IslandsConfigOf(b).jsx.serverImportSource
    ensures a.pattern == b.pattern && a.imports == b.imports ==>
              IslandsConfigOf(a).pattern == IslandsConfigOf(b).pattern && IslandsConfigOf(a).imports == IslandsConfigOf(b).imports
  {
  }

  /** The default hydration code renders exactly the given element into the given node. */
  lemma DefaultHydrateRenders(jsxElement: string, htmlElement: string)
    ensures var call := "render(" + jsxElement + ", " + htmlElement + ")";
            var code := DefaultHydrate(jsxElement, htmlElement);
            && RenderPrefix <= code
            && |RenderPrefix| + |call| <= |code|
            && code[|RenderPrefix|..|RenderPrefix| + |call|] == call
  {
    var call := "render(" + jsxElement + ", " + htmlElement + ")";
    var code := DefaultHydrate(jsxElement, htmlElement);
    assert code == RenderPrefix + call + "\n          ";
    assert code[|RenderPrefix|..|RenderPrefix| + |call|] == call;
  }
}
