/**
 * The hydration plugin of plugins/islands/plugins/hydrate.ts. For a file with islands it
 * appends client code that finds each island's wrapper by its `data-island-*` attributes,
 * runs the configured hydration on it and marks it hydrated. It also resolves the virtual
 * hydrator module to the configured entry file.
 */
module Hydrate {
  import opened Wrappers
  import opened JsStrings
  import opened Paths
  import opened Config

  const HtmlElement: string := "ISLAND_HTML_ELEMENT"
  const VirtualHydrator: string := "virtual:island-hydrator"

  /** The part of Vite's `ConfigEnv` the plugin reads. */
  datatype ConfigEnv = ConfigEnv(isSsrBuild: bool)

  function Spaces(n: nat): (r: string)
    ensures |r| == n
  {
    seq(n, _ => ' ')
  }

  /** The middle of three concatenated strings is found right after the first. */
  lemma Infix(a: string, b: string, c: string)
    ensures StandsAt(a + b + c, |a|, b)
  {
  }

  /** The middle of the head of a concatenation. */
  lemma InfixOfHead(a: string, b: string, c: string, d: string, e: string)
    ensures StandsAt((a + b + c) + d + e, |a|, b)
  {
    assert (a + b + c) + d + e == a + b + (c + d + e);
  }

  /** The middle of the tail of a concatenation. */
  lemma InfixOfTail(a: string, b: string, c: string, d: string)
    ensures StandsAt(a + (b + c + d), |a| + |b|, c)
  {
    assert a + (b + c + d) == (a + b) + c + d;
  }

  /**
   * The CSS selector of the wrappers of `element` in the file with hash `hash` that have not
   * been hydrated yet.
   */
  function Selector(hash: string, element: string): string {
    "[data-island-hash=\"" + hash + "\"][data-island-component=\"" + element + "\"]:not([data-island-hydrated=\"true\"])"
  }

  /** The props the server serialised onto the wrapper, or `{}`. */
  const PropsExpression: string := "JSON.parse(" + HtmlElement + ".dataset.islandProps ?? \"{}\")"

  /** The dynamic import of the virtual hydrator module. */
  const HydratorImport: string := "await import(\"" + VirtualHydrator + "\")"

  /** The call of the imported `hydrate` on the wrapper, the element and its props. */
  function HydrateCall(element: string): string {
    ".then(({ hydrate }) => {\n" + Spaces(22) + "hydrate(" + HtmlElement + ", " + element + ", " + PropsExpression + ")\n" +
    Spaces(20) + "})"
  }

  /**
   * The code that hydrates one wrapper: with an entry file, import the virtual hydrator and call
   * its `hydrate`; with a function, whatever it returns for the element written as JSX with the
   * props spread in, and the name of the wrapper variable.
   */
  function Hydrator(hydrate: Hydrate, element: string): string {
    match hydrate
    case HydrateEntry(_) => HydratorImport + HydrateCall(element)
    case HydrateRender(render) =>
      render("<" + element + " {..." + PropsExpression + "} />", HtmlElement)
  }

  const MarkHydrated: string := HtmlElement + ".dataset.islandHydrated = \"true\";"

  const SelectorPrefix: string := "document\n" + Spaces(16) + ".querySelectorAll('"
  const SelectorSuffix: string := "')\n" + Spaces(16) + ".forEach(async(" + HtmlElement + ") => {\n" + Spaces(18)

  /** Everything of a snippet before its hydrator. */
  function SnippetHead(hash: string, element: string): string {
    SelectorPrefix + Selector(hash, element) + SelectorSuffix
  }

  const BeforeMark: string := "\n" + Spaces(18)
  const AfterMark: string := "\n" + Spaces(16) + "})"

  /** Everything of a snippet after its hydrator: the wrapper is marked hydrated. */
  const SnippetTail: string := BeforeMark + MarkHydrated + AfterMark

  /** The code for the islands of one element: each matching wrapper is hydrated, then marked. */
  function Snippet(hydrate: Hydrate, hash: string, element: string): string {
    SnippetHead(hash, element) + Hydrator(hydrate, element) + SnippetTail
  }

  function Snippets(hydrate: Hydrate, hash: string, elements: seq<string>): (r: seq<string>)
    ensures |r| == |elements|
    ensures forall i :: 0 <= i < |elements| ==> r[i] == Snippet(hydrate, hash, elements[i])
  {
    if |elements| == 0 then [] else [Snippet(hydrate, hash, elements[0])] + Snippets(hydrate, hash, elements[1..])
  }

  const BlockHead: string := "\nif (typeof document !== \"undefined\") {\n" + Spaces(10)

  const BlockTail: string := "\n" + Spaces(8) + "}"

  /** The appended block: the snippets, one per element, inside a browser-only guard. */
  function HydrationBlock(hydrate: Hydrate, hash: string, elements: seq<string>): string {
    BlockHead + Join(Snippets(hydrate, hash, elements), "\n") + BlockTail
  }

  class HydratePlugin {
    const apply: string
    const islandsConfig: IslandsConfig
    const getElements: string -> seq<string>
    const getHash: string -> string
    /** `process.cwd()`. */
    const cwd: string
    /** The environment the `config` hook saw; unset until it runs. */
    var viteEnv: Option<ConfigEnv>

    /** `islandsHydrate({ apply, islandsConfig, getElements, getHash })`. */
    constructor (apply: string, islandsConfig: IslandsConfig, getElements: string -> seq<string>, getHash: string -> string, cwd: string)
      ensures this.apply == apply && this.islandsConfig == islandsConfig
      ensures this.getElements == getElements && this.getHash == getHash && this.cwd == cwd
      ensures viteEnv.None?
    {
      this.apply := apply;
      this.islandsConfig := islandsConfig;
      this.getElements := getElements;
      this.getHash := getHash;
      this.cwd := cwd;
      viteEnv := None;
    }

    function Name(): (r: string)
      ensures StartsWith(r, "vite-plugin-islands--hydrate--") && r[|"vite-plugin-islands--hydrate--"|..] == apply
    {
      "vite-plugin-islands--hydrate--" + apply
    }

    /** The `config` hook: remembers the environment. */
    method Config(env: ConfigEnv)
      modifies this
      ensures viteEnv == Some(env)
    {
      viteEnv := Some(env);
    }

    /**
     * The `resolveId` hook: only the virtual hydrator is handled; it needs an entry-file
     * `hydrate`, which resolves to itself when absolute and against the working directory
     * otherwise. The error names the importer (`undefined` when there is none).
     */
    function ResolveId(source: string, importer: Option<string>): (r: Result<Option<string>, string>)
      ensures source != VirtualHydrator ==> r == Ok(None)
      ensures source == VirtualHydrator && !islandsConfig.jsx.hydrate.HydrateEntry? ==> r.Err?
      ensures source == VirtualHydrator && islandsConfig.jsx.hydrate.HydrateEntry? ==>
                r.Ok? && r.value.Some? &&
                (IsAbsolute(islandsConfig.jsx.hydrate.path) ==> r.value.value == islandsConfig.jsx.hydrate.path) &&
                (!IsAbsolute(islandsConfig.jsx.hydrate.path) ==> r.value.value == Resolve(cwd, islandsConfig.jsx.hydrate.path)) &&
                (IsAbsolute(cwd) ==> IsAbsolute(r.value.value))
    {
      if source == VirtualHydrator then
        match islandsConfig.jsx.hydrate
        case HydrateRender(_) =>
          Err("File: \"" + (if importer.Some? then importer.value else "undefined") + "\" attempted to import " + source +
              ", but `jsx.hydrate` was not a string (entrypoint file)")
        case HydrateEntry(path) =>
          var resolved := if IsAbsolute(path) then path else Resolve(cwd, path);
          Ok(Some(resolved))
      else Ok(None)
    }

    /**
     * The `transform` hook: nothing for a file without islands or in an SSR build; otherwise the
     * code with the hydration block appended. Reading the environment before `config` has run
     * is an error.
     */
    function Transform(code: string, id: string): (r: Result<Option<string>, string>)
      reads this
      ensures |getElements(id)| == 0 ==> r == Ok(None)
      ensures |getElements(id)| > 0 && viteEnv.None? ==> r.Err?
      ensures |getElements(id)| > 0 && viteEnv.Some? && viteEnv.value.isSsrBuild ==> r == Ok(None)
      ensures r.Ok? && r.value.Some? ==>
                |getElements(id)| > 0 && viteEnv.Some? && !viteEnv.value.isSsrBuild &&
                code <= r.value.value &&
                r.value.value[|code|..] == HydrationBlock(islandsConfig.jsx.hydrate, getHash(id), getElements(id))
    {
      var elements := getElements(id);
      if |elements| == 0 then Ok(None)
      else match viteEnv
        case None => Err("TypeError: Cannot read properties of undefined (reading 'isSsrBuild')")
        case Some(env) =>
          if env.isSsrBuild then Ok(None)
          else
            var out := code + HydrationBlock(islandsConfig.jsx.hydrate, getHash(id), elements);
            assert out[|code|..] == HydrationBlock(islandsConfig.jsx.hydrate, getHash(id), elements);
            Ok(Some(out))
    }
  }

  /** Where the snippet for element `i` starts in the block. */
  function SnippetOffset(hydrate: Hydrate, hash: string, elements: seq<string>, i: nat): nat
    requires i < |elements|
  {
    |BlockHead| + JoinOffset(Snippets(hydrate, hash, elements), "\n", i)
  }

  /** The snippet for element `i` stands, whole, at its offset in the block. */
  lemma SnippetInBlock(hydrate: Hydrate, hash: string, elements: seq<string>, i: nat)
    requires i < |elements|
    ensures StandsAt(HydrationBlock(hydrate, hash, elements), SnippetOffset(hydrate, hash, elements, i),
                     Snippet(hydrate, hash, elements[i]))
  {
    var parts := Snippets(hydrate, hash, elements);
    EnclosedJoinPartAt(BlockHead, parts, "\n", BlockTail, i);
    assert parts[i] == Snippet(hydrate, hash, elements[i]);
  }

  /** Snippets follow each other in element order, one newline apart. */
  lemma SnippetsInOrder(hydrate: Hydrate, hash: string, elements: seq<string>, i: nat)
    requires i + 1 < |elements|
    ensures SnippetOffset(hydrate, hash, elements, i + 1) ==
              SnippetOffset(hydrate, hash, elements, i) + |Snippet(hydrate, hash, elements[i])| + 1
  {
    JoinOffsetNext(Snippets(hydrate, hash, elements), "\n", i);
  }

  /** Each snippet queries the wrappers its selector matches ... */
  lemma SnippetSelects(hydrate: Hydrate, hash: string, element: string)
    ensures StandsAt(Snippet(hydrate, hash, element), |SelectorPrefix|, Selector(hash, element))
  {
    InfixOfHead(SelectorPrefix, Selector(hash, element), SelectorSuffix, Hydrator(hydrate, element), SnippetTail);
  }

  /** ... runs its hydrator on each ... */
  lemma SnippetHydrates(hydrate: Hydrate, hash: string, element: string)
    ensures StandsAt(Snippet(hydrate, hash, element), |SnippetHead(hash, element)|, Hydrator(hydrate, element))
  {
    Infix(SnippetHead(hash, element), Hydrator(hydrate, element), SnippetTail);
  }

  /** ... and only after the hydrator marks the wrapper as hydrated. */
  lemma SnippetMarksHydrated(hydrate: Hydrate, hash: string, element: string)
    ensures StandsAt(Snippet(hydrate, hash, element),
                     |SnippetHead(hash, element)| + |Hydrator(hydrate, element)| + |BeforeMark|, MarkHydrated)
  {
    InfixOfTail(SnippetHead(hash, element) + Hydrator(hydrate, element), BeforeMark, MarkHydrated, AfterMark);
  }

  /**
   * With an entry file the hydrator imports the virtual hydrator module; with a function it is
   * exactly what the function returns for the element's JSX and the wrapper variable.
   */
  lemma HydratorUsesConfig(hydrate: Hydrate, element: string)
    ensures hydrate.HydrateEntry? ==> HydratorImport <= Hydrator(hydrate, element)
    ensures hydrate.HydrateRender? ==>
              Hydrator(hydrate, element) == hydrate.render("<" + element + " {..." + PropsExpression + "} />", HtmlElement)
  {

  }
}
