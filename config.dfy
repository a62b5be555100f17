/**
 * The plugin configuration of plugins/islands/config.ts: where islands are found, the imports
 * added to island files, and the JSX settings, including how an island is hydrated.
 */
module Config {
  import opened Wrappers

  /** `pattern: string | string[]`. */
  datatype Pattern = Glob(glob: string) | Globs(globs: seq<string>)

  /**
   * `hydrate`: a path to an entry file exporting `hydrate`, or a function from the JSX text of
   * the element and the name of the HTML element variable to hydration code.
   */
  datatype Hydrate = HydrateEntry(path: string) | HydrateRender(render: (string, string) -> string)

  datatype JsxConfig = JsxConfig(clientImportSource: string, serverImportSource: string, hydrate: Hydrate)

  datatype IslandsConfig = IslandsConfig(pattern: Pattern, imports: seq<string>, jsx: JsxConfig)

  /** `Partial<IslandsJsxConfig>`: an absent key is `None`. */
  datatype PartialJsxConfig = PartialJsxConfig(
    clientImportSource: Option<string>,
    serverImportSource: Option<string>,
    hydrate: Option<Hydrate>)

  /** `PartialIslandsConfig`: every top-level key optional, `jsx` itself partial. */
  datatype PartialIslandsConfig = PartialIslandsConfig(
    pattern: Option<Pattern>,
    imports: Option<seq<string>>,
    jsx: Option<PartialJsxConfig>)
}
