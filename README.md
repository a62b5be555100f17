# islands: a Dafny model

This project models the core of the Vite "islands" plugin (plugins/islands). The plugin lets a
server-rendered JSX page mark an element with `island-load`. The element is then rendered on
the server, wrapped in a `div` that carries `data-island-*` metadata, and hydrated in the
browser by generated code.

The model covers:

- **Syntax tree and helpers** (`Ast`): the island detector, tag-path reduction,
  declaration classification and containing scopes, plus the builders of attributes,
  `<script>` and `<link>` tags. The TypeScript type checker is replaced by a symbol table.
  It maps a node to the declarations of its symbol.
- **The rewrite** (`TransformIslandElements`): the bottom-up walk that serialises a marked
  element's attributes into props, checks its module id and wraps it. The
  `onIslandTransform` callback is modelled as the list of records returned beside the new
  tree.
- **The analysis** (`AnalyzeIslandElements`): the post-order walk that reports islands.
  `onIslandFound` becomes the returned list of reports.
- **How the two passes relate** (`IslandPasses`): the rewrite wraps exactly the reported
  elements whose dotted name has a non-empty module id, in report order.
- **`getOrCreate`** (`MapHelpers`): a class around a mutable map, plus a factory object that
  counts its calls.
- **`mergeInput`** (`ViteHelpers`): merges build inputs keyed by basename into Rollup's
  `input` option.
- **The hydrate, imports and JSX-import-source plugins** (`Hydrate`, `Imports`,
  `JsxImportSource`): their `resolveId` and `transform` decisions and the code strings they
  build. The hydrate plugin is a class, because its `config` hook stores the environment
  that `transform` later reads.
- **The configuration defaults** of `islands()` (`Islands`), with the configuration types
  in `Config`.
- **JavaScript built-ins** (`JsStrings`, `Paths`): `join`, `startsWith`/`endsWith`,
  `parseInt` without a radix, `Array.prototype.at`, and POSIX `isAbsolute`/`resolve`/
  `basename`.

The model follows the code as written, including behaviours a reader might not expect:

- **`traceToDeclaration` never answers `variable` for a tag.** Its variable branch tests
  the queried node, not the declaration (plugins/islands/helpers/ast.ts:86). The tag is
  always an identifier, so that branch is dead for the transforms (`Ast.ClassificationOfIdentifier`).
- **A spread attribute on a rewritten island makes the whole rewrite throw.** The serializer
  passes the spread's `name` field, which spread attributes do not have, to
  `createSpreadAssignment`. TypeScript's parenthesizer then reads `.kind` of `undefined`, a
  `TypeError`. This happens for any marked element whose root passes the classification,
  whether or not its tag has a module id, because serialisation comes before the module-id
  check. The model returns this error from `MakeTransformIslandElements` instead of a tree.
- **The root of a tag path is the identifier's escaped text.** TypeScript escapes a name
  that starts with two underscores by adding a third, so `<__Foo island-load />` has the
  path `["___Foo"]`. Namespace and member names are taken as written.
- **Every `island-load` attribute is dropped from the props, whatever its initializer.**
  This includes `island-load="x"` and `island-load={false}`. A namespaced attribute `ns:name`
  becomes the key `"name:ns"` and is never dropped.
- **Initializers are copied whole,** expression container included. A missing initializer
  becomes `true`.
- **A report's import path is always present.** Only `import` classifications get past
  the gate, so the path always carries a specifier.
- **A tag rooted at `this`** has no root identifier. The source passes `null!` to the
  checker in that case. The model excludes it by precondition (`Ast.IslandRootsKnown`).
- **A virtual import specifier whose suffix is not a number resolves to the first import.**
  `parseInt` gives `NaN`, and `at(NaN)` reads index 0.
- **Calling the hydrate plugin's `transform` before its `config` hook** reads an undefined
  environment. For a file with islands this is modelled as an error; a file without islands
  returns before reading it.

## Model

| member | source | states |
|---|---|---|
| Ast.IsJsxElementWithIslandLoadAttribute | plugins/islands/helpers/ast.ts:14-35 | The scan returns true exactly when the node is an element or self-closing element with an attribute named by the plain identifier `island-load` that is bare or initialised with `{true}`. It returns false for every other kind of node. |
| Ast.GetJsxElementTagName | plugins/islands/helpers/ast.ts:37-43 | The tag read from an element is the one `isJsxElementWithTagName` matches it by: the element matches the dotted path of that tag. |
| Ast.GetJsxElementAttributes | plugins/islands/helpers/ast.ts:44-50 | The attributes read from an element are the ones the detector searches: the element is an island iff one of them is the marker. |
| Ast.EscapeLeadingUnderscores | plugins/islands/helpers/ast.ts:99 | A name changes under escaping exactly when it starts with `__`, and then it gets one more `_` in front. |
| Ast.GetRootIdentifier | plugins/islands/helpers/ast.ts:94-111 | The root is always the tag's leftmost identifier (none for `this`). On an identifier/`this`/member chain the path is the chain's names left to right, the leading identifier escaped, followed by the names already unwrapped. A namespaced name gives `[ns, name]` and drops them. |
| Ast.TagPathOfTagName | plugins/islands/helpers/ast.ts:94-111 | `X` gives `[X]` rooted at `X` when `X` does not start with `__`, and `__X` gives `[___X]` rooted at `__X`. `ns:name` gives `[ns, name]` rooted at `ns`, `A.B.C` gives `[A, B, C]` rooted at `A`, and `this.X` gives `[X]` with no root. |
| Ast.IsJsxElementWithTagName | plugins/islands/helpers/ast.ts:52-67 | Only an element or self-closing element can match a tag name. |
| Ast.ElementMatchesOneName | plugins/islands/helpers/ast.ts:52-67 | Every element matches the dotted path of its own tag, and no other name. |
| Ast.IsJsxElementWithTagNameBySegments | plugins/islands/helpers/ast.ts:52-67 | An element matches a tag name exactly when the dot-joined names of its tag equal it. |
| Ast.TraceToDeclaration | plugins/islands/helpers/ast.ts:69-92 | The loop with early returns computes the classification: `literal` without declarations, else the first deciding declaration, else `unknown`. |
| Ast.ClassifyDeclarationsOfNonVariable | plugins/islands/helpers/ast.ts:79-91 | For a query that is not a variable declaration the loop never answers `variable` or `literal`. It answers `import` iff some declaration is an import with a string-literal module specifier, and then with the first such specifier. |
| Ast.ClassificationOfIdentifier | plugins/islands/helpers/ast.ts:73-91 | For an identifier: `literal` iff no declarations, never `variable`, `unknown` iff none is a string-literal import, otherwise `import` with the first such import's text. |
| Ast.GetContainingScopes | plugins/islands/helpers/ast.ts:113-124 | The loop pushes exactly the source-file and function-like nodes of the ancestry, in the order `findAncestor` visits them. |
| Ast.ScopesMembers | plugins/islands/helpers/ast.ts:116-121 | A node is a containing scope iff it is on the ancestry (the node itself included) and is a source file or function-like. |
| Ast.ScopesAppend | plugins/islands/helpers/ast.ts:116-121 | Scopes keep ancestry order, so nearer scopes come first. |
| Ast.CreateJsxAttributes | plugins/islands/helpers/ast.ts:126-139 | At most one attribute per entry, each a plain-identifier attribute with a value. |
| Ast.CreateJsxAttributesMembers | plugins/islands/helpers/ast.ts:129-138 | An attribute `k={v}` is created iff the record has the entry `k: v`; entries without a value are skipped. |
| Ast.CreateJsxAttributesAppend | plugins/islands/helpers/ast.ts:130-137 | Insertion order is kept: attributes of consecutive entry lists concatenate. |
| Ast.CreateJsxScriptTag | plugins/islands/helpers/ast.ts:141-150 | A self-closing `script` element with attributes `type` then `src`, holding the given strings; it is not an island. |
| Ast.CreateJsxStylesheetLinkTag | plugins/islands/helpers/ast.ts:152-161 | A self-closing `link` element with `rel="stylesheet"` then `href`; it is not an island. |
| TransformIslandElements.SerializedProps | plugins/islands/transforms/transform-island-elements.ts:52-89 | Serialising an attribute list throws, with the `TypeError` of `createSpreadAssignment(undefined)`, exactly when the list has a spread attribute. |
| TransformIslandElements.SerializeProps | plugins/islands/transforms/transform-island-elements.ts:52-89 | The push loop builds exactly the serialised props of the attribute list, and throws at the first spread attribute. |
| TransformIslandElements.SerializedPropsAppend | plugins/islands/transforms/transform-island-elements.ts:53-89 | Props follow attribute order: two lists serialise together iff each does, and then their props concatenate. |
| TransformIslandElements.IdentifierAttributeProps | plugins/islands/transforms/transform-island-elements.ts:65-88 | `island-load` is dropped whatever its initializer. Any other plain name becomes a string-literal key with its initializer copied whole, or `true` without one. |
| TransformIslandElements.NamespacedAttributeProps | plugins/islands/transforms/transform-island-elements.ts:65-88 | `ns:name` becomes the string key `"name:ns"` and is never dropped. |
| TransformIslandElements.SerializedPropsShape | plugins/islands/transforms/transform-island-elements.ts:53-89 | When serialisation does not throw (no spread attribute), there is one property per plain attribute not keyed `island-load`. Every entry is a property assignment with a string-literal key, and none is keyed `island-load`. |
| TransformIslandElements.WrapperAttributesInOrder | plugins/islands/transforms/transform-island-elements.ts:115-140 | The wrapper's attributes are `style="display:contents"`, the hash, the dotted tag name and `data-island-hydrated="false"`, in that order. They are followed by `data-island-props={JSON.stringify({...props})}` only when there are props. |
| TransformIslandElements.WrapShape | plugins/islands/transforms/transform-island-elements.ts:107-149 | The replacement is a fragment: the siblings (or nothing), then one `div` holding exactly the node. That `div` is not itself an island. |
| TransformIslandElements.ModuleIdForImport | plugins/islands/transforms/transform-island-elements.ts:42-95 | The gate opens iff the root identifier has a string-literal import declaration and the dotted name has a non-empty entry in `elementImportMap`. That entry is the module id. |
| TransformIslandElements.TransformNode | plugins/islands/transforms/transform-island-elements.ts:36-153 | Rewriting keeps a `{true}` initializer and the `true` keyword as they are. |
| TransformIslandElements.VisitChildren | plugins/islands/transforms/transform-island-elements.ts:37 | Rewriting the children keeps the node's constructor, its tag, whether it carries the marker and whether it has a spread attribute. |
| TransformIslandElements.TransformNodes | plugins/islands/transforms/transform-island-elements.ts:37 | Every child is rewritten: one result per child. |
| TransformIslandElements.TransformAttrs | plugins/islands/transforms/transform-island-elements.ts:37 | One attribute per attribute, each keeping whether it is the marker and whether it is a spread. |
| TransformIslandElements.TransformProps | plugins/islands/transforms/transform-island-elements.ts:37 | One property per property. |
| TransformIslandElements.TransformIslandOutcome | plugins/islands/transforms/transform-island-elements.ts:36-150 | For a marked element the children are rewritten first. With the gate shut, the child-rewritten node comes back, still marked, with no record of its own. With it open, the result is the wrapper around the child-rewritten node, and its record is appended after the descendants' records with hash `hash(moduleId)`, the dotted name and the serialised props. |
| TransformIslandElements.TransformNodeStep | plugins/islands/transforms/transform-island-elements.ts:39-150 | A node adds at most one record, after its children's, and only when it passes the gate. A node that does not pass is its child-rewritten self. |
| TransformIslandElements.TransformNodeRecords | plugins/islands/transforms/transform-island-elements.ts:36-153 | On a tree the rewrite gets through without throwing: one record per marked element that passes the gate, in post-order. Every record describes its node. A tree with no such element comes back unchanged. |
| TransformIslandElements.VisitChildrenRecords | plugins/islands/transforms/transform-island-elements.ts:37 | The same, for everything below the node. |
| TransformIslandElements.TransformNodesRecords | plugins/islands/transforms/transform-island-elements.ts:37 | The same, for a list of children. |
| TransformIslandElements.TransformAttrsRecords | plugins/islands/transforms/transform-island-elements.ts:37 | The same, for attribute initializers and spreads. |
| TransformIslandElements.TransformPropsRecords | plugins/islands/transforms/transform-island-elements.ts:37 | The same, for object-literal values. |
| TransformIslandElements.IslandFreeUnchanged | plugins/islands/transforms/transform-island-elements.ts:36-153 | A tree without marked elements is returned exactly as it was, with no records. |
| TransformIslandElements.MakeTransformIslandElements | plugins/islands/transforms/transform-island-elements.ts:33-157 | The rewrite of a file throws the spread `TypeError` exactly when some marked element whose root passes the classification has a spread attribute, whether or not its tag has a module id. Otherwise its records are one per marked element that passes the gate, in post-order, each describing its node, and a file with no such element comes back unchanged. |
| AnalyzeIslandElements.AnalyzeIslandElements | plugins/islands/transforms/analyze-island-elements.ts:17-43 | An undefined node reports nothing. A tree reports, in post-order, what each of its nodes reports about itself. |
| AnalyzeIslandElements.AnalyzeNodeFlat | plugins/islands/transforms/analyze-island-elements.ts:24-42 | The recursive walk, run sequentially, reports all children before the node's own report, so descendants are reported before ancestors and left subtrees before right ones (the source's order differs: see "Left out"). |
| AnalyzeIslandElements.AnalyzeChildrenFlat | plugins/islands/transforms/analyze-island-elements.ts:24-27 | The children's reports are those of every node below, in post-order. |
| AnalyzeIslandElements.AnalyzeNodesFlat | plugins/islands/transforms/analyze-island-elements.ts:24-27 | The same, for a list of children. |
| AnalyzeIslandElements.AnalyzeAttrsFlat | plugins/islands/transforms/analyze-island-elements.ts:24-27 | The same, for attribute initializers and spreads. |
| AnalyzeIslandElements.AnalyzePropsFlat | plugins/islands/transforms/analyze-island-elements.ts:24-27 | The same, for object-literal values. |
| AnalyzeIslandElements.OwnReportsCharacterised | plugins/islands/transforms/analyze-island-elements.ts:28-41 | A node reports at most once. It reports iff it carries the marker and its root has a string-literal import. The report carries the file id, the dotted tag name and that first import's specifier. |
| AnalyzeIslandElements.ReportsForMembers | plugins/islands/transforms/analyze-island-elements.ts:24-42 | Every report comes from a node of the tree, and every node's report is made, whether or not its ancestors are islands. |
| IslandPasses.EligibleIslandsAreMappedReports | plugins/islands/transforms/transform-island-elements.ts:39-95 | The elements the rewrite wraps are the reported elements whose dotted name has a non-empty module id, in the same order. |
| IslandPasses.TransformFollowsAnalysis | plugins/islands/transforms/transform-island-elements.ts:36-153 | When the rewrite does not throw, its records are, in order, the analysis reports whose element has a non-empty module id, paired with that id. |
| MapHelpers.GetOrCreate | plugins/islands/helpers/map.ts:1-12 | A present key returns its value without calling `create` or changing the map. An absent key calls `create` once and stores and returns its result. Afterwards the key is present, and no other key changes. |
| MapHelpers.GetOrCreateTwice | plugins/islands/helpers/map.ts:6-11 | Asking twice gives the same value. The map gains only the key, and `create` runs at most once. |
| ViteHelpers.Latest | plugins/islands/helpers/vite.ts:10-12 | The addition found is the last one with that basename; with none found, no addition has it. |
| ViteHelpers.ByBasenameLatest | plugins/islands/helpers/vite.ts:10-12 | Each addition is stored under its basename, and the later addition wins. |
| ViteHelpers.MergeInput | plugins/islands/helpers/vite.ts:6-27 | The keys are exactly the additions' basenames plus the base's keys. A string base maps itself to itself over any addition. For an array or record base, additions win on collision. |
| ViteHelpers.MergedEntryKeepsNames | plugins/islands/helpers/vite.ts:22-24 | A record base keeps every name, with its own value where no addition overrides it. |
| Hydrate.Snippets | plugins/islands/plugins/hydrate.ts:59-77 | One snippet per element, in iteration order. |
| Hydrate.HydratePlugin.constructor | plugins/islands/plugins/hydrate.ts:16-27 | The plugin keeps its configuration, and no environment is known yet. |
| Hydrate.HydratePlugin.Name | plugins/islands/plugins/hydrate.ts:24 | The name is `vite-plugin-islands--hydrate--` followed by `apply`. |
| Hydrate.HydratePlugin.Config | plugins/islands/plugins/hydrate.ts:28-30 | The `config` hook stores the environment. |
| Hydrate.HydratePlugin.ResolveId | plugins/islands/plugins/hydrate.ts:32-46 | Sources other than the virtual hydrator resolve to nothing. For it, a function `hydrate` is an error. An entry path is returned as is when absolute; otherwise it is `Paths.Resolve(cwd, path)`. Under an absolute working directory the result is absolute. |
| Hydrate.HydratePlugin.Transform | plugins/islands/plugins/hydrate.ts:48-81 | Nothing for files without islands or in an SSR build, and an error before `config` has run. Otherwise the output is the code followed by the hydration block. |
| Hydrate.SnippetInBlock | plugins/islands/plugins/hydrate.ts:58-79 | Each element's snippet stands whole at its offset in the block. |
| Hydrate.SnippetsInOrder | plugins/islands/plugins/hydrate.ts:59-78 | Snippets follow in element order, one newline apart. |
| Hydrate.SnippetSelects | plugins/islands/plugins/hydrate.ts:71-72 | Each snippet queries the selector that matches the file hash and the element and excludes already hydrated wrappers. |
| Hydrate.SnippetHydrates | plugins/islands/plugins/hydrate.ts:71-74 | Each snippet runs the hydrator inside the per-wrapper callback. |
| Hydrate.SnippetMarksHydrated | plugins/islands/plugins/hydrate.ts:74-75 | After the hydrator, each snippet sets `islandHydrated = "true"`. |
| Hydrate.HydratorUsesConfig | plugins/islands/plugins/hydrate.ts:61-69 | An entry path gives a dynamic import of `virtual:island-hydrator`. A function gives exactly its result for `<element {...JSON.parse(...)} />` and `ISLAND_HTML_ELEMENT`. |
| Imports.ResolvedImports | plugins/islands/plugins/imports.ts:22-26 | One import per configured import, in place. Absolute ones are unchanged, relative ones are `Paths.Resolve(cwd, import)`, and all are absolute under an absolute working directory. |
| Imports.IslandsImports | plugins/islands/plugins/imports.ts:13-28 | No plugin iff there are no imports; otherwise the plugin keeps its configuration. |
| Imports.Name | plugins/islands/plugins/imports.ts:29 | The name is `vite-plugin-islands--imports--` followed by `apply`. |
| Imports.ResolveId | plugins/islands/plugins/imports.ts:33-40 | Sources without the `virtual:islands-imports-` prefix resolve to nothing. Whatever resolves is one of the resolved imports. |
| Imports.ImportLines | plugins/islands/plugins/imports.ts:50-52 | Line `i` is `import "virtual:islands-imports-<i>"`, one per import. |
| Imports.Transform | plugins/islands/plugins/imports.ts:42-57 | Nothing under SSR or for a non-island file. Otherwise the output ends with a newline and the unchanged code. |
| Imports.TransformImportLine | plugins/islands/plugins/imports.ts:47-56 | Import line `i` stands at its join offset in the output and holds the specifier of import `i` between its quotes. |
| Imports.SpecifierResolves | plugins/islands/plugins/imports.ts:34-37 | The specifier written for import `i` resolves to resolved import `i`. |
| Imports.NonNumericSpecifierResolvesToFirst | plugins/islands/plugins/imports.ts:35-36 | A prefixed source whose rest `parseInt` reads as `NaN` resolves to the first import. |
| JsxImportSource.ResolveId | plugins/islands/plugins/jsx-import-source.ts:13-38 | A source is redirected iff the two runtimes differ and it is the server runtime outside SSR or the client runtime under SSR. The redirect targets the runtime of the current environment, never the source itself. |
| JsxImportSource.RedirectIsFinal | plugins/islands/plugins/jsx-import-source.ts:21-35 | Resolving a redirect's target again in the same environment is not redirected. |
| JsxImportSource.RedirectTargetsEnvironment | plugins/islands/plugins/jsx-import-source.ts:21-35 | Under SSR only the client runtime is redirected, to the server runtime; outside SSR only the server runtime, to the client runtime. |
| JsxImportSource.Transform | plugins/islands/plugins/jsx-import-source.ts:39-49 | Ids ending neither in `.tsx` nor `.jsx` are left alone. Others start with the pragma for the environment's runtime, followed by the unchanged code. |
| JsxImportSource.PragmaIsOneLine | plugins/islands/plugins/jsx-import-source.ts:44-46 | For a runtime name without line breaks, the pragma is exactly one line naming that runtime. |
| JsxImportSource.PragmaAgreesWithRedirect | plugins/islands/plugins/jsx-import-source.ts:13-49 | The runtime the pragma names is the one any redirect in that environment lands on. |
| Islands.IslandsConfigOf | plugins/islands/index.ts:7-22 | Absent keys default to the pattern `src/*.{tsx,jsx}`, no imports, `hono/jsx/dom` for the client, `hono/jsx` for the server, and the default hydration `DefaultHydrate` (which `Islands.DefaultHydrateRenders` shows renders the element into the node). Every key the caller gives wins, each JSX key on its own. |
| Islands.JsxKeysIndependent | plugins/islands/index.ts:10-21 | A partial `jsx` replaces only its own keys. Top-level keys and JSX keys do not affect each other. |
| Islands.DefaultHydrateRenders | plugins/islands/index.ts:14-19 | The default hydration code calls `render(jsxElement, htmlElement)` with its two arguments. |
| JsStrings.JoinEnds | plugins/islands/plugins/hydrate.ts:59-78 | `join` of no parts is empty; otherwise it starts with the first part and ends with the last. |
| JsStrings.JoinPartAt | plugins/islands/plugins/hydrate.ts:59-78 | Each part stands unchanged at its offset in the joined string. |
| JsStrings.JoinOffsetNext | plugins/islands/plugins/hydrate.ts:59-78 | Consecutive parts are one separator apart. |
| JsStrings.ParseIntNeedsDigit | plugins/islands/plugins/imports.ts:35 | `parseInt` gives a number only for text that holds a decimal digit; otherwise `NaN`. |
| JsStrings.ParseIntOfNatToString | plugins/islands/plugins/imports.ts:35 | `parseInt` reads back the decimal text of an index as that index. |
| JsStrings.At | plugins/islands/plugins/imports.ts:36 | `at` reads in-range indexes, counts negative ones from the end, and is undefined out of range. |
| Paths.Resolve | plugins/islands/plugins/imports.ts:22-26 | An absolute path resolves to itself. Under an absolute working directory every result is absolute. A relative path is appended to the working directory after a `/`. |
| Paths.Basename | plugins/islands/helpers/vite.ts:11 | A basename holds no `/`. |
| Paths.LastSegmentIsSuffix | plugins/islands/helpers/vite.ts:11 | The last segment ends the path and, unless it is the whole path, follows its last `/`; `Basename` takes it after trailing `/` are stripped. |
| Paths.BasenameOfJoin | plugins/islands/helpers/vite.ts:11 | The basename of `dir/name` is `name`. |

## Left out

- `plugins/islands/plugins/build.ts`, `serve.ts` and `transform-elements.ts` are not part of this model. They are Vite lifecycle plumbing: globbing, TypeScript program creation, manifest reads, async `this.resolve`, the printer and cache-busting timestamps.
- `parseTs` is left out: it reads files through the TypeScript compiler. `filePathHash` is left out: it is SHA-256.
- The TypeScript type checker is replaced by a map from nodes to declarations. Symbol resolution and scoping are not modelled.
- `getContainingScopes` takes the node's ancestry (the node, then its parents) as a list, since parent links are not modelled.
- AnalyzeIslandElements.AnalyzeNodeFlat: the `Promise.all` concurrency of the analysis is left out, and with it the source's report order. The model walks sequentially and reports in post-order. The source reports as its promises settle: a node reports only after all its children's promises have settled, so a shallow subtree can report before a deeper subtree to its left. For root children A (an island with a deeper subtree) and B (an island leaf), the source reports B then A; the model reports A then B. The set of reports, and descendants before ancestors, are the same. Only the order of the hydration snippets downstream depends on this.
- `ts.visitEachChild` and `getChildren` are modelled by one fixed child order per node kind. Tokens, which the walks never act on, are not represented.
- Imports.ResolvedImports, Hydrate.HydratePlugin.ResolveId, Paths.Resolve: `path.resolve` is modelled as joining with `/` without normalising `.` and `..` segments, or repeated and trailing `/`.
- TransformIslandElements.MakeTransformIslandElements: when the rewrite throws, the `onIslandTransform` calls already made for islands rewritten before the throwing element are not returned; the model returns only the error.
- TransformIslandElements.TransformNode: stated only for trees the rewrite gets through without throwing (`TransformIslandElements.Rewritable`); the throwing case is stated on `MakeTransformIslandElements`.
- JsStrings.ParseInt: skips only space, tab, line feed and carriage return. It handles only decimal and `0x` integers, with no floating-point overflow.
- Configuration keys given explicitly as `undefined`, and an `imports` key that is missing after the defaults, are not represented: a partial configuration's keys are either present with a value or absent.
- `null` and `undefined` returns of `resolveId`/`transform` are both `None`.
- The list of plugins `islands()` returns (plugins/islands/index.ts:24-28) is left out. It calls three plugin factories on the configuration: the default export of `./plugins/build` (imported under the name `islandsServe`), the default export of `./plugins/serve` (imported under the name `islandsBuild`), and `islandsJsxImportSource`. Only the last is modelled, as `JsxImportSource`; the build and serve factories are not part of this model.
- The generated JavaScript is modelled as strings; its runtime behaviour (DOM queries, `JSON.parse`, `JSON.stringify`) and the output of a user `hydrate` function are not.
- MapHelpers.GetOrCreate: the `create` callback is an object whose results are fixed in advance by call count, so a callback's other effects are not modelled.
