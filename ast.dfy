/**
 * The JSX syntax tree the islands transforms work on, and the helpers of
 * plugins/islands/helpers/ast.ts over it: the island detector, tag-path reduction,
 * declaration classification through an abstract symbol table, containing scopes and the
 * builders for attributes, `<script>` and `<link>` tags.
 */
module Ast {
  import opened Wrappers
  import opened JsStrings

  /** Kinds of syntax node that the model carries only as a tag on a generic node. */
  datatype SyntaxKind =
    | SourceFile
    | FunctionDeclaration | FunctionExpression | ArrowFunction | MethodDeclaration | Constructor
    | GetAccessor | SetAccessor | CallSignature | ConstructSignature | MethodSignature
    | IndexSignature | FunctionType | ConstructorType
    | VariableDeclaration
    | OtherKind

  /** `ts.isFunctionLike` on a syntax kind. */
  predicate IsFunctionLikeKind(k: SyntaxKind) {
    !(k.SourceFile? || k.VariableDeclaration? || k.OtherKind?)
  }

  /** A JSX tag name: `X`, `ns:name`, a member chain `A.B.C`, or `this`. */
  datatype TagExpr =
    | Ident(text: string)
    | Namespaced(namespace: string, name: string)
    | Member(expression: TagExpr, name: string)
    | This

  /** The name of a JSX attribute: a plain identifier or `ns:name`. */
  datatype AttrName = IdentName(text: string) | NamespacedName(namespace: string, name: string)

  /** The key of an object-literal property. */
  datatype PropertyName = IdentifierName(text: string) | StringLiteralName(text: string)

  datatype Node =
    | Element(tag: TagExpr, attrs: seq<Attr>, children: seq<Node>)
    | SelfClosing(tag: TagExpr, attrs: seq<Attr>)
    | Fragment(children: seq<Node>)
    | JsxText(text: string)
    | JsxExpression(expr: Option<Node>)
    | StringLiteral(text: string)
    | TrueKeyword
    | FalseKeyword
    | Identifier(name: string)
    | PropertyAccess(obj: Node, member: string)
    | Call(callee: Node, args: seq<Node>)
    | ObjectLiteral(props: seq<ObjProp>)
    | Other(kind: SyntaxKind, children: seq<Node>)

  datatype Attr =
    | Attribute(name: AttrName, init: Option<Node>)
    | SpreadAttribute(expr: Node)

  datatype ObjProp =
    | PropertyAssignment(key: PropertyName, value: Node)
    | SpreadAssignment(spread: Node)

  /** A container element or a self-closing element: the nodes with a tag and attributes. */
  predicate IsElement(n: Node) {
    n.Element? || n.SelfClosing?
  }

  /** The same constructor: what a walk that only rewrites children keeps of a node. */
  predicate SameKind(a: Node, b: Node) {
    && (a.Element? <==> b.Element?) && (a.SelfClosing? <==> b.SelfClosing?)
    && (a.Fragment? <==> b.Fragment?) && (a.JsxText? <==> b.JsxText?)
    && (a.JsxExpression? <==> b.JsxExpression?) && (a.StringLiteral? <==> b.StringLiteral?)
    && (a.TrueKeyword? <==> b.TrueKeyword?) && (a.FalseKeyword? <==> b.FalseKeyword?)
    && (a.Identifier? <==> b.Identifier?) && (a.PropertyAccess? <==> b.PropertyAccess?)
    && (a.Call? <==> b.Call?) && (a.ObjectLiteral? <==> b.ObjectLiteral?) && (a.Other? <==> b.Other?)
  }

  /**
   * `getJsxElementTagName`: the tag of the opening element or of the self-closing element,
   * the one `isJsxElementWithTagName` matches the element by.
   */
  function GetJsxElementTagName(n: Node): (r: TagExpr)
    requires IsElement(n)
    ensures IsJsxElementWithTagName(n, DottedName(r))
  {
    n.tag
  }

  /**
   * `getJsxElementAttributes`: the attributes of the opening element or of the self-closing
   * element, the ones the detector looks for the marker in.
   */
  function GetJsxElementAttributes(n: Node): (r: seq<Attr>)
    requires IsElement(n)
    ensures IsIsland(n) <==> exists i :: 0 <= i < |r| && IsIslandMarker(r[i])
  {
    n.attrs
  }

  // ---------------------------------------------------------------------------------------
  // Island detection

  /** `{true}`: an expression container holding the `true` keyword. */
  predicate IsTrueExpression(init: Node) {
    init.JsxExpression? && init.expr == Some(TrueKeyword)
  }

  /** The marker: `island-load` as a plain identifier, bare or initialised with `{true}`. */
  predicate IsIslandMarker(a: Attr) {
    a.Attribute? && a.name == IdentName("island-load") &&
    (a.init.None? || IsTrueExpression(a.init.value))
  }

  /** An element that carries the marker among its attributes. */
  predicate IsIsland(n: Node) {
    IsElement(n) && exists i :: 0 <= i < |n.attrs| && IsIslandMarker(n.attrs[i])
  }

  /** `isJsxElementWithIslandLoadAttribute`: scans the attributes, stopping at the first marker. */
  method IsJsxElementWithIslandLoadAttribute(node: Node) returns (r: bool)
    ensures r <==> IsIsland(node)
    ensures !IsElement(node) ==> !r
  {
    if !IsElement(node) {
      return false;
    }
    var attributes := GetJsxElementAttributes(node);
    for i := 0 to |attributes|
      invariant forall j :: 0 <= j < i ==> !IsIslandMarker(attributes[j])
    {
      var attribute := attributes[i];
      if attribute.Attribute? && attribute.name.IdentName? && attribute.name.text == "island-load" &&
         (attribute.init.None? ||
          (attribute.init.value.JsxExpression? && attribute.init.value.expr.Some? &&
           attribute.init.value.expr.value.TrueKeyword?))
      {
        return true;
      }
    }
    return false;
  }

  // ---------------------------------------------------------------------------------------
  // Tag paths

  /**
   * TypeScript's `escapeLeadingUnderscores`, which gives an identifier's `escapedText`: a name
   * starting with two underscores gets a third in front; every other name is kept.
   */
  function EscapeLeadingUnderscores(text: string): (r: string)
    ensures r != text <==> |text| >= 2 && text[0] == '_' && text[1] == '_'
    ensures r != text ==> r == "_" + text
  {
    if |text| >= 2 && text[0] == '_' && text[1] == '_' then "_" + text else text
  }

  /** A tag built from identifiers, `this` and member accesses only. */
  predicate IsChain(tag: TagExpr) {
    match tag
    case Ident(_) => true
    case This => true
    case Namespaced(_, _) => false
    case Member(expression, _) => IsChain(expression)
  }

  /** The tag names JSX can write: a chain, or a namespaced name on its own. */
  predicate IsTagName(tag: TagExpr) {
    IsChain(tag) || tag.Namespaced?
  }

  /**
   * The names a tag is written with, left to right, as the path holds them: a leading
   * identifier by its escaped text, namespace and member names as written.
   */
  function Segments(tag: TagExpr): seq<string> {
    match tag
    case Ident(text) => [EscapeLeadingUnderscores(text)]
    case Namespaced(ns, name) => [ns, name]
    case This => []
    case Member(expression, name) => Segments(expression) + [name]
  }

  /** The leftmost identifier of a tag; none when it starts at `this`. */
  function Base(tag: TagExpr): Option<string> {
    match tag
    case Ident(text) => Some(text)
    case Namespaced(ns, _) => Some(ns)
    case This => None
    case Member(expression, _) => Base(expression)
  }

  /**
   * `getRootIdentifier`: the names of a tag, outermost first, and its root identifier.
   * `path` accumulates the member names already unwrapped; a namespaced name discards it.
   * On a chain the result is the tag's names followed by `path`; the root is always the
   * leftmost identifier, none for `this`.
   */
  function GetRootIdentifier(tag: TagExpr, path: seq<string>): (r: (seq<string>, Option<string>))
    ensures r.1 == Base(tag)
    ensures IsChain(tag) ==> r.0 == Segments(tag) + path
    ensures tag.Namespaced? ==> r.0 == [tag.namespace, tag.name]
  {
    match tag
    case Ident(text) => ([EscapeLeadingUnderscores(text)] + path, Some(text))
    case Namespaced(ns, name) => ([ns, name], Some(ns))
    case This =>
      assert [] + path == path;
      (path, None)
    case Member(expression, name) =>
      assert Segments(expression) + ([name] + path) == (Segments(expression) + [name]) + path;
      GetRootIdentifier(expression, [name] + path)
  }

  /**
   * On every tag JSX can write, the path is the tag's names left to right (`A.B.C` gives
   * `[A, B, C]`, `ns:name` gives `[ns, name]`, `this.X` gives `[X]`, `__X` gives `[___X]`)
   * and the root is its leftmost identifier (none for `this`).
   */
  lemma TagPathOfTagName(tag: TagExpr)
    requires IsTagName(tag)
    ensures GetRootIdentifier(tag, []) == (Segments(tag), Base(tag))
    ensures tag.Ident? ==> GetRootIdentifier(tag, []).0 == [EscapeLeadingUnderscores(tag.text)]
  {
    assert Segments(tag) + [] == Segments(tag);
  }

  /** The dot-joined path: the canonical tag name used for metadata and lookups. */
  function DottedName(tag: TagExpr): string {
    Join(GetRootIdentifier(tag, []).0, ".")
  }

  /**
   * `isJsxElementWithTagName`: only elements match, each under exactly one name, its dotted
   * tag path.
   */
  predicate IsJsxElementWithTagName(node: Node, tagName: string)
    ensures IsJsxElementWithTagName(node, tagName) ==> IsElement(node)
  {
    IsElement(node) && DottedName(node.tag) == tagName
  }

  /** Every element matches its own dotted tag path, and no other name. */
  lemma ElementMatchesOneName(node: Node, tagName: string, other: string)
    requires IsElement(node)
    ensures IsJsxElementWithTagName(node, DottedName(GetJsxElementTagName(node)))
    ensures IsJsxElementWithTagName(node, tagName) && IsJsxElementWithTagName(node, other) ==> tagName == other
  {
  }

  /** An element is matched by the dot-joined names its tag is written with. */
  lemma IsJsxElementWithTagNameBySegments(node: Node, tagName: string)
    requires IsElement(node) && IsTagName(node.tag)
    ensures IsJsxElementWithTagName(node, tagName) <==> Join(Segments(node.tag), ".") == tagName
  {
    TagPathOfTagName(node.tag);
  }

  // ---------------------------------------------------------------------------------------
  // Declarations

  /**
   * What the type checker knows of a declaration: an import specifier with its import
   * declaration's module specifier, a variable declaration, or anything else.
   */
  datatype Declaration = ImportDecl(moduleSpecifier: Node) | VariableDecl | OtherDecl

  /** The checker, reduced to the declarations of the symbol at each node it resolves. */
  type Checker = map<Node, seq<Declaration>>

  datatype DeclarationType = Import(specifier: string) | Variable | Literal | Unknown

  /** `checker.getSymbolAtLocation(node)?.getDeclarations()`, absent read as empty. */
  function DeclarationsAt(checker: Checker, node: Node): seq<Declaration> {
    if node in checker then checker[node] else []
  }

  predicate IsVariableDeclarationNode(n: Node) {
    n.Other? && n.kind == VariableDeclaration
  }

  /**
   * The first declaration that decides the query: an import whose module specifier is a
   * string literal, or, when the QUERIED node is a variable declaration, any other one.
   */
  function ClassifyDeclarations(query: Node, declarations: seq<Declaration>): DeclarationType
  {
    if |declarations| == 0 then Unknown
    else if declarations[0].ImportDecl? then
      if declarations[0].moduleSpecifier.StringLiteral? then Import(declarations[0].moduleSpecifier.text)
      else ClassifyDeclarations(query, declarations[1..])
    else if IsVariableDeclarationNode(query) then Variable
    else ClassifyDeclarations(query, declarations[1..])
  }

  function Classification(query: Node, checker: Checker): DeclarationType {
    var declarations := DeclarationsAt(checker, query);
    if |declarations| == 0 then Literal else ClassifyDeclarations(query, declarations)
  }

  /** `traceToDeclaration`: a loop over the declarations with an early return. */
  method TraceToDeclaration(node: Node, checker: Checker) returns (r: DeclarationType)
    ensures r == Classification(node, checker)
  {
    var declarations := DeclarationsAt(checker, node);
    if |declarations| == 0 {
      return Literal;
    }
    for i := 0 to |declarations|
      invariant ClassifyDeclarations(node, declarations) == ClassifyDeclarations(node, declarations[i..])
    {
      var declaration := declarations[i];
      assert declarations[i..][1..] == declarations[i + 1..];
      if declaration.ImportDecl? {
        if declaration.moduleSpecifier.StringLiteral? {
          return Import(declaration.moduleSpecifier.text);
        }
      } else if IsVariableDeclarationNode(node) {
        return Variable;
      }
    }
    assert declarations[|declarations|..] == [];
    return Unknown;
  }

  predicate IsLiteralImport(d: Declaration) {
    d.ImportDecl? && d.moduleSpecifier.StringLiteral?
  }

  lemma {:induction false} ClassifyDeclarationsOfNonVariable(query: Node, declarations: seq<Declaration>)
    requires !IsVariableDeclarationNode(query)
    ensures ClassifyDeclarations(query, declarations) != Variable
    ensures ClassifyDeclarations(query, declarations) != Literal
    ensures ClassifyDeclarations(query, declarations).Import? <==>
              exists i :: 0 <= i < |declarations| && IsLiteralImport(declarations[i])
    ensures ClassifyDeclarations(query, declarations).Import? ==>
              exists i :: 0 <= i < |declarations| && IsLiteralImport(declarations[i]) &&
                declarations[i].moduleSpecifier.text == ClassifyDeclarations(query, declarations).specifier &&
                forall j :: 0 <= j < i ==> !IsLiteralImport(declarations[j])
  {
    if |declarations| > 0 {
      var rest := declarations[1..];
      ClassifyDeclarationsOfNonVariable(query, rest);
      if IsLiteralImport(declarations[0]) {
        assert IsLiteralImport(declarations[0]);
      } else {
        assert forall i :: 0 < i < |declarations| ==> declarations[i] == rest[i - 1];
        if ClassifyDeclarations(query, declarations).Import? {
          var k :| 0 <= k < |rest| && IsLiteralImport(rest[k]) &&
            rest[k].moduleSpecifier.text == ClassifyDeclarations(query, rest).specifier &&
            forall j :: 0 <= j < k ==> !IsLiteralImport(rest[j]);
          assert IsLiteralImport(declarations[k + 1]);
        } else {
          forall i | 0 <= i < |declarations| ensures !IsLiteralImport(declarations[i]) {
            if i > 0 { assert declarations[i] == rest[i - 1]; }
          }
        }
      }
    }
  }

  /**
   * For the identifier the transforms query: `literal` exactly when there is no declaration,
   * never `variable`, and `import` with the text of the first import specifier whose module
   * specifier is a string literal, `unknown` when there is none.
   */
  lemma ClassificationOfIdentifier(name: string, checker: Checker)
    ensures var declarations := DeclarationsAt(checker, Identifier(name));
            var r := Classification(Identifier(name), checker);
            && (r == Literal <==> |declarations| == 0)
            && r != Variable
            && (r == Unknown <==> |declarations| > 0 && forall i :: 0 <= i < |declarations| ==> !IsLiteralImport(declarations[i]))
            && (r.Import? ==>
                  exists i :: 0 <= i < |declarations| && IsLiteralImport(declarations[i]) &&
                    declarations[i].moduleSpecifier.text == r.specifier &&
                    forall j :: 0 <= j < i ==> !IsLiteralImport(declarations[j]))
  {
    ClassifyDeclarationsOfNonVariable(Identifier(name), DeclarationsAt(checker, Identifier(name)));
  }

  // ---------------------------------------------------------------------------------------
  // Containing scopes

  /** A source file or a function-like node. */
  predicate IsScope(n: Node) {
    n.Other? && (n.kind.SourceFile? || IsFunctionLikeKind(n.kind))
  }

  /** The scopes among `ancestry`, kept in order. */
  function Scopes(ancestry: seq<Node>): seq<Node> {
    if |ancestry| == 0 then []
    else Scopes(ancestry[..|ancestry| - 1]) + (if IsScope(ancestry[|ancestry| - 1]) then [ancestry[|ancestry| - 1]] else [])
  }

  /**
   * `getContainingScopes`: `ancestry` is the node followed by its parents up to the source
   * file, as `ts.findAncestor` visits them; the scopes met are pushed in that order.
   */
  method GetContainingScopes(ancestry: seq<Node>) returns (scopes: seq<Node>)
    ensures scopes == Scopes(ancestry)
  {
    scopes := [];
    for i := 0 to |ancestry|
      invariant scopes == Scopes(ancestry[..i])
    {
      assert ancestry[..i + 1][..i] == ancestry[..i];
      if IsScope(ancestry[i]) {
        scopes := scopes + [ancestry[i]];
      }
    }
    assert ancestry[..|ancestry|] == ancestry;
  }

  /** Scopes are exactly the source files and function-like nodes of the ancestry. */
  lemma {:induction false} ScopesMembers(ancestry: seq<Node>)
    ensures forall n :: n in Scopes(ancestry) <==> n in ancestry && IsScope(n)
  {
    if |ancestry| > 0 {
      var init := ancestry[..|ancestry| - 1];
      ScopesMembers(init);
      assert ancestry == init + [ancestry[|ancestry| - 1]];
    }
  }

  /** Filtering keeps ancestry order: the nearest scope comes first. */
  lemma {:induction false} ScopesAppend(near: seq<Node>, far: seq<Node>)
    ensures Scopes(near + far) == Scopes(near) + Scopes(far)
  {
    if |far| > 0 {
      var init := far[..|far| - 1];
      ScopesAppend(near, init);
      assert (near + far)[..|near + far| - 1] == near + init;
    } else {
      assert near + far == near;
    }
  }

  // ---------------------------------------------------------------------------------------
  // Builders

  /**
   * `createJsxAttributes`: the record's entries in insertion order, those with a value only,
   * each named by its key as an identifier.
   */
  function CreateJsxAttributes(entries: seq<(string, Option<Node>)>): (r: seq<Attr>)
    ensures |r| <= |entries|
    ensures forall a :: a in r ==> a.Attribute? && a.name.IdentName? && a.init.Some?
  {
    if |entries| == 0 then []
    else
      var rest := CreateJsxAttributes(entries[1..]);
      if entries[0].1.Some? then [Attribute(IdentName(entries[0].0), entries[0].1)] + rest else rest
  }

  /** An attribute is created exactly for each entry that has a value; the others are skipped. */
  lemma {:induction false} CreateJsxAttributesMembers(entries: seq<(string, Option<Node>)>)
    ensures forall k, v :: Attribute(IdentName(k), Some(v)) in CreateJsxAttributes(entries) <==> (k, Some(v)) in entries
  {
    if |entries| > 0 {
      CreateJsxAttributesMembers(entries[1..]);
      assert forall e :: e in entries <==> e == entries[0] || e in entries[1..];
    }
  }

  /** Entries keep their order: building from two halves gives the two halves' attributes. */
  lemma {:induction false} CreateJsxAttributesAppend(first: seq<(string, Option<Node>)>, second: seq<(string, Option<Node>)>)
    ensures CreateJsxAttributes(first + second) == CreateJsxAttributes(first) + CreateJsxAttributes(second)
  {
    if |first| > 0 {
      CreateJsxAttributesAppend(first[1..], second);
      assert (first + second)[1..] == first[1..] + second;
    } else {
      assert first + second == second;
    }
  }

  /** `createJsxScriptTag`: `<script type=... src=... />`, which is never itself an island. */
  function CreateJsxScriptTag(scriptType: string, src: string): (r: Node)
    ensures r.SelfClosing? && IsJsxElementWithTagName(r, "script")
    ensures r.attrs == [Attribute(IdentName("type"), Some(StringLiteral(scriptType))),
                        Attribute(IdentName("src"), Some(StringLiteral(src)))]
    ensures !IsIsland(r)
  {
    var entries := [("type", Some(StringLiteral(scriptType))), ("src", Some(StringLiteral(src)))];
    assert entries[1..][1..] == [];
    assert CreateJsxAttributes(entries[1..]) == [Attribute(IdentName("src"), Some(StringLiteral(src)))];
    SelfClosing(Ident("script"), CreateJsxAttributes(entries))
  }

  /** `createJsxStylesheetLinkTag`: `<link rel="stylesheet" href=... />`, never an island. */
  function CreateJsxStylesheetLinkTag(href: string): (r: Node)
    ensures r.SelfClosing? && IsJsxElementWithTagName(r, "link")
    ensures r.attrs == [Attribute(IdentName("rel"), Some(StringLiteral("stylesheet"))),
                        Attribute(IdentName("href"), Some(StringLiteral(href)))]
    ensures !IsIsland(r)
  {
    var entries := [("rel", Some(StringLiteral("stylesheet"))), ("href", Some(StringLiteral(href)))];
    assert entries[1..][1..] == [];
    assert CreateJsxAttributes(entries[1..]) == [Attribute(IdentName("href"), Some(StringLiteral(href)))];
    SelfClosing(Ident("link"), CreateJsxAttributes(entries))
  }

  // ---------------------------------------------------------------------------------------
  // Traversal

  /**
   * Every node of a tree in the order the walks finish them: each node's attribute
   * initializers, children and operands first, left to right, then the node itself.
   */
  function Descendants(n: Node): (r: seq<Node>)
    ensures |r| > 0 && r[|r| - 1] == n
    decreases n, 1
  {
    match n
    case Element(_, attrs, children) => AttrsDescendants(attrs) + NodesDescendants(children) + [n]
    case SelfClosing(_, attrs) => AttrsDescendants(attrs) + [n]
    case Fragment(children) => NodesDescendants(children) + [n]
    case JsxExpression(expr) =>
      (match expr case Some(e) => Descendants(e) case None => []) + [n]
    case PropertyAccess(obj, _) => Descendants(obj) + [n]
    case Call(callee, args) => Descendants(callee) + NodesDescendants(args) + [n]
    case ObjectLiteral(props) => PropsDescendants(props) + [n]
    case Other(_, children) => NodesDescendants(children) + [n]
    case _ => [n]
  }

  function NodesDescendants(ns: seq<Node>): seq<Node>
    decreases ns, 2
  {
    if |ns| == 0 then [] else Descendants(ns[0]) + NodesDescendants(ns[1..])
  }

  function AttrsDescendants(attrs: seq<Attr>): seq<Node>
    decreases attrs, 2
  {
    if |attrs| == 0 then []
    else
      var first :=
        match attrs[0]
        case Attribute(_, init) =>
          (match init case Some(v) => assert v < init < attrs[0]; Descendants(v) case None => [])
        case SpreadAttribute(e) => assert e < attrs[0]; Descendants(e);
      first + AttrsDescendants(attrs[1..])
  }

  function PropsDescendants(props: seq<ObjProp>): seq<Node>
    decreases props, 2
  {
    if |props| == 0 then []
    else
      var first :=
        match props[0]
        case PropertyAssignment(_, v) => assert v < props[0]; Descendants(v)
        case SpreadAssignment(e) => assert e < props[0]; Descendants(e);
      first + PropsDescendants(props[1..])
  }

  /**
   * Every island in the nodes has a root identifier: none is tagged by a `this`-based chain,
   * on which the transforms would pass a null identifier to the checker.
   */
  predicate IslandRootsKnown(ds: seq<Node>) {
    forall d :: d in ds && IsIsland(d) ==> Base(d.tag).Some?
  }
}
