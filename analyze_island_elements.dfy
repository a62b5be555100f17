/**
 * The analysis walk of plugins/islands/transforms/analyze-island-elements.ts: every child of a
 * node is analysed before the node itself, and each marked element whose tag root is an
 * import (or a variable) is reported as `(id, dotted tag name, import specifier)`. The
 * `onIslandFound` callback is modelled as the list of reports, in the order it is called by a
 * sequential walk.
 */
module AnalyzeIslandElements {
  import opened Wrappers
  import opened JsStrings
  import opened Ast

  /** The arguments of one `onIslandFound` call. */
  datatype Report = Report(id: string, element: string, importPath: Option<string>)

  /** The report a single node makes about itself, if any. */
  function OwnReports(checker: Checker, id: string, n: Node): seq<Report>
    requires IslandRootsKnown([n])
  {
    if !IsIsland(n) then []
    else
      assert n in [n];
      var (tagNamePath, tagIdentifier) := GetRootIdentifier(n.tag, []);
      var declarationType := Classification(Identifier(tagIdentifier.value), checker);
      if declarationType.Literal? || declarationType.Unknown? then []
      else [Report(id, Join(tagNamePath, "."), if declarationType.Import? then Some(declarationType.specifier) else None)]
  }

  /** `analyzeIslandElements(id, node)` on a present node: children first, then the node. */
  function AnalyzeNode(checker: Checker, id: string, n: Node): seq<Report>
    requires IslandRootsKnown(Descendants(n))
    decreases n, 1
  {
    assert n in Descendants(n);
    AnalyzeChildren(checker, id, n) + OwnReports(checker, id, n)
  }

  /** The children, as `getChildren` lists them, analysed left to right. */
  function AnalyzeChildren(checker: Checker, id: string, n: Node): seq<Report>
    requires IslandRootsKnown(Descendants(n))
    decreases n, 0
  {
    match n
    case Element(_, attrs, children) => AnalyzeAttrs(checker, id, attrs) + AnalyzeNodes(checker, id, children)
    case SelfClosing(_, attrs) => AnalyzeAttrs(checker, id, attrs)
    case Fragment(children) => AnalyzeNodes(checker, id, children)
    case JsxExpression(expr) =>
      (match expr case Some(e) => AnalyzeNode(checker, id, e) case None => [])
    case PropertyAccess(obj, _) => AnalyzeNode(checker, id, obj)
    case Call(callee, args) => AnalyzeNode(checker, id, callee) + AnalyzeNodes(checker, id, args)
    case ObjectLiteral(props) => AnalyzeProps(checker, id, props)
    case Other(_, children) => AnalyzeNodes(checker, id, children)
    case _ => []
  }

  function AnalyzeNodes(checker: Checker, id: string, ns: seq<Node>): seq<Report>
    requires IslandRootsKnown(NodesDescendants(ns))
    decreases ns, 2
  {
    if |ns| == 0 then [] else AnalyzeNode(checker, id, ns[0]) + AnalyzeNodes(checker, id, ns[1..])
  }

  function AnalyzeAttrs(checker: Checker, id: string, attrs: seq<Attr>): seq<Report>
    requires IslandRootsKnown(AttrsDescendants(attrs))
    decreases attrs, 2
  {
    if |attrs| == 0 then []
    else
      var first :=
        match attrs[0]
        case Attribute(_, init) =>
          (match init
           case Some(v) => assert v < init < attrs[0]; AnalyzeNode(checker, id, v)
           case None => [])
        case SpreadAttribute(e) => assert e < attrs[0]; AnalyzeNode(checker, id, e);
      first + AnalyzeAttrs(checker, id, attrs[1..])
  }

  function AnalyzeProps(checker: Checker, id: string, props: seq<ObjProp>): seq<Report>
    requires IslandRootsKnown(PropsDescendants(props))
    decreases props, 2
  {
    if |props| == 0 then []
    else
      var first :=
        match props[0]
        case PropertyAssignment(_, v) => assert v < props[0]; AnalyzeNode(checker, id, v)
        case SpreadAssignment(e) => assert e < props[0]; AnalyzeNode(checker, id, e);
      first + AnalyzeProps(checker, id, props[1..])
  }

  /** `analyzeIslandElements(id, node)`: an undefined node reports nothing. */
  function AnalyzeIslandElements(checker: Checker, id: string, node: Option<Node>): (r: seq<Report>)
    requires node.Some? ==> IslandRootsKnown(Descendants(node.value))
    ensures node.None? ==> r == []
    ensures node.Some? ==> r == ReportsFor(checker, id, Descendants(node.value))
  {
    match node
    case None => []
    case Some(n) =>
      AnalyzeNodeFlat(checker, id, n);
      AnalyzeNode(checker, id, n)
  }

  // ---------------------------------------------------------------------------------------
  // The walk, flattened

  /** The reports of a list of nodes, each node's own report in list order. */
  function ReportsFor(checker: Checker, id: string, ds: seq<Node>): seq<Report>
    requires IslandRootsKnown(ds)
  {
    if |ds| == 0 then [] else OwnReports(checker, id, ds[0]) + ReportsFor(checker, id, ds[1..])
  }

  lemma {:induction false} ReportsForAppend(checker: Checker, id: string, first: seq<Node>, second: seq<Node>)
    requires IslandRootsKnown(first + second)
    ensures ReportsFor(checker, id, first + second) == ReportsFor(checker, id, first) + ReportsFor(checker, id, second)
  {
    if |first| == 0 {
      assert first + second == second;
    } else {
      var both := first + second;
      assert both[0] == first[0] && both[1..] == first[1..] + second;
      assert IslandRootsKnown(first[1..] + second);
      ReportsForAppend(checker, id, first[1..], second);
    }
  }

  /**
   * The recursive walk reports exactly what the nodes of the tree report, in post-order:
   * every descendant's report comes before its ancestors', left subtrees before right ones.
   */
  lemma {:induction false} AnalyzeNodeFlat(checker: Checker, id: string, n: Node)
    requires IslandRootsKnown(Descendants(n))
    ensures AnalyzeNode(checker, id, n) == ReportsFor(checker, id, Descendants(n))
    decreases n, 1
  {
    ReportsForLast(checker, id, Descendants(n));
    AnalyzeChildrenFlat(checker, id, n);
  }

  /** The reports of a non-empty sequence are those before its last node, then the last node's. */
  lemma ReportsForLast(checker: Checker, id: string, ds: seq<Node>)
    requires |ds| > 0 && IslandRootsKnown(ds)
    ensures IslandRootsKnown(ds[..|ds| - 1]) && IslandRootsKnown([ds[|ds| - 1]])
    ensures ReportsFor(checker, id, ds) == ReportsFor(checker, id, ds[..|ds| - 1]) + OwnReports(checker, id, ds[|ds| - 1])
  {
    var init, last := ds[..|ds| - 1], ds[|ds| - 1];
    assert ds == init + [last];
    ReportsForAppend(checker, id, init, [last]);
    assert [last][1..] == [];
  }

  lemma {:induction false} AnalyzeChildrenFlat(checker: Checker, id: string, n: Node)
    requires IslandRootsKnown(Descendants(n))
    ensures var ds := Descendants(n);
            AnalyzeChildren(checker, id, n) == ReportsFor(checker, id, ds[..|ds| - 1])
    decreases n, 0
  {
    var ds := Descendants(n);
    match n
    case Element(_, attrs, children) =>
      assert ds[..|ds| - 1] == AttrsDescendants(attrs) + NodesDescendants(children);
      AnalyzeAttrsFlat(checker, id, attrs);
      AnalyzeNodesFlat(checker, id, children);
      ReportsForAppend(checker, id, AttrsDescendants(attrs), NodesDescendants(children));
    case SelfClosing(_, attrs) =>
      assert ds[..|ds| - 1] == AttrsDescendants(attrs);
      AnalyzeAttrsFlat(checker, id, attrs);
    case Fragment(children) =>
      assert ds[..|ds| - 1] == NodesDescendants(children);
      AnalyzeNodesFlat(checker, id, children);
    case JsxExpression(expr) =>
      match expr {
        case None =>
          assert ds[..|ds| - 1] == [];
        case Some(e) =>
          assert ds[..|ds| - 1] == Descendants(e);
          AnalyzeNodeFlat(checker, id, e);
      }
    case PropertyAccess(obj, _) =>
      assert ds[..|ds| - 1] == Descendants(obj);
      AnalyzeNodeFlat(checker, id, obj);
    case Call(callee, args) =>
      assert ds[..|ds| - 1] == Descendants(callee) + NodesDescendants(args);
      AnalyzeNodeFlat(checker, id, callee);
      AnalyzeNodesFlat(checker, id, args);
      ReportsForAppend(checker, id, Descendants(callee), NodesDescendants(args));
    case ObjectLiteral(props) =>
      assert ds[..|ds| - 1] == PropsDescendants(props);
      AnalyzePropsFlat(checker, id, props);
    case Other(_, children) =>
      assert ds[..|ds| - 1] == NodesDescendants(children);
      AnalyzeNodesFlat(checker, id, children);
    case _ =>
      assert ds[..|ds| - 1] == [];
  }

  lemma {:induction false} AnalyzeNodesFlat(checker: Checker, id: string, ns: seq<Node>)
    requires IslandRootsKnown(NodesDescendants(ns))
    ensures AnalyzeNodes(checker, id, ns) == ReportsFor(checker, id, NodesDescendants(ns))
    decreases ns, 2
  {
    if |ns| > 0 {
      AnalyzeNodeFlat(checker, id, ns[0]);
      AnalyzeNodesFlat(checker, id, ns[1..]);
      ReportsForAppend(checker, id, Descendants(ns[0]), NodesDescendants(ns[1..]));
    }
  }

  lemma {:induction false} AnalyzeAttrsFlat(checker: Checker, id: string, attrs: seq<Attr>)
    requires IslandRootsKnown(AttrsDescendants(attrs))
    ensures AnalyzeAttrs(checker, id, attrs) == ReportsFor(checker, id, AttrsDescendants(attrs))
    decreases attrs, 2
  {
    if |attrs| > 0 {
      var rest := AttrsDescendants(attrs[1..]);
      AnalyzeAttrsFlat(checker, id, attrs[1..]);
      match attrs[0]
      case Attribute(_, init) =>
        match init {
          case None =>
            assert AttrsDescendants(attrs) == rest;
          case Some(v) =>
            assert v < init < attrs[0];
            AnalyzeNodeFlat(checker, id, v);
            ReportsForAppend(checker, id, Descendants(v), rest);
        }
      case SpreadAttribute(e) =>
        assert e < attrs[0];
        AnalyzeNodeFlat(checker, id, e);
        ReportsForAppend(checker, id, Descendants(e), rest);
    }
  }

  lemma {:induction false} AnalyzePropsFlat(checker: Checker, id: string, props: seq<ObjProp>)
    requires IslandRootsKnown(PropsDescendants(props))
    ensures AnalyzeProps(checker, id, props) == ReportsFor(checker, id, PropsDescendants(props))
    decreases props, 2
  {
    if |props| > 0 {
      var rest := PropsDescendants(props[1..]);
      AnalyzePropsFlat(checker, id, props[1..]);
      match props[0]
      case PropertyAssignment(_, v) =>
        assert v < props[0];
        AnalyzeNodeFlat(checker, id, v);
        ReportsForAppend(checker, id, Descendants(v), rest);
      case SpreadAssignment(e) =>
        assert e < props[0];
        AnalyzeNodeFlat(checker, id, e);
        ReportsForAppend(checker, id, Descendants(e), rest);
    }
  }

  // ---------------------------------------------------------------------------------------
  // What a report says

  /**
   * A node reports itself exactly when it carries the marker and its root identifier has an
   * import declaration with a string-literal module specifier; the report carries the file id,
   * the dotted tag name and the first such specifier, so the import path is never missing.
   */
  lemma OwnReportsCharacterised(checker: Checker, id: string, n: Node)
    requires IslandRootsKnown([n])
    ensures IsIsland(n) ==> GetRootIdentifier(n.tag, []).1.Some?
    ensures var reports := OwnReports(checker, id, n);
            && |reports| <= 1
            && (|reports| == 1 <==>
                  IsIsland(n) &&
                  var declarations := DeclarationsAt(checker, Identifier(GetRootIdentifier(n.tag, []).1.value));
                  exists i :: 0 <= i < |declarations| && IsLiteralImport(declarations[i]))
            && (|reports| == 1 ==>
                  var declarations := DeclarationsAt(checker, Identifier(GetRootIdentifier(n.tag, []).1.value));
                  && reports[0].id == id && reports[0].element == DottedName(n.tag)
                  && reports[0].importPath.Some?
                  && exists i :: 0 <= i < |declarations| && IsLiteralImport(declarations[i]) &&
                       declarations[i].moduleSpecifier.text == reports[0].importPath.value &&
                       forall j :: 0 <= j < i ==> !IsLiteralImport(declarations[j]))
  {
    if IsIsland(n) {
      assert n in [n];
      ClassificationOfIdentifier(GetRootIdentifier(n.tag, []).1.value, checker);
    }
  }

  /**
   * Every report comes from a marked element of the tree, and every marked element whose root
   * is imported from a string-literal module is reported.
   */
  lemma {:induction false} ReportsForMembers(checker: Checker, id: string, ds: seq<Node>)
    requires IslandRootsKnown(ds)
    ensures forall r :: r in ReportsFor(checker, id, ds) <==> exists i :: 0 <= i < |ds| && r in OwnReports(checker, id, ds[i])
  {
    if |ds| > 0 {
      ReportsForMembers(checker, id, ds[1..]);
      forall r | r in ReportsFor(checker, id, ds)
        ensures exists i :: 0 <= i < |ds| && r in OwnReports(checker, id, ds[i])
      {
        if r !in OwnReports(checker, id, ds[0]) {
          assert r in ReportsFor(checker, id, ds[1..]);
          var i :| 0 <= i < |ds[1..]| && r in OwnReports(checker, id, ds[1..][i]);
          assert ds[1..][i] == ds[i + 1];
        }
      }
      forall r, i | 0 <= i < |ds| && r in OwnReports(checker, id, ds[i])
        ensures r in ReportsFor(checker, id, ds)
      {
        if i > 0 {
          assert ds[1..][i - 1] == ds[i];
        }
      }
    }
  }
}
