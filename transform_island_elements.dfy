/**
 * The bottom-up island rewrite of plugins/islands/transforms/transform-island-elements.ts.
 * Every node's children are rewritten first; a node the detector accepts whose tag root is
 * an import (or a variable) and whose dotted tag name has a module id is wrapped in a
 * fragment: the caller's sibling nodes, then a `div` with the `data-island-*` metadata holding
 * the node. The `onIslandTransform` callback is modelled as the list of records returned
 * next to the new tree, in the order the callback would have been called. Serialising the
 * props of a marked element with a spread attribute throws, and the whole rewrite with it.
 */
module TransformIslandElements {
  import opened Wrappers
  import opened JsStrings
  import opened Ast

  /** What `onIslandTransform` receives for one rewritten island. */
  datatype IslandInfo = IslandInfo(hash: string, moduleId: string, tagName: string, props: seq<ObjProp>, node: Node)

  /**
   * The options of `makeTransformIslandElements`: the checker, the module id of every dotted
   * tag name, the module hash and the sibling nodes to put before each wrapper.
   */
  datatype TransformOptions = TransformOptions(
    checker: Checker,
    id: string,
    elementImportMap: map<string, string>,
    hash: string -> string,
    siblings: string -> Option<seq<Node>>)

  // ---------------------------------------------------------------------------------------
  // Prop serialisation

  /** The property name an attribute name starts as: `ns:name` becomes the string `"name:ns"`. */
  function PropertyNameOf(name: AttrName): PropertyName {
    match name
    case NamespacedName(ns, n) => StringLiteralName(n + ":" + ns)
    case IdentName(text) => IdentifierName(text)
  }

  /**
   * What the serializer throws on a spread attribute: it passes the attribute's `name` field,
   * which spread attributes do not have, to `createSpreadAssignment`, whose parenthesizer reads
   * `.kind` of `undefined`.
   */
  const SpreadAttributeError: string := "TypeError: Cannot read properties of undefined (reading 'kind')"

  predicate HasSpread(attrs: seq<Attr>) {
    exists i :: 0 <= i < |attrs| && attrs[i].SpreadAttribute?
  }

  /** What one plain attribute adds to the props. */
  function AttributeProps(a: Attr): seq<ObjProp>
    requires a.Attribute?
  {
    var propertyName := PropertyNameOf(a.name);
    if propertyName.text == "island-load" then []
    else [PropertyAssignment(StringLiteralName(propertyName.text), if a.init.Some? then a.init.value else TrueKeyword)]
  }

  /**
   * The props of a whole attribute list, in attribute order; the serializer throws as soon as
   * it meets a spread attribute, so the list serialises exactly when it has none.
   */
  function SerializedProps(attrs: seq<Attr>): (r: Result<seq<ObjProp>, string>)
    ensures r.Err? <==> HasSpread(attrs)
    ensures r.Err? ==> r.error == SpreadAttributeError
  {
    if |attrs| == 0 then Ok([])
    else
      var init := attrs[..|attrs| - 1];
      var last := attrs[|attrs| - 1];
      assert forall i :: 0 <= i < |init| ==> init[i] == attrs[i];
      match SerializedProps(init)
      case Err(e) => Err(e)
      case Ok(props) =>
        if last.SpreadAttribute? then Err(SpreadAttributeError) else Ok(props + AttributeProps(last))
  }

  /** The serialisation loop: one push per kept attribute into `serializableProps`. */
  method SerializeProps(attributes: seq<Attr>) returns (r: Result<seq<ObjProp>, string>)
    ensures r == SerializedProps(attributes)
  {
    var serializableProps := [];
    for i := 0 to |attributes|
      invariant SerializedProps(attributes[..i]) == Ok(serializableProps)
    {
      assert attributes[..i + 1][..i] == attributes[..i];
      var attribute := attributes[i];
      if attribute.SpreadAttribute? {
        assert HasSpread(attributes);
        return Err(SpreadAttributeError);
      }
      var propertyName :=
        if attribute.name.NamespacedName? then StringLiteralName(attribute.name.name + ":" + attribute.name.namespace)
        else IdentifierName(attribute.name.text);
      if propertyName.text == "island-load" {
        assert attributes[..i + 1][i] == attribute;
        assert SerializedProps(attributes[..i]).value + [] == serializableProps;
        continue;
      }
      if propertyName.IdentifierName? {
        propertyName := StringLiteralName(propertyName.text);
      }
      assert attributes[..i + 1][i] == attribute;
      serializableProps := serializableProps + [PropertyAssignment(propertyName, if attribute.init.Some? then attribute.init.value else TrueKeyword)];
    }
    assert attributes[..|attributes|] == attributes;
    return Ok(serializableProps);
  }

  /**
   * Attribute order is kept: two lists serialise together exactly when each does, and then
   * their props are concatenated.
   */
  lemma {:induction false} SerializedPropsAppend(first: seq<Attr>, second: seq<Attr>)
    ensures SerializedProps(first + second).Ok? <==> SerializedProps(first).Ok? && SerializedProps(second).Ok?
    ensures SerializedProps(first + second).Ok? ==>
              SerializedProps(first + second).value == SerializedProps(first).value + SerializedProps(second).value
  {
    if |second| == 0 {
      assert first + second == first;
    } else {
      var init := second[..|second| - 1];
      var last := second[|second| - 1];
      var both := first + second;
      assert both[..|both| - 1] == first + init;
      assert both[|both| - 1] == last;
      SerializedPropsAppend(first, init);
      if last.SpreadAttribute? {
        assert SerializedProps(both).Err? && SerializedProps(second).Err?;
      } else if SerializedProps(first + init).Ok? {
        assert SerializedProps(both).value == SerializedProps(first + init).value + AttributeProps(last);
        assert SerializedProps(second).value == SerializedProps(init).value + AttributeProps(last);
      }
    }
  }

  /**
   * Every attribute named `island-load` is dropped whatever its initializer; every other
   * plain name becomes a string-literal key with its initializer copied whole, or `true`
   * when it has none.
   */
  lemma IdentifierAttributeProps(text: string, init: Option<Node>)
    ensures text == "island-load" ==> AttributeProps(Attribute(IdentName(text), init)) == []
    ensures text != "island-load" ==>
              AttributeProps(Attribute(IdentName(text), init)) ==
              [PropertyAssignment(StringLiteralName(text), if init.Some? then init.value else TrueKeyword)]
  {
  }

  /** A namespaced attribute is never taken for the marker: its key holds a colon. */
  lemma NamespacedAttributeProps(ns: string, name: string, init: Option<Node>)
    ensures AttributeProps(Attribute(NamespacedName(ns, name), init)) ==
              [PropertyAssignment(StringLiteralName(name + ":" + ns), if init.Some? then init.value else TrueKeyword)]
  {
    var key := name + ":" + ns;
    assert key[|name|] == ':';
    assert forall i :: 0 <= i < |"island-load"| ==> "island-load"[i] != ':';
    assert key != "island-load";
  }

  /** The attributes that become a property: plain ones whose key is not `island-load`. */
  function KeptAttributes(attrs: seq<Attr>): nat {
    if |attrs| == 0 then 0
    else
      var last := attrs[|attrs| - 1];
      KeptAttributes(attrs[..|attrs| - 1]) +
      (if last.Attribute? && PropertyNameOf(last.name).text != "island-load" then 1 else 0)
  }

  /**
   * A list without spreads gives one property per kept attribute, and nothing else: every
   * entry is a property assignment with a string-literal key, and none is keyed `island-load`.
   */
  lemma {:induction false} SerializedPropsShape(attrs: seq<Attr>)
    ensures SerializedProps(attrs).Ok? ==> |SerializedProps(attrs).value| == KeptAttributes(attrs)
    ensures SerializedProps(attrs).Ok? ==>
              forall p :: p in SerializedProps(attrs).value ==>
                p.PropertyAssignment? && p.key.StringLiteralName? && p.key.text != "island-load"
  {
    if |attrs| > 0 {
      SerializedPropsShape(attrs[..|attrs| - 1]);
    }
  }

  // ---------------------------------------------------------------------------------------
  // The wrapper

  /** `{JSON.stringify({...props})}`, evaluated at render time. */
  function JsonStringifyProps(props: seq<ObjProp>): Node {
    JsxExpression(Some(Call(PropertyAccess(Identifier("JSON"), "stringify"), [ObjectLiteral(props)])))
  }

  function WrapperAttributes(info: IslandInfo): seq<Attr> {
    CreateJsxAttributes([
      ("style", Some(StringLiteral("display:contents"))),
      ("data-island-hash", Some(StringLiteral(info.hash))),
      ("data-island-component", Some(StringLiteral(info.tagName))),
      ("data-island-hydrated", Some(StringLiteral("false"))),
      ("data-island-props", if |info.props| == 0 then None else Some(JsonStringifyProps(info.props)))
    ])
  }

  /**
   * The wrapper carries, in order, `style="display:contents"`, the hash, the dotted tag name,
   * `data-island-hydrated="false"` and, only when there are props, their JSON encoding.
   */
  lemma WrapperAttributesInOrder(info: IslandInfo)
    ensures var fixed := [
              Attribute(IdentName("style"), Some(StringLiteral("display:contents"))),
              Attribute(IdentName("data-island-hash"), Some(StringLiteral(info.hash))),
              Attribute(IdentName("data-island-component"), Some(StringLiteral(info.tagName))),
              Attribute(IdentName("data-island-hydrated"), Some(StringLiteral("false")))];
            WrapperAttributes(info) ==
              if |info.props| == 0 then fixed
              else fixed + [Attribute(IdentName("data-island-props"), Some(JsonStringifyProps(info.props)))]
  {
    var e0 := ("style", Some(StringLiteral("display:contents")));
    var e1 := ("data-island-hash", Some(StringLiteral(info.hash)));
    var e2 := ("data-island-component", Some(StringLiteral(info.tagName)));
    var e3 := ("data-island-hydrated", Some(StringLiteral("false")));
    var e4 := ("data-island-props", if |info.props| == 0 then None else Some(JsonStringifyProps(info.props)));
    var a0, a1, a2, a3 := Attribute(IdentName(e0.0), e0.1), Attribute(IdentName(e1.0), e1.1),
                          Attribute(IdentName(e2.0), e2.1), Attribute(IdentName(e3.0), e3.1);
    var last := CreateJsxAttributes([e4]);
    CreateJsxAttributesOne(e0);
    CreateJsxAttributesOne(e1);
    CreateJsxAttributesOne(e2);
    CreateJsxAttributesOne(e3);
    CreateJsxAttributesOne(e4);
    assert [e3, e4] == [e3] + [e4];
    CreateJsxAttributesAppend([e3], [e4]);
    assert CreateJsxAttributes([e3, e4]) == [a3] + last;
    assert [e2, e3, e4] == [e2] + [e3, e4];
    CreateJsxAttributesAppend([e2], [e3, e4]);
    assert CreateJsxAttributes([e2, e3, e4]) == [a2, a3] + last;
    assert [e1, e2, e3, e4] == [e1] + [e2, e3, e4];
    CreateJsxAttributesAppend([e1], [e2, e3, e4]);
    assert CreateJsxAttributes([e1, e2, e3, e4]) == [a1, a2, a3] + last;
    assert [e0, e1, e2, e3, e4] == [e0] + [e1, e2, e3, e4];
    CreateJsxAttributesAppend([e0], [e1, e2, e3, e4]);
    assert CreateJsxAttributes([e0, e1, e2, e3, e4]) == [a0, a1, a2, a3] + last;
  }

  lemma CreateJsxAttributesOne(e: (string, Option<Node>))
    ensures CreateJsxAttributes([e]) == if e.1.Some? then [Attribute(IdentName(e.0), e.1)] else []
  {
    assert [e][1..] == [];
  }

  /** The replacement: the siblings (or nothing), then the `div` holding exactly the node. */
  function Wrap(info: IslandInfo, siblings: Option<seq<Node>>): Node {
    Fragment((if siblings.Some? then siblings.value else []) +
             [Element(Ident("div"), WrapperAttributes(info), [info.node])])
  }

  /**
   * The replacement is a fragment of the siblings followed by one `div`, which holds exactly
   * the node and is not itself marked, so the rewrite never wraps its own wrapper.
   */
  lemma WrapShape(info: IslandInfo, siblings: Option<seq<Node>>)
    ensures var r := Wrap(info, siblings);
            var before := if siblings.Some? then siblings.value else [];
            && r.Fragment? && |r.children| == |before| + 1 && r.children[..|before|] == before
            && var div := r.children[|before|];
               && IsJsxElementWithTagName(div, "div") && div.Element? && div.children == [info.node]
               && !IsIsland(div)
  {
    WrapperAttributesInOrder(info);
    var before := if siblings.Some? then siblings.value else [];
    var r := Wrap(info, siblings);
    assert r.children[..|before|] == before;
  }

  // ---------------------------------------------------------------------------------------
  // The rewrite

  /**
   * The module id under which a marked element is rewritten: none when its root classifies
   * as `literal` or `unknown`, or when the dotted name has no (or an empty) entry in
   * `elementImportMap`.
   */
  function ModuleIdFor(opts: TransformOptions, tag: TagExpr): Option<string>
    requires GetRootIdentifier(tag, []).1.Some?
  {
    if !PassesClassification(opts.checker, tag) then None
    else
      var key := DottedName(tag);
      if key in opts.elementImportMap && opts.elementImportMap[key] != "" then Some(opts.elementImportMap[key])
      else None
  }

  /**
   * The root of a marked element's tag classifies as neither `literal` nor `unknown`: the
   * rewrite goes on to serialise the element's props.
   */
  predicate PassesClassification(checker: Checker, tag: TagExpr)
    requires GetRootIdentifier(tag, []).1.Some?
  {
    var declarationType := Classification(Identifier(GetRootIdentifier(tag, []).1.value), checker);
    !(declarationType.Literal? || declarationType.Unknown?)
  }

  /**
   * The trees the rewrite gets through without throwing: every marked element has a root
   * identifier, and none whose root passes the classification has a spread attribute.
   */
  predicate Rewritable(checker: Checker, ds: seq<Node>) {
    && IslandRootsKnown(ds)
    && forall d :: d in ds && IsIsland(d) && PassesClassification(checker, d.tag) ==> !HasSpread(d.attrs)
  }

  /**
   * The gate, stated over the checker: a marked element is wrapped exactly when its root
   * identifier has an import declaration whose module specifier is a string literal and its
   * dotted name maps to a non-empty module id, which is the id used.
   */
  lemma ModuleIdForImport(opts: TransformOptions, tag: TagExpr)
    requires GetRootIdentifier(tag, []).1.Some?
    ensures var declarations := DeclarationsAt(opts.checker, Identifier(GetRootIdentifier(tag, []).1.value));
            var key := DottedName(tag);
            ModuleIdFor(opts, tag).Some? <==>
              (exists i :: 0 <= i < |declarations| && IsLiteralImport(declarations[i])) &&
              key in opts.elementImportMap && opts.elementImportMap[key] != ""
    ensures ModuleIdFor(opts, tag).Some? ==> ModuleIdFor(opts, tag).value == opts.elementImportMap[DottedName(tag)]
  {
    ClassificationOfIdentifier(GetRootIdentifier(tag, []).1.value, opts.checker);
  }

  /** `transformIslandElements`: children first, then the node itself. */
  function TransformNode(opts: TransformOptions, n: Node): (r: (Node, seq<IslandInfo>))
    requires Rewritable(opts.checker, Descendants(n))
    ensures IsTrueExpression(r.0) <==> IsTrueExpression(n)
    ensures r.0.TrueKeyword? <==> n.TrueKeyword?
    decreases n, 1
  {
    var (visited, records) := VisitChildren(opts, n);
    if !IsIsland(visited) then (visited, records)
    else
      assert n in Descendants(n);
      match ModuleIdFor(opts, visited.tag)
      case None => (visited, records)
      case Some(moduleId) =>
        var tagName := DottedName(visited.tag);
        var info := IslandInfo(opts.hash(moduleId), moduleId, tagName, SerializedProps(visited.attrs).value, visited);
        (Wrap(info, opts.siblings(moduleId)), records + [info])
  }

  /**
   * `ts.visitEachChild(node, transformIslandElements)`: every child is rewritten, left to
   * right; the node keeps its kind, its tag and whether it carries the marker.
   */
  function VisitChildren(opts: TransformOptions, n: Node): (r: (Node, seq<IslandInfo>))
    requires Rewritable(opts.checker, Descendants(n))
    ensures SameKind(r.0, n)
    ensures IsElement(n) ==> r.0.tag == n.tag && (IsIsland(r.0) <==> IsIsland(n))
    ensures IsElement(n) ==> (HasSpread(r.0.attrs) <==> HasSpread(n.attrs))
    ensures IsTrueExpression(r.0) <==> IsTrueExpression(n)
    decreases n, 0
  {
    match n
    case Element(tag, attrs, children) =>
      var (attrs', fromAttrs) := TransformAttrs(opts, attrs);
      var (children', fromChildren) := TransformNodes(opts, children);
      (Element(tag, attrs', children'), fromAttrs + fromChildren)
    case SelfClosing(tag, attrs) =>
      var (attrs', fromAttrs) := TransformAttrs(opts, attrs);
      (SelfClosing(tag, attrs'), fromAttrs)
    case Fragment(children) =>
      var (children', fromChildren) := TransformNodes(opts, children);
      (Fragment(children'), fromChildren)
    case JsxExpression(expr) =>
      (match expr
       case None => (n, [])
       case Some(e) =>
         var (e', fromExpr) := TransformNode(opts, e);
         (JsxExpression(Some(e')), fromExpr))
    case PropertyAccess(obj, member) =>
      var (obj', fromObj) := TransformNode(opts, obj);
      (PropertyAccess(obj', member), fromObj)
    case Call(callee, args) =>
      var (callee', fromCallee) := TransformNode(opts, callee);
      var (args', fromArgs) := TransformNodes(opts, args);
      (Call(callee', args'), fromCallee + fromArgs)
    case ObjectLiteral(props) =>
      var (props', fromProps) := TransformProps(opts, props);
      (ObjectLiteral(props'), fromProps)
    case Other(kind, children) =>
      var (children', fromChildren) := TransformNodes(opts, children);
      (Other(kind, children'), fromChildren)
    case _ => (n, [])
  }

  function TransformNodes(opts: TransformOptions, ns: seq<Node>): (r: (seq<Node>, seq<IslandInfo>))
    requires Rewritable(opts.checker, NodesDescendants(ns))
    ensures |r.0| == |ns|
    decreases ns, 2
  {
    if |ns| == 0 then ([], [])
    else
      var (first, fromFirst) := TransformNode(opts, ns[0]);
      var (rest, fromRest) := TransformNodes(opts, ns[1..]);
      ([first] + rest, fromFirst + fromRest)
  }

  function TransformAttrs(opts: TransformOptions, attrs: seq<Attr>): (r: (seq<Attr>, seq<IslandInfo>))
    requires Rewritable(opts.checker, AttrsDescendants(attrs))
    ensures |r.0| == |attrs|
    ensures forall i :: 0 <= i < |attrs| ==> (IsIslandMarker(r.0[i]) <==> IsIslandMarker(attrs[i]))
    ensures forall i :: 0 <= i < |attrs| ==> (r.0[i].SpreadAttribute? <==> attrs[i].SpreadAttribute?)
    decreases attrs, 2
  {
    if |attrs| == 0 then ([], [])
    else
      var (first, fromFirst) :=
        match attrs[0]
        case Attribute(name, init) =>
          (match init
           case None => (attrs[0], [])
           case Some(v) =>
             assert v < init < attrs[0];
             var (v', fromV) := TransformNode(opts, v);
             (Attribute(name, Some(v')), fromV))
        case SpreadAttribute(e) =>
          assert e < attrs[0];
          var (e', fromE) := TransformNode(opts, e);
          (SpreadAttribute(e'), fromE);
      var (rest, fromRest) := TransformAttrs(opts, attrs[1..]);
      ([first] + rest, fromFirst + fromRest)
  }

  function TransformProps(opts: TransformOptions, props: seq<ObjProp>): (r: (seq<ObjProp>, seq<IslandInfo>))
    requires Rewritable(opts.checker, PropsDescendants(props))
    ensures |r.0| == |props|
    decreases props, 2
  {
    if |props| == 0 then ([], [])
    else
      var (first, fromFirst) :=
        match props[0]
        case PropertyAssignment(key, v) =>
          assert v < props[0];
          var (v', fromV) := TransformNode(opts, v);
          (PropertyAssignment(key, v'), fromV)
        case SpreadAssignment(e) =>
          assert e < props[0];
          var (e', fromE) := TransformNode(opts, e);
          (SpreadAssignment(e'), fromE);
      var (rest, fromRest) := TransformProps(opts, props[1..]);
      ([first] + rest, fromFirst + fromRest)
  }

  // ---------------------------------------------------------------------------------------
  // What the rewrite does to a whole tree

  /** The dotted tag name and module id of every node in `ds` the rewrite wraps, in order. */
  function EligibleIslands(opts: TransformOptions, ds: seq<Node>): seq<(string, string)>
    requires IslandRootsKnown(ds)
  {
    if |ds| == 0 then [] else OwnEligible(opts, ds[0]) + EligibleIslands(opts, ds[1..])
  }

  /** The record one node gets on its own: one when it is marked and its tag has a module id. */
  function OwnEligible(opts: TransformOptions, d: Node): seq<(string, string)>
    requires IsIsland(d) ==> GetRootIdentifier(d.tag, []).1.Some?
  {
    if IsIsland(d) && ModuleIdFor(opts, d.tag).Some? then [(DottedName(d.tag), ModuleIdFor(opts, d.tag).value)] else []
  }

  lemma {:induction false} EligibleIslandsAppend(opts: TransformOptions, first: seq<Node>, second: seq<Node>)
    requires IslandRootsKnown(first + second)
    ensures EligibleIslands(opts, first + second) == EligibleIslands(opts, first) + EligibleIslands(opts, second)
  {
    if |first| == 0 {
      assert first + second == second;
    } else {
      var both := first + second;
      assert both[0] == first[0] && both[1..] == first[1..] + second;
      assert IslandRootsKnown(first[1..] + second);
      EligibleIslandsAppend(opts, first[1..], second);
    }
  }

  /** The records of two consecutive parts of a walk are those of their concatenation. */
  lemma RecordsOfParts(opts: TransformOptions, first: seq<IslandInfo>, second: seq<IslandInfo>, ds1: seq<Node>, ds2: seq<Node>)
    requires IslandRootsKnown(ds1 + ds2) && IslandRootsKnown(ds1) && IslandRootsKnown(ds2)
    requires Summary(first) == EligibleIslands(opts, ds1) && Summary(second) == EligibleIslands(opts, ds2)
    requires forall info :: info in first ==> DescribesIsland(opts, info)
    requires forall info :: info in second ==> DescribesIsland(opts, info)
    ensures Summary(first + second) == EligibleIslands(opts, ds1 + ds2)
    ensures forall info :: info in first + second ==> DescribesIsland(opts, info)
    ensures EligibleIslands(opts, ds1 + ds2) == [] ==> EligibleIslands(opts, ds1) == [] && EligibleIslands(opts, ds2) == []
  {
    EligibleIslandsAppend(opts, ds1, ds2);
    SummaryAppend(first, second);
  }

  /** The tag name and module id of each record, in callback order. */
  function Summary(records: seq<IslandInfo>): (r: seq<(string, string)>)
    ensures |r| == |records|
  {
    if |records| == 0 then [] else [(records[0].tagName, records[0].moduleId)] + Summary(records[1..])
  }

  lemma {:induction false} SummaryAppend(first: seq<IslandInfo>, second: seq<IslandInfo>)
    ensures Summary(first + second) == Summary(first) + Summary(second)
  {
    if |first| == 0 {
      assert first + second == second;
    } else {
      assert (first + second)[1..] == first[1..] + second;
      SummaryAppend(first[1..], second);
    }
  }

  /**
   * A record describes the node it wraps: that node still carries the marker, the tag name is
   * its dotted tag, the hash is the module id's, and the props are its serialised attributes.
   */
  predicate DescribesIsland(opts: TransformOptions, info: IslandInfo) {
    IsIsland(info.node) && info.tagName == DottedName(info.node.tag) && info.moduleId != "" &&
    info.hash == opts.hash(info.moduleId) && SerializedProps(info.node.attrs) == Ok(info.props)
  }

  /**
   * One record per marked element whose tag has a module id, innermost and leftmost first;
   * and a tree with no such element comes back unchanged.
   */
  lemma {:induction false} TransformNodeRecords(opts: TransformOptions, n: Node)
    requires Rewritable(opts.checker, Descendants(n))
    ensures Summary(TransformNode(opts, n).1) == EligibleIslands(opts, Descendants(n))
    ensures forall info :: info in TransformNode(opts, n).1 ==> DescribesIsland(opts, info)
    ensures EligibleIslands(opts, Descendants(n)) == [] ==> TransformNode(opts, n).0 == n
    decreases n, 2
  {
    var ds := Descendants(n);
    VisitChildrenRecords(opts, n);
    TransformNodeStep(opts, n);
    EligibleIslandsAppend(opts, ds[..|ds| - 1], [n]);
    assert ds == ds[..|ds| - 1] + [n];
  }

  /**
   * What happens to a marked element: its children are rewritten first; if the gate is shut
   * the child-rewritten element comes back, marker still present, with no record of its own;
   * otherwise it is wrapped and its record comes after those of its descendants.
   */
  lemma TransformIslandOutcome(opts: TransformOptions, n: Node)
    requires Rewritable(opts.checker, Descendants(n)) && IsIsland(n)
    ensures GetRootIdentifier(n.tag, []).1.Some?
    ensures IsIsland(VisitChildren(opts, n).0) && VisitChildren(opts, n).0.tag == n.tag
    ensures ModuleIdFor(opts, n.tag).None? ==>
              TransformNode(opts, n) == VisitChildren(opts, n) && IsIsland(TransformNode(opts, n).0)
    ensures ModuleIdFor(opts, n.tag).Some? ==> SerializedProps(VisitChildren(opts, n).0.attrs).Ok?
    ensures ModuleIdFor(opts, n.tag).Some? ==>
              var moduleId := ModuleIdFor(opts, n.tag).value;
              var (visited, records) := VisitChildren(opts, n);
              var info := IslandInfo(opts.hash(moduleId), moduleId, DottedName(n.tag), SerializedProps(visited.attrs).value, visited);
              TransformNode(opts, n) == (Wrap(info, opts.siblings(moduleId)), records + [info])
  {
    assert n in Descendants(n);
  }

  /** The node's own step: at most one record, added after its children's. */
  lemma TransformNodeStep(opts: TransformOptions, n: Node)
    requires Rewritable(opts.checker, Descendants(n))
    ensures IslandRootsKnown([n])
    ensures Summary(TransformNode(opts, n).1) == Summary(VisitChildren(opts, n).1) + EligibleIslands(opts, [n])
    ensures forall info :: info in TransformNode(opts, n).1 ==> info in VisitChildren(opts, n).1 || DescribesIsland(opts, info)
    ensures EligibleIslands(opts, [n]) == [] ==> TransformNode(opts, n) == VisitChildren(opts, n)
  {
    assert n in Descendants(n);
    var (visited, records) := VisitChildren(opts, n);
    if IsIsland(visited) {
      match ModuleIdFor(opts, visited.tag)
      case None =>
      case Some(moduleId) =>
        var info := IslandInfo(opts.hash(moduleId), moduleId, DottedName(visited.tag), SerializedProps(visited.attrs).value, visited);
        SummaryAppend(records, [info]);
    }
  }

  lemma {:induction false} VisitChildrenRecords(opts: TransformOptions, n: Node)
    requires Rewritable(opts.checker, Descendants(n))
    ensures var ds := Descendants(n);
            Summary(VisitChildren(opts, n).1) == EligibleIslands(opts, ds[..|ds| - 1])
    ensures forall info :: info in VisitChildren(opts, n).1 ==> DescribesIsland(opts, info)
    ensures var ds := Descendants(n);
            EligibleIslands(opts, ds[..|ds| - 1]) == [] ==> VisitChildren(opts, n).0 == n
    decreases n, 1
  {
    var ds := Descendants(n);
    match n
    case Element(tag, attrs, children) =>
      ElementChildrenRecords(opts, n);
    case SelfClosing(tag, attrs) =>
      assert ds[..|ds| - 1] == AttrsDescendants(attrs);
      TransformAttrsRecords(opts, attrs);
    case Fragment(_) =>
      ChildListRecords(opts, n);
    case JsxExpression(expr) =>
      if expr.Some? {
        ExpressionChildRecords(opts, n);
      }
    case PropertyAccess(_, _) =>
      PropertyAccessChildRecords(opts, n);
    case Call(callee, args) =>
      CallChildrenRecords(opts, n);
    case ObjectLiteral(props) =>
      assert ds[..|ds| - 1] == PropsDescendants(props);
      TransformPropsRecords(opts, props);
    case Other(_, _) =>
      ChildListRecords(opts, n);
    case _ =>
      assert ds[..|ds| - 1] == [];
  }

  /** `VisitChildrenRecords` for a fragment or another node with a list of children. */
  lemma {:induction false} ChildListRecords(opts: TransformOptions, n: Node)
    requires (n.Fragment? || n.Other?) && Rewritable(opts.checker, Descendants(n))
    ensures var ds := Descendants(n);
            Summary(VisitChildren(opts, n).1) == EligibleIslands(opts, ds[..|ds| - 1])
    ensures forall info :: info in VisitChildren(opts, n).1 ==> DescribesIsland(opts, info)
    ensures var ds := Descendants(n);
            EligibleIslands(opts, ds[..|ds| - 1]) == [] ==> VisitChildren(opts, n).0 == n
    decreases n, 0
  {
    var ds := Descendants(n);
    assert ds[..|ds| - 1] == NodesDescendants(n.children);
    TransformNodesRecords(opts, n.children);
  }

  /** `VisitChildrenRecords` for an expression container holding an expression. */
  lemma {:induction false} ExpressionChildRecords(opts: TransformOptions, n: Node)
    requires n.JsxExpression? && n.expr.Some? && Rewritable(opts.checker, Descendants(n))
    ensures var ds := Descendants(n);
            Summary(VisitChildren(opts, n).1) == EligibleIslands(opts, ds[..|ds| - 1])
    ensures forall info :: info in VisitChildren(opts, n).1 ==> DescribesIsland(opts, info)
    ensures var ds := Descendants(n);
            EligibleIslands(opts, ds[..|ds| - 1]) == [] ==> VisitChildren(opts, n).0 == n
    decreases n, 0
  {
    var ds := Descendants(n);
    var e := n.expr.value;
    assert ds == Descendants(e) + [n];
    assert ds[..|ds| - 1] == Descendants(e);
    TransformNodeRecords(opts, e);
  }

  /** `VisitChildrenRecords` for a property access: the object's records. */
  lemma {:induction false} PropertyAccessChildRecords(opts: TransformOptions, n: Node)
    requires n.PropertyAccess? && Rewritable(opts.checker, Descendants(n))
    ensures var ds := Descendants(n);
            Summary(VisitChildren(opts, n).1) == EligibleIslands(opts, ds[..|ds| - 1])
    ensures forall info :: info in VisitChildren(opts, n).1 ==> DescribesIsland(opts, info)
    ensures var ds := Descendants(n);
            EligibleIslands(opts, ds[..|ds| - 1]) == [] ==> VisitChildren(opts, n).0 == n
    decreases n, 0
  {
    var ds := Descendants(n);
    assert ds == Descendants(n.obj) + [n];
    assert ds[..|ds| - 1] == Descendants(n.obj);
    TransformNodeRecords(opts, n.obj);
  }

  /** `VisitChildrenRecords` for an element: its attributes' records, then its children's. */
  lemma {:induction false} ElementChildrenRecords(opts: TransformOptions, n: Node)
    requires n.Element? && Rewritable(opts.checker, Descendants(n))
    ensures var ds := Descendants(n);
            Summary(VisitChildren(opts, n).1) == EligibleIslands(opts, ds[..|ds| - 1])
    ensures forall info :: info in VisitChildren(opts, n).1 ==> DescribesIsland(opts, info)
    ensures var ds := Descendants(n);
            EligibleIslands(opts, ds[..|ds| - 1]) == [] ==> VisitChildren(opts, n).0 == n
    decreases n, 0
  {
    var ds := Descendants(n);
    assert ds[..|ds| - 1] == AttrsDescendants(n.attrs) + NodesDescendants(n.children);
    TransformAttrsRecords(opts, n.attrs);
    TransformNodesRecords(opts, n.children);
    RecordsOfParts(opts, TransformAttrs(opts, n.attrs).1, TransformNodes(opts, n.children).1,
                   AttrsDescendants(n.attrs), NodesDescendants(n.children));
  }

  /** `VisitChildrenRecords` for a call: the callee's records, then the arguments'. */
  lemma {:induction false} CallChildrenRecords(opts: TransformOptions, n: Node)
    requires n.Call? && Rewritable(opts.checker, Descendants(n))
    ensures var ds := Descendants(n);
            Summary(VisitChildren(opts, n).1) == EligibleIslands(opts, ds[..|ds| - 1])
    ensures forall info :: info in VisitChildren(opts, n).1 ==> DescribesIsland(opts, info)
    ensures var ds := Descendants(n);
            EligibleIslands(opts, ds[..|ds| - 1]) == [] ==> VisitChildren(opts, n).0 == n
    decreases n, 0
  {
    var ds := Descendants(n);
    assert ds[..|ds| - 1] == Descendants(n.callee) + NodesDescendants(n.args);
    TransformNodeRecords(opts, n.callee);
    TransformNodesRecords(opts, n.args);
    RecordsOfParts(opts, TransformNode(opts, n.callee).1, TransformNodes(opts, n.args).1,
                   Descendants(n.callee), NodesDescendants(n.args));
  }

  lemma {:induction false} TransformNodesRecords(opts: TransformOptions, ns: seq<Node>)
    requires Rewritable(opts.checker, NodesDescendants(ns))
    ensures Summary(TransformNodes(opts, ns).1) == EligibleIslands(opts, NodesDescendants(ns))
    ensures forall info :: info in TransformNodes(opts, ns).1 ==> DescribesIsland(opts, info)
    ensures EligibleIslands(opts, NodesDescendants(ns)) == [] ==> TransformNodes(opts, ns).0 == ns
    decreases ns, 2
  {
    if |ns| > 0 {
      TransformNodeRecords(opts, ns[0]);
      TransformNodesRecords(opts, ns[1..]);
      EligibleIslandsAppend(opts, Descendants(ns[0]), NodesDescendants(ns[1..]));
      SummaryAppend(TransformNode(opts, ns[0]).1, TransformNodes(opts, ns[1..]).1);
      assert [ns[0]] + ns[1..] == ns;
    }
  }

  lemma {:induction false} TransformAttrsRecords(opts: TransformOptions, attrs: seq<Attr>)
    requires Rewritable(opts.checker, AttrsDescendants(attrs))
    ensures Summary(TransformAttrs(opts, attrs).1) == EligibleIslands(opts, AttrsDescendants(attrs))
    ensures forall info :: info in TransformAttrs(opts, attrs).1 ==> DescribesIsland(opts, info)
    ensures EligibleIslands(opts, AttrsDescendants(attrs)) == [] ==> TransformAttrs(opts, attrs).0 == attrs
    decreases attrs, 2
  {
    if |attrs| > 0 {
      var rest := AttrsDescendants(attrs[1..]);
      TransformAttrsRecords(opts, attrs[1..]);
      assert [attrs[0]] + attrs[1..] == attrs;
      match attrs[0]
      case Attribute(name, init) =>
        match init {
          case None =>
            assert AttrsDescendants(attrs) == rest;
            assert TransformAttrs(opts, attrs).1 == TransformAttrs(opts, attrs[1..]).1;
          case Some(v) =>
            assert v < init < attrs[0];
            TransformNodeRecords(opts, v);
            EligibleIslandsAppend(opts, Descendants(v), rest);
            SummaryAppend(TransformNode(opts, v).1, TransformAttrs(opts, attrs[1..]).1);
        }
      case SpreadAttribute(e) =>
        assert e < attrs[0];
        TransformNodeRecords(opts, e);
        EligibleIslandsAppend(opts, Descendants(e), rest);
        SummaryAppend(TransformNode(opts, e).1, TransformAttrs(opts, attrs[1..]).1);
    }
  }

  lemma {:induction false} TransformPropsRecords(opts: TransformOptions, props: seq<ObjProp>)
    requires Rewritable(opts.checker, PropsDescendants(props))
    ensures Summary(TransformProps(opts, props).1) == EligibleIslands(opts, PropsDescendants(props))
    ensures forall info :: info in TransformProps(opts, props).1 ==> DescribesIsland(opts, info)
    ensures EligibleIslands(opts, PropsDescendants(props)) == [] ==> TransformProps(opts, props).0 == props
    decreases props, 2
  {
    if |props| > 0 {
      var rest := PropsDescendants(props[1..]);
      TransformPropsRecords(opts, props[1..]);
      assert [props[0]] + props[1..] == props;
      match props[0]
      case PropertyAssignment(key, v) =>
        assert v < props[0];
        TransformNodeRecords(opts, v);
        EligibleIslandsAppend(opts, Descendants(v), rest);
        SummaryAppend(TransformNode(opts, v).1, TransformProps(opts, props[1..]).1);
      case SpreadAssignment(e) =>
        assert e < props[0];
        TransformNodeRecords(opts, e);
        EligibleIslandsAppend(opts, Descendants(e), rest);
        SummaryAppend(TransformNode(opts, e).1, TransformProps(opts, props[1..]).1);
    }
  }

  /** A tree without any marked element is left exactly as it was, and nothing is reported. */
  lemma IslandFreeUnchanged(opts: TransformOptions, n: Node)
    requires forall d :: d in Descendants(n) ==> !IsIsland(d)
    ensures TransformNode(opts, n) == (n, [])
  {
    NoIslandsNoneEligible(opts, Descendants(n));
    TransformNodeRecords(opts, n);
  }

  lemma {:induction false} NoIslandsNoneEligible(opts: TransformOptions, ds: seq<Node>)
    requires forall d :: d in ds ==> !IsIsland(d)
    ensures Rewritable(opts.checker, ds) && EligibleIslands(opts, ds) == []
  {
    if |ds| > 0 {
      NoIslandsNoneEligible(opts, ds[1..]);
    }
  }

  /**
   * `makeTransformIslandElements(options)(source)`: the rewrite throws exactly when some marked
   * element whose root passes the classification has a spread attribute, whether or not its
   * tag has a module id. Otherwise it returns the rewritten file and one record per marked
   * element that passes the gate, innermost and leftmost first, each describing its node; a
   * file with no such element comes back unchanged.
   */
  function MakeTransformIslandElements(opts: TransformOptions, source: Node): (r: Result<(Node, seq<IslandInfo>), string>)
    requires IslandRootsKnown(Descendants(source))
    ensures r.Err? <==>
              exists d :: d in Descendants(source) && IsIsland(d) && PassesClassification(opts.checker, d.tag) && HasSpread(d.attrs)
    ensures r.Err? ==> r.error == SpreadAttributeError
    ensures r.Ok? ==> Summary(r.value.1) == EligibleIslands(opts, Descendants(source))
    ensures r.Ok? ==> forall info :: info in r.value.1 ==> DescribesIsland(opts, info)
    ensures r.Ok? && EligibleIslands(opts, Descendants(source)) == [] ==> r.value.0 == source
  {
    if !Rewritable(opts.checker, Descendants(source)) then Err(SpreadAttributeError)
    else
      TransformNodeRecords(opts, source);
      Ok(TransformNode(opts, source))
  }
}
