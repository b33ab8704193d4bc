/**
 * The part of an Apex syntax tree the security helpers look at. What the
 * Apex compiler's objects provide (a node's defining type, its identifier
 * lists, a call's method name, a modifier's test flag) is held in plain
 * fields.
 */
module ApexAst {
  import opened Wrappers

  /** A reference to a type: its dotted name, one identifier per part. */
  datatype TypeRef = TypeRef(names: seq<string>)

  /** The type a node is defined in: its Apex name, how the type prints
      itself, and the interfaces it declares. */
  datatype DefiningType = DefiningType(apexName: string, text: string, interfaceTypeRefs: seq<TypeRef>)

  datatype ApexKind =
    | UserClass
    | ModifierNode(isTest: bool)
    | MethodCallExpression(methodName: string)
    | ReferenceExpression(names: seq<string>)
    | VariableExpression(identifier: string)
    | VariableDeclaration(localName: string)
    | Field(fieldName: string)
    | FieldDeclaration
    | NewKeyValueObjectExpression(typeName: string)
    | Parameter(parameterName: string)
    | DmlInsertStatement
    | DmlUpdateStatement
    | DmlUpsertStatement
    | DmlDeleteStatement
    | DmlUndeleteStatement
    | DmlMergeStatement
    | SoqlExpression
    | SoslExpression
    | OtherApexNode(name: string)

  datatype ApexNode = ApexNode(kind: ApexKind, definingType: DefiningType, image: string, children: seq<ApexNode>)

  /** `findChildrenOfType`: the children of a kind. */
  function FindChildrenOfType(n: ApexNode, isKind: ApexKind -> bool): (r: seq<ApexNode>)
    ensures forall c :: c in r <==> c in n.children && isKind(c.kind)
  {
    Filter(n.children, isKind)
  }

  function Filter(ns: seq<ApexNode>, isKind: ApexKind -> bool): (r: seq<ApexNode>)
    ensures forall c :: c in r <==> c in ns && isKind(c.kind)
  {
    if ns == [] then []
    else Filter(ns[..|ns| - 1], isKind) + (if isKind(ns[|ns| - 1].kind) then [ns[|ns| - 1]] else [])
  }

  /** `getFirstChildOfType`: the first child of a kind, if any. */
  function FirstChildOfType(n: ApexNode, isKind: ApexKind -> bool): (r: Option<ApexNode>)
    ensures r.Some? ==> r.value in n.children && isKind(r.value.kind)
    ensures r.None? <==> forall c :: c in n.children ==> !isKind(c.kind)
    ensures r.Some? ==> exists i :: 0 <= i < |n.children| && n.children[i] == r.value
                                    && forall j :: 0 <= j < i ==> !isKind(n.children[j].kind)
  {
    FirstOf(n.children, isKind)
  }

  function FirstOf(ns: seq<ApexNode>, isKind: ApexKind -> bool): (r: Option<ApexNode>)
    ensures r.Some? ==> r.value in ns && isKind(r.value.kind)
    ensures r.None? <==> forall c :: c in ns ==> !isKind(c.kind)
    ensures r.Some? ==> exists i :: 0 <= i < |ns| && ns[i] == r.value && forall j :: 0 <= j < i ==> !isKind(ns[j].kind)
  {
    if ns == [] then None
    else if isKind(ns[0].kind) then Some(ns[0])
    else
      var rest := FirstOf(ns[1..], isKind);
      if rest.Some? then
        var i :| 0 <= i < |ns[1..]| && ns[1..][i] == rest.value && forall j :: 0 <= j < i ==> !isKind(ns[1..][j].kind);
        assert ns[i + 1] == rest.value && forall j :: 0 <= j < i + 1 ==> !isKind(ns[j].kind);
        rest
      else rest
  }

  /** Every node strictly below `n`, in pre-order. */
  function Descendants(n: ApexNode): seq<ApexNode>
    decreases n, 1
  {
    DescendantsOf(n.children)
  }

  function DescendantsOf(cs: seq<ApexNode>): seq<ApexNode>
    decreases cs, 0
  {
    if cs == [] then [] else DescendantsOf(cs[..|cs| - 1]) + ([cs[|cs| - 1]] + Descendants(cs[|cs| - 1]))
  }

  /** `findDescendantsOfType`: the descendants of a kind, in pre-order. */
  function FindDescendantsOfType(n: ApexNode, isKind: ApexKind -> bool): (r: seq<ApexNode>)
    ensures forall d :: d in r <==> d in Descendants(n) && isKind(d.kind)
    ensures r != [] <==> exists d :: d in Descendants(n) && isKind(d.kind)
  {
    var r := Filter(Descendants(n), isKind);
    assert r != [] ==> r[0] in r;
    r
  }
}
