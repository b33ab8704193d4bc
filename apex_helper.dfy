/**
 * The decisions the Apex security rules share: whether a class is a
 * system-level job, whether a method or class is a test, whether a subtree
 * touches the database, whether a call matches a name or a call chain, and
 * the `Type:name` key under which a variable is tracked.
 */
module ApexSecurityHelper {
  import opened Wrappers
  import opened Strings
  import opened ApexAst

  /** The method name that matches any method in the class-and-method test. */
  const AnyMethod: string := "*"

  /** Interfaces that make a class run at system level, lowercased. */
  predicate WhitelistedInterface(lowered: string)
  {
    lowered == "queueable" || lowered == "database.batchable" || lowered == "installhandler"
  }

  predicate IsReference(k: ApexKind) { k.ReferenceExpression? }
  predicate IsMethodCall(k: ApexKind) { k.MethodCallExpression? }
  predicate IsModifier(k: ApexKind) { k.ModifierNode? }

  predicate IsDml(k: ApexKind)
  {
    k.DmlUpsertStatement? || k.DmlUpdateStatement? || k.DmlUndeleteStatement?
    || k.DmlMergeStatement? || k.DmlInsertStatement? || k.DmlDeleteStatement?
  }

  // ---------------------------------------------------------------------
  // Whitelist and system-level classes
  // ---------------------------------------------------------------------

  /** `isWhitelisted`: the identifiers joined with dots, lowercased, name one
      of the whitelisted interfaces. */
  method IsWhitelisted(ids: seq<string>) returns (b: bool)
    ensures b <==> WhitelistedInterface(Lower(Join(ids, '.')))
  {
    var sb := "";
    var i := 0;
    while i < |ids|
      invariant 0 <= i <= |ids|
      invariant sb == Join(ids[..i], '.') + (if 0 < i < |ids| then "." else "")
    {
      if i > 0 {
        JoinSnoc(ids[..i], ids[i], '.');
        assert ids[..i + 1] == ids[..i] + [ids[i]];
      } else {
        assert ids[..1] == [ids[0]];
      }
      sb := sb + ids[i];
      if i != |ids| - 1 {
        sb := sb + ".";
      }
      i := i + 1;
    }
    assert ids[..i] == ids;
    assert sb == Join(ids, '.');
    var lowered := Lower(sb);
    b := lowered == "queueable" || lowered == "database.batchable" || lowered == "installhandler";
  }

  /** The whitelisted interfaces as the parser sees them, one identifier
      per part. */
  const WhitelistedParts: seq<seq<string>> := [["queueable"], ["database", "batchable"], ["installhandler"]]

  /** Apex identifiers contain no dots. */
  predicate NoDots(ids: seq<string>)
  {
    forall i :: 0 <= i < |ids| ==> '.' !in ids[i]
  }

  /** Each identifier lowercased. */
  function LowerAll(ids: seq<string>): (r: seq<string>)
    ensures |r| == |ids|
    ensures forall i :: 0 <= i < |ids| ==> r[i] == Lower(ids[i])
  {
    if ids == [] then [] else LowerAll(ids[..|ids| - 1]) + [Lower(ids[|ids| - 1])]
  }

  lemma {:induction false} LowerJoin(ids: seq<string>)
    ensures Lower(Join(ids, '.')) == Join(LowerAll(ids), '.')
    decreases |ids|
  {
    if |ids| > 1 {
      var rest := ids[1..];
      assert Join(ids, '.') == ids[0] + ['.'] + Join(rest, '.');
      LowerAppend(ids[0] + ['.'], Join(rest, '.'));
      LowerAppend(ids[0], ['.']);
      LowerJoin(rest);
      var l := LowerAll(ids);
      assert l[1..] == LowerAll(rest);
      assert Join(l, '.') == l[0] + ['.'] + Join(l[1..], '.');
    } else if |ids| == 1 {
      assert LowerAll(ids) == [Lower(ids[0])];
    }
  }

  lemma LowerAppend(a: string, b: string)
    ensures Lower(a + b) == Lower(a) + Lower(b)
  {
    var l := Lower(a + b);
    assert forall i :: 0 <= i < |a| ==> (a + b)[i] == a[i];
    assert forall i :: |a| <= i < |a| + |b| ==> (a + b)[i] == b[i - |a|];
    assert l == Lower(a) + Lower(b);
  }

  /** A list of identifiers, each free of dots as Apex identifiers are, is
      whitelisted exactly when its lowercased parts spell one of the
      whitelisted interfaces part by part. */
  lemma WhitelistByParts(ids: seq<string>)
    requires NoDots(ids)
    ensures WhitelistedInterface(Lower(Join(ids, '.'))) <==> LowerAll(ids) in WhitelistedParts
  {
    LowerJoin(ids);
    var l := LowerAll(ids);
    forall i | 0 <= i < |l| ensures '.' !in l[i] {
      LowerNoDot(ids[i]);
    }
    WhitelistIsJoinedParts(Join(l, '.'));
    if exists w :: w in WhitelistedParts && Join(l, '.') == Join(w, '.') {
      var w :| w in WhitelistedParts && Join(l, '.') == Join(w, '.');
      PartsHaveNoDots();
      assert l != [];
      SameJoinSameNames(l, w);
    }
  }

  /** The three names the whitelist switch compares against are the joined
      whitelisted parts. */
  lemma WhitelistIsJoinedParts(lowered: string)
    ensures WhitelistedInterface(lowered) <==> exists w :: w in WhitelistedParts && lowered == Join(w, '.')
  {
    assert Join(WhitelistedParts[0], '.') == "queueable";
    assert Join(WhitelistedParts[1], '.') == "database.batchable";
    assert Join(WhitelistedParts[2], '.') == "installhandler";
  }

  lemma PartsHaveNoDots()
    ensures forall w :: w in WhitelistedParts ==> w != [] && NoDots(w) && Join(w, '.') != ""
  {
    assert Join(["database", "batchable"], '.') == "database.batchable";
  }

  /** Two non-empty lists of dot-free names that join to the same string are
      the same list. */
  lemma SameJoinSameNames(a: seq<string>, b: seq<string>)
    requires a != [] && b != [] && NoDots(a) && NoDots(b)
    requires Join(a, '.') == Join(b, '.')
    ensures a == b
  {
    SplitJoin(a, '.');
    SplitJoin(b, '.');
  }

  lemma LowerNoDot(s: string)
    requires '.' !in s
    ensures '.' !in Lower(s)
  {
    var l := Lower(s);
    forall i | 0 <= i < |l| ensures l[i] != '.' {
      assert s[i] != '.';
    }
  }

  /** The empty identifier list joins to "" and is not whitelisted. */
  lemma EmptyIsNotWhitelisted()
    ensures !WhitelistedInterface(Lower(Join([], '.')))
  {
  }

  /** Identifiers are joined with dots before lowercasing, so a mixed-case
      `Database.Batchable` is whitelisted. */
  lemma DatabaseBatchableIsWhitelisted()
    ensures WhitelistedInterface(Lower(Join(["Database", "Batchable"], '.')))
  {
    assert Join(["Database", "Batchable"], '.') == "Database.Batchable";
    assert Lower("Database.Batchable") == "database.batchable";
  }

  /** `isSystemLevelClass`: some interface the class implements is
      whitelisted. */
  method IsSystemLevelClass(node: ApexNode) returns (b: bool)
    requires node.kind.UserClass?
    ensures b <==> exists t :: t in node.definingType.interfaceTypeRefs
                             && WhitelistedInterface(Lower(Join(t.names, '.')))
  {
    var interfaces := node.definingType.interfaceTypeRefs;
    var i := 0;
    while i < |interfaces|
      invariant 0 <= i <= |interfaces|
      invariant forall j :: 0 <= j < i ==> !WhitelistedInterface(Lower(Join(interfaces[j].names, '.')))
    {
      var w := IsWhitelisted(interfaces[i].names);
      if w {
        return true;
      }
      i := i + 1;
    }
    return false;
  }

  // ---------------------------------------------------------------------
  // Tests, DML and queries
  // ---------------------------------------------------------------------

  /** `isTestMethodOrClass`: a test modifier among the children, or a
      defining type whose name ends with `Test`. */
  method IsTestMethodOrClass(node: ApexNode) returns (b: bool)
    ensures b <==> (exists m :: m in node.children && m.kind.ModifierNode? && m.kind.isTest)
                   || EndsWith(node.definingType.apexName, "Test")
  {
    var modifiers := FindChildrenOfType(node, IsModifier);
    var i := 0;
    while i < |modifiers|
      invariant 0 <= i <= |modifiers|
      invariant forall j :: 0 <= j < i ==> !modifiers[j].kind.isTest
    {
      if modifiers[i].kind.isTest {
        return true;
      }
      i := i + 1;
    }
    assert forall m :: m in node.children && m.kind.ModifierNode? ==> m in modifiers;
    var className := node.definingType.apexName;
    return EndsWith(className, "Test");
  }

  /** `foundAnySOQLorSOSL`: some descendant is a SOQL or a SOSL query. */
  function FoundAnySoqlOrSosl(node: ApexNode): (r: bool)
    ensures r <==> exists d :: d in Descendants(node) && (d.kind.SoqlExpression? || d.kind.SoslExpression?)
  {
    var soql := FindDescendantsOfType(node, (k: ApexKind) => k.SoqlExpression?);
    var sosl := FindDescendantsOfType(node, (k: ApexKind) => k.SoslExpression?);
    soql != [] || sosl != []
  }

  /** `foundAnyDML`: some descendant is one of the six DML statements. */
  function FoundAnyDml(node: ApexNode): (r: bool)
    ensures r <==> exists d :: d in Descendants(node) && IsDml(d.kind)
  {
    var upserts := FindDescendantsOfType(node, (k: ApexKind) => k.DmlUpsertStatement?);
    var updates := FindDescendantsOfType(node, (k: ApexKind) => k.DmlUpdateStatement?);
    var undeletes := FindDescendantsOfType(node, (k: ApexKind) => k.DmlUndeleteStatement?);
    var merges := FindDescendantsOfType(node, (k: ApexKind) => k.DmlMergeStatement?);
    var inserts := FindDescendantsOfType(node, (k: ApexKind) => k.DmlInsertStatement?);
    var deletes := FindDescendantsOfType(node, (k: ApexKind) => k.DmlDeleteStatement?);
    upserts != [] || updates != [] || undeletes != [] || merges != [] || inserts != [] || deletes != []
  }

  // ---------------------------------------------------------------------
  // Method names and call chains
  // ---------------------------------------------------------------------

  /** `isMethodName` on the compiler's call object: its method name equals
      the given one ignoring case. */
  function IsCallNamed(call: ApexKind, methodName: string): (r: bool)
    requires call.MethodCallExpression?
    ensures r <==> |call.methodName| == |methodName|
                   && forall i :: 0 <= i < |methodName| ==> LowerChar(call.methodName[i]) == LowerChar(methodName[i])
  {
    var a := Lower(call.methodName);
    var b := Lower(methodName);
    assert a == b <==> |a| == |b| && forall i :: 0 <= i < |a| ==> a[i] == b[i];
    assert forall i :: 0 <= i < |a| ==> a[i] == LowerChar(call.methodName[i]);
    assert forall i :: 0 <= i < |b| ==> b[i] == LowerChar(methodName[i]);
    EqualsIgnoreCase(call.methodName, methodName)
  }

  /** `isMethodName` on a call node: the node's call is named `methodName`
      ignoring case. */
  function IsMethodName(m: ApexNode, methodName: string): (r: bool)
    requires m.kind.MethodCallExpression?
    ensures r <==> Lower(m.kind.methodName) == Lower(methodName)
  {
    IsCallNamed(m.kind, methodName)
  }

  /** The identifiers of the first reference child, if there is one. */
  function ReferenceNames(m: ApexNode): (r: Option<seq<string>>)
    ensures r.None? <==> forall c :: c in m.children ==> !c.kind.ReferenceExpression?
    ensures r.Some? ==> exists c :: c in m.children && c.kind == ReferenceExpression(r.value)
  {
    match FirstChildOfType(m, IsReference)
    case None => None
    case Some(reference) => Some(reference.kind.names)
  }

  /** `isMethodName` with a class: the call's reference is the single name
      `className` ignoring case and the call is `methodName` ignoring case,
      or `methodName` is the wildcard. */
  function IsMethodNameOf(methodNode: ApexNode, className: string, methodName: string): (r: bool)
    requires methodNode.kind.MethodCallExpression?
    ensures r <==> ReferenceNames(methodNode).Some?
                   && |ReferenceNames(methodNode).value| == 1
                   && Lower(ReferenceNames(methodNode).value[0]) == Lower(className)
                   && (methodName == AnyMethod || Lower(methodNode.kind.methodName) == Lower(methodName))
  {
    match FirstChildOfType(methodNode, IsReference)
    case None => false
    case Some(reference) =>
      |reference.kind.names| == 1
      && EqualsIgnoreCase(reference.kind.names[0], className)
      && (methodName == AnyMethod || IsMethodName(methodNode, methodName))
  }

  /** The outcome of `isMethodCallChain`, which indexes the last name and so
      throws on an empty list. */
  datatype ChainOutcome = Matched(matched: bool) | IndexOutOfBounds

  /** `isMethodCallChain`: the calls `a.b().c()` nested through their
      reference children match the names `a`, `b`, `c`, the last name
      against the outermost call. */
  function IsMethodCallChain(methodNode: ApexNode, methodNames: seq<string>): (r: ChainOutcome)
    requires methodNode.kind.MethodCallExpression?
    ensures methodNames == [] ==> r == IndexOutOfBounds
    ensures r == Matched(true) ==> Lower(methodNode.kind.methodName) == Lower(methodNames[|methodNames| - 1])
    decreases methodNode
  {
    if methodNames == [] then IndexOutOfBounds
    else
      var methodName := methodNames[|methodNames| - 1];
      if !IsMethodName(methodNode, methodName) then Matched(false)
      else match FirstChildOfType(methodNode, IsReference)
        case None => Matched(false)
        case Some(reference) =>
          match FirstChildOfType(reference, IsMethodCall)
          case Some(nestedMethod) =>
            var newMethodNames := methodNames[..|methodNames| - 1];
            IsMethodCallChain(nestedMethod, newMethodNames)
          case None =>
            var newClassName := methodNames[..|methodNames| - 1];
            if |newClassName| == 1 then Matched(IsMethodNameOf(methodNode, newClassName[0], methodName))
            else Matched(false)
  }

  /** The argument-free call chain `className.m1().m2()…`: each call's only
      child is its reference, which holds the call before it, and the
      innermost call's reference names the class. Calls with argument
      children are not built by this function. */
  function ChainNode(t: DefiningType, className: string, methods: seq<string>): (r: ApexNode)
    requires methods != []
    ensures r.kind.MethodCallExpression?
  {
    var last := methods[|methods| - 1];
    if |methods| == 1 then
      ApexNode(MethodCallExpression(last), t, "", [ApexNode(ReferenceExpression([className]), t, "", [])])
    else
      ApexNode(MethodCallExpression(last), t, "",
               [ApexNode(ReferenceExpression([]), t, "", [ChainNode(t, className, methods[..|methods| - 1])])])
  }

  /** A chain matches exactly the names that spell its class and methods in
      order, ignoring case. */
  lemma {:induction false} ChainMatchesItsNames(t: DefiningType, className: string, methods: seq<string>, names: seq<string>)
    requires methods != []
    ensures IsMethodCallChain(ChainNode(t, className, methods), names) == Matched(true)
            <==> LowerAll(names) == LowerAll([className] + methods)
    decreases |methods|
  {
    var expected := [className] + methods;
    var m := methods[|methods| - 1];
    if |methods| == 1 {
      SingleCallChain(t, className, m, names);
      assert expected == [className, m];
    } else {
      var ms := methods[..|methods| - 1];
      assert methods == ms + [m];
      NestedCallChain(t, className, ms, m, names);
      assert expected[..|expected| - 1] == [className] + ms;
      LowerAllLast(names, expected);
      if names != [] {
        ChainMatchesItsNames(t, className, ms, names[..|names| - 1]);
      }
    }
  }

  /** The innermost call `className.m()` matches the two names `className`
      and `m`, ignoring case, and nothing else. */
  lemma SingleCallChain(t: DefiningType, className: string, m: string, names: seq<string>)
    ensures IsMethodCallChain(ChainNode(t, className, [m]), names) == Matched(true)
            <==> LowerAll(names) == LowerAll([className, m])
  {
    var node := ChainNode(t, className, [m]);
    var reference := node.children[0];
    assert FirstChildOfType(node, IsReference) == Some(reference);
    assert FirstChildOfType(reference, IsMethodCall) == None;
    assert ReferenceNames(node) == Some([className]);
    if |names| == 2 {
      assert LowerAll(names) == [Lower(names[0]), Lower(names[1])];
    }
    assert LowerAll([className, m]) == [Lower(className), Lower(m)];
  }

  /** An outer call of a chain matches when its name matches the last name
      and the rest of the chain matches the names before it. */
  lemma NestedCallChain(t: DefiningType, className: string, ms: seq<string>, m: string, names: seq<string>)
    requires ms != []
    ensures IsMethodCallChain(ChainNode(t, className, ms + [m]), names)
            == if names == [] then IndexOutOfBounds
               else if Lower(m) != Lower(names[|names| - 1]) then Matched(false)
               else IsMethodCallChain(ChainNode(t, className, ms), names[..|names| - 1])
  {
    var node := ChainNode(t, className, ms + [m]);
    assert (ms + [m])[..|ms|] == ms;
    var nested := ChainNode(t, className, ms);
    var reference := node.children[0];
    assert FirstChildOfType(node, IsReference) == Some(reference);
    assert FirstChildOfType(reference, IsMethodCall) == Some(nested);
  }

  /** Two lists are equal ignoring case when their last elements and the
      lists before them are. */
  lemma LowerAllLast(a: seq<string>, b: seq<string>)
    requires b != []
    ensures LowerAll(a) == LowerAll(b)
            <==> a != [] && LowerAll(a[..|a| - 1]) == LowerAll(b[..|b| - 1]) && Lower(a[|a| - 1]) == Lower(b[|b| - 1])
  {
    if a != [] && LowerAll(a[..|a| - 1]) == LowerAll(b[..|b| - 1]) && Lower(a[|a| - 1]) == Lower(b[|b| - 1]) {
      assert LowerAll(a) == LowerAll(a[..|a| - 1]) + [Lower(a[|a| - 1])];
    }
    if LowerAll(a) == LowerAll(b) {
      assert LowerAll(a)[..|a| - 1] == LowerAll(a[..|a| - 1]);
      assert LowerAll(b)[..|b| - 1] == LowerAll(b[..|b| - 1]);
    }
  }

  // ---------------------------------------------------------------------
  // Fully qualified variable names
  // ---------------------------------------------------------------------

  /** The key `Type:name` under which the security rules track a variable. */
  function Qualify(typeName: string, name: string): string
  {
    typeName + ":" + name
  }

  /** A key names its type and its variable: with no colon in the type
      name, the type name ends at the first colon. */
  lemma QualifyIsInjective(t1: string, n1: string, t2: string, n2: string)
    requires ':' !in t1 && ':' !in t2
    ensures Qualify(t1, n1) == Qualify(t2, n2) <==> t1 == t2 && n1 == n2
  {
    if Qualify(t1, n1) == Qualify(t2, n2) {
      QualifiedTypeEnds(t1, n1);
      QualifiedTypeEnds(t2, n2);
      var s := Qualify(t1, n1);
      assert t1 == s[..|t1|] && t2 == s[..|t2|];
      assert n1 == s[|t1| + 1..] && n2 == s[|t2| + 1..];
    }
  }

  lemma QualifiedTypeEnds(t: string, n: string)
    requires ':' !in t
    ensures IndexOf(Qualify(t, n), ':') == |t|
    ensures Qualify(t, n)[..|t|] == t && Qualify(t, n)[|t| + 1..] == n
  {
    var s := Qualify(t, n);
    assert forall j :: 0 <= j < |t| ==> s[j] == t[j];
    assert s[|t|] == ':';
  }

  /** `getFQVariableName` of a variable expression: the defining type, and the
      identifier, prefixed by `obj.` when the expression is reached through a
      single-name reference `obj`. */
  function FQVariableExpressionName(variable: ApexNode): (r: string)
    requires variable.kind.VariableExpression?
    ensures ReferenceNames(variable).Some? && |ReferenceNames(variable).value| == 1
            ==> r == Qualify(variable.definingType.apexName,
                             ReferenceNames(variable).value[0] + "." + variable.kind.identifier)
    ensures !(ReferenceNames(variable).Some? && |ReferenceNames(variable).value| == 1)
            ==> r == Qualify(variable.definingType.apexName, variable.kind.identifier)
  {
    var objectName :=
      match FirstChildOfType(variable, IsReference)
      case Some(ref) => if |ref.kind.names| == 1 then ref.kind.names[0] + "." else ""
      case None => "";
    variable.definingType.apexName + ":" + objectName + variable.kind.identifier
  }

  /** `getFQVariableName` of a local variable declaration. */
  function FQVariableDeclarationName(variable: ApexNode): (r: string)
    requires variable.kind.VariableDeclaration?
    ensures r == Qualify(variable.definingType.apexName, variable.kind.localName)
  {
    variable.definingType.apexName + ":" + variable.kind.localName
  }

  /** `getFQVariableName` of a field. */
  function FQFieldName(variable: ApexNode): (r: string)
    requires variable.kind.Field?
    ensures r == Qualify(variable.definingType.apexName, variable.kind.fieldName)
  {
    variable.definingType.apexName + ":" + variable.kind.fieldName
  }

  /** `getVariableType` of a field: the same key as its fully qualified name. */
  function VariableType(variable: ApexNode): (r: string)
    requires variable.kind.Field?
    ensures r == FQFieldName(variable)
  {
    variable.definingType.apexName + ":" + variable.kind.fieldName
  }

  /** `getFQVariableName` of a field declaration, from its image. */
  function FQFieldDeclarationName(variable: ApexNode): (r: string)
    requires variable.kind.FieldDeclaration?
    ensures r == Qualify(variable.definingType.apexName, variable.image)
  {
    variable.definingType.apexName + ":" + variable.image
  }

  /** `getFQVariableName` of a `new T(key = value, …)` expression, from the
      type it creates. */
  function FQNewKeyValueObjectName(variable: ApexNode): (r: string)
    requires variable.kind.NewKeyValueObjectExpression?
    ensures r == Qualify(variable.definingType.apexName, variable.kind.typeName)
  {
    variable.definingType.apexName + ":" + variable.kind.typeName
  }

  /** `getFQVariableName` of the compiler's parameter object: the defining
      type as it prints itself, not its Apex name. */
  function FQParameterName(definingType: DefiningType, parameterName: string): (r: string)
    ensures r == Qualify(definingType.text, parameterName)
  {
    definingType.text + ":" + parameterName
  }

  /** `getFQVariableName` of a parameter node, from its image. */
  function FQParameterNodeName(p: ApexNode): (r: string)
    requires p.kind.Parameter?
    ensures r == Qualify(p.definingType.text, p.image)
  {
    p.definingType.text + ":" + p.image
  }

  /** A use of a local variable that is not reached through an object gets
      the key of the declaration in the same type exactly when the names
      agree; that is how uses are matched to declarations. */
  lemma UseMatchesDeclaration(use: ApexNode, decl: ApexNode)
    requires use.kind.VariableExpression? && decl.kind.VariableDeclaration?
    requires use.definingType.apexName == decl.definingType.apexName
    requires forall c :: c in use.children ==> !c.kind.ReferenceExpression?
    ensures FQVariableExpressionName(use) == FQVariableDeclarationName(decl)
            <==> use.kind.identifier == decl.kind.localName
  {
    var t := use.definingType.apexName;
    if FQVariableExpressionName(use) == FQVariableDeclarationName(decl) {
      assert Qualify(t, use.kind.identifier)[|t| + 1..] == use.kind.identifier;
      assert Qualify(t, decl.kind.localName)[|t| + 1..] == decl.kind.localName;
    }
  }

  /** Within one type, the field key and a declaration key of the same
      name coincide, so a local variable shadows a field of its type. */
  lemma FieldAndLocalShareKeys(field: ApexNode, decl: ApexNode)
    requires field.kind.Field? && decl.kind.VariableDeclaration?
    requires ':' !in field.definingType.apexName && ':' !in decl.definingType.apexName
    ensures FQFieldName(field) == FQVariableDeclarationName(decl)
            <==> field.definingType.apexName == decl.definingType.apexName
                 && field.kind.fieldName == decl.kind.localName
  {
    QualifyIsInjective(field.definingType.apexName, field.kind.fieldName,
                       decl.definingType.apexName, decl.kind.localName);
  }

  /** A parameter node and the compiler's parameter object get the same key
      when the node's image is the parameter's name. */
  lemma ParameterKeysAgree(p: ApexNode)
    requires p.kind.Parameter? && p.image == p.kind.parameterName
    ensures FQParameterNodeName(p) == FQParameterName(p.definingType, p.kind.parameterName)
  {
  }
}
