/**
 * The part of a Java syntax tree the design rules look at: a node kind, a
 * source line span and the ordered children.
 */
module JavaAst {

  datatype Kind =
    | CompilationUnit
    | ImportDeclaration
    | ClassOrInterfaceDeclaration
    | EnumDeclaration
    | AnnotationTypeDeclaration
    | MethodDeclaration
    | ConstructorDeclaration
    | FormalParameters
    | FormalParameter
    | OtherKind(name: string)

  datatype Node = Node(kind: Kind, beginLine: int, endLine: int, children: seq<Node>)

  /** The node classes the rules test with `isInstance` or dispatch on. */
  datatype NodeClass =
    | CompilationUnitClass
    | ImportDeclarationClass
    | FormalParametersClass
    | FormalParameterClass
    | MethodOrConstructorClass
    | AnyTypeDeclarationClass

  predicate IsInstance(c: NodeClass, k: Kind)
  {
    match c
    case CompilationUnitClass => k.CompilationUnit?
    case ImportDeclarationClass => k.ImportDeclaration?
    case FormalParametersClass => k.FormalParameters?
    case FormalParameterClass => k.FormalParameter?
    case MethodOrConstructorClass => k.MethodDeclaration? || k.ConstructorDeclaration?
    case AnyTypeDeclarationClass => k.ClassOrInterfaceDeclaration? || k.EnumDeclaration? || k.AnnotationTypeDeclaration?
  }

  /** Every node of the tree, in pre-order (a node before its children,
      children left to right). */
  function AllNodes(n: Node): (r: seq<Node>)
    decreases n, 1
    ensures |r| >= 1 && r[0] == n
  {
    [n] + AllNodesOf(n.children)
  }

  function AllNodesOf(cs: seq<Node>): seq<Node>
    decreases cs, 0
  {
    if cs == [] then [] else AllNodesOf(cs[..|cs| - 1]) + AllNodes(cs[|cs| - 1])
  }

  /** The number of nodes of a class in a list of nodes. */
  function CountOf(c: NodeClass, ns: seq<Node>): (r: int)
    ensures 0 <= r <= |ns|
  {
    if ns == [] then 0
    else CountOf(c, ns[..|ns| - 1]) + (if IsInstance(c, ns[|ns| - 1].kind) then 1 else 0)
  }

  lemma {:induction false} CountOfAppend(c: NodeClass, a: seq<Node>, b: seq<Node>)
    ensures CountOf(c, a + b) == CountOf(c, a) + CountOf(c, b)
  {
    if b != [] {
      assert (a + b)[..|a + b| - 1] == a + b[..|b| - 1];
      CountOfAppend(c, a, b[..|b| - 1]);
    } else {
      assert a + b == a;
    }
  }
}
