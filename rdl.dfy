/** The part of the register-description compiler's node model that the header
    generator reads. The compiler elaborates the tree and computes every address;
    here those results are plain fields of a node value. */
module Rdl {

  /** The node classes the generator distinguishes. `Signal` stands for every
      child that is not addressable and not a field. */
  datatype Kind = Addrmap | Mem | Regfile | Reg | Field | Signal

  /** One elaborated component instance.
      - `children` is `children()` (arrays not unrolled; a register's children are its fields);
      - `unrolled` is `children(unroll=True)`: the same children with every array
        expanded into its elements, as the compiler supplies it;
      - the address and bit properties are the compiler's resolved values. */
  datatype Node = Node(
    kind: Kind,
    instName: string,
    isArray: bool,
    absoluteAddress: nat,
    rawAddressOffset: nat,
    addressOffset: nat,
    arrayStride: nat,
    low: nat,
    width: nat,
    children: seq<Node>,
    unrolled: seq<Node>)

  /** What `export` may be handed: the compiler's root, which stands for its top
      component, or a component node itself. */
  datatype ExportArg = RootNode(top: Node) | ComponentNode(node: Node)

  /** The root is replaced by its top component. */
  function Resolve(arg: ExportArg): Node
  {
    match arg
    case RootNode(top) => top
    case ComponentNode(node) => node
  }

  /** `isinstance(n, AddressableNode)`. */
  predicate IsAddressable(n: Node)
  {
    n.kind.Addrmap? || n.kind.Mem? || n.kind.Regfile? || n.kind.Reg?
  }

  /** `type(n).__name__` as the compiler names its node classes. */
  function ClassName(k: Kind): string
  {
    match k
    case Addrmap => "AddrmapNode"
    case Mem => "MemNode"
    case Regfile => "RegfileNode"
    case Reg => "RegNode"
    case Field => "FieldNode"
    case Signal => "SignalNode"
  }

  /** `n.fields()`: the field children, in order. */
  function Fields(n: Node): seq<Node>
  {
    FieldsOf(n.children)
  }

  function FieldsOf(cs: seq<Node>): seq<Node>
  {
    if cs == [] then []
    else (if cs[0].kind.Field? then [cs[0]] else []) + FieldsOf(cs[1..])
  }

  /** The fields are exactly the children that are fields. */
  lemma {:induction false} FieldsOfMembers(cs: seq<Node>)
    ensures forall f :: f in FieldsOf(cs) ==> f in cs && f.kind.Field?
    ensures forall c :: c in cs && c.kind.Field? ==> c in FieldsOf(cs)
  {
    if cs != [] {
      FieldsOfMembers(cs[1..]);
      assert forall c :: c in cs ==> c == cs[0] || c in cs[1..];
    }
  }

  /** What the compiler guarantees and the generator relies on: every field is at
      least one bit wide (`int('1' * 0, 2)` would raise). */
  predicate WellFormed(n: Node)
  {
    && (n.kind.Field? ==> n.width >= 1)
    && (forall c :: c in n.children ==> WellFormed(c))
    && (forall u :: u in n.unrolled ==> WellFormed(u))
  }

  /** In a well-formed register every field is at least one bit wide. */
  lemma FieldsAreWide(n: Node, i: nat)
    requires WellFormed(n) && i < |Fields(n)|
    ensures Fields(n)[i].width >= 1
  {
    FieldsOfMembers(n.children);
    assert Fields(n)[i] in Fields(n);
  }

  lemma ChildIsWellFormed(n: Node, i: nat)
    requires WellFormed(n) && i < |n.children|
    ensures WellFormed(n.children[i])
  {
    assert n.children[i] in n.children;
  }

  lemma UnrolledIsWellFormed(n: Node, i: nat)
    requires WellFormed(n) && i < |n.unrolled|
    ensures WellFormed(n.unrolled[i])
  {
    assert n.unrolled[i] in n.unrolled;
  }
}
