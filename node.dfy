/**
 * The `Node` and `Section` interfaces. A node is modelled as a value that
 * carries a stand-in for its object reference (`id`), its concrete class
 * (`cls`) and its `key`; a section additionally owns its child nodes and its
 * two collapse flags.
 */
module Nodes {

  /** The name of a node's concrete class (`javaClass`). */
  type ClassTag = string

  datatype Node =
    | Plain(id: int, cls: ClassTag, key: string)
    | Section(id: int, cls: ClassTag, key: string, nodes: seq<Node>,
              canBeCollapsed: bool, collapsedByDefault: bool)

  /** A value that implements `Section`. */
  type SectionNode = n: Node | n.Section? witness Section(0, "", "", [], false, false)

  /** `Node.areContentsTheSame`: the same reference is always equal, nodes of
      different classes never are, and otherwise the node's own
      `propertyDiff` decides. `propertyDiff(a, b)` is `a.propertyDiff(b)`;
      it is abstract in the source, so it is a parameter here. */
  function AreContentsTheSame(self: Node, obj: Node, propertyDiff: (Node, Node) -> bool): (r: bool)
    ensures self.id == obj.id ==> r
    ensures r ==> self.id == obj.id || self.cls == obj.cls
  {
    if self.id == obj.id then true
    else if self.cls != obj.cls then false
    else propertyDiff(self, obj)
  }

  /** The same reference compares equal whatever `propertyDiff` would say. */
  lemma SameReferenceIsSame(self: Node, obj: Node, propertyDiff: (Node, Node) -> bool)
    requires self.id == obj.id
    ensures AreContentsTheSame(self, obj, propertyDiff)
  {
  }

  /** Different classes never compare equal, whatever `propertyDiff` would say. */
  lemma DifferentClassesDiffer(self: Node, obj: Node, propertyDiff: (Node, Node) -> bool)
    requires self.id != obj.id && self.cls != obj.cls
    ensures !AreContentsTheSame(self, obj, propertyDiff)
  {
  }

  /** Two distinct references of one class are compared by `propertyDiff` alone. */
  lemma SameClassDelegates(self: Node, obj: Node, propertyDiff: (Node, Node) -> bool)
    requires self.id != obj.id && self.cls == obj.cls
    ensures AreContentsTheSame(self, obj, propertyDiff) == propertyDiff(self, obj)
  {
  }

  /** Content equality is reflexive for every `propertyDiff`, even one that is not. */
  lemma ContentsReflexive(n: Node, propertyDiff: (Node, Node) -> bool)
    ensures AreContentsTheSame(n, n, propertyDiff)
  {
  }

  /** Content equality is symmetric as soon as `propertyDiff` is. */
  lemma ContentsSymmetric(a: Node, b: Node, propertyDiff: (Node, Node) -> bool)
    requires forall x, y :: propertyDiff(x, y) == propertyDiff(y, x)
    ensures AreContentsTheSame(a, b, propertyDiff) == AreContentsTheSame(b, a, propertyDiff)
  {
  }
}
