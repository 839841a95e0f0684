/** A tree node with links in both directions: an ordered list of children and a parent. */
module Tree {
  import opened Wrappers

  class Node<T> {
    var children: seq<Node<T>>
    var parent: Node?<T>
    /** The payload; a new node carries none. */
    var data: Option<T>

    /** Every child points back to this node. */
    ghost predicate Linked()
      reads this, set i | 0 <= i < |children| :: children[i]
    {
      forall i :: 0 <= i < |children| ==> children[i].parent == this
    }

    /** A root with no children and no payload. */
    constructor ()
      ensures children == [] && parent == null && data == None
      ensures Linked()
    {
      children := [];
      parent := null;
      data := None;
    }

    /**
     * Appends `child` to the children and makes this node its parent. The child is not
     * detached from a previous parent's list, and nothing stops it being added twice.
     */
    method AddChild(child: Node<T>)
      modifies this`children, child`parent
      ensures children == old(children) + [child]
      ensures child.parent == this
      ensures child != this ==> parent == old(parent)
      ensures old(Linked()) ==> Linked()
    {
      children := children + [child];
      child.parent := this;
    }
  }

  /** A child added to a second parent points to that one but stays listed under the first, whose links break. */
  method Reparent<T>(first: Node<T>, second: Node<T>, child: Node<T>)
    requires first != second && child != first && child != second
    modifies first`children, second`children, child`parent
    ensures first.children == old(first.children) + [child]
    ensures second.children == old(second.children) + [child]
    ensures child.parent == second
    ensures !first.Linked()
  {
    first.AddChild(child);
    second.AddChild(child);
    assert first.children[|first.children| - 1] == child;
  }

  /** Adding the same child twice lists it twice. */
  method AddChildTwice<T>(parent: Node<T>, child: Node<T>)
    modifies parent`children, child`parent
    ensures parent.children == old(parent.children) + [child, child]
    ensures child.parent == parent
  {
    parent.AddChild(child);
    parent.AddChild(child);
  }
}
