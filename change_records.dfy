/**
 * The change records of the structural mutations: what `child_added`,
 * `child_moved` and `child_removed` deliver to the `modified` event of the
 * tree's Html root, and when they stay silent.
 */
module ChangeRecords {
  import opened Wrappers
  import opened Observed
  import opened Anchor
  import opened TagTree
  import opened TagTreeProofs

  /** What reaches `modified` when `r` reports `rec`: one delivery if its root is Html, none otherwise. */
  function Reported(nodes: map<Ref, Node>, ghost rank: map<Ref, nat>, r: Ref, rec: Change): (ds: seq<Delivery>)
    requires Ranked(nodes, rank) && r in nodes
    ensures |ds| <= 1
    ensures ds != [] <==> IsHtml(nodes[RootOf(nodes, rank, r)])
    ensures ds != [] ==> ds[0] == Delivery(RootOf(nodes, rank, r), rec)
    ensures ds != [] ==> Below(nodes, rank, r, ds[0].root, false) && nodes[ds[0].root].parent.None?
  {
    var root := RootOf(nodes, rank, r);
    if IsHtml(nodes[root]) then [Delivery(root, rec)] else []
  }

  /** A change that leaves every kind and every attribute alone leaves every anchor alone. */
  lemma BeforeOfSameAttrs(nodes: map<Ref, Node>, nodes': map<Ref, Node>, children: seq<Ref>, c: Ref)
    requires c in children && forall x :: x in children ==> x in nodes
    requires SameShape(nodes, nodes')
    requires forall x :: x in nodes ==> nodes'[x].attrs == nodes[x].attrs
    ensures BeforeOf(nodes', children, c) == BeforeOf(nodes, children, c)
  {
    assert Siblings(nodes', children) == Siblings(nodes, children);
  }

  /** The end of `prepare` (initialising, activating) changes no attribute. */
  lemma ReadyKeepsAttrs(nodes: map<Ref, Node>, rank: map<Ref, nat>, r: Ref)
    requires Ranked(nodes, rank) && r in nodes
    ensures forall x :: x in nodes ==> Ready(nodes, rank, r)[x].attrs == nodes[x].attrs
  {
    var n2 := if !nodes[r].initialized then Initialize(nodes, rank, r) else nodes;
    assert forall x :: x in nodes ==> n2[x].attrs == nodes[x].attrs;
    ShapeKeepsLinked(nodes, n2, rank);
    if !n2[r].proxy.active {
      var n3 := Activate(n2, rank, r);
      assert forall x :: x in n2 ==> n3[x].attrs == n2[x].attrs;
    }
  }

  /**
   * `child_added` of a Tag child on an active Tag parent emits, through the root,
   * the record `{id: parent's id, 'added', 'children', child's markup, before}`,
   * where the markup is the child's rendering after it has been prepared, and
   * `before` is the child's anchor in the parent's children. In every other case
   * (a pattern node on either side, an inactive parent) nothing changes at all.
   */
  lemma {:induction false} ChildAddedRecord(d: Dom, rank: map<Ref, nat>, b: Backend, p: Ref, c: Ref)
    requires Linked(d.nodes, rank) && p in d.nodes && c in d.nodes[p].children
    ensures c in d.nodes && forall x :: x in d.nodes[p].children ==> x in d.nodes
    ensures var P := d.nodes[p]; var d' := ChildAdded(d, rank, b, p, c);
      if P.kind.Tag? && d.nodes[c].kind.Tag? && P.proxy.active then
        var markup := b.render(Prepare(d, rank, SettersOf(b, d.nodes[c]), c, []).nodes, c);
        var rec := Change(IdOf(P), Added, "children", Str(markup), BeforeOf(d.nodes, P.children, c));
        d'.delivered == d.delivered + Reported(d.nodes, rank, p, rec)
      else d' == d
  {
    ChildrenAreNodes(d.nodes, rank, p);
    var P := d.nodes[p];
    if P.kind.Tag? && d.nodes[c].kind.Tag? && P.proxy.active {
      var d1 := Prepare(d, rank, SettersOf(b, d.nodes[c]), c, []);
      assert SetAll(d, rank, SettersOf(b, d.nodes[c]), c, []) == d;
      ReadyKeepsAttrs(d.nodes, rank, c);
      assert d1.delivered == d.delivered;
      RootOfShape(d.nodes, d1.nodes, rank, p);
      BeforeOfSameAttrs(d.nodes, d1.nodes, P.children, c);
      assert IdOf(d1.nodes[p]) == IdOf(P);
    }
  }

  /**
   * `child_moved` of a Tag child on an active Tag parent asks the parent's proxy to
   * move it; only if the proxy accepts does it emit `{id: parent's id, 'moved',
   * 'children', child's id, before}` with the anchor at the child's new position.
   * A refused move, a pattern node or an inactive parent emits nothing.
   */
  lemma {:induction false} ChildMovedRecord(d: Dom, rank: map<Ref, nat>, p: Ref, c: Ref, accepted: bool)
    requires Linked(d.nodes, rank) && p in d.nodes && c in d.nodes[p].children
    ensures c in d.nodes && forall x :: x in d.nodes[p].children ==> x in d.nodes
    ensures var P := d.nodes[p]; var d' := ChildMoved(d, rank, p, c, accepted);
      if P.kind.Tag? && d.nodes[c].kind.Tag? && P.proxy.active then
        var rec := Change(IdOf(P), Moved, "children", Str(IdOf(d.nodes[c])), BeforeOf(d.nodes, P.children, c));
        d'.nodes[p].proxy.calls == P.proxy.calls + [CallChildMoved(c)] &&
        d'.delivered == d.delivered + (if accepted then Reported(d.nodes, rank, p, rec) else [])
      else d' == d
  {
    ChildrenAreNodes(d.nodes, rank, p);
    var P := d.nodes[p];
    if P.kind.Tag? && d.nodes[c].kind.Tag? && P.proxy.active {
      var nodes1 := WithProxy(d.nodes, p, P.proxy.(calls := P.proxy.calls + [CallChildMoved(c)]));
      RootOfShape(d.nodes, nodes1, rank, p);
      BeforeOfSameAttrs(d.nodes, nodes1, P.children, c);
    }
  }

  /**
   * `child_removed` of a Tag child on an active Tag parent emits `{id: parent's id,
   * 'removed', 'children', child's id}` with no anchor; otherwise nothing.
   */
  lemma ChildRemovedRecord(d: Dom, rank: map<Ref, nat>, p: Ref, c: Ref)
    requires Ranked(d.nodes, rank) && p in d.nodes && c in d.nodes
    ensures var P := d.nodes[p]; var d' := ChildRemoved(d, rank, p, c);
      && d'.nodes == d.nodes
      && if P.kind.Tag? && d.nodes[c].kind.Tag? && P.proxy.active then
           var rec := Change(IdOf(P), Removed, "children", Str(IdOf(d.nodes[c])), None);
           d'.delivered == d.delivered + Reported(d.nodes, rank, p, rec)
         else d'.delivered == d.delivered
  {
  }

  /**
   * Pattern nodes are transparent: adding or moving a child that is not a Tag
   * changes nothing and emits nothing, and no anchor ever names a pattern node.
   */
  lemma PatternChildSilent(d: Dom, rank: map<Ref, nat>, b: Backend, p: Ref, c: Ref, accepted: bool)
    requires Linked(d.nodes, rank) && p in d.nodes && c in d.nodes[p].children
    requires d.nodes[c].kind.Pattern?
    ensures ChildAdded(d, rank, b, p, c) == d
    ensures ChildMoved(d, rank, p, c, accepted) == d
  {
    ChildAddedRecord(d, rank, b, p, c);
    ChildMovedRecord(d, rank, p, c, accepted);
  }

  /** Adding or moving a child under a parent whose proxy is not active emits nothing. */
  lemma InactiveParentSilent(d: Dom, rank: map<Ref, nat>, b: Backend, p: Ref, c: Ref, accepted: bool)
    requires Linked(d.nodes, rank) && p in d.nodes && c in d.nodes[p].children
    requires !d.nodes[p].proxy.active
    ensures ChildAdded(d, rank, b, p, c) == d
    ensures ChildMoved(d, rank, p, c, accepted) == d
  {
    ChildAddedRecord(d, rank, b, p, c);
    ChildMovedRecord(d, rank, p, c, accepted);
  }

  /**
   * `child_removed` runs once the child has left: removing a pattern node, or
   * removing any child from a parent whose proxy is not active, emits nothing.
   */
  lemma RemovalSilent(d: Dom, rank: map<Ref, nat>, p: Ref, c: Ref)
    requires Ranked(d.nodes, rank) && p in d.nodes && c in d.nodes
    ensures d.nodes[c].kind.Pattern? || !d.nodes[p].proxy.active ==> ChildRemoved(d, rank, p, c) == d
  {
    ChildRemovedRecord(d, rank, p, c);
  }

  /**
   * The anchor names a Tag sibling, never a pattern node: a `before` that is present
   * is the id of a Tag child of the same parent at a later position.
   */
  lemma AnchorNamesLaterTag(nodes: map<Ref, Node>, children: seq<Ref>, c: Ref)
    requires c in children && forall x :: x in children ==> x in nodes
    ensures BeforeOf(nodes, children, c).Some? ==>
      exists j :: IndexOf(children, c) < j < |children| && nodes[children[j]].kind.Tag? &&
        BeforeOf(nodes, children, c).value == IdOf(nodes[children[j]])
  {
    BeforeIsNextTagSibling(nodes, children, c);
  }
}
