/**
 * The tag layer as the program runs it: an arena of tag objects whose methods
 * update the tree in place and emit change records, each proved to have exactly
 * the effect the functions of `TagTree` describe, and to keep the tree's
 * invariants.
 */
module TagArena {
  import opened Wrappers
  import opened Observed
  import opened Anchor
  import opened TagTree
  import opened TagTreeProofs

  /**
   * The anchor scan of `child_added` and `child_moved`: walks the siblings after
   * `c`, skipping pattern nodes, and stops at the first Tag.
   */
  method ScanBefore(nodes: map<Ref, Node>, children: seq<Ref>, c: Ref) returns (before: Option<string>)
    requires c in children && forall x :: x in children ==> x in nodes
    ensures before == BeforeOf(nodes, children, c)
  {
    ghost var sibs := Siblings(nodes, children);
    ghost var start := IndexOf(children, c) + 1;
    var i := IndexOf(children, c) + 1;
    while i < |children|
      invariant start <= i <= |children|
      invariant FirstTagIndex(sibs, start) == FirstTagIndex(sibs, i)
      decreases |children| - i
    {
      var x := children[i];
      if nodes[x].kind.Tag? {
        return Some(IdOf(nodes[x]));
      }
      i := i + 1;
    }
    return None;
  }

  class Arena {
    /** The rendering backend the proxies belong to. */
    const backend: Backend
    /** Every object of the program, by identity. */
    var nodes: map<Ref, Node>
    /** The records delivered so far to `modified` events of Html roots. */
    var delivered: seq<Delivery>
    /** The identity the next created object receives. */
    var nextRef: nat
    /** Depth witnesses of the parent links (they bound `root_object()`'s walk). */
    ghost var rank: map<Ref, nat>

    ghost predicate Valid()
      reads this
    {
      Consistent(nodes, rank) && forall x :: x in nodes ==> x < nextRef
    }

    function State(): Dom
      reads this
    {
      Dom(nodes, delivered)
    }

    constructor(backend: Backend)
      ensures Valid() && ActiveClosed(nodes, {})
      ensures this.backend == backend && nodes == map[] && delivered == []
    {
      this.backend := backend;
      nodes := map[];
      delivered := [];
      nextRef := 0;
      rank := map[];
    }

    /**
     * Creates a detached object. A tag receives the values of its declared members
     * from `attrs` and, without an explicit `id`, the default id from its identity.
     */
    method Create(kind: Kind, attrs: map<string, Value>) returns (r: Ref)
      requires Valid() && ActiveClosed(nodes, {})
      requires kind.Tag? ==> ObservedNames(kind.cls) - {"id"} <= attrs.Keys
      requires "id" in attrs ==> attrs["id"].Str?
      modifies this
      ensures Valid() && ActiveClosed(nodes, {})
      ensures r == old(nextRef) && r !in old(nodes) && nextRef == r + 1
      ensures nodes == old(nodes)[r := NewNode(kind, attrs, r)] && delivered == old(delivered)
    {
      r := nextRef;
      NewNodeKeeps(nodes, rank, kind, attrs, r);
      nodes := nodes[r := NewNode(kind, attrs, r)];
      rank := rank[r := 0];
      nextRef := nextRef + 1;
    }

    /** `_notify_modified`. */
    method NotifyModified(r: Ref, c: Change)
      requires Ranked(nodes, rank) && r in nodes
      modifies this
      ensures nodes == old(nodes) && rank == old(rank) && nextRef == old(nextRef)
      ensures State() == TagTree.NotifyModified(old(State()), rank, r, c)
    {
      var root := RootOf(nodes, rank, r);
      if IsHtml(nodes[root]) {
        delivered := delivered + [Delivery(root, c)];
      }
    }

    /** `_update_proxy`, for a change of an observed member of `r`. */
    method UpdateProxy(r: Ref, change: AttrChange)
      requires Ranked(nodes, rank) && r in nodes
      modifies this
      ensures rank == old(rank) && nextRef == old(nextRef)
      ensures State() == TagTree.UpdateProxy(old(State()), rank, SettersOf(backend, old(nodes)[r]), r, change)
    {
      var n := nodes[r];
      if change.kind == Update && n.proxy.active {
        var call := if change.name in SettersOf(backend, n) then CallSetter(change.name, change.value)
                    else CallSetAttribute(change.name, change.value);
        nodes := nodes[r := n.(proxy := n.proxy.(view := n.proxy.view[change.name := change.value],
                                                   calls := n.proxy.calls + [call]))];
        ShapeKeepsLinked(old(nodes), nodes, rank);
        NotifyModified(r, Change(IdOf(n), Updated, change.name, change.value, None));
      }
    }

    /** `setattr(tag, name, value)`: assigns the member and runs its observer. */
    method SetAttribute(r: Ref, name: string, value: Value)
      requires Valid() && r in nodes && nodes[r].kind.Tag?
      requires name == "id" ==> value.Str?
      modifies this
      ensures rank == old(rank) && nextRef == old(nextRef)
      ensures State() == SetAttr(old(State()), rank, SettersOf(backend, old(nodes)[r]), r, name, value)
      ensures Valid()
      ensures ActiveClosed(old(nodes), {}) ==> ActiveClosed(nodes, {})
    {
      ghost var d := State();
      ghost var d' := SetAttr(d, rank, SettersOf(backend, d.nodes[r]), r, name, value);
      var n := nodes[r];
      nodes := WithAttr(nodes, r, name, value);
      ShapeKeepsLinked(d.nodes, nodes, rank);
      if name in ObservedNames(n.kind.cls) && (name !in n.attrs || n.attrs[name] != value) {
        UpdateProxy(r, AttrChange(if name in n.attrs then ChangeType.Update else ChangeType.Create, name, value));
      }
      assert State() == d';
      SetAttrKeeps(d, rank, SettersOf(backend, d.nodes[r]), r, name, value, {});
      SetAttrShape(d, rank, SettersOf(backend, d.nodes[r]), r, name, value);
    }

    /** `prepare(**kwargs)`. */
    method Prepare(r: Ref, kwargs: seq<(string, Value)>)
      requires Valid() && ActiveClosed(nodes, {r}) && r in nodes && nodes[r].kind.Tag?
      requires forall i :: 0 <= i < |kwargs| && kwargs[i].0 == "id" ==> kwargs[i].1.Str?
      modifies this
      ensures rank == old(rank)
      ensures State() == TagTree.Prepare(old(State()), rank, SettersOf(backend, old(nodes)[r]), r, kwargs)
      ensures SameShape(old(nodes), nodes)
      ensures Valid() && ActiveClosed(nodes, {}) && nextRef == old(nextRef)
    {
      ghost var d := State();
      Assign(r, kwargs);
      Ready(r);
      PrepareKeeps(d, rank, SettersOf(backend, d.nodes[r]), r, kwargs);
    }

    /** The `setattr` loop of `prepare`. */
    method Assign(r: Ref, kwargs: seq<(string, Value)>)
      requires Valid() && ActiveClosed(nodes, {r}) && r in nodes && nodes[r].kind.Tag?
      requires forall i :: 0 <= i < |kwargs| && kwargs[i].0 == "id" ==> kwargs[i].1.Str?
      modifies this
      ensures rank == old(rank) && nextRef == old(nextRef)
      ensures State() == SetAll(old(State()), rank, SettersOf(backend, old(nodes)[r]), r, kwargs)
      ensures Valid()
    {
      ghost var d := State();
      var i := 0;
      while i < |kwargs|
        invariant 0 <= i <= |kwargs|
        invariant rank == old(rank) && nextRef == old(nextRef)
        invariant Valid() && r in nodes && nodes[r].kind.Tag?
        invariant State() == SetAll(d, rank, SettersOf(backend, d.nodes[r]), r, kwargs[..i])
      {
        var (name, value) := kwargs[i];
        SetAllStep(d, rank, SettersOf(backend, d.nodes[r]), r, kwargs, i);
        SetAttribute(r, name, value);
        i := i + 1;
      }
      assert kwargs[..i] == kwargs;
    }

    /** The end of `prepare`: `initialize()` unless initialised, `activate_proxy()` unless active. */
    method Ready(r: Ref)
      requires Ranked(nodes, rank) && r in nodes
      modifies this
      ensures rank == old(rank) && nextRef == old(nextRef) && delivered == old(delivered)
      ensures nodes == TagTree.Ready(old(nodes), rank, r)
    {
      if !nodes[r].initialized {
        nodes := Initialize(nodes, rank, r);
      }
      if !nodes[r].proxy.active {
        nodes := Activate(nodes, rank, r);
      }
    }

    /** `render(**kwargs)`: `prepare`, then the proxy's markup. */
    method Render(r: Ref, kwargs: seq<(string, Value)>) returns (html: string)
      requires Valid() && ActiveClosed(nodes, {r}) && r in nodes && nodes[r].kind.Tag?
      requires forall i :: 0 <= i < |kwargs| && kwargs[i].0 == "id" ==> kwargs[i].1.Str?
      modifies this
      ensures rank == old(rank)
      ensures (State(), html) == TagTree.Render(old(State()), rank, backend, r, kwargs)
      ensures SameShape(old(nodes), nodes)
      ensures Valid() && ActiveClosed(nodes, {}) && nextRef == old(nextRef)
    {
      Prepare(r, kwargs);
      html := backend.render(nodes, r);
    }

    /** `child_added(c)`, run on `p` once `c` is among its children. */
    method ChildAdded(p: Ref, c: Ref)
      requires Valid() && ActiveClosed(nodes, {c}) && p in nodes && c in nodes[p].children
      modifies this
      ensures rank == old(rank)
      ensures State() == TagTree.ChildAdded(old(State()), rank, backend, p, c)
      ensures Valid() && ActiveClosed(nodes, {}) && nextRef == old(nextRef)
    {
      var P := nodes[p];
      if P.kind.Tag? && nodes[c].kind.Tag? && P.proxy.active {
        ReportAdded(p, c);
      } else {
        ClosedUnderInactiveParent(nodes, rank, p, c);
      }
    }

    /** The body of `child_added` for a Tag child of an active Tag: render, anchor, report. */
    method ReportAdded(p: Ref, c: Ref)
      requires Valid() && ActiveClosed(nodes, {c}) && p in nodes && c in nodes[p].children
      requires nodes[p].kind.Tag? && nodes[c].kind.Tag? && nodes[p].proxy.active
      modifies this
      ensures rank == old(rank)
      ensures State() == TagTree.ChildAdded(old(State()), rank, backend, p, c)
      ensures Valid() && ActiveClosed(nodes, {}) && nextRef == old(nextRef)
    {
      var markup := Render(c, []);
      ChildrenAreNodes(nodes, rank, p);
      var before := ScanBefore(nodes, nodes[p].children, c);
      NotifyModified(p, Change(IdOf(nodes[p]), Added, "children", Str(markup), before));
    }

    /** `child_moved(c)`; `accepted` is what the proxy's `child_moved` answers. */
    method ChildMoved(p: Ref, c: Ref, accepted: bool)
      requires Linked(nodes, rank) && p in nodes && c in nodes[p].children
      modifies this
      ensures rank == old(rank) && nextRef == old(nextRef)
      ensures State() == TagTree.ChildMoved(old(State()), rank, p, c, accepted)
    {
      var P := nodes[p];
      var C := nodes[c];
      if P.kind.Tag? && C.kind.Tag? && P.proxy.active {
        nodes := WithProxy(nodes, p, P.proxy.(calls := P.proxy.calls + [CallChildMoved(c)]));
        ShapeKeepsLinked(old(nodes), nodes, rank);
        if accepted {
          var before := ScanBefore(nodes, P.children, c);
          NotifyModified(p, Change(IdOf(P), Moved, "children", Str(IdOf(C)), before));
        }
      }
    }

    /** `child_removed(c)`, run on `p` once `c` has left it. */
    method ChildRemoved(p: Ref, c: Ref)
      requires Ranked(nodes, rank) && p in nodes && c in nodes
      modifies this
      ensures nodes == old(nodes) && rank == old(rank) && nextRef == old(nextRef)
      ensures State() == TagTree.ChildRemoved(old(State()), rank, p, c)
    {
      var P := nodes[p];
      if P.kind.Tag? && nodes[c].kind.Tag? && P.proxy.active {
        NotifyModified(p, Change(IdOf(P), Removed, "children", Str(IdOf(nodes[c])), None));
      }
    }

    /** Inserts the detached `c` at position `k` of `p`'s children, then runs `child_added`. */
    method Insert(p: Ref, k: nat, c: Ref)
      requires Valid() && ActiveClosed(nodes, {}) && p in nodes && c in nodes && p != c
      requires nodes[c].parent.None? && RootOf(nodes, rank, p) != c && k <= |nodes[p].children|
      modifies this
      ensures rank == InsertedRank(old(nodes), old(rank), p, c)
      ensures Linked(AfterInsert(old(nodes), p, k, c), rank)
      ensures c in AfterInsert(old(nodes), p, k, c)[p].children
      ensures State() == TagTree.ChildAdded(Dom(AfterInsert(old(nodes), p, k, c), old(delivered)), rank, backend, p, c)
      ensures Valid() && ActiveClosed(nodes, {}) && nextRef == old(nextRef)
    {
      InsertReady(nodes, rank, p, k, c);
      nodes, rank := AfterInsert(nodes, p, k, c), InsertedRank(nodes, rank, p, c);
      ChildAdded(p, c);
    }

    /** Moves `c`, a child of `p`, to position `k`, then runs `child_moved`. */
    method Move(p: Ref, c: Ref, k: nat, accepted: bool)
      requires Valid() && ActiveClosed(nodes, {}) && p in nodes
      requires c in nodes[p].children && k < |nodes[p].children|
      modifies this
      ensures rank == old(rank)
      ensures Linked(AfterMove(old(nodes), p, c, k), rank) && c in AfterMove(old(nodes), p, c, k)[p].children
      ensures State() == TagTree.ChildMoved(Dom(AfterMove(old(nodes), p, c, k), old(delivered)), rank, p, c, accepted)
      ensures Valid() && ActiveClosed(nodes, {}) && nextRef == old(nextRef)
    {
      ghost var d := State();
      MoveLinked(nodes, rank, p, c, k);
      nodes := AfterMove(nodes, p, c, k);
      ChildMoved(p, c, accepted);
      MoveKeeps(d, rank, p, c, k, accepted);
    }

    /** Detaches `c` from `p`, then runs `child_removed`. */
    method Remove(p: Ref, c: Ref)
      requires Valid() && ActiveClosed(nodes, {}) && p in nodes && c in nodes[p].children
      modifies this
      ensures rank == old(rank)
      ensures c in old(nodes) && p != c
      ensures Linked(AfterRemove(old(nodes), p, c), rank)
      ensures State() == TagTree.ChildRemoved(Dom(AfterRemove(old(nodes), p, c), old(delivered)), rank, p, c)
      ensures Valid() && ActiveClosed(nodes, {}) && nextRef == old(nextRef)
    {
      ghost var d := State();
      RemoveLinked(nodes, rank, p, c);
      nodes := AfterRemove(nodes, p, c);
      ChildRemoved(p, c);
      RemoveKeeps(d, rank, p, c);
    }
  }
}
