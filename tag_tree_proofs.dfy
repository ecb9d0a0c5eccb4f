/**
 * What the mutations of the tag tree promise: which records they emit, what they
 * leave alone, and which invariants of the tree they keep.
 */
module TagTreeProofs {
  import opened Wrappers
  import opened Observed
  import opened Anchor
  import opened TagTree

  // ---------------------------------------------------------------------------
  // Sequences of children
  // ---------------------------------------------------------------------------

  lemma {:induction false} WithoutFacts(s: seq<Ref>, x: Ref)
    requires x in s && Distinct(s)
    ensures |Without(s, x)| == |s| - 1
    ensures Distinct(Without(s, x))
    ensures forall y :: y in Without(s, x) <==> y in s && y != x
  {
    var i := IndexOf(s, x);
    var w := s[..i] + s[i + 1..];
    DropAt(s, i);
    forall y
      ensures y in w <==> y in s && y != x
    {
      if y in w {
        var j :| 0 <= j < |w| && w[j] == y;
        assert y == s[if j < i then j else j + 1];
      }
      if y in s && y != x {
        var j :| 0 <= j < |s| && s[j] == y;
        assert y == w[if j < i then j else j - 1];
      }
    }
  }

  /** Dropping position `i` shifts the later elements down by one. */
  lemma DropAt(s: seq<Ref>, i: nat)
    requires i < |s|
    ensures var w := s[..i] + s[i + 1..];
      |w| == |s| - 1 && (forall j :: 0 <= j < |w| ==> w[j] == s[if j < i then j else j + 1])
      && (Distinct(s) ==> Distinct(w))
  {
    var w := s[..i] + s[i + 1..];
    if Distinct(s) {
      forall a, b | 0 <= a < b < |w|
        ensures w[a] != w[b]
      {
        assert w[a] == s[if a < i then a else a + 1];
        assert w[b] == s[if b < i then b else b + 1];
      }
    }
  }

  lemma {:induction false} InsertAtFacts(s: seq<Ref>, k: nat, x: Ref)
    requires k <= |s| && Distinct(s) && x !in s
    ensures Distinct(s[..k] + [x] + s[k..])
    ensures forall y :: y in s[..k] + [x] + s[k..] <==> y in s || y == x
  {
    var t := s[..k] + [x] + s[k..];
    assert |t| == |s| + 1;
    forall y
      ensures y in t <==> y in s || y == x
    {
      if y in s {
        var j :| 0 <= j < |s| && s[j] == y;
        if j < k { assert t[j] == y; } else { assert t[j + 1] == y; }
      }
      if y in t {
        var j :| 0 <= j < |t| && t[j] == y;
        if j < k { assert s[j] == y; } else if j > k { assert s[j - 1] == y; }
      }
    }
    forall a, b | 0 <= a < b < |t|
      ensures t[a] != t[b]
    {
      if a != k && b != k {
        var a' := if a < k then a else a - 1;
        var b' := if b < k then b else b - 1;
        assert t[a] == s[a'] && t[b] == s[b'];
      } else if a == k {
        assert t[b] == s[b - 1];
      } else {
        assert t[a] == s[a];
      }
    }
  }

  // ---------------------------------------------------------------------------
  // The anchor
  // ---------------------------------------------------------------------------

  /**
   * The `before` of a child is the id of the first Tag after it, pattern nodes being
   * skipped, and it is absent exactly when no Tag follows the child.
   */
  lemma BeforeIsNextTagSibling(nodes: map<Ref, Node>, children: seq<Ref>, c: Ref)
    requires c in children && forall x :: x in children ==> x in nodes
    ensures var k := IndexOf(children, c);
      BeforeOf(nodes, children, c).None? <==>
        forall m :: k < m < |children| ==> nodes[children[m]].kind.Pattern?
    ensures var k := IndexOf(children, c);
      BeforeOf(nodes, children, c).Some? ==>
        exists j :: k < j < |children| && nodes[children[j]].kind.Tag? &&
          BeforeOf(nodes, children, c) == Some(IdOf(nodes[children[j]])) &&
          forall m :: k < m < j ==> nodes[children[m]].kind.Pattern?
  {
    var sibs := Siblings(nodes, children);
    var k := IndexOf(children, c);
    var r := Before(sibs, k);
    if r.Some? {
      var j :| k < j < |sibs| && sibs[j] == r && forall m :: k < m < j ==> sibs[m].None?;
      assert nodes[children[j]].kind.Tag?;
    }
  }

  // ---------------------------------------------------------------------------
  // Roots and delivery
  // ---------------------------------------------------------------------------

  /** A node and its parent have the same root. */
  lemma RootOfParent(nodes: map<Ref, Node>, rank: map<Ref, nat>, x: Ref)
    requires Ranked(nodes, rank) && x in nodes && nodes[x].parent.Some?
    ensures RootOf(nodes, rank, x) == RootOf(nodes, rank, nodes[x].parent.value)
  {
  }

  /** A node is an ancestor of every node below it, so they share a root. */
  lemma {:induction false} BelowSameRoot(nodes: map<Ref, Node>, rank: map<Ref, nat>, x: Ref, top: Ref, tagsOnly: bool)
    requires Ranked(nodes, rank) && x in nodes && top in nodes && Below(nodes, rank, x, top, tagsOnly)
    ensures RootOf(nodes, rank, x) == RootOf(nodes, rank, top)
    decreases rank[x]
  {
    if x != top {
      BelowSameRoot(nodes, rank, nodes[x].parent.value, top, tagsOnly);
    }
  }

  /**
   * `_notify_modified` changes no node, and delivers the record, once, exactly when
   * the root of `r` is an Html node; that root is where it is delivered, and `r`
   * lies below it.
   */
  lemma NotifyModifiedDelivers(d: Dom, rank: map<Ref, nat>, r: Ref, c: Change)
    requires Ranked(d.nodes, rank) && r in d.nodes
    ensures var d' := NotifyModified(d, rank, r, c); var root := RootOf(d.nodes, rank, r);
      && d'.nodes == d.nodes
      && (IsHtml(d.nodes[root]) ==> d'.delivered == d.delivered + [Delivery(root, c)])
      && (!IsHtml(d.nodes[root]) ==> d'.delivered == d.delivered)
      && d.nodes[root].parent.None? && Below(d.nodes, rank, r, root, false)
  {
  }

  /**
   * Records stay in their own document: a node below a parentless node `h` (an
   * Html document, say) has `h` as its root, so what it reports can only reach `h`.
   */
  lemma {:induction false} RootOfBelow(nodes: map<Ref, Node>, rank: map<Ref, nat>, x: Ref, h: Ref)
    requires Ranked(nodes, rank) && x in nodes && h in nodes && nodes[h].parent.None?
    ensures Below(nodes, rank, x, h, false) <==> RootOf(nodes, rank, x) == h
  {
    if Below(nodes, rank, x, h, false) {
      BelowSameRoot(nodes, rank, x, h, false);
    }
  }

  /** `Below` only looks at kinds and parent links. */
  lemma {:induction false} BelowShape(nodes: map<Ref, Node>, nodes': map<Ref, Node>, rank: map<Ref, nat>,
                                      x: Ref, top: Ref, tagsOnly: bool)
    requires Ranked(nodes, rank) && SameShape(nodes, nodes') && x in nodes
    ensures Ranked(nodes', rank)
    ensures Below(nodes', rank, x, top, tagsOnly) == Below(nodes, rank, x, top, tagsOnly)
    decreases rank[x]
  {
    ShapeKeepsLinked(nodes, nodes', rank);
    if x != top && nodes[x].parent.Some? {
      BelowShape(nodes, nodes', rank, nodes[x].parent.value, top, tagsOnly);
    }
  }

  // ---------------------------------------------------------------------------
  // Attribute updates
  // ---------------------------------------------------------------------------

  /**
   * `_update_proxy`: for an 'update' on an active tag, exactly one proxy call is
   * made (the specific setter if the proxy has one, `set_attribute` otherwise) and
   * one 'update' record with the tag's id is emitted when the root is Html; for any
   * other change type, or an inactive tag, nothing happens at all.
   */
  lemma UpdateProxyEffect(d: Dom, rank: map<Ref, nat>, setters: set<string>, r: Ref, change: AttrChange)
    requires Ranked(d.nodes, rank) && r in d.nodes
    ensures var d' := UpdateProxy(d, rank, setters, r, change); var n := d.nodes[r];
      if change.kind == Update && n.proxy.active then
        var call := if change.name in setters then CallSetter(change.name, change.value)
                    else CallSetAttribute(change.name, change.value);
        var rec := Change(IdOf(n), Updated, change.name, change.value, None);
        var root := RootOf(d.nodes, rank, r);
        && d'.nodes == d.nodes[r := n.(proxy := n.proxy.(view := n.proxy.view[change.name := change.value],
                                                         calls := n.proxy.calls + [call]))]
        && d'.delivered == d.delivered + (if IsHtml(d.nodes[root]) then [Delivery(root, rec)] else [])
      else d' == d
  {
    var n := d.nodes[r];
    if change.kind == Update && n.proxy.active {
      var call := if change.name in setters then CallSetter(change.name, change.value)
                  else CallSetAttribute(change.name, change.value);
      var nodes' := WithProxy(d.nodes, r, n.proxy.(view := n.proxy.view[change.name := change.value],
                                                    calls := n.proxy.calls + [call]));
      ShapeKeepsLinked(d.nodes, nodes', rank);
      assert RootOf(nodes', rank, r) == RootOf(d.nodes, rank, r) by { RootOfShape(d.nodes, nodes', rank, r); }
    }
  }

  /** The root walk only looks at parent links. */
  lemma {:induction false} RootOfShape(nodes: map<Ref, Node>, nodes': map<Ref, Node>, rank: map<Ref, nat>, x: Ref)
    requires Ranked(nodes, rank) && SameShape(nodes, nodes') && x in nodes
    ensures Ranked(nodes', rank)
    ensures RootOf(nodes', rank, x) == RootOf(nodes, rank, x)
    ensures nodes'[RootOf(nodes, rank, x)].kind == nodes[RootOf(nodes, rank, x)].kind
    decreases rank[x]
  {
    ShapeKeepsLinked(nodes, nodes', rank);
    if nodes[x].parent.Some? {
      RootOfShape(nodes, nodes', rank, nodes[x].parent.value);
    }
  }

  /** Assigning an attribute changes that one attribute of that one tag, and no shape. */
  lemma SetAttrAttrs(d: Dom, rank: map<Ref, nat>, setters: set<string>, r: Ref, name: string, value: Value)
    requires Ranked(d.nodes, rank) && r in d.nodes && d.nodes[r].kind.Tag?
    ensures var d' := SetAttr(d, rank, setters, r, name, value);
      && SameShape(d.nodes, d'.nodes)
      && (forall x :: x in d.nodes ==>
            d'.nodes[x].attrs == if x == r then d.nodes[x].attrs[name := value] else d.nodes[x].attrs)
      && (forall x :: x in d.nodes && x != r ==> d'.nodes[x] == d.nodes[x])
      && d'.nodes[r].initialized == d.nodes[r].initialized
      && d'.nodes[r].proxy.active == d.nodes[r].proxy.active
      && d'.nodes[r].proxy.view ==
           if d.nodes[r].proxy.active && name in ObservedNames(d.nodes[r].kind.cls) &&
              name in d.nodes[r].attrs && d.nodes[r].attrs[name] != value
           then d.nodes[r].proxy.view[name := value] else d.nodes[r].proxy.view
  {
    var n := d.nodes[r];
    var nodes1 := WithAttr(d.nodes, r, name, value);
    ShapeKeepsLinked(d.nodes, nodes1, rank);
    var d1 := Dom(nodes1, d.delivered);
    if name in ObservedNames(n.kind.cls) && (name !in n.attrs || n.attrs[name] != value) {
      var change := AttrChange(if name in n.attrs then Update else Create, name, value);
      UpdateProxyFrame(d1, rank, setters, r, change);
    }
  }

  /** `_update_proxy` touches only the proxy of `r`. */
  lemma UpdateProxyFrame(d: Dom, rank: map<Ref, nat>, setters: set<string>, r: Ref, change: AttrChange)
    requires Ranked(d.nodes, rank) && r in d.nodes
    ensures var d' := UpdateProxy(d, rank, setters, r, change);
      && d'.nodes.Keys == d.nodes.Keys
      && (forall x :: x in d.nodes && x != r ==> d'.nodes[x] == d.nodes[x])
      && d'.nodes[r] == d.nodes[r].(proxy := d'.nodes[r].proxy)
      && d'.nodes[r].proxy.active == d.nodes[r].proxy.active
      && d'.nodes[r].proxy.view ==
           if change.kind == Update && d.nodes[r].proxy.active
           then d.nodes[r].proxy.view[change.name := change.value] else d.nodes[r].proxy.view
  {
    var n := d.nodes[r];
    if change.kind == Update && n.proxy.active {
      var call := if change.name in setters then CallSetter(change.name, change.value)
                  else CallSetAttribute(change.name, change.value);
      var p := n.proxy.(view := n.proxy.view[change.name := change.value], calls := n.proxy.calls + [call]);
      var nodes' := WithProxy(d.nodes, r, p);
      ShapeKeepsLinked(d.nodes, nodes', rank);
      var d2 := NotifyModified(Dom(nodes', d.delivered), rank, r, Change(IdOf(n), Updated, change.name, change.value, None));
      assert d2.nodes == nodes';
      assert UpdateProxy(d, rank, setters, r, change) == d2;
    }
  }

  /**
   * Setting an attribute of a tag that is not active changes its value and nothing
   * else: no proxy call, no record.
   */
  lemma SetAttrSilentWhileInactive(d: Dom, rank: map<Ref, nat>, setters: set<string>, r: Ref, name: string, value: Value)
    requires Ranked(d.nodes, rank) && r in d.nodes && d.nodes[r].kind.Tag? && !d.nodes[r].proxy.active
    ensures SetAttr(d, rank, setters, r, name, value) ==
      Dom(d.nodes[r := d.nodes[r].(attrs := d.nodes[r].attrs[name := value])], d.delivered)
  {
  }

  /**
   * Setting a name the tag's class does not observe changes its value and nothing
   * else, even on an active tag: `_update_proxy` is not registered for it.
   */
  lemma SetAttrUnobservedSilent(d: Dom, rank: map<Ref, nat>, setters: set<string>, r: Ref, name: string, value: Value)
    requires Ranked(d.nodes, rank) && r in d.nodes && d.nodes[r].kind.Tag?
    requires name !in ObservedNames(d.nodes[r].kind.cls)
    ensures SetAttr(d, rank, setters, r, name, value) ==
      Dom(d.nodes[r := d.nodes[r].(attrs := d.nodes[r].attrs[name := value])], d.delivered)
  {
  }

  /**
   * A `Button` observes `type` but not `name` or `value`: assigning either of those,
   * active or not, reaches neither the proxy nor `modified`.
   */
  lemma ButtonValueSilent(d: Dom, rank: map<Ref, nat>, setters: set<string>, r: Ref, value: Value)
    requires Ranked(d.nodes, rank) && r in d.nodes && d.nodes[r].kind == Tag(Button)
    ensures SetAttr(d, rank, setters, r, "value", value).delivered == d.delivered
    ensures SetAttr(d, rank, setters, r, "name", value).delivered == d.delivered
    ensures SetAttr(d, rank, setters, r, "value", value).nodes[r].proxy == d.nodes[r].proxy
    ensures SetAttr(d, rank, setters, r, "name", value).nodes[r].proxy == d.nodes[r].proxy
  {
    ObservedNamesFacts(Button);
    SetAttrUnobservedSilent(d, rank, setters, r, "value", value);
    SetAttrUnobservedSilent(d, rank, setters, r, "name", value);
  }

  /**
   * Setting an observed attribute of an active tag of a consistent tree to a new value
   * makes one proxy call and emits exactly one record `{id, 'update', name, value}`
   * when the tag's root is an Html node, and none otherwise.
   */
  lemma SetAttrOnActiveTag(d: Dom, rank: map<Ref, nat>, setters: set<string>, r: Ref, name: string, value: Value)
    requires Consistent(d.nodes, rank) && r in d.nodes && d.nodes[r].kind.Tag? && d.nodes[r].proxy.active
    requires name in ObservedNames(d.nodes[r].kind.cls) && d.nodes[r].attrs[name] != value
    ensures var d' := SetAttr(d, rank, setters, r, name, value);
      var root := RootOf(d.nodes, rank, r);
      var rec := Change(IdOf(d.nodes[r].(attrs := d.nodes[r].attrs[name := value])), Updated, name, value, None);
      && d'.nodes[r].attrs == d.nodes[r].attrs[name := value]
      && d'.nodes[r].proxy.calls == d.nodes[r].proxy.calls +
           [if name in setters then CallSetter(name, value) else CallSetAttribute(name, value)]
      && d'.delivered == d.delivered + (if IsHtml(d.nodes[root]) then [Delivery(root, rec)] else [])
  {
    var nodes1 := WithAttr(d.nodes, r, name, value);
    ShapeKeepsLinked(d.nodes, nodes1, rank);
    RootOfShape(d.nodes, nodes1, rank, r);
    UpdateProxyEffect(Dom(nodes1, d.delivered), rank, setters, r, AttrChange(Update, name, value));
  }

  /**
   * Renaming an active tag reports the NEW id: the `update` record for `id` is
   * built after the assignment, so it names the tag by an id the remote side
   * has not seen yet, and never by the old one.
   */
  lemma IdChangeReportsNewId(d: Dom, rank: map<Ref, nat>, setters: set<string>, r: Ref, newId: string)
    requires Consistent(d.nodes, rank) && r in d.nodes && d.nodes[r].kind.Tag? && d.nodes[r].proxy.active
    requires IsHtml(d.nodes[RootOf(d.nodes, rank, r)]) && IdOf(d.nodes[r]) != newId
    ensures var d' := SetAttr(d, rank, setters, r, "id", Str(newId));
      && |d'.delivered| == |d.delivered| + 1
      && d'.delivered[|d.delivered|].change == Change(newId, Updated, "id", Str(newId), None)
      && d'.delivered[|d.delivered|].change.id != IdOf(d.nodes[r])
  {
    ObservedNamesFacts(d.nodes[r].kind.cls);
    SetAttrOnActiveTag(d, rank, setters, r, "id", Str(newId));
  }

  /** Changing one tag's attributes or proxy, and nothing else, keeps the invariants it keeps locally. */
  lemma PointUpdateKeeps(nodes: map<Ref, Node>, nodes': map<Ref, Node>, rank: map<Ref, nat>, r: Ref, loose: set<Ref>)
    requires Consistent(nodes, rank) && r in nodes && SameShape(nodes, nodes')
    requires forall x :: x in nodes && x != r ==> nodes'[x] == nodes[x]
    requires nodes'[r].proxy.active == nodes[r].proxy.active
    requires nodes[r].kind.Tag? ==>
      ObservedNames(nodes[r].kind.cls) <= nodes'[r].attrs.Keys && nodes'[r].attrs["id"].Str?
    requires nodes[r].kind.Tag? && nodes[r].proxy.active ==>
      nodes'[r].proxy.view == Restrict(nodes'[r].attrs, ObservedNames(nodes[r].kind.cls))
    ensures Consistent(nodes', rank)
    ensures ActiveClosed(nodes, loose) ==> ActiveClosed(nodes', loose)
  {
    ShapeKeepsLinked(nodes, nodes', rank);
    assert TagsComplete(nodes') by {
      forall x | x in nodes' && nodes'[x].kind.Tag?
        ensures ObservedNames(nodes'[x].kind.cls) <= nodes'[x].attrs.Keys && nodes'[x].attrs["id"].Str?
      {
        if x != r { assert nodes'[x] == nodes[x]; }
      }
    }
    assert InSync(nodes') by {
      forall x | x in nodes' && nodes'[x].kind.Tag? && nodes'[x].proxy.active
        ensures nodes'[x].proxy.view == Restrict(nodes'[x].attrs, ObservedNames(nodes'[x].kind.cls))
      {
        if x != r { assert nodes'[x] == nodes[x]; }
      }
    }
    if ActiveClosed(nodes, loose) {
      forall x | x in nodes' && x !in loose && nodes'[x].kind.Tag? && nodes'[x].parent.Some? &&
                 nodes'[x].parent.value in nodes' && nodes'[nodes'[x].parent.value].kind.Tag? &&
                 nodes'[nodes'[x].parent.value].proxy.active
        ensures nodes'[x].proxy.active
      {
        var q := nodes'[x].parent.value;
        assert nodes[q].proxy.active == nodes'[q].proxy.active by {
          if q != r { assert nodes'[q] == nodes[q]; }
        }
        if x != r { assert nodes'[x] == nodes[x]; }
      }
    }
  }

  /** The effect of an attribute assignment, as `SetAttrAttrs` states it, keeps the invariants. */
  lemma AttrUpdateKeeps(nodes: map<Ref, Node>, nodes': map<Ref, Node>, rank: map<Ref, nat>, r: Ref,
                        name: string, value: Value, loose: set<Ref>)
    requires Consistent(nodes, rank) && r in nodes && nodes[r].kind.Tag? && SameShape(nodes, nodes')
    requires name == "id" ==> value.Str?
    requires nodes'[r].attrs == nodes[r].attrs[name := value]
    requires forall x :: x in nodes && x != r ==> nodes'[x] == nodes[x]
    requires nodes'[r].proxy.active == nodes[r].proxy.active
    requires nodes'[r].proxy.view ==
      if nodes[r].proxy.active && name in ObservedNames(nodes[r].kind.cls) &&
         name in nodes[r].attrs && nodes[r].attrs[name] != value
      then nodes[r].proxy.view[name := value] else nodes[r].proxy.view
    ensures Consistent(nodes', rank)
    ensures ActiveClosed(nodes, loose) ==> ActiveClosed(nodes', loose)
  {
    var n := nodes[r];
    var O := ObservedNames(n.kind.cls);
    var n' := nodes'[r];
    assert TagsComplete(nodes);
    if n.proxy.active {
      assert n.proxy.view == Restrict(n.attrs, O);
      if name in O && n.attrs[name] != value {
        assert n'.proxy.view == Restrict(n'.attrs, O);
      } else if name !in O {
        assert Restrict(n'.attrs, O) == Restrict(n.attrs, O);
      } else {
        assert n'.attrs == n.attrs;
      }
    }
    PointUpdateKeeps(nodes, nodes', rank, r, loose);
  }

  /** Assigning an attribute keeps the tree consistent and keeps activity closed. */
  lemma SetAttrKeeps(d: Dom, rank: map<Ref, nat>, setters: set<string>, r: Ref, name: string, value: Value, loose: set<Ref>)
    requires Consistent(d.nodes, rank) && r in d.nodes && d.nodes[r].kind.Tag?
    requires name == "id" ==> value.Str?
    ensures var d' := SetAttr(d, rank, setters, r, name, value);
      Consistent(d'.nodes, rank) && (ActiveClosed(d.nodes, loose) ==> ActiveClosed(d'.nodes, loose))
  {
    SetAttrAttrs(d, rank, setters, r, name, value);
    AttrUpdateKeeps(d.nodes, SetAttr(d, rank, setters, r, name, value).nodes, rank, r, name, value, loose);
  }

  /** The `setattr` loop keeps the tree consistent and keeps activity closed. */
  lemma {:induction false} SetAllKeeps(d: Dom, rank: map<Ref, nat>, setters: set<string>, r: Ref, kwargs: seq<(string, Value)>, loose: set<Ref>)
    requires Consistent(d.nodes, rank) && r in d.nodes && d.nodes[r].kind.Tag?
    requires forall i :: 0 <= i < |kwargs| && kwargs[i].0 == "id" ==> kwargs[i].1.Str?
    ensures var d' := SetAll(d, rank, setters, r, kwargs);
      Consistent(d'.nodes, rank) && (ActiveClosed(d.nodes, loose) ==> ActiveClosed(d'.nodes, loose))
      && d'.nodes[r].initialized == d.nodes[r].initialized
      && d'.nodes[r].proxy.active == d.nodes[r].proxy.active
    decreases |kwargs|
  {
    if kwargs != [] {
      var d1 := SetAll(d, rank, setters, r, kwargs[..|kwargs| - 1]);
      SetAllKeeps(d, rank, setters, r, kwargs[..|kwargs| - 1], loose);
      var (name, value) := kwargs[|kwargs| - 1];
      SetAttrKeeps(d1, rank, setters, r, name, value, loose);
      SetAttrAttrs(d1, rank, setters, r, name, value);
    }
  }

  /** One more keyword argument is one more assignment. */
  lemma SetAllStep(d: Dom, rank: map<Ref, nat>, setters: set<string>, r: Ref, kwargs: seq<(string, Value)>, i: nat)
    requires Ranked(d.nodes, rank) && r in d.nodes && d.nodes[r].kind.Tag? && i < |kwargs|
    ensures var d1 := SetAll(d, rank, setters, r, kwargs[..i]);
      Ranked(d1.nodes, rank) && r in d1.nodes && d1.nodes[r].kind.Tag? &&
      SetAll(d, rank, setters, r, kwargs[..i + 1]) == SetAttr(d1, rank, setters, r, kwargs[i].0, kwargs[i].1)
  {
    assert kwargs[..i + 1][..i] == kwargs[..i];
    ShapeKeepsLinked(d.nodes, SetAll(d, rank, setters, r, kwargs[..i]).nodes, rank);
  }

  /** After the loop, each keyword argument holds (keyword names are distinct). */
  lemma {:induction false} SetAllAssigns(d: Dom, rank: map<Ref, nat>, setters: set<string>, r: Ref, kwargs: seq<(string, Value)>)
    requires Ranked(d.nodes, rank) && r in d.nodes && d.nodes[r].kind.Tag?
    requires forall i, j :: 0 <= i < j < |kwargs| ==> kwargs[i].0 != kwargs[j].0
    ensures var a := SetAll(d, rank, setters, r, kwargs).nodes[r].attrs;
      forall i :: 0 <= i < |kwargs| ==> kwargs[i].0 in a && a[kwargs[i].0] == kwargs[i].1
    decreases |kwargs|
  {
    if kwargs != [] {
      var d1 := SetAll(d, rank, setters, r, kwargs[..|kwargs| - 1]);
      var init := kwargs[..|kwargs| - 1];
      SetAllAssigns(d, rank, setters, r, init);
      ShapeKeepsLinked(d.nodes, d1.nodes, rank);
      var (name, value) := kwargs[|kwargs| - 1];
      SetAttrAttrs(d1, rank, setters, r, name, value);
      var a1 := d1.nodes[r].attrs;
      var a := SetAll(d, rank, setters, r, kwargs).nodes[r].attrs;
      assert a == a1[name := value];
      forall i | 0 <= i < |kwargs|
        ensures kwargs[i].0 in a && a[kwargs[i].0] == kwargs[i].1
      {
        if i < |kwargs| - 1 {
          assert init[i] == kwargs[i];
          assert kwargs[i].0 != name;
        }
      }
    }
  }

  /** Assigning values an attribute already holds changes nothing and emits nothing. */
  lemma {:induction false} SetAllUnchanged(d: Dom, rank: map<Ref, nat>, setters: set<string>, r: Ref, kwargs: seq<(string, Value)>)
    requires Ranked(d.nodes, rank) && r in d.nodes && d.nodes[r].kind.Tag?
    requires forall i :: 0 <= i < |kwargs| ==> kwargs[i].0 in d.nodes[r].attrs && d.nodes[r].attrs[kwargs[i].0] == kwargs[i].1
    ensures SetAll(d, rank, setters, r, kwargs) == d
    decreases |kwargs|
  {
    if kwargs != [] {
      SetAllUnchanged(d, rank, setters, r, kwargs[..|kwargs| - 1]);
      var (name, value) := kwargs[|kwargs| - 1];
      var n := d.nodes[r];
      assert n.attrs[name := value] == n.attrs;
      assert n.(attrs := n.attrs[name := value]) == n;
      assert d.nodes[r := n] == d.nodes;
    }
  }

  // ---------------------------------------------------------------------------
  // Activation
  // ---------------------------------------------------------------------------

  /** Initialisation changes only the `initialized` flags. */
  lemma InitializeKeeps(nodes: map<Ref, Node>, rank: map<Ref, nat>, top: Ref, loose: set<Ref>)
    requires Consistent(nodes, rank) && top in nodes
    ensures var nodes' := Initialize(nodes, rank, top);
      && Consistent(nodes', rank)
      && (ActiveClosed(nodes, loose) ==> ActiveClosed(nodes', loose))
      && nodes'[top].initialized
      && forall x :: x in nodes ==> nodes'[x].attrs == nodes[x].attrs && nodes'[x].proxy == nodes[x].proxy
  {
    var nodes' := Initialize(nodes, rank, top);
    ShapeKeepsLinked(nodes, nodes', rank);
    assert SameContent(nodes, nodes');
    ContentKeepsTags(nodes, nodes');
    ContentKeepsClosed(nodes, nodes', loose);
    assert Below(nodes, rank, top, top, false);
  }

  /**
   * Activating `top` activates it and every Tag under it, each showing its observed
   * attributes: the tree stays consistent, and a tree in which only `top` may be
   * inactive under an active parent becomes closed under activity.
   */
  lemma ActivateKeeps(nodes: map<Ref, Node>, rank: map<Ref, nat>, top: Ref)
    requires Consistent(nodes, rank) && top in nodes && nodes[top].kind.Tag?
    ensures var nodes' := Activate(nodes, rank, top);
      && Consistent(nodes', rank)
      && (ActiveClosed(nodes, {top}) ==> ActiveClosed(nodes', {}))
      && nodes'[top].proxy.active
      && (forall x :: x in nodes ==> nodes'[x].attrs == nodes[x].attrs && nodes'[x].initialized == nodes[x].initialized)
      && (forall x :: x in nodes ==>
            nodes'[x].proxy.active == (nodes[x].proxy.active || (nodes[x].kind.Tag? && Below(nodes, rank, x, top, true))))
      && (forall x :: x in nodes && !(nodes[x].kind.Tag? && Below(nodes, rank, x, top, true)) ==> nodes'[x] == nodes[x])
  {
    var nodes' := Activate(nodes, rank, top);
    ShapeKeepsLinked(nodes, nodes', rank);
    forall x | x in nodes
      ensures nodes'[x].kind == nodes[x].kind && nodes'[x].attrs == nodes[x].attrs
      ensures nodes'[x].initialized == nodes[x].initialized
      ensures nodes'[x].proxy.active == (nodes[x].proxy.active || (nodes[x].kind.Tag? && Below(nodes, rank, x, top, true)))
      ensures nodes'[x].kind.Tag? && nodes'[x].proxy.active ==>
        nodes'[x].proxy.view == Restrict(nodes'[x].attrs, ObservedNames(nodes'[x].kind.cls))
    {
      if !(nodes[x].kind.Tag? && Below(nodes, rank, x, top, true)) {
        assert nodes'[x] == nodes[x];
      }
    }
    assert TagsComplete(nodes');
    assert InSync(nodes');
    assert nodes'[top].proxy.active by { assert Below(nodes, rank, top, top, true); }
    if ActiveClosed(nodes, {top}) {
      ActivateCloses(nodes, nodes', rank, top);
    }
  }

  lemma ActivateCloses(nodes: map<Ref, Node>, nodes': map<Ref, Node>, rank: map<Ref, nat>, top: Ref)
    requires Ranked(nodes, rank) && ActiveClosed(nodes, {top}) && SameShape(nodes, nodes')
    requires forall x :: x in nodes ==>
      nodes'[x].proxy.active == (nodes[x].proxy.active || (nodes[x].kind.Tag? && Below(nodes, rank, x, top, true)))
    ensures ActiveClosed(nodes', {})
  {
    forall x | x in nodes' && nodes'[x].kind.Tag? && nodes'[x].parent.Some? &&
               nodes'[x].parent.value in nodes' && nodes'[nodes'[x].parent.value].kind.Tag? &&
               nodes'[nodes'[x].parent.value].proxy.active
      ensures nodes'[x].proxy.active
    {
      var q := nodes[x].parent.value;
      if x == top {
        assert Below(nodes, rank, x, top, true);
      } else if nodes[q].proxy.active {
        assert nodes[x].proxy.active;
      } else {
        assert Below(nodes, rank, q, top, true);
        assert Below(nodes, rank, x, top, true);
      }
    }
  }

  /** After `prepare`, the tag is initialised and its proxy is active. */
  lemma PrepareActivates(d: Dom, rank: map<Ref, nat>, setters: set<string>, r: Ref, kwargs: seq<(string, Value)>)
    requires Ranked(d.nodes, rank) && r in d.nodes && d.nodes[r].kind.Tag?
    ensures var d' := Prepare(d, rank, setters, r, kwargs);
      d'.nodes[r].initialized && d'.nodes[r].proxy.active
  {
    var d1 := SetAll(d, rank, setters, r, kwargs);
    ShapeKeepsLinked(d.nodes, d1.nodes, rank);
    ReadyActivates(d1.nodes, rank, r);
  }

  lemma ReadyActivates(nodes: map<Ref, Node>, rank: map<Ref, nat>, r: Ref)
    requires Ranked(nodes, rank) && r in nodes && nodes[r].kind.Tag?
    ensures Ready(nodes, rank, r)[r].initialized && Ready(nodes, rank, r)[r].proxy.active
  {
    var n2 := if !nodes[r].initialized then Initialize(nodes, rank, r) else nodes;
    assert n2[r].initialized by { assert Below(nodes, rank, r, r, false); }
    ShapeKeepsLinked(nodes, n2, rank);
    assert Below(n2, rank, r, r, true);
  }

  /**
   * `prepare` keeps the tree consistent, and closes activity over a tree in which
   * only the prepared tag may be inactive under an active parent.
   */
  lemma PrepareKeeps(d: Dom, rank: map<Ref, nat>, setters: set<string>, r: Ref, kwargs: seq<(string, Value)>)
    requires Consistent(d.nodes, rank) && r in d.nodes && d.nodes[r].kind.Tag?
    requires forall i :: 0 <= i < |kwargs| && kwargs[i].0 == "id" ==> kwargs[i].1.Str?
    ensures var d' := Prepare(d, rank, setters, r, kwargs);
      && Consistent(d'.nodes, rank) && (ActiveClosed(d.nodes, {r}) ==> ActiveClosed(d'.nodes, {}))
      && forall x :: x in d.nodes && !(d.nodes[x].kind.Tag? && Below(d.nodes, rank, x, r, true)) ==>
           d'.nodes[x].proxy == d.nodes[x].proxy
  {
    var d1 := SetAll(d, rank, setters, r, kwargs);
    SetAllKeeps(d, rank, setters, r, kwargs, {r});
    SetAllFrame(d, rank, setters, r, kwargs);
    ShapeKeepsLinked(d.nodes, d1.nodes, rank);
    var n2 := if !d1.nodes[r].initialized then Initialize(d1.nodes, rank, r) else d1.nodes;
    if !d1.nodes[r].initialized { InitializeKeeps(d1.nodes, rank, r, {r}); }
    ShapeKeepsLinked(d1.nodes, n2, rank);
    if !n2[r].proxy.active {
      ActivateKeeps(n2, rank, r);
      forall x | x in d.nodes && !(d.nodes[x].kind.Tag? && Below(d.nodes, rank, x, r, true))
        ensures Activate(n2, rank, r)[x].proxy == d.nodes[x].proxy
      {
        BelowShape(d.nodes, n2, rank, x, r, true);
        assert x != r by { assert Below(d.nodes, rank, r, r, true); }
      }
    } else {
      assert ActiveClosed(d1.nodes, {r}) ==> ActiveClosed(n2, {});
      forall x | x in d.nodes && !(d.nodes[x].kind.Tag? && Below(d.nodes, rank, x, r, true))
        ensures n2[x].proxy == d.nodes[x].proxy
      {
        assert x != r by { assert Below(d.nodes, rank, r, r, true); }
      }
    }
  }

  /** The `setattr` loop changes no node but the assigned tag. */
  lemma {:induction false} SetAllFrame(d: Dom, rank: map<Ref, nat>, setters: set<string>, r: Ref, kwargs: seq<(string, Value)>)
    requires Ranked(d.nodes, rank) && r in d.nodes && d.nodes[r].kind.Tag?
    ensures var d' := SetAll(d, rank, setters, r, kwargs);
      forall x :: x in d.nodes && x != r ==> d'.nodes[x] == d.nodes[x]
    decreases |kwargs|
  {
    if kwargs != [] {
      var d1 := SetAll(d, rank, setters, r, kwargs[..|kwargs| - 1]);
      SetAllFrame(d, rank, setters, r, kwargs[..|kwargs| - 1]);
      ShapeKeepsLinked(d.nodes, d1.nodes, rank);
      SetAttrAttrs(d1, rank, setters, r, kwargs[|kwargs| - 1].0, kwargs[|kwargs| - 1].1);
    }
  }

  /**
   * `prepare` is idempotent: preparing again with the same keyword arguments
   * assigns nothing new, initialises and activates nothing, and emits no record.
   */
  lemma PrepareIdempotent(d: Dom, rank: map<Ref, nat>, setters: set<string>, r: Ref, kwargs: seq<(string, Value)>)
    requires Ranked(d.nodes, rank) && r in d.nodes && d.nodes[r].kind.Tag?
    requires forall i, j :: 0 <= i < j < |kwargs| ==> kwargs[i].0 != kwargs[j].0
    ensures var d' := Prepare(d, rank, setters, r, kwargs);
      Ranked(d'.nodes, rank) && Prepare(d', rank, setters, r, kwargs) == d'
  {
    var d' := Prepare(d, rank, setters, r, kwargs);
    ShapeKeepsLinked(d.nodes, d'.nodes, rank);
    var d1 := SetAll(d, rank, setters, r, kwargs);
    ShapeKeepsLinked(d.nodes, d1.nodes, rank);
    SetAllAssigns(d, rank, setters, r, kwargs);
    var n2 := if !d1.nodes[r].initialized then Initialize(d1.nodes, rank, r) else d1.nodes;
    ShapeKeepsLinked(d1.nodes, n2, rank);
    assert n2[r].attrs == d1.nodes[r].attrs;
    assert d'.nodes[r].attrs == d1.nodes[r].attrs;
    SetAllUnchanged(d', rank, setters, r, kwargs);
    PrepareActivates(d, rank, setters, r, kwargs);
  }

  // ---------------------------------------------------------------------------
  // Children
  // ---------------------------------------------------------------------------

  /** Same kinds, attributes and proxies. */
  ghost predicate SameContent(nodes: map<Ref, Node>, nodes': map<Ref, Node>) {
    nodes'.Keys == nodes.Keys &&
    forall x :: x in nodes ==>
      nodes'[x].kind == nodes[x].kind && nodes'[x].attrs == nodes[x].attrs && nodes'[x].proxy == nodes[x].proxy
  }

  lemma ContentKeepsTags(nodes: map<Ref, Node>, nodes': map<Ref, Node>)
    requires SameContent(nodes, nodes')
    ensures TagsComplete(nodes) ==> TagsComplete(nodes')
    ensures InSync(nodes) ==> InSync(nodes')
  {
  }

  /** Attaching a detached node under `p` keeps parent links, children and ranks in agreement. */
  lemma InsertLinked(nodes: map<Ref, Node>, rank: map<Ref, nat>, p: Ref, k: nat, c: Ref)
    requires Linked(nodes, rank) && p in nodes && c in nodes && p != c
    requires nodes[c].parent.None? && RootOf(nodes, rank, p) != c && k <= |nodes[p].children|
    ensures var nodes' := AfterInsert(nodes, p, k, c);
      && Linked(nodes', InsertedRank(nodes, rank, p, c))
      && SameContent(nodes, nodes')
      && c in nodes'[p].children
      && (ActiveClosed(nodes, {}) ==> ActiveClosed(nodes', {c}))
  {
    var nodes' := AfterInsert(nodes, p, k, c);
    var ch := nodes[p].children;
    assert c !in ch;
    InsertAtFacts(ch, k, c);
    AfterInsertShape(nodes, p, k, c);
    InsertRanked(nodes, rank, p, k, c);
    ReattachLinks(nodes, nodes', rank, InsertedRank(nodes, rank, p, c), p, c, ch[..k] + [c] + ch[k..]);
    if ActiveClosed(nodes, {}) {
      AttachCloses(nodes, nodes', c);
    }
  }

  /** Attaching `c` can only leave `c` itself inactive under an active parent. */
  lemma AttachCloses(nodes: map<Ref, Node>, nodes': map<Ref, Node>, c: Ref)
    requires ActiveClosed(nodes, {}) && SameContent(nodes, nodes')
    requires forall x :: x in nodes && x != c ==> nodes'[x].parent == nodes[x].parent
    ensures ActiveClosed(nodes', {c})
  {
    forall x | x in nodes' && x != c && nodes'[x].kind.Tag? && nodes'[x].parent.Some? &&
               nodes'[x].parent.value in nodes' && nodes'[nodes'[x].parent.value].kind.Tag? &&
               nodes'[nodes'[x].parent.value].proxy.active
      ensures nodes'[x].proxy.active
    {
      assert nodes'[x].parent == nodes[x].parent;
    }
  }

  /** After attaching, the tree is consistent and only `c` may be inactive under an active parent. */
  lemma InsertReady(nodes: map<Ref, Node>, rank: map<Ref, nat>, p: Ref, k: nat, c: Ref)
    requires Consistent(nodes, rank) && ActiveClosed(nodes, {}) && p in nodes && c in nodes && p != c
    requires nodes[c].parent.None? && RootOf(nodes, rank, p) != c && k <= |nodes[p].children|
    ensures var nodes' := AfterInsert(nodes, p, k, c);
      && Consistent(nodes', InsertedRank(nodes, rank, p, c)) && ActiveClosed(nodes', {c})
      && nodes'.Keys == nodes.Keys && c in nodes'[p].children
  {
    InsertLinked(nodes, rank, p, k, c);
    ContentKeepsTags(nodes, AfterInsert(nodes, p, k, c));
  }

  lemma InsertRanked(nodes: map<Ref, Node>, rank: map<Ref, nat>, p: Ref, k: nat, c: Ref)
    requires Ranked(nodes, rank) && p in nodes && c in nodes && p != c
    requires nodes[c].parent.None? && RootOf(nodes, rank, p) != c && k <= |nodes[p].children|
    ensures Ranked(AfterInsert(nodes, p, k, c), InsertedRank(nodes, rank, p, c))
  {
    var nodes' := AfterInsert(nodes, p, k, c);
    var rank' := InsertedRank(nodes, rank, p, c);
    forall x | x in nodes' && nodes'[x].parent.Some?
      ensures nodes'[x].parent.value in nodes' && rank'[nodes'[x].parent.value] < rank'[x]
    {
      if x == c {
        assert RootOf(nodes, rank, c) == c;
      } else {
        assert nodes'[x].parent == nodes[x].parent;
        RootOfParent(nodes, rank, x);
      }
    }
  }

  /** What `AfterInsert` changes: the children of `p` and the parent of `c`. */
  lemma AfterInsertShape(nodes: map<Ref, Node>, p: Ref, k: nat, c: Ref)
    requires p in nodes && c in nodes && p != c && k <= |nodes[p].children|
    ensures var nodes' := AfterInsert(nodes, p, k, c); var ch := nodes[p].children;
      && nodes'.Keys == nodes.Keys && SameContent(nodes, nodes')
      && forall x :: x in nodes ==>
        && nodes'[x].children == (if x == p then ch[..k] + [c] + ch[k..] else nodes[x].children)
        && nodes'[x].parent == (if x == c then Some(p) else nodes[x].parent)
  {
  }

  /** The link invariants after `c` is attached to `p`, whose children become `newch`. */
  lemma ReattachLinks(nodes: map<Ref, Node>, nodes': map<Ref, Node>, rank: map<Ref, nat>, rank': map<Ref, nat>,
                      p: Ref, c: Ref, newch: seq<Ref>)
    requires Linked(nodes, rank) && Ranked(nodes', rank') && p in nodes && c in nodes && p != c
    requires nodes[c].parent.None? && nodes'.Keys == nodes.Keys
    requires forall x :: x in nodes ==>
      && nodes'[x].children == (if x == p then newch else nodes[x].children)
      && nodes'[x].parent == (if x == c then Some(p) else nodes[x].parent)
    requires Distinct(newch) && forall y :: y in newch <==> y in nodes[p].children || y == c
    ensures Linked(nodes', rank')
  {
    ReattachParents(nodes, nodes', p, c, newch);
    ReattachChildren(nodes, nodes', p, c, newch);
    assert ChildrenDistinct(nodes');
  }

  lemma ReattachParents(nodes: map<Ref, Node>, nodes': map<Ref, Node>, p: Ref, c: Ref, newch: seq<Ref>)
    requires ParentsList(nodes) && p in nodes && c in nodes && nodes'.Keys == nodes.Keys
    requires forall x :: x in nodes ==>
      && nodes'[x].children == (if x == p then newch else nodes[x].children)
      && nodes'[x].parent == (if x == c then Some(p) else nodes[x].parent)
    requires forall y :: y in newch <==> y in nodes[p].children || y == c
    ensures ParentsList(nodes')
  {
    forall x | x in nodes' && nodes'[x].parent.Some?
      ensures x in nodes'[nodes'[x].parent.value].children
    {
      if x != c {
        var q := nodes[x].parent.value;
        assert x in nodes[q].children;
      }
    }
  }

  lemma ReattachChildren(nodes: map<Ref, Node>, nodes': map<Ref, Node>, p: Ref, c: Ref, newch: seq<Ref>)
    requires ChildrenPoint(nodes) && p in nodes && c in nodes && p != c && nodes[c].parent.None?
    requires nodes'.Keys == nodes.Keys
    requires forall x :: x in nodes ==>
      && nodes'[x].children == (if x == p then newch else nodes[x].children)
      && nodes'[x].parent == (if x == c then Some(p) else nodes[x].parent)
    requires forall y :: y in newch <==> y in nodes[p].children || y == c
    ensures ChildrenPoint(nodes')
  {
    forall x, y | x in nodes' && y in nodes'[x].children
      ensures y in nodes' && nodes'[y].parent == Some(x)
    {
      if y != c {
        assert y in nodes[x].children;
      }
    }
  }

  /** `child_added` changes the tree only by preparing the added Tag. */
  lemma ChildAddedNodes(d: Dom, rank: map<Ref, nat>, b: Backend, p: Ref, c: Ref)
    requires Linked(d.nodes, rank) && p in d.nodes && c in d.nodes[p].children
    ensures c in d.nodes
    ensures ChildAdded(d, rank, b, p, c).nodes ==
      if d.nodes[p].kind.Tag? && d.nodes[c].kind.Tag? && d.nodes[p].proxy.active
      then Prepare(d, rank, SettersOf(b, d.nodes[c]), c, []).nodes else d.nodes
  {
    assert d.nodes[c].parent == Some(p);
  }

  /** The children of a node are nodes. */
  lemma ChildrenAreNodes(nodes: map<Ref, Node>, rank: map<Ref, nat>, p: Ref)
    requires Linked(nodes, rank) && p in nodes
    ensures forall x :: x in nodes[p].children ==> x in nodes
  {
  }

  /** A child that `child_added` leaves alone cannot break activity closure. */
  lemma ClosedUnderInactiveParent(nodes: map<Ref, Node>, rank: map<Ref, nat>, p: Ref, c: Ref)
    requires Linked(nodes, rank) && ActiveClosed(nodes, {c}) && p in nodes && c in nodes[p].children
    requires !(nodes[p].kind.Tag? && nodes[c].kind.Tag? && nodes[p].proxy.active)
    ensures ActiveClosed(nodes, {})
  {
    assert nodes[c].parent == Some(p);
  }

  /**
   * Inserting a detached node keeps the tree consistent and closed under activity:
   * a Tag added to an active Tag is rendered, hence activated.
   */
  lemma InsertKeeps(d: Dom, rank: map<Ref, nat>, b: Backend, p: Ref, k: nat, c: Ref)
    requires Consistent(d.nodes, rank) && ActiveClosed(d.nodes, {}) && p in d.nodes && c in d.nodes && p != c
    requires d.nodes[c].parent.None? && RootOf(d.nodes, rank, p) != c && k <= |d.nodes[p].children|
    ensures var rank' := InsertedRank(d.nodes, rank, p, c);
      var nodes1 := AfterInsert(d.nodes, p, k, c);
      Linked(nodes1, rank') && c in nodes1[p].children &&
      var d' := ChildAdded(Dom(nodes1, d.delivered), rank', b, p, c);
      Consistent(d'.nodes, rank') && ActiveClosed(d'.nodes, {})
  {
    var rank' := InsertedRank(d.nodes, rank, p, c);
    var nodes1 := AfterInsert(d.nodes, p, k, c);
    InsertLinked(d.nodes, rank, p, k, c);
    ContentKeepsTags(d.nodes, nodes1);
    assert Consistent(nodes1, rank');
    var d1 := Dom(nodes1, d.delivered);
    ChildAddedNodes(d1, rank', b, p, c);
    var P := nodes1[p];
    assert nodes1[c].parent == Some(p);
    if P.kind.Tag? && nodes1[c].kind.Tag? && P.proxy.active {
      PrepareKeeps(d1, rank', SettersOf(b, nodes1[c]), c, []);
    } else {
      assert ActiveClosed(nodes1, {});
    }
  }

  /** Reordering `p`'s children, keeping the same members, keeps the links. */
  lemma ReorderLinks(nodes: map<Ref, Node>, nodes': map<Ref, Node>, rank: map<Ref, nat>, p: Ref, newch: seq<Ref>)
    requires Linked(nodes, rank) && p in nodes
    requires nodes'.Keys == nodes.Keys
    requires forall x :: x in nodes ==>
      nodes'[x] == if x == p then nodes[x].(children := newch) else nodes[x]
    requires Distinct(newch) && forall y :: y in newch <==> y in nodes[p].children
    ensures Linked(nodes', rank) && SameContent(nodes, nodes')
    ensures forall x :: x in nodes ==> nodes'[x].parent == nodes[x].parent
  {
    forall x | x in nodes' && nodes'[x].parent.Some?
      ensures x in nodes'[nodes'[x].parent.value].children
    {
      assert x in nodes[nodes[x].parent.value].children;
    }
    forall x, y | x in nodes' && y in nodes'[x].children
      ensures y in nodes' && nodes'[y].parent == Some(x)
    {
      assert y in nodes[x].children;
    }
  }

  /** `child_moved` changes the tree only by logging the call on the parent's proxy. */
  lemma ChildMovedNodes(d: Dom, rank: map<Ref, nat>, p: Ref, c: Ref, accepted: bool)
    requires Linked(d.nodes, rank) && p in d.nodes && c in d.nodes[p].children
    ensures c in d.nodes
    ensures var P := d.nodes[p];
      ChildMoved(d, rank, p, c, accepted).nodes ==
      if P.kind.Tag? && d.nodes[c].kind.Tag? && P.proxy.active
      then d.nodes[p := P.(proxy := P.proxy.(calls := P.proxy.calls + [CallChildMoved(c)]))] else d.nodes
  {
    var P := d.nodes[p];
    if P.kind.Tag? && d.nodes[c].kind.Tag? && P.proxy.active {
      var nodes1 := WithProxy(d.nodes, p, P.proxy.(calls := P.proxy.calls + [CallChildMoved(c)]));
      ShapeKeepsLinked(d.nodes, nodes1, rank);
    }
  }

  lemma MoveLinked(nodes: map<Ref, Node>, rank: map<Ref, nat>, p: Ref, c: Ref, k: nat)
    requires Linked(nodes, rank) && p in nodes && c in nodes[p].children && k < |nodes[p].children|
    ensures var nodes' := AfterMove(nodes, p, c, k);
      && Linked(nodes', rank) && SameContent(nodes, nodes') && c in nodes'[p].children
      && forall x :: x in nodes ==> nodes'[x].parent == nodes[x].parent
  {
    var ch := nodes[p].children;
    WithoutFacts(ch, c);
    var rest := Without(ch, c);
    InsertAtFacts(rest, k, c);
    var newch := rest[..k] + [c] + rest[k..];
    var nodes' := AfterMove(nodes, p, c, k);
    assert nodes' == nodes[p := nodes[p].(children := newch)];
    ReorderLinks(nodes, nodes', rank, p, newch);
  }

  /** Activity closure depends only on kinds, parents and proxies; detaching keeps it. */
  lemma ContentKeepsClosed(nodes: map<Ref, Node>, nodes': map<Ref, Node>, loose: set<Ref>)
    requires SameContent(nodes, nodes')
    requires forall x :: x in nodes ==> nodes'[x].parent == nodes[x].parent || nodes'[x].parent.None?
    ensures ActiveClosed(nodes, loose) ==> ActiveClosed(nodes', loose)
  {
  }

  /** Reordering a parent's children keeps the tree consistent and closed under activity. */
  lemma MoveKeeps(d: Dom, rank: map<Ref, nat>, p: Ref, c: Ref, k: nat, accepted: bool)
    requires Consistent(d.nodes, rank) && ActiveClosed(d.nodes, {}) && p in d.nodes
    requires c in d.nodes[p].children && k < |d.nodes[p].children|
    ensures var nodes1 := AfterMove(d.nodes, p, c, k);
      Linked(nodes1, rank) && c in nodes1[p].children &&
      var d' := ChildMoved(Dom(nodes1, d.delivered), rank, p, c, accepted);
      Consistent(d'.nodes, rank) && ActiveClosed(d'.nodes, {}) && d'.nodes.Keys == d.nodes.Keys
  {
    var nodes1 := AfterMove(d.nodes, p, c, k);
    MoveLinked(d.nodes, rank, p, c, k);
    ContentKeepsTags(d.nodes, nodes1);
    ContentKeepsClosed(d.nodes, nodes1, {});
    ChildMovedNodes(Dom(nodes1, d.delivered), rank, p, c, accepted);
    if nodes1[p].kind.Tag? && nodes1[c].kind.Tag? && nodes1[p].proxy.active {
      LogCallKeeps(nodes1, rank, p, CallChildMoved(c));
    }
  }

  /** Logging a call on a proxy keeps the invariants. */
  lemma LogCallKeeps(nodes: map<Ref, Node>, rank: map<Ref, nat>, p: Ref, call: ProxyCall)
    requires Consistent(nodes, rank) && ActiveClosed(nodes, {}) && p in nodes
    ensures var P := nodes[p];
      var nodes' := nodes[p := P.(proxy := P.proxy.(calls := P.proxy.calls + [call]))];
      Consistent(nodes', rank) && ActiveClosed(nodes', {})
  {
    var P := nodes[p];
    PointUpdateKeeps(nodes, nodes[p := P.(proxy := P.proxy.(calls := P.proxy.calls + [call]))], rank, p, {});
  }

  lemma RemoveLinked(nodes: map<Ref, Node>, rank: map<Ref, nat>, p: Ref, c: Ref)
    requires Linked(nodes, rank) && p in nodes && c in nodes[p].children
    ensures c in nodes && p != c
    ensures var nodes' := AfterRemove(nodes, p, c);
      && Linked(nodes', rank) && SameContent(nodes, nodes')
      && nodes'[c].parent.None? && c !in nodes'[p].children
      && forall x :: x in nodes ==> nodes'[x].parent == nodes[x].parent || nodes'[x].parent.None?
  {
    assert nodes[c].parent == Some(p);
    var ch := nodes[p].children;
    WithoutFacts(ch, c);
    var nodes' := AfterRemove(nodes, p, c);
    DetachLinks(nodes, nodes', rank, p, c, Without(ch, c));
  }

  /** The link invariants after `c` leaves `p`, whose children become `newch`. */
  lemma DetachLinks(nodes: map<Ref, Node>, nodes': map<Ref, Node>, rank: map<Ref, nat>, p: Ref, c: Ref, newch: seq<Ref>)
    requires Linked(nodes, rank) && p in nodes && c in nodes && p != c && nodes[c].parent == Some(p)
    requires nodes'.Keys == nodes.Keys
    requires forall x :: x in nodes ==>
      && nodes'[x].kind == nodes[x].kind && nodes'[x].attrs == nodes[x].attrs && nodes'[x].proxy == nodes[x].proxy
      && nodes'[x].children == (if x == p then newch else nodes[x].children)
      && nodes'[x].parent == (if x == c then None else nodes[x].parent)
    requires Distinct(newch) && forall y :: y in newch <==> y in nodes[p].children && y != c
    ensures Linked(nodes', rank) && SameContent(nodes, nodes')
  {
    assert Ranked(nodes', rank) by {
      forall x | x in nodes' && nodes'[x].parent.Some?
        ensures nodes'[x].parent.value in nodes' && rank[nodes'[x].parent.value] < rank[x]
      {
        assert nodes'[x].parent == nodes[x].parent;
      }
    }
    forall x | x in nodes' && nodes'[x].parent.Some?
      ensures x in nodes'[nodes'[x].parent.value].children
    {
      var q := nodes[x].parent.value;
      assert x != c && nodes'[x].parent == Some(q);
      assert x in nodes[q].children;
      if q == p { assert x in newch; }
    }
    forall x, y | x in nodes' && y in nodes'[x].children
      ensures y in nodes' && nodes'[y].parent == Some(x)
    {
      if x == p {
        assert y in newch && y != c;
      } else {
        assert y in nodes[x].children;
        assert y != c;
      }
    }
    forall x | x in nodes'
      ensures Distinct(nodes'[x].children)
    {
    }
  }

  /** Detaching a child keeps the tree consistent and closed under activity. */
  lemma RemoveKeeps(d: Dom, rank: map<Ref, nat>, p: Ref, c: Ref)
    requires Consistent(d.nodes, rank) && ActiveClosed(d.nodes, {}) && p in d.nodes
    requires c in d.nodes[p].children
    ensures c in d.nodes && p != c
    ensures var nodes1 := AfterRemove(d.nodes, p, c);
      Linked(nodes1, rank) && nodes1[c].parent.None? && c !in nodes1[p].children &&
      var d' := ChildRemoved(Dom(nodes1, d.delivered), rank, p, c);
      Consistent(d'.nodes, rank) && ActiveClosed(d'.nodes, {}) && d'.nodes.Keys == d.nodes.Keys
  {
    RemoveLinked(d.nodes, rank, p, c);
    var nodes1 := AfterRemove(d.nodes, p, c);
    ContentKeepsTags(d.nodes, nodes1);
    ContentKeepsClosed(d.nodes, nodes1, {});
    var P := nodes1[p];
    if P.kind.Tag? && nodes1[c].kind.Tag? && P.proxy.active {
      NotifyModifiedDelivers(Dom(nodes1, d.delivered), rank, p,
        Change(IdOf(P), Removed, "children", Str(IdOf(nodes1[c])), None));
    }
  }

  // ---------------------------------------------------------------------------
  // Creation
  // ---------------------------------------------------------------------------

  /**
   * A newly created object is detached and inactive; a new tag holds every observed
   * member and a string id (its default id when none is given).
   */
  lemma NewNodeKeeps(nodes: map<Ref, Node>, rank: map<Ref, nat>, kind: Kind, attrs: map<string, Value>, r: Ref)
    requires Consistent(nodes, rank) && r !in nodes
    requires kind.Tag? ==> ObservedNames(kind.cls) - {"id"} <= attrs.Keys
    requires "id" in attrs ==> attrs["id"].Str?
    ensures var nodes' := nodes[r := NewNode(kind, attrs, r)];
      Consistent(nodes', rank[r := 0]) && (ActiveClosed(nodes, {}) ==> ActiveClosed(nodes', {}))
  {
    var n := NewNode(kind, attrs, r);
    NewNodeComplete(kind, attrs, r);
    AddDetachedKeeps(nodes, rank, r, n);
  }

  lemma NewNodeComplete(kind: Kind, attrs: map<string, Value>, r: Ref)
    requires kind.Tag? ==> ObservedNames(kind.cls) - {"id"} <= attrs.Keys
    requires "id" in attrs ==> attrs["id"].Str?
    ensures var n := NewNode(kind, attrs, r);
      && n.kind == kind && n.children == [] && n.parent.None? && !n.proxy.active
      && (kind.Tag? ==> ObservedNames(kind.cls) <= n.attrs.Keys && n.attrs["id"].Str?)
  {
  }

  /** Adding a detached, childless, inactive node with complete members keeps the invariants. */
  lemma AddDetachedKeeps(nodes: map<Ref, Node>, rank: map<Ref, nat>, r: Ref, n: Node)
    requires Consistent(nodes, rank) && r !in nodes
    requires n.children == [] && n.parent.None? && !n.proxy.active
    requires n.kind.Tag? ==> ObservedNames(n.kind.cls) <= n.attrs.Keys && n.attrs["id"].Str?
    ensures Consistent(nodes[r := n], rank[r := 0])
    ensures ActiveClosed(nodes, {}) ==> ActiveClosed(nodes[r := n], {})
  {
    AddDetachedLinked(nodes, rank, r, n);
    AddDetachedTags(nodes, r, n);
    if ActiveClosed(nodes, {}) {
      AddDetachedCloses(nodes, r, n);
    }
  }

  lemma AddDetachedLinked(nodes: map<Ref, Node>, rank: map<Ref, nat>, r: Ref, n: Node)
    requires Linked(nodes, rank) && r !in nodes && n.children == [] && n.parent.None?
    ensures Linked(nodes[r := n], rank[r := 0])
  {
    var nodes' := nodes[r := n];
    var rank' := rank[r := 0];
    assert Ranked(nodes', rank') by {
      forall x | x in nodes' && nodes'[x].parent.Some?
        ensures nodes'[x].parent.value in nodes' && rank'[nodes'[x].parent.value] < rank'[x]
      {
        assert x != r && nodes[x].parent.value != r;
      }
    }
    assert ChildrenPoint(nodes') by {
      forall x, y | x in nodes' && y in nodes'[x].children
        ensures y in nodes' && nodes'[y].parent == Some(x)
      {
        assert x != r && y in nodes && y != r;
      }
    }
    assert ParentsList(nodes') by {
      forall x | x in nodes' && nodes'[x].parent.Some?
        ensures nodes'[x].parent.value in nodes' && x in nodes'[nodes'[x].parent.value].children
      {
        assert x != r && nodes[x].parent.value != r;
      }
    }
    assert ChildrenDistinct(nodes') by {
      assert Distinct(nodes'[r].children);
    }
  }

  lemma AddDetachedTags(nodes: map<Ref, Node>, r: Ref, n: Node)
    requires TagsComplete(nodes) && InSync(nodes) && r !in nodes && !n.proxy.active
    requires n.kind.Tag? ==> ObservedNames(n.kind.cls) <= n.attrs.Keys && n.attrs["id"].Str?
    ensures TagsComplete(nodes[r := n]) && InSync(nodes[r := n])
  {
  }

  lemma AddDetachedCloses(nodes: map<Ref, Node>, r: Ref, n: Node)
    requires ActiveClosed(nodes, {}) && r !in nodes && n.parent.None?
    requires forall x :: x in nodes && nodes[x].parent.Some? ==> nodes[x].parent.value != r
    ensures ActiveClosed(nodes[r := n], {})
  {
  }
}
