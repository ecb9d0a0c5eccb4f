/**
 * The state of the tag tree and the effect of each mutation on it, as functions.
 *
 * All tag objects live in one arena, indexed by their object identity (`Ref`).
 * A node is either a `Tag` (of some tag class) or a pattern node: a declarative
 * child that is not a Tag (a looper or conditional placeholder). Change records
 * that reach an `Html` root through its `modified` event are appended to
 * `delivered`, each with the root that received it.
 */
module TagTree {
  import opened Wrappers
  import opened Observed
  import opened Anchor
  import DefaultId

  /** The identity of an object (Python's `id(self)`). */
  type Ref = nat

  /** An attribute value: a string, a flag, a class list or a style/attribute dict. */
  datatype Value = Str(s: string) | Bool(b: bool) | List(items: seq<string>) | Dict(entries: map<string, string>)

  /** The `type` of an atom change notification. */
  datatype ChangeType = Create | Update | Delete

  /** The change dict an atom observer receives for one member. */
  datatype AttrChange = AttrChange(kind: ChangeType, name: string, value: Value)

  /** The `type` field of a change record: 'update', 'added', 'moved', 'removed'. */
  datatype RecordType = Updated | Added | Moved | Removed

  /** A change record; `before` is absent (`None`) for updates, removals and appends. */
  datatype Change = Change(id: string, kind: RecordType, name: string, value: Value, before: Option<string>)

  /** One firing of the `modified` event of the Html node `root`. */
  datatype Delivery = Delivery(root: Ref, change: Change)

  /** A call the tag layer made on its proxy. */
  datatype ProxyCall =
    | CallSetter(name: string, value: Value)        // proxy.set_<name>(value)
    | CallSetAttribute(name: string, value: Value)  // proxy.set_attribute(name, value)
    | CallChildMoved(child: Ref)                    // proxy.child_moved(child.proxy)

  /**
   * The proxy of a tag: whether it is active, the attribute values it currently
   * shows, and the calls it has received.
   */
  datatype Proxy = Proxy(active: bool, view: map<string, Value>, calls: seq<ProxyCall>)

  datatype Kind = Pattern | Tag(cls: TagClass)

  datatype Node = Node(
    kind: Kind,
    attrs: map<string, Value>,
    children: seq<Ref>,
    parent: Option<Ref>,
    initialized: bool,
    proxy: Proxy)

  /** A proxy object returned by an xpath query; it knows the tag it renders. */
  datatype Handle = Handle(declaration: Ref)

  /**
   * The rendering backend: which `set_<name>` methods the proxy of each tag class
   * defines, how a proxy renders, and how it answers an xpath query. Markup and
   * query semantics are parameters of this model.
   */
  datatype Backend = Backend(
    setters: TagClass -> set<string>,
    render: (map<Ref, Node>, Ref) -> string,
    xpath: (map<Ref, Node>, Ref, string) -> seq<Handle>)

  /** The names `n`'s proxy has a `set_<name>` method for (a pattern node has no proxy methods). */
  function SettersOf(b: Backend, n: Node): set<string> {
    if n.kind.Tag? then b.setters(n.kind.cls) else {}
  }

  datatype Dom = Dom(nodes: map<Ref, Node>, delivered: seq<Delivery>)

  // ---------------------------------------------------------------------------
  // Well-formedness
  // ---------------------------------------------------------------------------

  /** `rank` strictly decreases from a node to its parent, so the parent chain ends. */
  ghost predicate Ranked(nodes: map<Ref, Node>, rank: map<Ref, nat>) {
    nodes.Keys <= rank.Keys &&
    forall x :: x in nodes && nodes[x].parent.Some? ==>
      nodes[x].parent.value in nodes && rank[nodes[x].parent.value] < rank[x]
  }

  predicate Distinct(s: seq<Ref>) {
    forall i, j :: 0 <= i < j < |s| ==> s[i] != s[j]
  }

  /** Every node with a parent is among that parent's children. */
  ghost predicate ParentsList(nodes: map<Ref, Node>) {
    forall x :: x in nodes && nodes[x].parent.Some? ==>
      nodes[x].parent.value in nodes && x in nodes[nodes[x].parent.value].children
  }

  /** Every child of a node is a node whose parent is that node. */
  ghost predicate ChildrenPoint(nodes: map<Ref, Node>) {
    forall x, c :: x in nodes && c in nodes[x].children ==> c in nodes && nodes[c].parent == Some(x)
  }

  ghost predicate ChildrenDistinct(nodes: map<Ref, Node>) {
    forall x :: x in nodes ==> Distinct(nodes[x].children)
  }

  /** Parent links and children sequences agree, and no child is listed twice. */
  ghost predicate Linked(nodes: map<Ref, Node>, rank: map<Ref, nat>) {
    Ranked(nodes, rank) && ParentsList(nodes) && ChildrenPoint(nodes) && ChildrenDistinct(nodes)
  }

  /** Every tag holds a value for each name its class observes (from creation on), and its id is a string. */
  ghost predicate TagsComplete(nodes: map<Ref, Node>) {
    forall x :: x in nodes && nodes[x].kind.Tag? ==>
      ObservedNames(nodes[x].kind.cls) <= nodes[x].attrs.Keys && nodes[x].attrs["id"].Str?
  }

  /** The observed attributes of a tag, as its proxy shows them once active. */
  function Restrict(attrs: map<string, Value>, names: set<string>): (m: map<string, Value>)
    ensures m.Keys == attrs.Keys * names
    ensures forall k :: k in m ==> m[k] == attrs[k]
  {
    map k | k in attrs && k in names :: attrs[k]
  }

  /** No drift under assignment: an active proxy shows exactly the tag's observed attribute values. */
  ghost predicate InSync(nodes: map<Ref, Node>) {
    forall x :: x in nodes && nodes[x].kind.Tag? && nodes[x].proxy.active ==>
      nodes[x].proxy.view == Restrict(nodes[x].attrs, ObservedNames(nodes[x].kind.cls))
  }

  ghost predicate Consistent(nodes: map<Ref, Node>, rank: map<Ref, nat>) {
    Linked(nodes, rank) && TagsComplete(nodes) && InSync(nodes)
  }

  /** A Tag whose parent is an active Tag is active itself (nodes in `loose` excepted). */
  ghost predicate ActiveClosed(nodes: map<Ref, Node>, loose: set<Ref>) {
    forall x ::
      (x in nodes && x !in loose && nodes[x].kind.Tag? && nodes[x].parent.Some? &&
       nodes[x].parent.value in nodes && nodes[nodes[x].parent.value].kind.Tag? &&
       nodes[nodes[x].parent.value].proxy.active) ==> nodes[x].proxy.active
  }

  /** Same kinds, children and parents: the tree's shape is unchanged. */
  ghost predicate SameShape(nodes: map<Ref, Node>, nodes': map<Ref, Node>) {
    nodes'.Keys == nodes.Keys &&
    forall x :: x in nodes ==>
      nodes'[x].kind == nodes[x].kind && nodes'[x].children == nodes[x].children &&
      nodes'[x].parent == nodes[x].parent
  }

  lemma ShapeKeepsLinked(nodes: map<Ref, Node>, nodes': map<Ref, Node>, rank: map<Ref, nat>)
    requires SameShape(nodes, nodes')
    ensures Ranked(nodes, rank) ==> Ranked(nodes', rank)
    ensures Linked(nodes, rank) ==> Linked(nodes', rank)
  {
  }

  // ---------------------------------------------------------------------------
  // Ids, roots and subtrees
  // ---------------------------------------------------------------------------

  /** `self.id` (a tag of a consistent tree always holds a string id). */
  function IdOf(n: Node): string {
    if "id" in n.attrs && n.attrs["id"].Str? then n.attrs["id"].s else ""
  }

  /**
   * `root_object()`: follow parent links to the top. The result has no parent and
   * `x` lies below it, so it is the root of `x`'s own tree.
   */
  function RootOf(nodes: map<Ref, Node>, ghost rank: map<Ref, nat>, x: Ref): (root: Ref)
    requires Ranked(nodes, rank) && x in nodes
    ensures root in nodes && nodes[root].parent.None?
    ensures Below(nodes, rank, x, root, false)
    decreases rank[x]
  {
    match nodes[x].parent
    case None => x
    case Some(p) => RootOf(nodes, rank, p)
  }

  /** `isinstance(root, Html)`: the node is a Tag of `Html` or of a subclass of it. */
  predicate IsHtml(n: Node) {
    n.kind.Tag? && n.kind.cls.html
  }

  /**
   * `x` is reached from `top` by enaml's recursive initialisation (through every
   * child) or activation (`tagsOnly`: through Tag children only).
   */
  predicate Below(nodes: map<Ref, Node>, ghost rank: map<Ref, nat>, x: Ref, top: Ref, tagsOnly: bool)
    requires Ranked(nodes, rank) && x in nodes
    decreases rank[x]
  {
    x == top ||
    (nodes[x].parent.Some? && (!tagsOnly || nodes[x].kind.Tag?) &&
     Below(nodes, rank, nodes[x].parent.value, top, tagsOnly))
  }

  // ---------------------------------------------------------------------------
  // Notification and attribute updates
  // ---------------------------------------------------------------------------

  /** `_notify_modified`: the record reaches `modified` only if the root is an Html node. */
  function NotifyModified(d: Dom, ghost rank: map<Ref, nat>, r: Ref, c: Change): (d': Dom)
    requires Ranked(d.nodes, rank) && r in d.nodes
    ensures d'.nodes == d.nodes
  {
    var root := RootOf(d.nodes, rank, r);
    if IsHtml(d.nodes[root]) then Dom(d.nodes, d.delivered + [Delivery(root, c)]) else d
  }

  /** Replaces the proxy of `r`, leaving everything else alone. */
  function WithProxy(nodes: map<Ref, Node>, r: Ref, p: Proxy): (nodes': map<Ref, Node>)
    requires r in nodes
    ensures SameShape(nodes, nodes')
  {
    nodes[r := nodes[r].(proxy := p)]
  }

  /**
   * `_update_proxy`: only an 'update' on an active tag reaches the proxy, through
   * `set_<name>` when the proxy has one and `set_attribute` otherwise, and is then
   * reported as an 'update' record carrying the tag's id.
   */
  function UpdateProxy(d: Dom, ghost rank: map<Ref, nat>, setters: set<string>, r: Ref, change: AttrChange): Dom
    requires Ranked(d.nodes, rank) && r in d.nodes
  {
    var n := d.nodes[r];
    if change.kind == Update && n.proxy.active then
      var call := if change.name in setters then CallSetter(change.name, change.value)
                  else CallSetAttribute(change.name, change.value);
      var p := n.proxy.(view := n.proxy.view[change.name := change.value], calls := n.proxy.calls + [call]);
      var nodes' := WithProxy(d.nodes, r, p);
      ShapeKeepsLinked(d.nodes, nodes', rank);
      NotifyModified(Dom(nodes', d.delivered), rank, r, Change(IdOf(n), Updated, change.name, change.value, None))
    else d
  }

  function WithAttr(nodes: map<Ref, Node>, r: Ref, name: string, value: Value): (nodes': map<Ref, Node>)
    requires r in nodes
    ensures SameShape(nodes, nodes')
  {
    nodes[r := nodes[r].(attrs := nodes[r].attrs[name := value])]
  }

  /**
   * Assigning an attribute of a tag. As in atom, the observer is notified only when
   * the value changes ('create' if the member held no value yet, 'update' otherwise),
   * and `_update_proxy` is registered only for the class's observed names.
   */
  function SetAttr(d: Dom, ghost rank: map<Ref, nat>, setters: set<string>, r: Ref, name: string, value: Value): Dom
    requires Ranked(d.nodes, rank) && r in d.nodes && d.nodes[r].kind.Tag?
  {
    var n := d.nodes[r];
    var nodes' := WithAttr(d.nodes, r, name, value);
    ShapeKeepsLinked(d.nodes, nodes', rank);
    if name in ObservedNames(n.kind.cls) && (name !in n.attrs || n.attrs[name] != value) then
      UpdateProxy(Dom(nodes', d.delivered), rank, setters, r,
                  AttrChange(if name in n.attrs then Update else Create, name, value))
    else Dom(nodes', d.delivered)
  }

  /** The `setattr` loop of `prepare`, over the keyword arguments in order. */
  function SetAll(d: Dom, ghost rank: map<Ref, nat>, setters: set<string>, r: Ref, kwargs: seq<(string, Value)>): (d': Dom)
    requires Ranked(d.nodes, rank) && r in d.nodes && d.nodes[r].kind.Tag?
    ensures SameShape(d.nodes, d'.nodes)
    decreases |kwargs|
  {
    if kwargs == [] then d
    else
      var d1 := SetAll(d, rank, setters, r, kwargs[..|kwargs| - 1]);
      ShapeKeepsLinked(d.nodes, d1.nodes, rank);
      var d2 := SetAttr(d1, rank, setters, r, kwargs[|kwargs| - 1].0, kwargs[|kwargs| - 1].1);
      assert SameShape(d1.nodes, d2.nodes) by { SetAttrShape(d1, rank, setters, r, kwargs[|kwargs| - 1].0, kwargs[|kwargs| - 1].1); }
      d2
  }

  lemma SetAttrShape(d: Dom, rank: map<Ref, nat>, setters: set<string>, r: Ref, name: string, value: Value)
    requires Ranked(d.nodes, rank) && r in d.nodes && d.nodes[r].kind.Tag?
    ensures SameShape(d.nodes, SetAttr(d, rank, setters, r, name, value).nodes)
  {
  }

  // ---------------------------------------------------------------------------
  // Activation and rendering
  // ---------------------------------------------------------------------------

  /** `initialize()`: marks the declarative subtree of `top` initialised. */
  function Initialize(nodes: map<Ref, Node>, ghost rank: map<Ref, nat>, top: Ref): (nodes': map<Ref, Node>)
    requires Ranked(nodes, rank)
    ensures SameShape(nodes, nodes')
  {
    map x | x in nodes :: if Below(nodes, rank, x, top, false) then nodes[x].(initialized := true) else nodes[x]
  }

  /** A proxy coming to life shows the tag's observed attributes. */
  function Activated(n: Node): Node
    requires n.kind.Tag?
  {
    n.(proxy := n.proxy.(active := true, view := Restrict(n.attrs, ObservedNames(n.kind.cls))))
  }

  /** `activate_proxy()`: activates the proxies of `top` and of the Tags under it. */
  function Activate(nodes: map<Ref, Node>, ghost rank: map<Ref, nat>, top: Ref): (nodes': map<Ref, Node>)
    requires Ranked(nodes, rank)
    ensures SameShape(nodes, nodes')
  {
    map x | x in nodes :: if nodes[x].kind.Tag? && Below(nodes, rank, x, top, true) then Activated(nodes[x]) else nodes[x]
  }

  /**
   * `prepare(**kwargs)`: applies the keyword arguments, initialises if not yet
   * initialised, and activates the proxy if it is not active.
   */
  function Prepare(d: Dom, ghost rank: map<Ref, nat>, setters: set<string>, r: Ref, kwargs: seq<(string, Value)>): (d': Dom)
    requires Ranked(d.nodes, rank) && r in d.nodes && d.nodes[r].kind.Tag?
    ensures SameShape(d.nodes, d'.nodes)
  {
    var d1 := SetAll(d, rank, setters, r, kwargs);
    ShapeKeepsLinked(d.nodes, d1.nodes, rank);
    Dom(Ready(d1.nodes, rank, r), d1.delivered)
  }

  /** The end of `prepare`: initialise unless initialised, then activate unless active. */
  function Ready(nodes: map<Ref, Node>, ghost rank: map<Ref, nat>, r: Ref): (nodes': map<Ref, Node>)
    requires Ranked(nodes, rank) && r in nodes
    ensures SameShape(nodes, nodes')
  {
    var n2 := if !nodes[r].initialized then Initialize(nodes, rank, r) else nodes;
    ShapeKeepsLinked(nodes, n2, rank);
    if !n2[r].proxy.active then Activate(n2, rank, r) else n2
  }

  /** `render(**kwargs)`: `prepare` followed by the proxy's markup. */
  function Render(d: Dom, ghost rank: map<Ref, nat>, b: Backend, r: Ref, kwargs: seq<(string, Value)>): (res: (Dom, string))
    requires Ranked(d.nodes, rank) && r in d.nodes && d.nodes[r].kind.Tag?
    ensures SameShape(d.nodes, res.0.nodes)
  {
    var d' := Prepare(d, rank, SettersOf(b, d.nodes[r]), r, kwargs);
    (d', b.render(d'.nodes, r))
  }

  /**
   * `xpath(query, **kwargs)`: the declarations of the proxies the backend's query
   * returns. The keyword arguments, which the tag layer passes through unread, are
   * taken to be part of the uninterpreted `query`. Before activation the tag has no
   * proxy to ask (`None`).
   */
  function Xpath(d: Dom, b: Backend, r: Ref, query: string): (res: Option<seq<Ref>>)
    requires r in d.nodes
    ensures res.Some? <==> d.nodes[r].proxy.active
    ensures res.Some? ==> var hs := b.xpath(d.nodes, r, query);
      |res.value| == |hs| && forall i :: 0 <= i < |hs| ==> res.value[i] == hs[i].declaration
  {
    if d.nodes[r].proxy.active then
      var hs := b.xpath(d.nodes, r, query);
      Some(seq(|hs|, i requires 0 <= i < |hs| => hs[i].declaration))
    else None
  }

  // ---------------------------------------------------------------------------
  // Children
  // ---------------------------------------------------------------------------

  /** `list.index`: the position of `x` in `s`. */
  function IndexOf(s: seq<Ref>, x: Ref): (i: nat)
    requires x in s
    ensures i < |s| && s[i] == x && x !in s[..i]
  {
    if s[0] == x then 0 else
      var j := IndexOf(s[1..], x);
      assert s[..j + 1] == [s[0]] + s[1..][..j];
      j + 1
  }

  /** The children as the anchor scan sees them: a Tag's id, or `None` for a pattern node. */
  function Siblings(nodes: map<Ref, Node>, children: seq<Ref>): (sibs: seq<Option<string>>)
    requires forall c :: c in children ==> c in nodes
    ensures |sibs| == |children|
    ensures forall j :: 0 <= j < |children| ==>
      sibs[j] == if nodes[children[j]].kind.Tag? then Some(IdOf(nodes[children[j]])) else None
  {
    seq(|children|, j requires 0 <= j < |children| =>
      if nodes[children[j]].kind.Tag? then Some(IdOf(nodes[children[j]])) else None)
  }

  /** The anchor of child `c` among `children`. */
  function BeforeOf(nodes: map<Ref, Node>, children: seq<Ref>, c: Ref): Option<string>
    requires c in children && forall x :: x in children ==> x in nodes
  {
    Before(Siblings(nodes, children), IndexOf(children, c))
  }

  /** `s` without `x`. */
  function Without(s: seq<Ref>, x: Ref): seq<Ref>
    requires x in s
  {
    var i := IndexOf(s, x);
    s[..i] + s[i + 1..]
  }

  /** Attaches the detached node `c` to `p`'s children at position `k`. */
  function AfterInsert(nodes: map<Ref, Node>, p: Ref, k: nat, c: Ref): map<Ref, Node>
    requires p in nodes && c in nodes && p != c && k <= |nodes[p].children|
  {
    var ch := nodes[p].children;
    nodes[p := nodes[p].(children := ch[..k] + [c] + ch[k..])][c := nodes[c].(parent := Some(p))]
  }

  /** The ranks after `AfterInsert`: the subtree rooted at `c` moves below `p`. */
  ghost function InsertedRank(nodes: map<Ref, Node>, rank: map<Ref, nat>, p: Ref, c: Ref): map<Ref, nat>
    requires Ranked(nodes, rank) && p in nodes
  {
    map x | x in rank :: if x in nodes && RootOf(nodes, rank, x) == c then rank[x] + rank[p] + 1 else rank[x]
  }

  /** Moves `c`, a child of `p`, to position `k` of the reordered children. */
  function AfterMove(nodes: map<Ref, Node>, p: Ref, c: Ref, k: nat): map<Ref, Node>
    requires p in nodes && c in nodes[p].children && k < |nodes[p].children|
  {
    var rest := Without(nodes[p].children, c);
    nodes[p := nodes[p].(children := rest[..k] + [c] + rest[k..])]
  }

  /** Detaches `c` from its parent `p`. */
  function AfterRemove(nodes: map<Ref, Node>, p: Ref, c: Ref): map<Ref, Node>
    requires p in nodes && c in nodes && c in nodes[p].children && p != c
  {
    nodes[p := nodes[p].(children := Without(nodes[p].children, c))][c := nodes[c].(parent := None)]
  }

  /**
   * `child_added`, run once `c` is among `p`'s children: for a Tag child of an
   * active Tag, renders the child and reports an 'added' record carrying the
   * parent's id, the child's markup and the child's anchor.
   */
  function ChildAdded(d: Dom, ghost rank: map<Ref, nat>, b: Backend, p: Ref, c: Ref): Dom
    requires Linked(d.nodes, rank) && p in d.nodes && c in d.nodes[p].children
  {
    var P := d.nodes[p];
    if P.kind.Tag? && d.nodes[c].kind.Tag? && P.proxy.active then
      var rendered := Render(d, rank, b, c, []);
      var d1 := rendered.0;
      ShapeKeepsLinked(d.nodes, d1.nodes, rank);
      var ch := d1.nodes[p].children;
      NotifyModified(d1, rank, p, Change(IdOf(d1.nodes[p]), Added, "children", Str(rendered.1), BeforeOf(d1.nodes, ch, c)))
    else d
  }

  /**
   * `child_moved`, run once `c` has its new position among `p`'s children: for a
   * Tag child of an active Tag, asks the proxy to move it (`accepted` is its answer)
   * and, only if it accepted, reports a 'moved' record with the new anchor.
   */
  function ChildMoved(d: Dom, ghost rank: map<Ref, nat>, p: Ref, c: Ref, accepted: bool): Dom
    requires Linked(d.nodes, rank) && p in d.nodes && c in d.nodes[p].children
  {
    var P := d.nodes[p];
    if P.kind.Tag? && d.nodes[c].kind.Tag? && P.proxy.active then
      var nodes1 := WithProxy(d.nodes, p, P.proxy.(calls := P.proxy.calls + [CallChildMoved(c)]));
      ShapeKeepsLinked(d.nodes, nodes1, rank);
      if accepted then
        NotifyModified(Dom(nodes1, d.delivered), rank, p,
          Change(IdOf(P), Moved, "children", Str(IdOf(d.nodes[c])), BeforeOf(nodes1, P.children, c)))
      else Dom(nodes1, d.delivered)
    else d
  }

  /**
   * `child_removed`, run once `c` has left `p`: for a Tag child of an active Tag,
   * reports a 'removed' record naming the child's id, with no anchor.
   */
  function ChildRemoved(d: Dom, ghost rank: map<Ref, nat>, p: Ref, c: Ref): Dom
    requires Ranked(d.nodes, rank) && p in d.nodes && c in d.nodes
  {
    var P := d.nodes[p];
    if P.kind.Tag? && d.nodes[c].kind.Tag? && P.proxy.active then
      NotifyModified(d, rank, p, Change(IdOf(P), Removed, "children", Str(IdOf(d.nodes[c])), None))
    else d
  }

  /**
   * A new, detached node. A tag starts with the values of its declared members;
   * when no `id` is given it gets the default id derived from its identity.
   */
  function NewNode(kind: Kind, attrs: map<string, Value>, r: Ref): Node {
    var attrs' := if kind.Pattern? then map[]
                  else if "id" in attrs then attrs
                  else attrs["id" := Str(DefaultId.Hex(r))];
    Node(kind, attrs', [], None, false, Proxy(false, map[], []))
  }
}
