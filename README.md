# Change tracking of the enaml-web `Tag` tree

This project models the change-tracking core of the `Tag` class of enaml-web
(`web/components/html.py`). The program keeps a server-side tree of markup
nodes. Once a tag's proxy (its rendering backend object) is active, a change of
an observed attribute, or of its Tag children, produces at most one change
record. Names the tag's class does not observe, moves the proxy refuses, and
pattern children produce none. A record is delivered to the `modified` event of
the tree's root, and only when that root is an `Html` node.

There are four kinds of record:

- `update`: an observed attribute of an active tag changed. The proxy is
  updated first, through its `set_<name>` method when it has one and through
  `set_attribute(name, value)` otherwise.
- `added`: a Tag child was added to an active tag. The record carries the
  child's rendered markup and an anchor.
- `moved`: a Tag child was moved, and the proxy accepted the move. The record
  carries the child's id and an anchor.
- `removed`: a Tag child was removed. The record carries the child's id.

The anchor (`before`) is the id of the first Tag sibling after the child.
Pattern nodes (children that are not Tags) are skipped. When no Tag follows the
child, the anchor is absent, which means "append".

Layout:

- `wrappers.dfy` (`Wrappers`): the `Option` type. `None` is an absent field.
- `anchor.dfy` (`Anchor`): the anchor scan over a sequence of siblings.
- `default_id.dfy` (`DefaultId`): `'%0x' % id(self)`, the default tag id.
- `observed.dfy` (`Observed`): which attribute names each tag class observes.
- `tag_tree.dfy` (`TagTree`): the tree as a value. It holds an arena of nodes
  indexed by object identity, with parent links, children sequences, attributes
  and proxies, plus the delivered records. Every operation is a function from
  one tree to the next.
- `tag_tree_proofs.dfy` (`TagTreeProofs`): what those functions promise, and
  the invariants of the tree they keep.
- `change_records.dfy` (`ChangeRecords`): the records of the structural
  mutations, and when they are silent.
- `tag_arena.dfy` (`TagArena`): the same operations as an imperative `Arena`
  class that updates the tree in place. Each method is proved to have exactly
  the effect of its `TagTree` function. The anchor scan is the source's `while`
  loop, and the `setattr` loop of `prepare` is a loop too.

Four things the code does that a reader might not expect:

- The `id` of an `added`, `moved` or `removed` record is the PARENT's id
  (`self.id`). The child appears only in `value`: its markup for `added`, and
  its id for `moved` and `removed`.
- `child_removed` emits only when the parent's proxy is active, like
  `child_added` and `child_moved`.
- A move the proxy refuses emits nothing. The source does not resynchronise
  the remote side after that, and neither does the model.
- Assigning a new `id` to an active tag emits an `update` record whose `id` is
  already the NEW id, because the record reads `self.id` after the assignment.
  A remote side that finds elements by id has no element by that id yet.

Modelling choices:

- Attribute changes follow atom's observer semantics. The observer runs only
  when the value actually changes. Its change type is `'create'` when the
  member had no value before, and `'update'` otherwise. Only `'update'`
  reaches the proxy.
- The rendering backend is a parameter (`Backend`). It gives, for each tag
  class, the set of `set_<name>` methods its proxies define, a rendering
  function with opaque markup, and an xpath query function with uninterpreted
  semantics.
- A tag class records whether it is `Html` or a subclass of it, so that the
  root test is `isinstance(root, Html)` and a document class such as
  `enamldef Page(Html)` can observe names of its own.
- A proxy is a value: whether it is active, the attribute values it shows, and
  the log of calls it received. Activation makes it show the tag's observed
  attributes.
- `Consistent` is the tree invariant. Parent links and children agree, and
  every child is listed once. Every tag holds a value for each member its
  class observes, from its creation on, and its `id` is a string. No drift
  under assignment: after any sequence of modelled operations, an active proxy
  shows exactly the tag's observed attribute values.
- `ActiveClosed` says that a Tag under an active Tag is active. All
  mutations keep it.
- The walk of `root_object()` terminates because a ghost `rank` map decreases
  from every node to its parent.

## Model

| member | source | states |
|---|---|---|
| Anchor.FirstTagIndex | web/components/html.py:146-152 | the scan stops at the first Tag at or after its start and passes over only pattern nodes, or reaches the end |
| Anchor.Before | web/components/html.py:143-153 | the anchor is absent iff every later sibling is a pattern node; otherwise it is the id of a later Tag with only pattern nodes in between |
| Anchor.AnchorExamples | web/components/html.py:143-153 | an insertion between `a` and `b` is anchored on `b`; a pattern node before `b` is skipped; a child followed only by pattern nodes, or by nothing, gets no anchor |
| DefaultId.Hex | web/components/html.py:88-89 | the default id is a non-empty string of lower-case hex digits, without a leading zero unless the identity is 0 |
| DefaultId.ParseHexOfHex | web/components/html.py:88-89 | reading the default id back as hexadecimal gives the object's identity |
| DefaultId.HexInjective | web/components/html.py:88-89 | distinct objects get distinct default ids |
| Observed.ObservedNamesFacts | web/components/html.py:91-93 | every tag class observes the 14 base names, `id` included; `Button` adds only `type` (line 805) and so does not observe `name` or `value`; `Bdo` observes nothing beyond the base; `Html` counts as an Html document and the plain classes do not |
| TagTree.RootOf | web/components/html.py:126 | `root_object()` ends at a node that has no parent and that the starting node lies below: the root of its own tree |
| TagTree.Xpath | web/components/html.py:198-213 | the result lists the declaration of each proxy the backend's query returns, in order and one for one; before activation there is no proxy to ask |
| TagTree.IndexOf | web/components/html.py:145 | `children.index(child)` is the first position that holds the child |
| TagTreeProofs.BeforeIsNextTagSibling | web/components/html.py:143-153 | the anchor is absent iff every child after this one is a pattern node; otherwise it is the id of the first later Tag child |
| TagTreeProofs.NotifyModifiedDelivers | web/components/html.py:117-128 | `_notify_modified` changes no node; it delivers the record once, to the root of the reporting tag's own tree, exactly when that root is an Html node, and drops it otherwise |
| TagTreeProofs.RootOfBelow | web/components/html.py:126-128 | a node lies below a parentless node `h` exactly when `h` is its root, so records of one document never reach another |
| TagTreeProofs.UpdateProxyEffect | web/components/html.py:94-115 | an `update` on an active tag makes one proxy call (the specific setter when the proxy has one, else `set_attribute`) and emits one record `{tag id, update, name, value}`; any other change type, or an inactive tag, changes nothing |
| TagTreeProofs.UpdateProxyFrame | web/components/html.py:100-115 | `_update_proxy` touches only the proxy of its own tag, and does not change whether it is active |
| TagTreeProofs.SetAttrAttrs | web/components/html.py:94-115 | assigning an attribute changes that attribute of that tag only; the proxy shows the new value exactly when it is active and the name is observed with a changed value |
| TagTreeProofs.SetAttrUnobservedSilent | web/components/html.py:91-93 | assigning a name the tag's class does not observe changes that attribute and nothing else, even on an active tag: no proxy call, no record |
| TagTreeProofs.ButtonValueSilent | web/components/html.py:805 | on a `Button`, assigning `value` or `name` delivers no record and leaves the proxy unchanged, because only `type` is observed beyond the base names |
| TagTreeProofs.IdChangeReportsNewId | web/components/html.py:108-115 | assigning a different `id` to an active tag under an Html root delivers one `update` record whose `id` is the new id, not the old one |
| TagTreeProofs.SetAttrSilentWhileInactive | web/components/html.py:100-102 | on a tag whose proxy is not active, an assignment changes the attribute and nothing else: no proxy call, no record |
| TagTreeProofs.SetAttrOnActiveTag | web/components/html.py:94-115 | changing an observed attribute of an active tag logs exactly one setter call and delivers exactly one `update` record with the tag's id when the root is Html, and none otherwise |
| TagTreeProofs.SetAllAssigns | web/components/html.py:222-223 | after the `setattr` loop every keyword argument holds its given value |
| TagTreeProofs.ActivateKeeps | web/components/html.py:226-227 | activation makes a proxy active exactly when it was already active or it belongs to a Tag under the activated tag, leaves every other node unchanged, keeps the tree consistent (each active proxy shows its tag's observed attributes), and leaves attributes alone |
| TagTreeProofs.PrepareActivates | web/components/html.py:224-227 | after `prepare` the tag is initialised and its proxy is active |
| TagTreeProofs.PrepareKeeps | web/components/html.py:215-227 | `prepare` keeps the tree consistent, leaves no inactive Tag under an active one, and leaves the proxy of every node outside the prepared tag's Tag subtree unchanged |
| TagTreeProofs.SetAllFrame | web/components/html.py:222-223 | the `setattr` loop changes no node but the tag being prepared |
| TagTreeProofs.PrepareIdempotent | web/components/html.py:215-227 | a second `prepare` with the same arguments changes nothing and emits no record |
| TagTreeProofs.InsertKeeps | web/components/html.py:133-154 | inserting a detached node and running `child_added` keeps the tree consistent; an added Tag under an active parent ends up active |
| TagTreeProofs.MoveKeeps | web/components/html.py:156-178 | reordering a child and running `child_moved` keeps the tree consistent and its node set |
| TagTreeProofs.RemoveKeeps | web/components/html.py:180-193 | detaching a child and running `child_removed` keeps the tree consistent |
| ChangeRecords.Reported | web/components/html.py:126-128 | a report reaches `modified` at most once, exactly when the root is Html, and names that root, which has no parent and lies above the reporting tag |
| ChangeRecords.ChildAddedRecord | web/components/html.py:133-154 | for a Tag child of an active Tag, exactly the record `{parent id, added, children, child's markup after prepare, anchor}` is delivered when the root is Html; otherwise nothing changes |
| ChangeRecords.ChildMovedRecord | web/components/html.py:156-178 | for a Tag child of an active Tag, the proxy is asked to move the child; the record `{parent id, moved, children, child id, anchor at the new position}` is delivered only if the proxy accepts; otherwise nothing changes |
| ChangeRecords.ChildRemovedRecord | web/components/html.py:180-193 | for a Tag child of an active Tag, exactly the record `{parent id, removed, children, child id}` with no anchor is delivered when the root is Html; otherwise nothing is delivered; no node changes |
| ChangeRecords.PatternChildSilent | web/components/html.py:133-178 | adding or moving a pattern node changes nothing and emits nothing |
| ChangeRecords.InactiveParentSilent | web/components/html.py:133-178 | adding or moving a child of a tag whose proxy is not active changes nothing and emits nothing |
| ChangeRecords.RemovalSilent | web/components/html.py:186-193 | once a child has left its parent, `child_removed` changes nothing when the child is a pattern node or the parent's proxy is not active |
| ChangeRecords.AnchorNamesLaterTag | web/components/html.py:146-150 | an anchor that is present is the id of a Tag child at a later position, never of a pattern node |
| TagArena.ScanBefore | web/components/html.py:143-153 | the `while` scan returns exactly the anchor `Anchor.Before` defines |
| TagArena.Arena.Create | web/components/html.py:88-89 | a new object gets a fresh identity; a tag without an explicit `id` gets the default id of that identity; the invariants hold |
| TagArena.Arena.NotifyModified | web/components/html.py:117-128 | the in-place `_notify_modified` has the effect of `TagTree.NotifyModified` |
| TagArena.Arena.UpdateProxy | web/components/html.py:94-115 | the in-place `_update_proxy` has the effect of `TagTree.UpdateProxy` |
| TagArena.Arena.SetAttribute | web/components/html.py:91-115 | assigning an attribute has the effect of `TagTree.SetAttr` and keeps the invariants |
| TagArena.Arena.Assign | web/components/html.py:222-223 | the `setattr` loop has the effect of `TagTree.SetAll` and keeps the invariants |
| TagArena.Arena.Ready | web/components/html.py:224-227 | initialises unless initialised and activates unless active, as `TagTree.Ready` |
| TagArena.Arena.Prepare | web/components/html.py:215-227 | `prepare` has the effect of `TagTree.Prepare`, keeps the invariants and leaves no inactive Tag under an active one |
| TagArena.Arena.Render | web/components/html.py:229-239 | `render` is `prepare` followed by the proxy's markup, as `TagTree.Render` |
| TagArena.Arena.ChildAdded | web/components/html.py:133-154 | `child_added` has the effect of `TagTree.ChildAdded` |
| TagArena.Arena.ReportAdded | web/components/html.py:136-154 | renders the child, scans for the anchor and reports, as `TagTree.ChildAdded` |
| TagArena.Arena.ChildMoved | web/components/html.py:156-178 | `child_moved` has the effect of `TagTree.ChildMoved` |
| TagArena.Arena.ChildRemoved | web/components/html.py:180-193 | `child_removed` has the effect of `TagTree.ChildRemoved` and changes no node |
| TagArena.Arena.Insert | web/components/html.py:133-154 | inserting a detached node at a position and then running `child_added` keeps the invariants |
| TagArena.Arena.Move | web/components/html.py:156-178 | moving a child to a position and then running `child_moved` keeps the invariants |
| TagArena.Arena.Remove | web/components/html.py:180-193 | detaching a child and then running `child_removed` keeps the invariants |

## Left out

- The atom/enaml observer and declarative machinery (`@observe`, `d_`, `Event`, the base `ToolkitObject.child_added/moved/removed`). Explicit mutation methods stand in for it: `Insert`, `Move`, `Remove` and `SetAttribute` change the tree, then run the emission logic.
- atom's type validation and coercion of members (`Str`, `Coerced(bool)`, `Instance`). Values are a small sum type, and only the `id` is required to be a string.
- `ProxyTag.render` and `ProxyTag.xpath` raise `NotImplementedError` in the source. The real backend is a parameter of the model, with opaque markup and uninterpreted queries.
- `_default_id` uses CPython's `id(self)`, a memory address. Identities are injected as fresh natural numbers.
- What the proxy does inside its `set_<name>`, `set_attribute` and `child_moved` methods. The model records which one was called. A proxy's answer to `child_moved` is an input.
- `initialize()` and `activate_proxy()` belong to enaml. They are modelled by their effect: flags set over the subtree, and the proxies of the Tag subtree activated. Enaml's proxy creation is not modelled.
- TagTree.Xpath: the `**kwargs` of `xpath` are passed to the backend unread; the model folds them into the uninterpreted query string.
- Tags reached through `xpath` while the proxy is not yet created. The source would fail on the missing proxy; the model returns `None`.
- The `clicked` and `dropped` event payloads, and any websocket transport consuming `modified`.
- The roughly 60 concrete tag subclasses. Each is represented only by its class name, the extra names it observes, and whether it is `Html`. Its default tag name and the members it declares without observing them (such as `Bdo`'s `dir`) are not kept.
- `tests/bench_apps.py`: HTTP servers, processes and timing.
- TagTree.SetAttr, TagTree.Prepare, TagArena.Arena.SetAttribute, TagArena.Arena.Prepare: accept any attribute name and store it. The source's `setattr(self, k, v)` raises `AttributeError` for a name the tag class does not declare, because atom objects have fixed members. The model does not record which members each class declares, so it does not capture that error.
- TagArena.Arena.Insert: requires that the new child is not the parent itself and is not above it (`RootOf(p) != c`). The source does not check this. Such an insertion would create a cycle, and `root_object()` would then never terminate; the model excludes the case instead of modelling the non-termination. It also requires a detached child. Reparenting a tag that already has a parent, which runs `child_removed` on the old parent and then `child_added` on the new one, is expressed as `Remove` followed by `Insert`.
- TagTree.SetAttr, TagTree.InSync: an attribute changes only by assignment, because `Value` is immutable. The source's `cls` is a list, and `style` and `attrs` are dicts. Mutating one of them in place (`tag.style['color'] = 'red'`, `tag.cls.append(x)`) is not seen by atom, so `_update_proxy` does not run: there is no proxy call and no record, and an active proxy stays stale. The model does not capture that drift. `InSync` holds only because every modelled change is an assignment.
- TagTree.SetAttr, TagArena.Arena.Create: in atom, the first assignment to a member that was never read or set has change type `'create'`, and `_update_proxy` drops it even on an active tag. The model assumes that every observed member holds a value from creation on (`Create` requires one for each, and `Consistent` keeps them). Under that assumption the `'create'` branch of `SetAttr` is taken only for names the class does not observe, and `SetAttrOnActiveTag`'s single record holds. In the source this needs a backend that reads every observed member when it activates the proxy.
- Concurrency: the source is single-threaded and synchronous, and so is the model.
