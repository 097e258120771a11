/** The UI arena (`ui::Ui`): a handle-keyed store of nodes, the ordered list
    of top-level handles, a handle counter and three dirty flags, plus the
    tree walk that resolves every reachable node to an absolute rectangle, a
    depth and an accumulated alpha.

    The program shares one arena between threads (a concurrent hash map, a
    lock on the root list, relaxed atomics); the model is one sequential
    object whose fields are values. */
module UiArena {
  import opened Base
  import opened Geometry
  import opened Elements
  import opened Glyphs

  type Handle = nat

  /** A node owns its element and lists its children by handle. */
  datatype UiNode = UiNode(element: UiElement, children: seq<Handle>)

  type NodeMap = map<Handle, UiNode>

  /** One entry of the walk's output. */
  datatype NodeInfo = NodeInfo(handle: Handle, rect: AbsRect, depth: nat, alpha: real)

  // ----- Shape of the store --------------------------------------------------

  /** Every listed child is stored and was issued before `bound`, and a node
      whose own handle is below `bound` lists only later handles.  (A node
      with a handle not yet issued can only come from `upsert`; nothing lists
      it, and its slot is overwritten when the counter reaches it.) */
  predicate Linked(m: NodeMap, bound: nat)
  {
    forall k, i {:trigger m[k].children[i]} ::
      k in m && 0 <= i < |m[k].children| ==>
        && m[k].children[i] in m && m[k].children[i] < bound
        && (k < bound ==> k < m[k].children[i])
  }

  /** Every root is stored and was issued before `bound`. */
  predicate RootsListed(m: NodeMap, roots: seq<Handle>, bound: nat)
  {
    forall i :: 0 <= i < |roots| ==> roots[i] in m && roots[i] < bound
  }

  /** The store after `add_element` has given `id` to `e`: appended to
      `parent`'s children when there is a parent, then stored with no
      children. */
  function Attach(m: NodeMap, parent: Option<Handle>, id: Handle, e: UiElement): NodeMap
    requires parent.Some? ==> parent.value in m
  {
    var m1 := if parent.Some?
      then m[parent.value := UiNode(m[parent.value].element, m[parent.value].children + [id])]
      else m;
    m1[id := UiNode(e, [])]
  }

  /** Attaching under an issued parent appends the new handle to that parent's
      children, stores the new node childless, and changes no other node. */
  lemma AttachAppendsChild(m: NodeMap, p: Handle, id: Handle, e: UiElement)
    requires p in m && p < id
    ensures Attach(m, Some(p), id, e).Keys == m.Keys + {id}
    ensures Attach(m, Some(p), id, e)[p] == UiNode(m[p].element, m[p].children + [id])
    ensures Attach(m, Some(p), id, e)[id] == UiNode(e, [])
    ensures forall k :: k in m && k != p && k != id ==> Attach(m, Some(p), id, e)[k] == m[k]
  {
  }

  /** Attaching a fresh handle keeps the store linked, one handle further on. */
  lemma AttachKeepsLinked(m: NodeMap, parent: Option<Handle>, id: Handle, e: UiElement)
    requires Linked(m, id)
    requires parent.Some? ==> parent.value in m
    ensures Linked(Attach(m, parent, id, e), id + 1)
  {
    var m' := Attach(m, parent, id, e);
    forall k, i | k in m' && 0 <= i < |m'[k].children|
      ensures m'[k].children[i] in m' && m'[k].children[i] < id + 1
      ensures k < id + 1 ==> k < m'[k].children[i]
    {
      if k != id {
        if parent.Some? && k == parent.value {
          assert m'[k].children == m[k].children + [id];
          if i < |m[k].children| {
            assert m'[k].children[i] == m[k].children[i];
          }
        } else {
          assert m'[k] == m[k];
        }
      }
    }
  }

  // ----- The walk --------------------------------------------------------------

  /** The rectangle a node is drawn in: its own rectangle resolved in the
      parent's for a window, the parent's rectangle otherwise.  Either way it
      lies within the parent's, which is what makes nested clipping work. */
  function NodeRect(e: UiElement, parentRect: AbsRect): (r: AbsRect)
    ensures Within(r, parentRect)
    ensures !e.Window? ==> r == parentRect
  {
    match GetRect(e)
    case Some(rect) => Absolute(rect, parentRect)
    case None => parentRect
  }

  /** The entry of a child: rectangle resolved in the parent's, one level
      deeper, alpha multiplied by the child's own. */
  function ChildInfo(m: NodeMap, parent: NodeInfo, c: Handle): NodeInfo
    requires c in m
  {
    NodeInfo(c, NodeRect(m[c].element, parent.rect), parent.depth + 1,
             parent.alpha * GetAlpha(m[c].element))
  }

  /** The entry of a root: rectangle resolved in the screen, the given depth,
      and its own alpha. */
  function RootInfo(m: NodeMap, r: Handle, depth: nat, screen: AbsRect): NodeInfo
    requires r in m
  {
    NodeInfo(r, NodeRect(m[r].element, screen), depth, GetAlpha(m[r].element))
  }

  /** `walktree`: the entries of the children's subtrees, in children order,
      then the node's own entry, which is therefore last (post-order). */
  function Subtree(m: NodeMap, bound: nat, info: NodeInfo): (s: seq<NodeInfo>)
    requires Linked(m, bound) && info.handle in m && info.handle < bound
    decreases bound - info.handle, |m[info.handle].children| + 1
  {
    Forest(m, bound, info, m[info.handle].children) + [info]
  }

  /** The subtrees of the children `cs` of `parent`, one after the other. */
  function Forest(m: NodeMap, bound: nat, parent: NodeInfo, cs: seq<Handle>): (f: seq<NodeInfo>)
    requires Linked(m, bound) && parent.handle in m && parent.handle < bound
    requires forall i :: 0 <= i < |cs| ==> cs[i] in m && parent.handle < cs[i] < bound
    decreases bound - parent.handle, |cs|
  {
    if cs == [] then []
    else Forest(m, bound, parent, cs[..|cs| - 1])
         + Subtree(m, bound, ChildInfo(m, parent, cs[|cs| - 1]))
  }

  /** The largest depth among `s` and `init` (the fold of `walk`). */
  function MaxDepth(s: seq<NodeInfo>, init: nat): (d: nat)
    ensures init <= d
    ensures forall i :: 0 <= i < |s| ==> s[i].depth <= d
    ensures d == init || exists i :: 0 <= i < |s| && s[i].depth == d
  {
    if s == [] then init
    else
      var d := MaxDepth(s[..|s| - 1], init);
      if s[|s| - 1].depth > d then s[|s| - 1].depth else d
  }

  /** `walk` over the roots `rs`: the output so far and the depth the next
      root starts at.  Each root starts one past the deepest entry before it. */
  function RootsWalk(m: NodeMap, bound: nat, rs: seq<Handle>, screen: AbsRect): (r: (seq<NodeInfo>, nat))
    requires Linked(m, bound) && RootsListed(m, rs, bound)
  {
    if rs == [] then ([], 0)
    else
      var (out, md) := RootsWalk(m, bound, rs[..|rs| - 1], screen);
      var sub := Subtree(m, bound, RootInfo(m, rs[|rs| - 1], md, screen));
      (out + sub, MaxDepth(sub, md) + 1)
  }

  /** `p` is the entry of `e`'s parent: `e`'s node is one of `p`'s children
      and `e` is derived from `p` by `ChildInfo`. */
  predicate IsParentEntry(m: NodeMap, p: NodeInfo, e: NodeInfo)
  {
    p.handle in m && e.handle in m && e.handle in m[p.handle].children && e == ChildInfo(m, p, e.handle)
  }

  /** The entry at `k` has its parent's entry somewhere after it. */
  predicate HasLaterParent(m: NodeMap, s: seq<NodeInfo>, k: nat)
    requires k < |s|
  {
    exists j :: k < j < |s| && IsParentEntry(m, s[j], s[k])
  }

  lemma LaterParentInPrefix(m: NodeMap, a: seq<NodeInfo>, t: seq<NodeInfo>, k: nat)
    requires k < |a| && HasLaterParent(m, a, k)
    ensures HasLaterParent(m, a + t, k)
  {
    var j :| k < j < |a| && IsParentEntry(m, a[j], a[k]);
    assert (a + t)[j] == a[j] && (a + t)[k] == a[k];
  }

  lemma LaterParentInSuffix(m: NodeMap, a: seq<NodeInfo>, t: seq<NodeInfo>, k: nat)
    requires k < |t| && HasLaterParent(m, t, k)
    ensures HasLaterParent(m, a + t, |a| + k)
  {
    var j :| k < j < |t| && IsParentEntry(m, t[j], t[k]);
    assert (a + t)[|a| + j] == t[j] && (a + t)[|a| + k] == t[k];
  }

  /** The children of a stored node with an issued handle satisfy what
      `Forest` asks of its list. */
  lemma ChildrenListed(m: NodeMap, bound: nat, h: Handle)
    requires Linked(m, bound) && h in m && h < bound
    ensures var cs := m[h].children;
      forall i :: 0 <= i < |cs| ==> cs[i] in m && h < cs[i] < bound
  {
  }

  /** `e` is the entry of one of the handles `cs` listed under `parent`. */
  predicate IsChildEntry(m: NodeMap, parent: NodeInfo, cs: seq<Handle>, e: NodeInfo)
  {
    e.handle in cs && e.handle in m && e == ChildInfo(m, parent, e.handle)
  }

  /** Every entry of `f` either has its parent's entry later in `f` or is the
      entry of one of `cs`. */
  predicate ForestShaped(m: NodeMap, parent: NodeInfo, cs: seq<Handle>, f: seq<NodeInfo>)
  {
    forall k :: 0 <= k < |f| ==> HasLaterParent(m, f, k) || IsChildEntry(m, parent, cs, f[k])
  }

  /** Every entry of `s` is at depth `d` or deeper. */
  predicate NoShallowerThan(s: seq<NodeInfo>, d: nat)
  {
    forall k :: 0 <= k < |s| ==> s[k].depth >= d
  }

  /** Every entry of `s` is shallower than `d`. */
  predicate AllShallowerThan(s: seq<NodeInfo>, d: nat)
  {
    forall k :: 0 <= k < |s| ==> s[k].depth < d
  }

  /** Post-order, rectangle, depth and alpha of a forest: every entry either
      has its parent's entry later in the forest, or is the entry of one of
      the listed children of `parent`. */
  lemma {:induction false} ForestShape(m: NodeMap, bound: nat, parent: NodeInfo, cs: seq<Handle>)
    requires Linked(m, bound) && parent.handle in m && parent.handle < bound
    requires forall i :: 0 <= i < |cs| ==> cs[i] in m && parent.handle < cs[i] < bound
    ensures ForestShaped(m, parent, cs, Forest(m, bound, parent, cs))
    decreases bound - parent.handle, |cs|
  {
    if cs != [] {
      var cs' := cs[..|cs| - 1];
      var c := cs[|cs| - 1];
      ForestShape(m, bound, parent, cs');
      var ci := ChildInfo(m, parent, c);
      SubtreeShape(m, bound, ci);
      var f' := Forest(m, bound, parent, cs');
      var t := Subtree(m, bound, ci);
      var f := f' + t;
      assert f == Forest(m, bound, parent, cs);
      forall k | 0 <= k < |f|
        ensures HasLaterParent(m, f, k) || IsChildEntry(m, parent, cs, f[k])
      {
        if k < |f'| {
          assert f[k] == f'[k];
          if HasLaterParent(m, f', k) {
            LaterParentInPrefix(m, f', t, k);
          } else {
            assert IsChildEntry(m, parent, cs', f'[k]);
            assert f'[k].handle in cs;
          }
        } else {
          var k' := k - |f'|;
          assert f[k] == t[k'];
          if k' < |t| - 1 {
            LaterParentInSuffix(m, f', t, k');
          } else {
            assert t[k'] == ci;
          }
        }
      }
    }
  }

  /** Post-order, rectangle, depth and alpha of a subtree: it ends with the
      node's own entry, and every other entry has its parent's entry later
      on. */
  lemma {:induction false} SubtreeShape(m: NodeMap, bound: nat, info: NodeInfo)
    requires Linked(m, bound) && info.handle in m && info.handle < bound
    ensures Subtree(m, bound, info)[|Subtree(m, bound, info)| - 1] == info
    ensures forall k :: 0 <= k < |Subtree(m, bound, info)| - 1 ==> HasLaterParent(m, Subtree(m, bound, info), k)
    decreases bound - info.handle, |m[info.handle].children| + 1
  {
    var cs := m[info.handle].children;
    ChildrenListed(m, bound, info.handle);
    ForestShape(m, bound, info, cs);
    var f := Forest(m, bound, info, cs);
    var s := f + [info];
    assert s == Subtree(m, bound, info);
    forall k | 0 <= k < |s| - 1
      ensures HasLaterParent(m, s, k)
    {
      assert s[k] == f[k];
      if HasLaterParent(m, f, k) {
        LaterParentInPrefix(m, f, [info], k);
      } else {
        assert IsChildEntry(m, info, cs, f[k]);
        assert IsParentEntry(m, s[|s| - 1], s[k]);
      }
    }
  }

  /** Every entry of a forest is deeper than the parent. */
  lemma {:induction false} ForestDepths(m: NodeMap, bound: nat, parent: NodeInfo, cs: seq<Handle>)
    requires Linked(m, bound) && parent.handle in m && parent.handle < bound
    requires forall i :: 0 <= i < |cs| ==> cs[i] in m && parent.handle < cs[i] < bound
    ensures NoShallowerThan(Forest(m, bound, parent, cs), parent.depth + 1)
    decreases bound - parent.handle, |cs|
  {
    if cs != [] {
      var cs' := cs[..|cs| - 1];
      var ci := ChildInfo(m, parent, cs[|cs| - 1]);
      ForestDepths(m, bound, parent, cs');
      SubtreeDepths(m, bound, ci);
      var f': seq<NodeInfo> := Forest(m, bound, parent, cs');
      var t: seq<NodeInfo> := Subtree(m, bound, ci);
      var f := f' + t;
      assert Forest(m, bound, parent, cs) == f;
      forall k | 0 <= k < |f|
        ensures f[k].depth >= parent.depth + 1
      {
        if k < |f'| {
          assert f[k] == f'[k];
        } else {
          assert f[k] == t[k - |f'|];
        }
      }
    }
  }

  /** No entry of a subtree is shallower than its root. */
  lemma {:induction false} SubtreeDepths(m: NodeMap, bound: nat, info: NodeInfo)
    requires Linked(m, bound) && info.handle in m && info.handle < bound
    ensures NoShallowerThan(Subtree(m, bound, info), info.depth)
    decreases bound - info.handle, |m[info.handle].children| + 1
  {
    ChildrenListed(m, bound, info.handle);
    var f := Forest(m, bound, info, m[info.handle].children);
    ForestDepths(m, bound, info, m[info.handle].children);
    var s := f + [info];
    assert s == Subtree(m, bound, info);
    forall k | 0 <= k < |s|
      ensures s[k].depth >= info.depth
    {
      if k < |f| {
        assert s[k] == f[k];
      }
    }
  }

  /** Depth bands: every entry emitted for the roots so far is shallower than
      the depth the next root starts at, and the next root's whole subtree is
      at that depth or deeper, so the per-root bands are disjoint and
      increasing.  The first root starts at depth 0. */
  lemma RootBands(m: NodeMap, bound: nat, rs: seq<Handle>, r: Handle, screen: AbsRect)
    requires Linked(m, bound) && RootsListed(m, rs, bound) && r in m && r < bound
    ensures RootsListed(m, rs + [r], bound)
    ensures rs == [] ==> RootsWalk(m, bound, rs, screen).1 == 0
    ensures AllShallowerThan(RootsWalk(m, bound, rs, screen).0, RootsWalk(m, bound, rs, screen).1)
    ensures NoShallowerThan(Subtree(m, bound, RootInfo(m, r, RootsWalk(m, bound, rs, screen).1, screen)),
                            RootsWalk(m, bound, rs, screen).1)
    ensures RootsWalk(m, bound, rs + [r], screen).0
      == RootsWalk(m, bound, rs, screen).0
         + Subtree(m, bound, RootInfo(m, r, RootsWalk(m, bound, rs, screen).1, screen))
  {
    assert (rs + [r])[..|rs + [r]| - 1] == rs;
    BelowNextStart(m, bound, rs, screen);
    var md := RootsWalk(m, bound, rs, screen).1;
    SubtreeDepths(m, bound, RootInfo(m, r, md, screen));
  }

  /** Every entry of the walk over `rs` is shallower than the next start. */
  lemma {:induction false} BelowNextStart(m: NodeMap, bound: nat, rs: seq<Handle>, screen: AbsRect)
    requires Linked(m, bound) && RootsListed(m, rs, bound)
    ensures AllShallowerThan(RootsWalk(m, bound, rs, screen).0, RootsWalk(m, bound, rs, screen).1)
  {
    if rs != [] {
      var rs' := rs[..|rs| - 1];
      assert RootsListed(m, rs', bound);
      BelowNextStart(m, bound, rs', screen);
      var (out', md') := RootsWalk(m, bound, rs', screen);
      var sub: seq<NodeInfo> := Subtree(m, bound, RootInfo(m, rs[|rs| - 1], md', screen));
      var md := MaxDepth(sub, md') + 1;
      var out: seq<NodeInfo> := out' + sub;
      assert RootsWalk(m, bound, rs, screen) == (out, md);
      forall k | 0 <= k < |out|
        ensures out[k].depth < md
      {
        if k < |out'| {
          assert out[k] == out'[k];
        } else {
          assert out[k] == sub[k - |out'|];
        }
      }
    }
  }

  /** Every entry of `s` names a stored node. */
  predicate AllStored(m: NodeMap, s: seq<NodeInfo>)
  {
    forall k :: 0 <= k < |s| ==> s[k].handle in m
  }

  /** The walk only ever visits stored nodes: the last entry of a subtree is
      its root and every other entry has a parent entry, which checks that
      the handle is stored. */
  lemma {:induction false} RootsWalkStored(m: NodeMap, bound: nat, rs: seq<Handle>, screen: AbsRect)
    requires Linked(m, bound) && RootsListed(m, rs, bound)
    ensures AllStored(m, RootsWalk(m, bound, rs, screen).0)
  {
    if rs != [] {
      var rs' := rs[..|rs| - 1];
      assert RootsListed(m, rs', bound);
      RootsWalkStored(m, bound, rs', screen);
      var (out', md') := RootsWalk(m, bound, rs', screen);
      var ri := RootInfo(m, rs[|rs| - 1], md', screen);
      SubtreeShape(m, bound, ri);
      var sub: seq<NodeInfo> := Subtree(m, bound, ri);
      var out: seq<NodeInfo> := out' + sub;
      assert RootsWalk(m, bound, rs, screen).0 == out;
      forall k | 0 <= k < |out|
        ensures out[k].handle in m
      {
        if k < |out'| {
          assert out[k] == out'[k];
        } else {
          var k' := k - |out'|;
          assert out[k] == sub[k'];
          if k' < |sub| - 1 {
            assert HasLaterParent(m, sub, k');
          }
        }
      }
    }
  }

  // ----- One parent per node -----------------------------------------------------

  /** No handle is listed twice: the roots are distinct, no root is listed as
      anyone's child, and every handle appears at most once among the children
      lists of the stored nodes.  With `Linked` this makes the listed nodes a
      forest, which is what lets the walk emit each of them once. */
  predicate Unshared(m: NodeMap, roots: seq<Handle>)
  {
    && (forall i, j :: 0 <= i < j < |roots| ==> roots[i] != roots[j])
    && (forall k, i :: k in m && 0 <= i < |m[k].children| ==> m[k].children[i] !in roots)
    && OneParent(m)
  }

  /** A listed handle has one parent, at one position of its children list. */
  predicate OneParent(m: NodeMap)
  {
    forall k1, i1, k2, i2 {:trigger m[k1].children[i1], m[k2].children[i2]} ::
      k1 in m && k2 in m && 0 <= i1 < |m[k1].children| && 0 <= i2 < |m[k2].children|
      && m[k1].children[i1] == m[k2].children[i2]
      ==> k1 == k2 && i1 == i2
  }

  /** Attaching the fresh handle `id` (no listed handle reaches it yet) lists
      it exactly once: at the end of the parent's children, or as a new last
      root. */
  lemma AttachKeepsUnshared(m: NodeMap, roots: seq<Handle>, parent: Option<Handle>, id: Handle, e: UiElement)
    requires Linked(m, id) && RootsListed(m, roots, id) && Unshared(m, roots)
    requires parent.Some? ==> parent.value in m
    ensures Unshared(Attach(m, parent, id, e), if parent.None? then roots + [id] else roots)
  {
    var m' := Attach(m, parent, id, e);
    var roots' := if parent.None? then roots + [id] else roots;
    // every listing of `m'` is one of `m`, or the new one at the parent's end
    forall k, i | k in m' && 0 <= i < |m'[k].children|
      ensures k != id && k in m
      ensures if parent == Some(k) && i == |m[k].children| then m'[k].children[i] == id
              else i < |m[k].children| && m'[k].children[i] == m[k].children[i]
    {
      if parent == Some(k) {
        assert m'[k].children == m[k].children + [id];
      } else {
        assert m'[k] == m[k];
      }
    }
    forall i, j | 0 <= i < j < |roots'|
      ensures roots'[i] != roots'[j]
    {
      if j == |roots| {
        assert roots'[j] == id && roots'[i] == roots[i];
      } else {
        assert roots'[i] == roots[i] && roots'[j] == roots[j];
      }
    }
    forall k1, i1, k2, i2 |
      k1 in m' && k2 in m' && 0 <= i1 < |m'[k1].children| && 0 <= i2 < |m'[k2].children|
      && m'[k1].children[i1] == m'[k2].children[i2]
      ensures k1 == k2 && i1 == i2
    {
      if !(parent == Some(k1) && i1 == |m[k1].children|) && !(parent == Some(k2) && i2 == |m[k2].children|) {
        assert m[k1].children[i1] == m[k2].children[i2];
      }
    }
  }

  /** Replacing one node by a node with the same children, or storing a
      childless node at a fresh key, keeps every listing as it was. */
  lemma ReplaceKeepsUnshared(m: NodeMap, roots: seq<Handle>, id: Handle, n: UiNode)
    requires Unshared(m, roots)
    requires n.children == if id in m then m[id].children else []
    ensures Unshared(m[id := n], roots)
  {
    var m' := m[id := n];
    forall k, i | k in m' && 0 <= i < |m'[k].children|
      ensures k in m && i < |m[k].children| && m'[k].children[i] == m[k].children[i]
    {
    }
  }

  /** The handles below `h`: `h` and all it reaches through children lists. */
  ghost function Reach(m: NodeMap, bound: nat, h: Handle): set<Handle>
    requires Linked(m, bound) && h in m && h < bound
    decreases bound - h, 1
  {
    {h} + ReachAll(m, bound, h, m[h].children)
  }

  /** The handles below the children `cs` of `p`. */
  ghost function ReachAll(m: NodeMap, bound: nat, p: Handle, cs: seq<Handle>): set<Handle>
    requires Linked(m, bound)
    requires forall i :: 0 <= i < |cs| ==> cs[i] in m && p < cs[i] < bound
    decreases bound - p, 0, |cs|
  {
    if cs == [] then {}
    else ReachAll(m, bound, p, cs[..|cs| - 1]) + Reach(m, bound, cs[|cs| - 1])
  }

  /** What is reachable from `h` is stored, issued and no smaller than `h`. */
  lemma {:induction false} ReachBounds(m: NodeMap, bound: nat, h: Handle)
    requires Linked(m, bound) && h in m && h < bound
    ensures forall x :: x in Reach(m, bound, h) ==> x in m && h <= x < bound
    decreases bound - h, 1
  {
    ReachAllBounds(m, bound, h, m[h].children);
  }

  /** What is reachable from the children `cs` of `p` is stored, issued and
      above `p`. */
  lemma {:induction false} ReachAllBounds(m: NodeMap, bound: nat, p: Handle, cs: seq<Handle>)
    requires Linked(m, bound)
    requires forall i :: 0 <= i < |cs| ==> cs[i] in m && p < cs[i] < bound
    ensures forall x :: x in ReachAll(m, bound, p, cs) ==> x in m && p < x < bound
    decreases bound - p, 0, |cs|
  {
    if cs != [] {
      ReachAllBounds(m, bound, p, cs[..|cs| - 1]);
      ReachBounds(m, bound, cs[|cs| - 1]);
    }
  }

  /** What is reachable from the children `cs` is reachable from one child. */
  lemma {:induction false} ReachAllFrom(m: NodeMap, bound: nat, p: Handle, cs: seq<Handle>, x: Handle)
    requires Linked(m, bound)
    requires forall i :: 0 <= i < |cs| ==> cs[i] in m && p < cs[i] < bound
    requires x in ReachAll(m, bound, p, cs)
    ensures exists i :: 0 <= i < |cs| && x in Reach(m, bound, cs[i])
    decreases |cs|
  {
    var cs' := cs[..|cs| - 1];
    if x in ReachAll(m, bound, p, cs') {
      ReachAllFrom(m, bound, p, cs', x);
      var i :| 0 <= i < |cs'| && x in Reach(m, bound, cs'[i]);
      assert cs'[i] == cs[i];
    } else {
      assert x in Reach(m, bound, cs[|cs| - 1]);
    }
  }

  /** What is reachable from one of the children `cs` is reachable from `cs`. */
  lemma {:induction false} ReachAllCovers(m: NodeMap, bound: nat, p: Handle, cs: seq<Handle>, i: nat)
    requires Linked(m, bound)
    requires forall i :: 0 <= i < |cs| ==> cs[i] in m && p < cs[i] < bound
    requires i < |cs|
    ensures Reach(m, bound, cs[i]) <= ReachAll(m, bound, p, cs)
    decreases |cs|
  {
    var cs' := cs[..|cs| - 1];
    if i < |cs'| {
      ReachAllCovers(m, bound, p, cs', i);
      assert cs'[i] == cs[i];
    }
  }

  /** A handle below `w` other than `w` itself is listed by a node below `w`. */
  lemma {:induction false} ParentInReach(m: NodeMap, bound: nat, w: Handle, z: Handle)
    requires Linked(m, bound) && w in m && w < bound
    ensures z in Reach(m, bound, w) && z != w ==>
      exists y, i :: y in Reach(m, bound, w) && y in m
                  && 0 <= i < |m[y].children| && m[y].children[i] == z
    decreases bound - w
  {
    if z in Reach(m, bound, w) && z != w {
      var cs := m[w].children;
      ReachAllFrom(m, bound, w, cs, z);
      var j :| 0 <= j < |cs| && z in Reach(m, bound, cs[j]);
      if z == cs[j] {
        assert w in Reach(m, bound, w);
      } else {
        ParentInReach(m, bound, cs[j], z);
        var y, i :| y in Reach(m, bound, cs[j]) && y in m && 0 <= i < |m[y].children| && m[y].children[i] == z;
        ReachAllCovers(m, bound, w, cs, j);
        assert y in Reach(m, bound, w);
      }
    }
  }

  /** Two nodes whose reaches meet lie one below the other: following the
      single parent upwards from a common handle meets both. */
  lemma {:induction false} Confluent(m: NodeMap, bound: nat, a: Handle, b: Handle, x: Handle)
    requires Linked(m, bound) && OneParent(m)
    requires a in m && a < bound && b in m && b < bound
    ensures x in Reach(m, bound, a) && x in Reach(m, bound, b) ==>
      a in Reach(m, bound, b) || b in Reach(m, bound, a)
    decreases x
  {
    if x in Reach(m, bound, a) && x in Reach(m, bound, b) {
      if x != a && x != b {
        ParentInReach(m, bound, a, x);
        ParentInReach(m, bound, b, x);
        var ya, ia :| ya in Reach(m, bound, a) && ya in m && 0 <= ia < |m[ya].children| && m[ya].children[ia] == x;
        var yb, ib :| yb in Reach(m, bound, b) && yb in m && 0 <= ib < |m[yb].children| && m[yb].children[ib] == x;
        ReachBounds(m, bound, a);
        assert ya == yb;
        Confluent(m, bound, a, b, ya);
      } else {
        assert x in Reach(m, bound, x);
      }
    }
  }

  /** Different children of one node have disjoint reaches. */
  lemma SiblingsApart(m: NodeMap, bound: nat, h: Handle, i: nat, j: nat)
    requires Linked(m, bound) && OneParent(m) && h in m && h < bound
    requires i < j < |m[h].children|
    ensures Reach(m, bound, m[h].children[i]) !! Reach(m, bound, m[h].children[j])
  {
    var ci, cj := m[h].children[i], m[h].children[j];
    NotBelowSibling(m, bound, h, i, j);
    NotBelowSibling(m, bound, h, j, i);
    forall x
      ensures !(x in Reach(m, bound, ci) && x in Reach(m, bound, cj))
    {
      Confluent(m, bound, ci, cj, x);
    }
  }

  /** A child is not below a sibling: its only parent is above the sibling. */
  lemma NotBelowSibling(m: NodeMap, bound: nat, h: Handle, i: nat, j: nat)
    requires Linked(m, bound) && OneParent(m) && h in m && h < bound
    requires i < |m[h].children| && j < |m[h].children| && i != j
    ensures m[h].children[i] !in Reach(m, bound, m[h].children[j])
  {
    var ci, cj := m[h].children[i], m[h].children[j];
    ParentInReach(m, bound, cj, ci);
    ReachBounds(m, bound, cj);
  }

  /** Different roots have disjoint reaches. */
  lemma RootsApart(m: NodeMap, bound: nat, rs: seq<Handle>, i: nat, j: nat)
    requires Linked(m, bound) && RootsListed(m, rs, bound) && Unshared(m, rs)
    requires i < |rs| && j < |rs| && i != j
    ensures Reach(m, bound, rs[i]) !! Reach(m, bound, rs[j])
  {
    RootNotBelow(m, bound, rs, i, j);
    RootNotBelow(m, bound, rs, j, i);
    forall x
      ensures !(x in Reach(m, bound, rs[i]) && x in Reach(m, bound, rs[j]))
    {
      Confluent(m, bound, rs[i], rs[j], x);
    }
  }

  /** A root is not below another root: no stored node lists it. */
  lemma RootNotBelow(m: NodeMap, bound: nat, rs: seq<Handle>, i: nat, j: nat)
    requires Linked(m, bound) && RootsListed(m, rs, bound) && Unshared(m, rs)
    requires i < |rs| && j < |rs| && i != j
    ensures rs[i] !in Reach(m, bound, rs[j])
  {
    ParentInReach(m, bound, rs[j], rs[i]);
  }

  /** No two entries of `s` are for the same node. */
  predicate HandlesDistinct(s: seq<NodeInfo>)
  {
    forall i, j :: 0 <= i < j < |s| ==> s[i].handle != s[j].handle
  }

  /** Every entry of `s` is for a node of `hs`. */
  predicate HandlesIn(s: seq<NodeInfo>, hs: set<Handle>)
  {
    forall k :: 0 <= k < |s| ==> s[k].handle in hs
  }

  /** A subtree names only nodes below its root, none of them twice. */
  lemma {:induction false} SubtreeOnce(m: NodeMap, bound: nat, info: NodeInfo)
    requires Linked(m, bound) && OneParent(m) && info.handle in m && info.handle < bound
    ensures HandlesIn(Subtree(m, bound, info), Reach(m, bound, info.handle))
    ensures HandlesDistinct(Subtree(m, bound, info))
    decreases bound - info.handle, |m[info.handle].children| + 1
  {
    var cs := m[info.handle].children;
    ForestOnce(m, bound, info, |cs|);
    assert cs[..|cs|] == cs;
    ReachAllBounds(m, bound, info.handle, cs);
    var f := Forest(m, bound, info, cs);
    var s := f + [info];
    forall k | 0 <= k < |s|
      ensures s[k].handle in Reach(m, bound, info.handle)
    {
      if k < |f| {
        assert s[k] == f[k];
      }
    }
    forall i, j | 0 <= i < j < |s|
      ensures s[i].handle != s[j].handle
    {
      assert s[i] == f[i];
      if j < |f| {
        assert s[j] == f[j];
      }
    }
  }

  /** The subtrees of the first `n` children name only nodes below those
      children, none of them twice. */
  lemma {:induction false} ForestOnce(m: NodeMap, bound: nat, parent: NodeInfo, n: nat)
    requires Linked(m, bound) && OneParent(m) && parent.handle in m && parent.handle < bound
    requires n <= |m[parent.handle].children|
    ensures HandlesIn(Forest(m, bound, parent, m[parent.handle].children[..n]),
                      ReachAll(m, bound, parent.handle, m[parent.handle].children[..n]))
    ensures HandlesDistinct(Forest(m, bound, parent, m[parent.handle].children[..n]))
    decreases bound - parent.handle, n
  {
    var h := parent.handle;
    var cs := m[h].children[..n];
    if n > 0 {
      var cs' := m[h].children[..n - 1];
      var c := m[h].children[n - 1];
      assert cs[..|cs| - 1] == cs' && cs[|cs| - 1] == c;
      ForestOnce(m, bound, parent, n - 1);
      SubtreeOnce(m, bound, ChildInfo(m, parent, c));
      var f' := Forest(m, bound, parent, cs');
      var sub := Subtree(m, bound, ChildInfo(m, parent, c));
      var f := f' + sub;
      assert Forest(m, bound, parent, cs) == f;
      assert ReachAll(m, bound, h, cs) == ReachAll(m, bound, h, cs') + Reach(m, bound, c);
      forall k | 0 <= k < |f|
        ensures f[k].handle in ReachAll(m, bound, h, cs)
      {
        if k < |f'| {
          assert f[k] == f'[k];
        } else {
          assert f[k] == sub[k - |f'|];
        }
      }
      forall i, j | 0 <= i < j < |f|
        ensures f[i].handle != f[j].handle
      {
        if j < |f'| {
          assert f[i] == f'[i] && f[j] == f'[j];
        } else if i >= |f'| {
          assert f[i] == sub[i - |f'|] && f[j] == sub[j - |f'|];
        } else {
          assert f[i] == f'[i] && f[j] == sub[j - |f'|];
          ReachAllFrom(m, bound, h, cs', f'[i].handle);
          var t :| 0 <= t < |cs'| && f'[i].handle in Reach(m, bound, cs'[t]);
          SiblingsApart(m, bound, h, t, n - 1);
        }
      }
    }
  }

  /** Some entry of `s` is for the node `x`. */
  predicate Names(s: seq<NodeInfo>, x: Handle)
  {
    exists k :: 0 <= k < |s| && s[k].handle == x
  }

  /** A subtree has an entry for every node below its root; with
      `SubtreeOnce`, each node below the root exactly once. */
  lemma {:induction false} SubtreeCovers(m: NodeMap, bound: nat, info: NodeInfo, x: Handle)
    requires Linked(m, bound) && info.handle in m && info.handle < bound
    ensures x in Reach(m, bound, info.handle) ==> Names(Subtree(m, bound, info), x)
    decreases bound - info.handle, |m[info.handle].children| + 1
  {
    var cs := m[info.handle].children;
    var f := Forest(m, bound, info, cs);
    var s := f + [info];
    assert Subtree(m, bound, info) == s;
    if x == info.handle {
      assert s[|f|].handle == x;
    } else if x in Reach(m, bound, info.handle) {
      assert cs[..|cs|] == cs;
      ForestCovers(m, bound, info, |cs|, x);
      var k :| 0 <= k < |f| && f[k].handle == x;
      assert s[k] == f[k];
    }
  }

  /** The subtrees of the first `n` children have an entry for every node
      below those children. */
  lemma {:induction false} ForestCovers(m: NodeMap, bound: nat, parent: NodeInfo, n: nat, x: Handle)
    requires Linked(m, bound) && parent.handle in m && parent.handle < bound
    requires n <= |m[parent.handle].children|
    ensures x in ReachAll(m, bound, parent.handle, m[parent.handle].children[..n]) ==>
      Names(Forest(m, bound, parent, m[parent.handle].children[..n]), x)
    decreases bound - parent.handle, n
  {
    var h := parent.handle;
    var cs := m[h].children[..n];
    if n > 0 && x in ReachAll(m, bound, h, cs) {
      var cs' := m[h].children[..n - 1];
      var c := m[h].children[n - 1];
      assert cs[..|cs| - 1] == cs' && cs[|cs| - 1] == c;
      var ci := ChildInfo(m, parent, c);
      var f' := Forest(m, bound, parent, cs');
      var sub := Subtree(m, bound, ci);
      var f := f' + sub;
      assert Forest(m, bound, parent, cs) == f;
      assert ReachAll(m, bound, h, cs) == ReachAll(m, bound, h, cs') + Reach(m, bound, c);
      if x in ReachAll(m, bound, h, cs') {
        ForestCovers(m, bound, parent, n - 1, x);
        var k :| 0 <= k < |f'| && f'[k].handle == x;
        assert f[k] == f'[k];
      } else {
        SubtreeCovers(m, bound, ci, x);
        var k :| 0 <= k < |sub| && sub[k].handle == x;
        assert f[|f'| + k] == sub[k];
      }
    }
  }

  /** Dropping the last root keeps the roots distinct and parentless. */
  lemma UnsharedPrefix(m: NodeMap, rs: seq<Handle>)
    requires Unshared(m, rs) && rs != []
    ensures Unshared(m, rs[..|rs| - 1])
  {
    var rs' := rs[..|rs| - 1];
    forall k, i | k in m && 0 <= i < |m[k].children|
      ensures m[k].children[i] !in rs'
    {
      assert m[k].children[i] !in rs;
    }
  }

  /** Every entry of the walk over `rs` is for a node below one of `rs`. */
  lemma {:induction false} WalkReach(m: NodeMap, bound: nat, rs: seq<Handle>, screen: AbsRect)
    requires Linked(m, bound) && OneParent(m) && RootsListed(m, rs, bound)
    ensures forall k :: 0 <= k < |RootsWalk(m, bound, rs, screen).0| ==>
      exists i :: 0 <= i < |rs| && RootsWalk(m, bound, rs, screen).0[k].handle in Reach(m, bound, rs[i])
  {
    if rs != [] {
      var n := |rs| - 1;
      var rs' := rs[..n];
      assert RootsListed(m, rs', bound);
      WalkReach(m, bound, rs', screen);
      var (out', md') := RootsWalk(m, bound, rs', screen);
      var ri := RootInfo(m, rs[n], md', screen);
      SubtreeOnce(m, bound, ri);
      var sub := Subtree(m, bound, ri);
      var out := out' + sub;
      assert RootsWalk(m, bound, rs, screen).0 == out;
      forall k | 0 <= k < |out|
        ensures exists i :: 0 <= i < |rs| && out[k].handle in Reach(m, bound, rs[i])
      {
        if k < |out'| {
          assert out[k] == out'[k];
          var i :| 0 <= i < |rs'| && out'[k].handle in Reach(m, bound, rs'[i]);
          assert rs'[i] == rs[i];
        } else {
          assert out[k] == sub[k - |out'|];
          assert out[k].handle in Reach(m, bound, rs[n]);
        }
      }
    } else {
      assert RootsWalk(m, bound, rs, screen).0 == [];
    }
  }

  /** The walk over distinct, parentless roots names no node twice: the
      walk is a traversal of a forest, not of a graph with shared nodes. */
  lemma {:induction false} WalkVisitsOnce(m: NodeMap, bound: nat, rs: seq<Handle>, screen: AbsRect)
    requires Linked(m, bound) && RootsListed(m, rs, bound) && Unshared(m, rs)
    ensures HandlesDistinct(RootsWalk(m, bound, rs, screen).0)
  {
    if rs != [] {
      var n := |rs| - 1;
      var rs' := rs[..n];
      assert RootsListed(m, rs', bound);
      UnsharedPrefix(m, rs);
      WalkVisitsOnce(m, bound, rs', screen);
      WalkReach(m, bound, rs', screen);
      var (out', md') := RootsWalk(m, bound, rs', screen);
      var ri := RootInfo(m, rs[n], md', screen);
      SubtreeOnce(m, bound, ri);
      var sub := Subtree(m, bound, ri);
      var out := out' + sub;
      assert RootsWalk(m, bound, rs, screen).0 == out;
      forall i, j | 0 <= i < j < |out|
        ensures out[i].handle != out[j].handle
      {
        if j < |out'| {
          assert out[i] == out'[i] && out[j] == out'[j];
        } else if i >= |out'| {
          assert out[i] == sub[i - |out'|] && out[j] == sub[j - |out'|];
        } else {
          assert out[i] == out'[i] && out[j] == sub[j - |out'|];
          var t :| 0 <= t < |rs'| && out'[i].handle in Reach(m, bound, rs'[t]);
          assert rs'[t] == rs[t];
          RootsApart(m, bound, rs, t, n);
        }
      }
    }
  }

  /** The walk has an entry for every node below every root; with
      `WalkVisitsOnce`, it names each node of the forest exactly once. */
  lemma {:induction false} WalkCovers(m: NodeMap, bound: nat, rs: seq<Handle>, screen: AbsRect, i: nat, x: Handle)
    requires Linked(m, bound) && RootsListed(m, rs, bound) && i < |rs|
    ensures x in Reach(m, bound, rs[i]) ==> Names(RootsWalk(m, bound, rs, screen).0, x)
  {
    var n := |rs| - 1;
    var rs' := rs[..n];
    assert RootsListed(m, rs', bound);
    var (out', md') := RootsWalk(m, bound, rs', screen);
    var ri := RootInfo(m, rs[n], md', screen);
    var sub := Subtree(m, bound, ri);
    var out := out' + sub;
    assert RootsWalk(m, bound, rs, screen).0 == out;
    if x in Reach(m, bound, rs[i]) {
      if i < n {
        assert rs'[i] == rs[i];
        WalkCovers(m, bound, rs', screen, i, x);
        var k :| 0 <= k < |out'| && out'[k].handle == x;
        assert out[k] == out'[k];
      } else {
        SubtreeCovers(m, bound, ri, x);
        var k :| 0 <= k < |sub| && sub[k].handle == x;
        assert out[|out'| + k] == sub[k];
      }
    }
  }

  /** Exactly one entry of `s` is for the node `x`. */
  predicate NamesOnce(s: seq<NodeInfo>, x: Handle)
  {
    exists k :: 0 <= k < |s| && s[k].handle == x
      && forall j :: 0 <= j < |s| && s[j].handle == x ==> j == k
  }

  /** In a forest-shaped arena the walk names every node below a root at
      exactly one position. */
  lemma WalkExactlyOnce(m: NodeMap, bound: nat, rs: seq<Handle>, screen: AbsRect, i: nat, x: Handle)
    requires Linked(m, bound) && RootsListed(m, rs, bound) && Unshared(m, rs) && i < |rs|
    ensures x in Reach(m, bound, rs[i]) ==> NamesOnce(RootsWalk(m, bound, rs, screen).0, x)
  {
    var w := RootsWalk(m, bound, rs, screen).0;
    WalkCovers(m, bound, rs, screen, i, x);
    WalkVisitsOnce(m, bound, rs, screen);
    if x in Reach(m, bound, rs[i]) {
      var k :| 0 <= k < |w| && w[k].handle == x;
      assert NamesOnce(w, x);
    }
  }

  // ----- The arena object -------------------------------------------------------

  class Ui {
    var atlas: FontAtlas
    var textIsDirty: bool
    var winIsDirty: bool
    var imageIsDirty: bool
    var store: NodeMap
    var roots: seq<Handle>
    var nextUnusedId: nat

    ghost predicate Valid()
      reads this
    {
      ValidAtlas(atlas) && Linked(store, nextUnusedId) && RootsListed(store, roots, nextUnusedId)
      && Unshared(store, roots)
    }

    /** `Ui::new` once the atlas is loaded: no nodes, no roots, counter at 1,
        every dirty flag set. */
    constructor (atlas: FontAtlas)
      requires ValidAtlas(atlas)
      ensures Valid()
      ensures this.atlas == atlas && store == map[] && roots == [] && nextUnusedId == 1
      ensures textIsDirty && winIsDirty && imageIsDirty
    {
      this.atlas := atlas;
      textIsDirty, winIsDirty, imageIsDirty := true, true, true;
      store := map[];
      roots := [];
      nextUnusedId := 1;
    }

    /** Allocate the next handle for `element`, under `parent` or as a new
        root.  A parent that is not stored makes the call fail with nothing
        changed (the handle is given back).  Otherwise the dirty flag of the
        element's kind is set. */
    method AddElement(element: UiElement, parent: Option<Handle>) returns (r: Option<Handle>)
      requires Valid()
      modifies this
      ensures Valid() && atlas == old(atlas)
      ensures parent.Some? && parent.value !in old(store) ==>
        && r == None
        && store == old(store) && roots == old(roots) && nextUnusedId == old(nextUnusedId)
        && textIsDirty == old(textIsDirty) && winIsDirty == old(winIsDirty)
        && imageIsDirty == old(imageIsDirty)
      ensures (parent.None? || parent.value in old(store)) ==>
        && r == Some(old(nextUnusedId))
        && nextUnusedId == old(nextUnusedId) + 1
        && store == Attach(old(store), parent, old(nextUnusedId), element)
        && roots == (if parent.None? then old(roots) + [old(nextUnusedId)] else old(roots))
        && textIsDirty == (old(textIsDirty) || element.Text?)
        && winIsDirty == (old(winIsDirty) || element.Window?)
        && imageIsDirty == (old(imageIsDirty) || element.Image?)
    {
      var newId := nextUnusedId;
      nextUnusedId := nextUnusedId + 1;

      if parent.Some? {
        var p := parent.value;
        if p !in store {
          // no such parent: the handle is not used
          nextUnusedId := nextUnusedId - 1;
          return None;
        }
        store := store[p := UiNode(store[p].element, store[p].children + [newId])];
      } else {
        roots := roots + [newId];
      }

      match element {
        case Text(_) => textIsDirty := true;
        case Window(_) => winIsDirty := true;
        case Image(_) => imageIsDirty := true;
      }

      store := store[newId := UiNode(element, [])];
      AttachKeepsLinked(old(store), parent, newId, element);
      AttachKeepsUnshared(old(store), old(roots), parent, newId, element);
      r := Some(newId);
    }

    /** Update the element of `id` in place, keeping its children, or store
        `insert()` childless if `id` is absent.  Always sets text-dirty. */
    method Upsert(id: Handle, insert: () --> UiElement, update: UiElement -> UiElement)
      requires Valid()
      requires id !in store ==> insert.requires()
      modifies this
      ensures Valid() && atlas == old(atlas)
      ensures store == if id in old(store)
        then old(store)[id := UiNode(update(old(store)[id].element), old(store)[id].children)]
        else old(store)[id := UiNode(insert(), [])]
      ensures roots == old(roots) && nextUnusedId == old(nextUnusedId)
      ensures textIsDirty
      ensures winIsDirty == old(winIsDirty) && imageIsDirty == old(imageIsDirty)
    {
      if id in store {
        ReplaceKeepsUnshared(store, roots, id, UiNode(update(store[id].element), store[id].children));
        store := store[id := UiNode(update(store[id].element), store[id].children)];
      } else {
        ReplaceKeepsUnshared(store, roots, id, UiNode(insert(), []));
        store := store[id := UiNode(insert(), [])];
      }
      textIsDirty := true;
    }

    /** Replace the string of the text line `id`.  A missing handle or a
        non-text element gives false and changes nothing. */
    method SetText(id: Handle, text: string) returns (ok: bool)
      requires Valid()
      modifies this
      ensures Valid() && atlas == old(atlas)
      ensures ok <==> id in old(store) && old(store)[id].element.Text?
      ensures ok ==>
        && store == old(store)[id := UiNode(Text(old(store)[id].element.line.(text := text)), old(store)[id].children)]
        && textIsDirty
      ensures !ok ==> store == old(store) && textIsDirty == old(textIsDirty)
      ensures roots == old(roots) && nextUnusedId == old(nextUnusedId)
      ensures winIsDirty == old(winIsDirty) && imageIsDirty == old(imageIsDirty)
    {
      if id !in store {
        return false;
      }
      var node := store[id];
      if node.element.Text? {
        ReplaceKeepsUnshared(store, roots, id, UiNode(Text(node.element.line.(text := text)), node.children));
        store := store[id := UiNode(Text(node.element.line.(text := text)), node.children)];
        textIsDirty := true;
        return true;
      }
      return false;
    }

    method IsTextDirty() returns (b: bool)
      ensures b == textIsDirty
    {
      b := textIsDirty;
    }

    method IsWinDirty() returns (b: bool)
      ensures b == winIsDirty
    {
      b := winIsDirty;
    }

    method IsImageDirty() returns (b: bool)
      ensures b == imageIsDirty
    {
      b := imageIsDirty;
    }

    method ClearTextDirty()
      modifies this`textIsDirty
      ensures !textIsDirty
    {
      textIsDirty := false;
    }

    method ClearWinDirty()
      modifies this`winIsDirty
      ensures !winIsDirty
    {
      winIsDirty := false;
    }

    method ClearImageDirty()
      modifies this`imageIsDirty
      ensures !imageIsDirty
    {
      imageIsDirty := false;
    }

    /** The width of a line of text: the scaled post-draw advances of the
        characters the atlas knows. */
    method GetPixelLength(line: TextLine) returns (cursor: real)
      requires Valid()
      ensures cursor == PixelLength(atlas, Scale(atlas, line.lineheight), line.text)
    {
      var scale := line.lineheight as real / atlas.lineHeight;
      cursor := 0.0;
      var i := 0;
      while i < |line.text|
        invariant 0 <= i <= |line.text|
        invariant cursor == PixelLength(atlas, scale, line.text[..i])
      {
        var ch := line.text[i];
        assert line.text[..i + 1][..i] == line.text[..i];
        if ch in atlas.glyphs {
          cursor := cursor + atlas.glyphs[ch].postDrawAdvance * scale;
        }
        i := i + 1;
      }
      assert line.text[..i] == line.text;
    }

    /** All the walking, up front: the roots in order, each over the whole
        screen. */
    method Walk(width: real, height: real) returns (nodes: seq<NodeInfo>)
      requires Valid()
      ensures nodes == RootsWalk(store, nextUnusedId, roots, AbsRect(0.0, 0.0, width, height)).0
      ensures forall i, j :: 0 <= i < j < |nodes| ==> nodes[i].handle != nodes[j].handle
    {
      var screen := AbsRect(0.0, 0.0, width, height);
      nodes := [];
      var maxdepth: nat := 0; // the depth the next root starts at
      var rootindex := 0;
      while rootindex < |roots|
        invariant 0 <= rootindex <= |roots|
        invariant RootsListed(store, roots[..rootindex], nextUnusedId)
        invariant (nodes, maxdepth) == RootsWalk(store, nextUnusedId, roots[..rootindex], screen)
      {
        var nid := roots[rootindex];
        var rootNode := store[nid];
        var rootInfo := NodeInfo(nid, NodeRect(rootNode.element, screen), maxdepth,
                                 GetAlpha(rootNode.element));
        var children := WalkTree(rootInfo);
        assert roots[..rootindex + 1][..rootindex] == roots[..rootindex];
        maxdepth := MaxDepth(children, maxdepth) + 1;
        nodes := nodes + children;
        rootindex := rootindex + 1;
      }
      assert roots[..rootindex] == roots;
      WalkVisitsOnce(store, nextUnusedId, roots, screen);
    }

    /** The subtree below `parentInfo`, children first, the node itself last. */
    method WalkTree(parentInfo: NodeInfo) returns (output: seq<NodeInfo>)
      requires Valid() && parentInfo.handle in store && parentInfo.handle < nextUnusedId
      ensures output == Subtree(store, nextUnusedId, parentInfo)
      decreases nextUnusedId - parentInfo.handle
    {
      var parentNode := store[parentInfo.handle];
      var cs := parentNode.children;
      ChildrenListed(store, nextUnusedId, parentInfo.handle);
      output := [];
      var i := 0;
      while i < |cs|
        invariant 0 <= i <= |cs|
        invariant output == Forest(store, nextUnusedId, parentInfo, cs[..i])
      {
        var nid := cs[i];
        var childNode := store[nid];
        var childInfo := NodeInfo(nid, NodeRect(childNode.element, parentInfo.rect),
                                  parentInfo.depth + 1,
                                  parentInfo.alpha * GetAlpha(childNode.element));
        var sub := WalkTree(childInfo);
        assert cs[..i + 1][..i] == cs[..i];
        assert childInfo == ChildInfo(store, parentInfo, cs[..i + 1][i]);
        assert Forest(store, nextUnusedId, parentInfo, cs[..i + 1])
            == Forest(store, nextUnusedId, parentInfo, cs[..i]) + sub;
        output := output + sub;
        i := i + 1;
      }
      assert cs[..i] == cs;
      // post-order: the node's own entry last
      output := output + [parentInfo];
    }
  }
}
