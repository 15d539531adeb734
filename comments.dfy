/** `buildCommentTree` from lib/comments.ts: flat comment rows, as the
    database returns them, turned into a forest of nodes whose `children`
    lists are filled in place. */
module Comments {
  import opened Common

  datatype AuthorProfile = AuthorProfile(nickname: string, avatarEmoji: string)

  /** One row of the `comments` table joined with its author's profile. */
  datatype CommentRow = CommentRow(
    id: int,
    postId: int,
    parentId: Option<int>,
    authorId: int,
    content: string,
    depth: int,
    likesCount: int,
    createdAt: string,
    profiles: Option<AuthorProfile>)

  /** A row copied into a node with its own, initially empty, list of children. */
  class CommentNode {
    const row: CommentRow
    var children: seq<CommentNode>

    constructor (row: CommentRow)
      ensures this.row == row && children == []
    {
      this.row := row;
      children := [];
    }
  }

  // ---------------------------------------------------------------------
  // Specification: what the two loops compute, as functions of the input.
  // ---------------------------------------------------------------------

  /** The ids of the first `n` rows. */
  function IdsUpTo(flat: seq<CommentRow>, n: nat): (r: set<int>)
    requires n <= |flat|
    ensures forall k :: 0 <= k < n ==> flat[k].id in r
  {
    if n == 0 then {} else IdsUpTo(flat, n - 1) + {flat[n - 1].id}
  }

  /** The `Map` after the first loop has stored the first `n` rows:
      `map.set(row.id, …)` for each in turn. */
  function RowMapUpTo(flat: seq<CommentRow>, n: nat): (m: map<int, CommentRow>)
    requires n <= |flat|
    ensures m.Keys == IdsUpTo(flat, n)
  {
    if n == 0 then map[] else RowMapUpTo(flat, n - 1)[flat[n - 1].id := flat[n - 1]]
  }

  /** The `Map`'s keys, in its iteration order, after the first `n` rows:
      `set` on a new key appends it, `set` on a present key keeps its place. */
  function KeysUpTo(flat: seq<CommentRow>, n: nat): seq<int>
    requires n <= |flat|
  {
    if n == 0 then []
    else
      var p := KeysUpTo(flat, n - 1);
      if flat[n - 1].id in IdsUpTo(flat, n - 1) then p else p + [flat[n - 1].id]
  }

  /** A key is in the `Map` exactly when some row carries it. */
  lemma {:induction false} KeysUpToHas(flat: seq<CommentRow>, n: nat, x: int)
    requires n <= |flat|
    ensures x in KeysUpTo(flat, n) <==> x in IdsUpTo(flat, n)
  {
    if n > 0 {
      KeysUpToHas(flat, n - 1, x);
    }
  }

  /** The ids that occur in the input. */
  function Ids(flat: seq<CommentRow>): set<int> {
    IdsUpTo(flat, |flat|)
  }

  /** The `Map` after the first loop. */
  function RowMap(flat: seq<CommentRow>): (m: map<int, CommentRow>)
    ensures m.Keys == Ids(flat)
  {
    RowMapUpTo(flat, |flat|)
  }

  /** The ids in the order the `Map` iterates them. */
  function Keys(flat: seq<CommentRow>): (r: seq<int>)
    ensures forall x :: x in r <==> x in Ids(flat)
  {
    KeysHas(flat);
    KeysUpTo(flat, |flat|)
  }

  lemma KeysHas(flat: seq<CommentRow>)
    ensures forall x :: x in KeysUpTo(flat, |flat|) <==> x in Ids(flat)
  {
    forall x {
      KeysUpToHas(flat, |flat|, x);
    }
  }

  /** Position of the first row carrying id `x` among the first `n`. */
  function FirstIndexUpTo(flat: seq<CommentRow>, n: nat, x: int): (k: nat)
    requires n <= |flat| && x in IdsUpTo(flat, n)
    ensures k < n && flat[k].id == x
  {
    if x in IdsUpTo(flat, n - 1) then FirstIndexUpTo(flat, n - 1, x) else n - 1
  }

  /** Position of the last row carrying id `x` among the first `n`. */
  function LastIndexUpTo(flat: seq<CommentRow>, n: nat, x: int): (k: nat)
    requires n <= |flat| && x in IdsUpTo(flat, n)
    ensures k < n && flat[k].id == x
  {
    if flat[n - 1].id == x then n - 1 else LastIndexUpTo(flat, n - 1, x)
  }

  /** Position of the first row carrying id `x`. */
  function FirstIndex(flat: seq<CommentRow>, x: int): (k: nat)
    requires x in Ids(flat)
    ensures k < |flat| && flat[k].id == x
    ensures forall k' :: 0 <= k' < k ==> flat[k'].id != x
  {
    FirstIndexIsFirst(flat, |flat|, x);
    FirstIndexUpTo(flat, |flat|, x)
  }

  /** Position of the last row carrying id `x`. */
  function LastIndex(flat: seq<CommentRow>, x: int): (k: nat)
    requires x in Ids(flat)
    ensures k < |flat| && flat[k].id == x
    ensures forall k' :: k < k' < |flat| ==> flat[k'].id != x
  {
    LastIndexIsLast(flat, |flat|, x);
    LastIndexUpTo(flat, |flat|, x)
  }

  lemma {:induction false} FirstIndexIsFirst(flat: seq<CommentRow>, n: nat, x: int)
    requires n <= |flat| && x in IdsUpTo(flat, n)
    ensures forall k' :: 0 <= k' < FirstIndexUpTo(flat, n, x) ==> flat[k'].id != x
  {
    if x in IdsUpTo(flat, n - 1) {
      FirstIndexIsFirst(flat, n - 1, x);
    }
  }

  lemma {:induction false} LastIndexIsLast(flat: seq<CommentRow>, n: nat, x: int)
    requires n <= |flat| && x in IdsUpTo(flat, n)
    ensures forall k' :: LastIndexUpTo(flat, n, x) < k' < n ==> flat[k'].id != x
  {
    if flat[n - 1].id != x {
      LastIndexIsLast(flat, n - 1, x);
    }
  }

  lemma {:induction false} RowMapHoldsLastRowUpTo(flat: seq<CommentRow>, n: nat, x: int)
    requires n <= |flat| && x in IdsUpTo(flat, n)
    ensures RowMapUpTo(flat, n)[x] == flat[LastIndexUpTo(flat, n, x)]
  {
    if flat[n - 1].id != x {
      RowMapHoldsLastRowUpTo(flat, n - 1, x);
    }
  }

  /** With duplicate ids, the node holds the LAST row carrying the id. */
  lemma RowMapHoldsLastRow(flat: seq<CommentRow>, x: int)
    requires x in Ids(flat)
    ensures RowMap(flat)[x] == flat[LastIndex(flat, x)]
    ensures RowMap(flat)[x].id == x
  {
    RowMapHoldsLastRowUpTo(flat, |flat|, x);
  }

  lemma {:induction false} KeysOrderedPair(flat: seq<CommentRow>, n: nat, i: nat, j: nat)
    requires n <= |flat| && i < j < |KeysUpTo(flat, n)|
    ensures KeysUpTo(flat, n)[i] in IdsUpTo(flat, n) && KeysUpTo(flat, n)[j] in IdsUpTo(flat, n)
    ensures FirstIndexUpTo(flat, n, KeysUpTo(flat, n)[i]) < FirstIndexUpTo(flat, n, KeysUpTo(flat, n)[j])
  {
    FillStep(flat, n - 1);
    var pre, id := KeysUpTo(flat, n - 1), flat[n - 1].id;
    var keys := KeysUpTo(flat, n);
    assert keys[i] == pre[i];
    KeysUpToHas(flat, n - 1, pre[i]);
    assert FirstIndexUpTo(flat, n, pre[i]) == FirstIndexUpTo(flat, n - 1, pre[i]);
    if j < |pre| {
      assert keys[j] == pre[j];
      KeysOrderedPair(flat, n - 1, i, j);
      KeysUpToHas(flat, n - 1, pre[j]);
      assert FirstIndexUpTo(flat, n, pre[j]) == FirstIndexUpTo(flat, n - 1, pre[j]);
    } else {
      assert keys == pre + [id] && keys[j] == id;
      assert FirstIndexUpTo(flat, n, id) == n - 1;
    }
  }

  /** The `Map` iterates ids in the order of their first appearance in the
      input; in particular no id is visited twice. */
  lemma KeysInFirstAppearanceOrder(flat: seq<CommentRow>)
    ensures forall i, j :: 0 <= i < j < |Keys(flat)| ==>
              FirstIndex(flat, Keys(flat)[i]) < FirstIndex(flat, Keys(flat)[j])
  {
    forall i, j | 0 <= i < j < |Keys(flat)|
      ensures FirstIndex(flat, Keys(flat)[i]) < FirstIndex(flat, Keys(flat)[j])
    {
      KeysOrderedPair(flat, |flat|, i, j);
    }
  }

  /** Where the second loop puts a node: onto the roots, or onto the
      children of the node for `parent`. */
  datatype Slot = Root | Under(parent: int)

  /** `node.parent_id && map.has(node.parent_id)`: a parent id that is
      neither null nor 0 and names a node of the `Map` sends the node under
      that parent; anything else makes it a root. */
  function SlotOf(row: CommentRow, m: map<int, CommentRow>): (s: Slot)
    ensures s.Under? <==> row.parentId.Some? && row.parentId.value != 0 && row.parentId.value in m
    ensures s.Under? ==> s.parent == row.parentId.value
  {
    if row.parentId.Some? && row.parentId.value != 0 && row.parentId.value in m then Under(row.parentId.value)
    else Root
  }

  /** The ids the second loop has pushed into `slot` after visiting the first
      `n` keys, looking rows up in `m`. */
  function Placed(keys: seq<int>, n: nat, m: map<int, CommentRow>, slot: Slot): (r: seq<int>)
    requires n <= |keys|
    requires forall i :: 0 <= i < |keys| ==> keys[i] in m
    ensures forall i :: 0 <= i < |r| ==> r[i] in m
  {
    if n == 0 then []
    else
      var r := Placed(keys, n - 1, m, slot);
      if SlotOf(m[keys[n - 1]], m) == slot then r + [keys[n - 1]] else r
  }

  /** The ids of the returned roots, in order. */
  function Roots(flat: seq<CommentRow>): seq<int> {
    Placed(Keys(flat), |Keys(flat)|, RowMap(flat), Root)
  }

  /** The ids in the children list of the node for id `p`, in order. */
  function ChildrenOf(flat: seq<CommentRow>, p: int): seq<int> {
    Placed(Keys(flat), |Keys(flat)|, RowMap(flat), Under(p))
  }

  /** The nodes that a sequence of ids names. */
  function Nodes(index: map<int, CommentNode>, ids: seq<int>): seq<CommentNode>
    requires forall i :: 0 <= i < |ids| ==> ids[i] in index
  {
    if ids == [] then [] else Nodes(index, ids[..|ids| - 1]) + [index[ids[|ids| - 1]]]
  }

  /** The i-th node is the node of the i-th id. */
  lemma {:induction false} NodesAt(index: map<int, CommentNode>, ids: seq<int>, i: nat)
    requires forall i :: 0 <= i < |ids| ==> ids[i] in index
    requires i < |ids|
    ensures |Nodes(index, ids)| == |ids|
    ensures Nodes(index, ids)[i] == index[ids[i]]
  {
    var pre := ids[..|ids| - 1];
    if i < |pre| {
      NodesAt(index, pre, i);
    } else if pre != [] {
      NodesAt(index, pre, 0);
    }
  }

  lemma NodesAppend(index: map<int, CommentNode>, ids: seq<int>, x: int)
    requires forall i :: 0 <= i < |ids| ==> ids[i] in index
    requires x in index
    ensures Nodes(index, ids + [x]) == Nodes(index, ids) + [index[x]]
  {
    assert (ids + [x])[..|ids|] == ids;
  }

  // ---------------------------------------------------------------------
  // Properties of the forest.
  // ---------------------------------------------------------------------

  lemma {:induction false} PlacedHas(keys: seq<int>, n: nat, m: map<int, CommentRow>, slot: Slot, x: int)
    requires n <= |keys|
    requires forall i :: 0 <= i < |keys| ==> keys[i] in m
    ensures x in Placed(keys, n, m, slot) <==> x in keys[..n] && SlotOf(m[x], m) == slot
  {
    if n > 0 {
      PlacedHas(keys, n - 1, m, slot, x);
      assert keys[..n] == keys[..n - 1] + [keys[n - 1]];
    }
  }

  /** A distinct id is a root exactly when its parent id is null, 0 or not
      an id of the input, and a child of `p` exactly when its parent id is
      `p` and `p` is an id of the input. The row consulted is the last one
      carrying the id. */
  lemma PlacementRule(flat: seq<CommentRow>, x: int)
    ensures x in Roots(flat) <==>
      x in Ids(flat) && (RowMap(flat)[x].parentId.None? || RowMap(flat)[x].parentId.value == 0 ||
                         RowMap(flat)[x].parentId.value !in Ids(flat))
    ensures forall p :: x in ChildrenOf(flat, p) <==>
      x in Ids(flat) && RowMap(flat)[x].parentId == Some(p) && p != 0 && p in Ids(flat)
  {
    var keys := Keys(flat);
    assert keys[..|keys|] == keys;
    PlacedHas(keys, |keys|, RowMap(flat), Root, x);
    forall p
      ensures x in ChildrenOf(flat, p) <==>
        x in Ids(flat) && RowMap(flat)[x].parentId == Some(p) && p != 0 && p in Ids(flat)
    {
      PlacedHas(keys, |keys|, RowMap(flat), Under(p), x);
    }
  }

  lemma {:induction false} PlacedOrderedPair(flat: seq<CommentRow>, n: nat, slot: Slot, i: nat, j: nat)
    requires n <= |Keys(flat)|
    requires i < j < |Placed(Keys(flat), n, RowMap(flat), slot)|
    ensures Placed(Keys(flat), n, RowMap(flat), slot)[i] in Ids(flat)
    ensures Placed(Keys(flat), n, RowMap(flat), slot)[j] in Ids(flat)
    ensures FirstIndex(flat, Placed(Keys(flat), n, RowMap(flat), slot)[i])
          < FirstIndex(flat, Placed(Keys(flat), n, RowMap(flat), slot)[j])
  {
    var keys, m := Keys(flat), RowMap(flat);
    var pre := Placed(keys, n - 1, m, slot);
    var r := Placed(keys, n, m, slot);
    assert r[i] == pre[i];
    if j < |pre| {
      assert r[j] == pre[j];
      PlacedOrderedPair(flat, n - 1, slot, i, j);
    } else {
      assert r == pre + [keys[n - 1]] && r[j] == keys[n - 1];
      var x := pre[i];
      PlacedHas(keys, n - 1, m, slot, x);
      var t :| 0 <= t < n - 1 && keys[..n - 1][t] == x;
      assert keys[t] == x;
      KeysOrderedPair(flat, |flat|, t, n - 1);
    }
  }

  /** Roots and every children list keep the order in which their ids first
      appear in the input, so none holds an id twice. */
  lemma PlacedInFirstAppearanceOrder(flat: seq<CommentRow>, slot: Slot)
    ensures forall x :: x in Placed(Keys(flat), |Keys(flat)|, RowMap(flat), slot) ==> x in Ids(flat)
    ensures forall i, j :: 0 <= i < j < |Placed(Keys(flat), |Keys(flat)|, RowMap(flat), slot)| ==>
      FirstIndex(flat, Placed(Keys(flat), |Keys(flat)|, RowMap(flat), slot)[i])
        < FirstIndex(flat, Placed(Keys(flat), |Keys(flat)|, RowMap(flat), slot)[j])
  {
    var r := Placed(Keys(flat), |Keys(flat)|, RowMap(flat), slot);
    forall i, j | 0 <= i < j < |r|
      ensures FirstIndex(flat, r[i]) < FirstIndex(flat, r[j])
    {
      PlacedOrderedPair(flat, |Keys(flat)|, slot, i, j);
    }
  }

  lemma {:induction false} CountDistinct(s: seq<int>, x: int)
    requires forall i, j :: 0 <= i < j < |s| ==> s[i] != s[j]
    ensures multiset(s)[x] == if x in s then 1 else 0
  {
    if s != [] {
      var pre := s[..|s| - 1];
      CountDistinct(pre, x);
      assert s == pre + [s[|s| - 1]];
    }
  }

  /** Every distinct id is placed exactly once: once in the list of the slot
      its row selects, and nowhere else; ids that are not in the input are
      placed nowhere. */
  lemma PlacedExactlyOnce(flat: seq<CommentRow>, x: int, slot: Slot)
    ensures multiset(Placed(Keys(flat), |Keys(flat)|, RowMap(flat), slot))[x] ==
      if x in Ids(flat) && SlotOf(RowMap(flat)[x], RowMap(flat)) == slot then 1 else 0
  {
    var keys, m := Keys(flat), RowMap(flat);
    var r := Placed(keys, |keys|, m, slot);
    PlacedInFirstAppearanceOrder(flat, slot);
    forall i, j | 0 <= i < j < |r|
      ensures r[i] != r[j]
    {
      assert r[i] in r && r[j] in r;
    }
    CountDistinct(r, x);
    PlacedHas(keys, |keys|, m, slot, x);
    assert keys[..|keys|] == keys;
  }

  /** Example: no rows, no roots. */
  lemma EmptyInputEmptyForest()
    ensures Roots([]) == [] && Ids([]) == {}
  {
  }

  lemma {:induction false} PlacedAllRoots(keys: seq<int>, n: nat, m: map<int, CommentRow>)
    requires n <= |keys|
    requires forall i :: 0 <= i < |keys| ==> keys[i] in m
    requires forall i :: 0 <= i < n ==> SlotOf(m[keys[i]], m) == Root
    ensures Placed(keys, n, m, Root) == keys[..n]
  {
    if n > 0 {
      PlacedAllRoots(keys, n - 1, m);
      assert keys[..n] == keys[..n - 1] + [keys[n - 1]];
    }
  }

  /** When no row names a present, non-zero parent, every distinct id is a
      root, in order of first appearance. */
  lemma NoParentsAllRoots(flat: seq<CommentRow>)
    requires forall k :: 0 <= k < |flat| ==>
      flat[k].parentId.None? || flat[k].parentId.value == 0 || flat[k].parentId.value !in Ids(flat)
    ensures Roots(flat) == Keys(flat)
  {
    var keys, m := Keys(flat), RowMap(flat);
    forall i | 0 <= i < |keys|
      ensures SlotOf(m[keys[i]], m) == Root
    {
      RowMapHoldsLastRow(flat, keys[i]);
    }
    PlacedAllRoots(keys, |keys|, m);
    assert keys[..|keys|] == keys;
  }

  /** Rows that agree on id and parent id. */
  predicate SameLinks(f: seq<CommentRow>, g: seq<CommentRow>) {
    |f| == |g| && forall k :: 0 <= k < |f| ==> f[k].id == g[k].id && f[k].parentId == g[k].parentId
  }

  lemma {:induction false} SameLinksIds(f: seq<CommentRow>, g: seq<CommentRow>, n: nat)
    requires SameLinks(f, g) && n <= |f|
    ensures IdsUpTo(f, n) == IdsUpTo(g, n)
  {
    if n > 0 {
      SameLinksIds(f, g, n - 1);
      assert f[n - 1].id == g[n - 1].id;
    }
  }

  lemma {:induction false} SameLinksKeys(f: seq<CommentRow>, g: seq<CommentRow>, n: nat)
    requires SameLinks(f, g) && n <= |f|
    ensures KeysUpTo(f, n) == KeysUpTo(g, n)
  {
    if n > 0 {
      SameLinksKeys(f, g, n - 1);
      SameLinksIds(f, g, n - 1);
      assert f[n - 1].id == g[n - 1].id;
    }
  }

  lemma {:induction false} SameLinksParents(f: seq<CommentRow>, g: seq<CommentRow>, n: nat, x: int)
    requires SameLinks(f, g) && n <= |f| && x in IdsUpTo(f, n)
    ensures x in IdsUpTo(g, n) && RowMapUpTo(f, n)[x].parentId == RowMapUpTo(g, n)[x].parentId
  {
    SameLinksIds(f, g, n);
    assert f[n - 1].id == g[n - 1].id && f[n - 1].parentId == g[n - 1].parentId;
    if f[n - 1].id != x {
      SameLinksParents(f, g, n - 1, x);
    }
  }

  lemma {:induction false} SameLinksPlaced(keys: seq<int>, n: nat, m: map<int, CommentRow>, m': map<int, CommentRow>, slot: Slot)
    requires n <= |keys| && m.Keys == m'.Keys
    requires forall i :: 0 <= i < |keys| ==> keys[i] in m
    requires forall x :: x in m ==> m[x].parentId == m'[x].parentId
    ensures Placed(keys, n, m, slot) == Placed(keys, n, m', slot)
  {
    if n > 0 {
      SameLinksPlaced(keys, n - 1, m, m', slot);
    }
  }

  /** The shape of the forest depends only on ids and parent ids: content,
      author, the stored depth and every other field are ignored. */
  lemma ShapeIgnoresOtherFields(f: seq<CommentRow>, g: seq<CommentRow>)
    requires SameLinks(f, g)
    ensures Ids(f) == Ids(g) && Keys(f) == Keys(g)
    ensures Roots(f) == Roots(g)
    ensures forall p :: ChildrenOf(f, p) == ChildrenOf(g, p)
  {
    SameLinksIds(f, g, |f|);
    SameLinksKeys(f, g, |f|);
    forall x | x in Ids(f)
      ensures RowMap(f)[x].parentId == RowMap(g)[x].parentId
    {
      SameLinksParents(f, g, |f|, x);
    }
    SameLinksPlaced(Keys(f), |Keys(f)|, RowMap(f), RowMap(g), Root);
    forall p
      ensures ChildrenOf(f, p) == ChildrenOf(g, p)
    {
      SameLinksPlaced(Keys(f), |Keys(f)|, RowMap(f), RowMap(g), Under(p));
    }
  }

  /** `x` can be reached from the returned roots by going down at most `k`
      children lists. */
  ghost predicate ReachableWithin(flat: seq<CommentRow>, x: int, k: nat)
    decreases k
  {
    x in Roots(flat) || (k > 0 && exists p :: x in ChildrenOf(flat, p) && ReachableWithin(flat, p, k - 1))
  }

  /** `x` is in the returned forest. */
  ghost predicate Reachable(flat: seq<CommentRow>, x: int) {
    exists k: nat :: ReachableWithin(flat, x, k)
  }

  /** A set of ids each of whose parent id is non-zero and again in the set:
      a cycle of parent ids together with whatever hangs below it. */
  ghost predicate ParentClosed(flat: seq<CommentRow>, c: set<int>) {
    forall y :: y in c ==>
      y in Ids(flat) && RowMap(flat)[y].parentId.Some? &&
      RowMap(flat)[y].parentId.value != 0 && RowMap(flat)[y].parentId.value in c
  }

  /** No id of a parent-closed set is reached within any number of steps. */
  lemma {:induction false} ClosedWithin(flat: seq<CommentRow>, c: set<int>, k: nat)
    requires ParentClosed(flat, c)
    ensures forall y :: y in c ==> !ReachableWithin(flat, y, k)
    decreases k
  {
    var keys, m := Keys(flat), RowMap(flat);
    assert keys[..|keys|] == keys;
    if k > 0 {
      ClosedWithin(flat, c, k - 1);
    }
    forall y | y in c
      ensures !ReachableWithin(flat, y, k)
    {
      PlacedHas(keys, |keys|, m, Root, y);
      if k > 0 {
        forall p | y in ChildrenOf(flat, p)
          ensures !ReachableWithin(flat, p, k - 1)
        {
          PlacedHas(keys, |keys|, m, Under(p), y);
        }
      }
    }
  }

  /** Cycles are not detected: an id of the input is missing from the
      returned forest exactly when it lies in a parent-closed set, that is
      when following parent ids from it never ends at a root. */
  lemma UnreachableIffParentClosed(flat: seq<CommentRow>, x: int)
    requires x in Ids(flat)
    ensures !Reachable(flat, x) <==> exists c :: x in c && ParentClosed(flat, c)
  {
    var keys, m := Keys(flat), RowMap(flat);
    assert keys[..|keys|] == keys;
    if !Reachable(flat, x) {
      var u := set y | y in Ids(flat) && !Reachable(flat, y);
      forall y | y in u
        ensures m[y].parentId.Some? && m[y].parentId.value != 0 && m[y].parentId.value in u
      {
        assert !ReachableWithin(flat, y, 0);
        assert y in keys;
        PlacedHas(keys, |keys|, m, Root, y);
        var p := m[y].parentId.value;
        assert SlotOf(m[y], m) == Under(p);
        PlacedHas(keys, |keys|, m, Under(p), y);
        assert y in ChildrenOf(flat, p);
        if Reachable(flat, p) {
          var k: nat :| ReachableWithin(flat, p, k);
          assert ReachableWithin(flat, y, k + 1);
        }
      }
      assert ParentClosed(flat, u);
    } else {
      var k: nat :| ReachableWithin(flat, x, k);
      forall c | x in c && ParentClosed(flat, c)
        ensures false
      {
        ClosedWithin(flat, c, k);
      }
    }
  }

  /** A row that is its own parent is pushed onto its own children list and
      not onto the roots, so it is missing from the returned forest. */
  lemma SelfParentIsUnreachable(flat: seq<CommentRow>, x: int)
    requires x in Ids(flat) && RowMap(flat)[x].parentId == Some(x) && x != 0
    ensures x !in Roots(flat) && x in ChildrenOf(flat, x)
    ensures !Reachable(flat, x)
  {
    PlacementRule(flat, x);
    assert ParentClosed(flat, {x});
    UnreachableIffParentClosed(flat, x);
  }


  // ---------------------------------------------------------------------
  // The algorithm.
  // ---------------------------------------------------------------------

  /** What one more row does to the first loop's state. */
  lemma FillStep(flat: seq<CommentRow>, i: nat)
    requires i < |flat|
    ensures IdsUpTo(flat, i + 1) == IdsUpTo(flat, i) + {flat[i].id}
    ensures RowMapUpTo(flat, i + 1) == RowMapUpTo(flat, i)[flat[i].id := flat[i]]
    ensures KeysUpTo(flat, i + 1) ==
      if flat[i].id in IdsUpTo(flat, i) then KeysUpTo(flat, i) else KeysUpTo(flat, i) + [flat[i].id]
  {
  }

  /** The first loop: `map.set(row.id, { ...row, children: [] })` for each
      row. The `Map` is returned as its keys in first-insertion order and a
      map from key to node. */
  method FillMap(flat: seq<CommentRow>) returns (keys: seq<int>, m: map<int, CommentNode>)
    ensures keys == Keys(flat)
    ensures m.Keys == Ids(flat)
    ensures forall x :: x in m ==> fresh(m[x])
    ensures forall x :: x in m ==> m[x].row == RowMap(flat)[x]
    ensures forall x :: x in m ==> m[x].children == []
    ensures forall x, y :: x in m && y in m && x != y ==> m[x] != m[y]
  {
    keys, m := [], map[];
    for i := 0 to |flat|
      invariant keys == KeysUpTo(flat, i)
      invariant m.Keys == IdsUpTo(flat, i)
      invariant forall x :: x in m ==> fresh(m[x])
      invariant forall x :: x in m ==> m[x].row == RowMapUpTo(flat, i)[x]
      invariant forall x :: x in m ==> m[x].children == []
      invariant forall x, y :: x in m && y in m && x != y ==> m[x] != m[y]
    {
      FillStep(flat, i);
      var node := new CommentNode(flat[i]);
      if flat[i].id !in m {
        keys := keys + [flat[i].id];
      }
      ghost var m0 := m;
      m := m[flat[i].id := node];
      forall x | x in m
        ensures fresh(m[x]) && m[x].row == RowMapUpTo(flat, i + 1)[x] && m[x].children == []
      {
        if x != flat[i].id {
          assert m[x] == m0[x] && m0[x] != node;
        }
      }
    }
  }

  /** What visiting one more key does to the roots and every children list. */
  lemma VisitStep(keys: seq<int>, k: nat, rows: map<int, CommentRow>, slot: Slot)
    requires k < |keys|
    requires forall i :: 0 <= i < |keys| ==> keys[i] in rows
    ensures Placed(keys, k + 1, rows, slot) ==
      if SlotOf(rows[keys[k]], rows) == slot then Placed(keys, k, rows, slot) + [keys[k]]
      else Placed(keys, k, rows, slot)
  {
  }

  /** One turn of the second loop: push the node for `keys[k]` onto its
      parent's children, or onto the roots. */
  method PushNode(keys: seq<int>, k: nat, m: map<int, CommentNode>, ghost rows: map<int, CommentRow>, roots: seq<CommentNode>)
    returns (roots': seq<CommentNode>)
    requires k < |keys|
    requires forall i :: 0 <= i < |keys| ==> keys[i] in m
    requires m.Keys == rows.Keys
    requires forall x :: x in m ==> m[x].row == rows[x]
    requires forall x, y :: x in m && y in m && x != y ==> m[x] != m[y]
    requires roots == Nodes(m, Placed(keys, k, rows, Root))
    requires forall x :: x in m ==> m[x].children == Nodes(m, Placed(keys, k, rows, Under(x)))
    modifies set x | x in m :: m[x]
    ensures roots' == Nodes(m, Placed(keys, k + 1, rows, Root))
    ensures forall x :: x in m ==> m[x].children == Nodes(m, Placed(keys, k + 1, rows, Under(x)))
  {
    var x0 := keys[k];
    var node := m[x0];
    assert node.row == rows[x0];
    VisitStep(keys, k, rows, Root);
    if node.row.parentId.Some? && node.row.parentId.value != 0 && node.row.parentId.value in m {
      var p := node.row.parentId.value;
      assert SlotOf(rows[keys[k]], rows) == Under(p);
      var parent := m[p];
      NodesAppend(m, Placed(keys, k, rows, Under(p)), keys[k]);
      parent.children := parent.children + [node];
      forall x | x in m
        ensures m[x].children == Nodes(m, Placed(keys, k + 1, rows, Under(x)))
      {
        VisitStep(keys, k, rows, Under(x));
        if x != p {
          assert m[x] != parent;
          assert m[x].children == old(m[x].children);
        }
      }
      roots' := roots;
    } else {
      assert SlotOf(rows[keys[k]], rows) == Root;
      NodesAppend(m, Placed(keys, k, rows, Root), keys[k]);
      forall x | x in m
        ensures m[x].children == Nodes(m, Placed(keys, k + 1, rows, Under(x)))
      {
        VisitStep(keys, k, rows, Under(x));
      }
      roots' := roots + [node];
    }
  }

  /** The second loop: visiting the nodes in key order, push each onto its
      parent's children when its parent id is non-zero and present, and onto
      the roots otherwise. */
  method LinkNodes(keys: seq<int>, m: map<int, CommentNode>, ghost rows: map<int, CommentRow>)
    returns (roots: seq<CommentNode>)
    requires forall i :: 0 <= i < |keys| ==> keys[i] in m
    requires m.Keys == rows.Keys
    requires forall x :: x in m ==> m[x].row == rows[x] && m[x].children == []
    requires forall x, y :: x in m && y in m && x != y ==> m[x] != m[y]
    modifies set x | x in m :: m[x]
    ensures roots == Nodes(m, Placed(keys, |keys|, rows, Root))
    ensures forall x :: x in m ==> m[x].children == Nodes(m, Placed(keys, |keys|, rows, Under(x)))
  {
    roots := [];
    for k := 0 to |keys|
      invariant roots == Nodes(m, Placed(keys, k, rows, Root))
      invariant forall x :: x in m ==> m[x].children == Nodes(m, Placed(keys, k, rows, Under(x)))
    {
      roots := PushNode(keys, k, m, rows, roots);
    }
  }

  /** `buildCommentTree`. `index` is the `Map` at the end: one fresh node per
      distinct id, holding a copy of that id's last row. */
  method BuildCommentTree(flat: seq<CommentRow>) returns (roots: seq<CommentNode>, ghost index: map<int, CommentNode>)
    ensures index.Keys == Ids(flat)
    ensures forall x :: x in index ==> fresh(index[x]) && index[x].row == RowMap(flat)[x]
    ensures forall x, y :: x in index && y in index && x != y ==> index[x] != index[y]
    ensures roots == Nodes(index, Roots(flat))
    ensures forall x :: x in index ==> index[x].children == Nodes(index, ChildrenOf(flat, x))
  {
    var keys, m := FillMap(flat);
    roots := LinkNodes(keys, m, RowMap(flat));
    index := m;
  }
}
