/** Upward walks through parent pointers: the link check of the toolbars
    (which stops at a node that is its own parent), and the framework's
    `getTopLevelElement` and `$getNearestNodeOfType` (which do not).

    The walks remember the nodes already passed. Revisiting one means the
    original loop would never stop; the walk reports that as `Diverges`
    instead of looping. On every parent chain that does end, the walk gives
    exactly the answer of a plain scan along that chain (`ScanChain`). */
module AncestorWalk {
  import opened Common
  import opened Lexical

  /** What a walk looks for. */
  datatype Target =
    | LinkNode       // `$isLinkNode`
    | ListNode       // `instanceof ListNode`
    | TopLevel       // a node whose parent is the root or a shadow root

  datatype WalkResult = Found(node: NodeKey) | Exhausted | Diverges

  predicate Matches(t: Tree, target: Target, n: NodeKey)
    requires n in t
  {
    match target
    case LinkNode => t[n].kind.Link?
    case ListNode => t[n].kind.List?
    case TopLevel =>
      var p := GetParent(t, n);
      p.Some? && IsRootOrShadowRoot(t[p.value].kind)
  }

  /** True when the walk stops after `n` without a match: `n` has no parent,
      or (for a guarded walk) `n` is its own parent. */
  predicate EndsAt(t: Tree, n: NodeKey, guardSelf: bool) {
    GetParent(t, n).None? || (guardSelf && GetParent(t, n) == Some(n))
  }

  /** Walk from `n` towards the root until a node matches `target`. */
  function FindUp(t: Tree, target: Target, n: NodeKey, guardSelf: bool, visited: set<NodeKey>): (r: WalkResult)
    requires n in t && n !in visited
    ensures r.Found? ==> r.node in t && Matches(t, target, r.node)
    ensures Matches(t, target, n) ==> r == Found(n)
    decreases t.Keys - visited
  {
    if Matches(t, target, n) then Found(n)
    else
      match GetParent(t, n)
      case None => Exhausted
      case Some(p) =>
        if guardSelf && p == n then Exhausted
        else if p in visited || p == n then Diverges
        else
          assert t.Keys - (visited + {n}) < t.Keys - visited;
          FindUp(t, target, p, guardSelf, visited + {n})
  }

  /** A finite parent chain from `c[0]`: each node's parent is the next node,
      and the last node ends the walk. */
  ghost predicate IsChain(t: Tree, c: seq<NodeKey>, guardSelf: bool) {
    && |c| > 0
    && (forall i :: 0 <= i < |c| ==> c[i] in t)
    && (forall i :: 0 <= i < |c| - 1 ==> GetParent(t, c[i]) == Some(c[i + 1]) && c[i + 1] != c[i])
    && EndsAt(t, c[|c| - 1], guardSelf)
  }

  /** The reference answer: the first node of the chain from position `k` on
      that matches, if any. */
  ghost function ScanChain(t: Tree, target: Target, c: seq<NodeKey>, k: nat): WalkResult
    requires forall i :: 0 <= i < |c| ==> c[i] in t
    requires k < |c|
    decreases |c| - k
  {
    if Matches(t, target, c[k]) then Found(c[k])
    else if k == |c| - 1 then Exhausted
    else ScanChain(t, target, c, k + 1)
  }

  /** The scan finds a node exactly when some node of the chain matches, and
      what it finds is the first match. */
  lemma {:induction false} ScanChainFindsFirst(t: Tree, target: Target, c: seq<NodeKey>, k: nat)
    requires forall i :: 0 <= i < |c| ==> c[i] in t
    requires k < |c|
    ensures ScanChain(t, target, c, k).Found? <==> exists i :: k <= i < |c| && Matches(t, target, c[i])
    ensures ScanChain(t, target, c, k).Found? ==>
              exists i :: k <= i < |c| && ScanChain(t, target, c, k).node == c[i]
                          && (forall j :: k <= j < i ==> !Matches(t, target, c[j]))
    ensures !ScanChain(t, target, c, k).Diverges?
    decreases |c| - k
  {
    if !Matches(t, target, c[k]) && k < |c| - 1 {
      ScanChainFindsFirst(t, target, c, k + 1);
      var r := ScanChain(t, target, c, k + 1);
      if r.Found? {
        var i :| k + 1 <= i < |c| && r.node == c[i] && (forall j :: k + 1 <= j < i ==> !Matches(t, target, c[j]));
        assert forall j :: k <= j < i ==> !Matches(t, target, c[j]);
      }
    }
  }

  /** Two positions holding the same node stay in step along the chain. */
  lemma {:induction false} ChainInStep(t: Tree, c: seq<NodeKey>, guardSelf: bool, i: nat, j: nat, m: nat)
    requires IsChain(t, c, guardSelf)
    requires i < j && j + m < |c|
    ensures c[i] == c[j] ==> c[i + m] == c[j + m]
    decreases m
  {
    if m > 0 {
      ChainInStep(t, c, guardSelf, i, j, m - 1);
      assert GetParent(t, c[i + m - 1]) == Some(c[i + m]);
      assert GetParent(t, c[j + m - 1]) == Some(c[j + m]);
    }
  }

  /** A chain that ends never repeats a node. */
  lemma ChainIsDistinct(t: Tree, c: seq<NodeKey>, guardSelf: bool)
    requires IsChain(t, c, guardSelf)
    ensures forall i, j :: 0 <= i < j < |c| ==> c[i] != c[j]
  {
    forall i, j | 0 <= i < j < |c| ensures c[i] != c[j] {
      var last := |c| - 1;
      var a := i + (last - j);
      ChainInStep(t, c, guardSelf, i, j, last - j);
      assert GetParent(t, c[a]) == Some(c[a + 1]) && c[a + 1] != c[a];
    }
  }

  lemma {:induction false} WalkAlongChain(t: Tree, target: Target, c: seq<NodeKey>, guardSelf: bool, k: nat, visited: set<NodeKey>)
    requires IsChain(t, c, guardSelf)
    requires forall i, j :: 0 <= i < j < |c| ==> c[i] != c[j]
    requires k < |c|
    requires visited == set x | x in c[..k]
    ensures c[k] !in visited
    ensures FindUp(t, target, c[k], guardSelf, visited) == ScanChain(t, target, c, k)
    decreases |c| - k
  {
    if !Matches(t, target, c[k]) && k < |c| - 1 {
      var next := visited + {c[k]};
      assert c[..k + 1] == c[..k] + [c[k]];
      assert forall x :: x in next <==> x in c[..k + 1];
      assert c[k + 1] !in visited;
      WalkAlongChain(t, target, c, guardSelf, k + 1, next);
    }
  }

  /** On a chain that ends, the walk ends too (it never reports `Diverges`),
      and it returns the first matching node of the chain, or `Exhausted`
      when no node of the chain matches. */
  lemma WalkFollowsChain(t: Tree, target: Target, c: seq<NodeKey>, guardSelf: bool)
    requires IsChain(t, c, guardSelf)
    ensures FindUp(t, target, c[0], guardSelf, {}) == ScanChain(t, target, c, 0)
    ensures !FindUp(t, target, c[0], guardSelf, {}).Diverges?
    ensures FindUp(t, target, c[0], guardSelf, {}).Found? <==> exists i :: 0 <= i < |c| && Matches(t, target, c[i])
  {
    ChainIsDistinct(t, c, guardSelf);
    assert (set x | x in c[..0]) == {};
    WalkAlongChain(t, target, c, guardSelf, 0, {});
    ScanChainFindsFirst(t, target, c, 0);
  }

  /** On a chain that ends, the walk returns the first matching node. */
  lemma WalkFindsFirstOnChain(t: Tree, target: Target, c: seq<NodeKey>, guardSelf: bool, k: nat)
    requires IsChain(t, c, guardSelf)
    requires k < |c| && Matches(t, target, c[k])
    requires forall j :: 0 <= j < k ==> !Matches(t, target, c[j])
    ensures FindUp(t, target, c[0], guardSelf, {}) == Found(c[k])
  {
    WalkFollowsChain(t, target, c, guardSelf);
    ScanChainFindsFirst(t, target, c, 0);
    var i :| 0 <= i < |c| && ScanChain(t, target, c, 0).node == c[i]
             && (forall j :: 0 <= j < i ==> !Matches(t, target, c[j]));
    assert i == k;
  }

  /** On a chain that ends and holds a match at position `k`, the walk returns
      the first match, which lies at or before `k`. */
  lemma WalkFindsNearestOnChain(t: Tree, target: Target, c: seq<NodeKey>, guardSelf: bool, k: nat)
    requires IsChain(t, c, guardSelf)
    requires k < |c| && Matches(t, target, c[k])
    ensures exists m :: 0 <= m <= k && (forall j :: 0 <= j < m ==> !Matches(t, target, c[j]))
                        && FindUp(t, target, c[0], guardSelf, {}) == Found(c[m])
  {
    WalkFollowsChain(t, target, c, guardSelf);
    ScanChainFindsFirst(t, target, c, 0);
    var m :| 0 <= m < |c| && ScanChain(t, target, c, 0).node == c[m]
             && (forall j :: 0 <= j < m ==> !Matches(t, target, c[j]));
    assert m <= k;
  }
}
