/** The node graph built by the parser and walked by the renderers and the
    navigation controller. Nodes live in an arena (a sequence) and refer to
    each other by index: `parent` is the non-owning back-reference of the Go
    `*node`, `children` the ordered child slice. Index 0 is the synthetic root
    (indent -1) that the parser creates; the visible forest is its children. */
module Arena {

  datatype Option<T> = None | Some(value: T)

  type NodeId = nat

  /** One input line: stripped text, indent depth, open flag and its links. */
  datatype Node = Node(text: string, indent: int, open: bool, parent: Option<NodeId>, children: seq<NodeId>)

  /** The synthetic root that the parser puts at the bottom of its stack. */
  const Root: NodeId := 0

  /** node.Append: `c` becomes the last child of `p`, and `p` becomes the
      parent of `c`; nothing else changes. */
  function Append(a: seq<Node>, p: NodeId, c: NodeId): (r: seq<Node>)
    requires p < |a| && c < |a|
    ensures |r| == |a|
    ensures r[p].children == a[p].children + [c] && r[c].parent == Some(p)
    ensures forall k :: 0 <= k < |a| ==>
      r[k].text == a[k].text && r[k].indent == a[k].indent && r[k].open == a[k].open
    ensures forall k :: 0 <= k < |a| && k != p ==> r[k].children == a[k].children
    ensures forall k :: 0 <= k < |a| && k != c ==> r[k].parent == a[k].parent
  {
    var grown := a[p := a[p].(children := a[p].children + [c])];
    grown[c := grown[c].(parent := Some(p))]
  }

  /** Every child index lies after its parent and inside the arena. This is
      what makes every walk below terminate. */
  ghost predicate Ordered(a: seq<Node>)
  {
    forall p, j :: 0 <= p < |a| && 0 <= j < |a[p].children| ==> p < a[p].children[j] < |a|
  }

  /** Every node lists its children in increasing index order. */
  ghost predicate Sorted(a: seq<Node>)
  {
    forall p, i, j :: 0 <= p < |a| && 0 <= i < j < |a[p].children| ==> a[p].children[i] < a[p].children[j]
  }

  /** The shape the parser leaves behind: the synthetic root at index 0, child
      and parent links that agree, and every node indented deeper than its parent. */
  ghost predicate Tree(a: seq<Node>)
  {
    |a| >= 1 && a[Root].parent == None && a[Root].indent == -1 &&
    Ordered(a) &&
    (forall p, j :: 0 <= p < |a| && 0 <= j < |a[p].children| ==>
       a[a[p].children[j]].parent == Some(p)) &&
    (forall y {:trigger a[y].parent} :: 0 < y < |a| ==>
       a[y].parent.Some? && a[y].parent.value < y &&
       y in a[a[y].parent.value].children &&
       a[a[y].parent.value].indent < a[y].indent)
  }

  /** The rows contributed by the first `n` children of `p`, in pre-order,
      descending into a node when `all` holds or the node is open. With
      `all == false` this is what treeView and folderView append to
      visibleNodes; with `all == true` it is printTree's full walk. */
  function Visible(a: seq<Node>, p: NodeId, n: nat, all: bool): seq<NodeId>
    requires Ordered(a) && p < |a| && n <= |a[p].children|
    decreases |a| - p, 1, n
  {
    if n == 0 then [] else Visible(a, p, n - 1, all) + Subtree(a, a[p].children[n - 1], all)
  }

  /** The rows of one node: itself, then (when expanded) its children's rows. */
  function Subtree(a: seq<Node>, c: NodeId, all: bool): seq<NodeId>
    requires Ordered(a) && c < |a|
    decreases |a| - c, 2, 0
  {
    [c] + if all || a[c].open then Visible(a, c, |a[c].children|, all) else []
  }

  /** The whole visible list: the rows of the forest under the synthetic root. */
  function Flatten(a: seq<Node>, all: bool): seq<NodeId>
    requires Ordered(a) && Root < |a|
  {
    Visible(a, Root, |a[Root].children|, all)
  }

  /** The indices `lo`, `lo + 1`, ..., `hi - 1`. */
  function Range(lo: nat, hi: nat): (r: seq<NodeId>)
    requires lo <= hi
    ensures |r| == hi - lo && forall k :: 0 <= k < |r| ==> r[k] == lo + k
    decreases hi - lo
  {
    if lo == hi then [] else Range(lo, hi - 1) + [hi - 1]
  }

  ghost predicate Increasing(s: seq<NodeId>)
  {
    forall i, j :: 0 <= i < j < |s| ==> s[i] < s[j]
  }

  /** A parsed arena: a tree whose full pre-order walk numbers the lines 1, 2, ... */
  ghost predicate Shaped(a: seq<Node>)
  {
    Tree(a) && Flatten(a, true) == Range(1, |a|)
  }

  /** `a` and `b` differ at most in open flags. */
  ghost predicate SameShape(a: seq<Node>, b: seq<Node>)
  {
    |a| == |b| && forall k :: 0 <= k < |a| ==> b[k] == a[k].(open := b[k].open)
  }

  /** Node `y` is laid out alike in `a` and `b` (its children, and its flag
      unless every node is expanded anyway). */
  ghost predicate Agree(a: seq<Node>, b: seq<Node>, y: NodeId, all: bool)
  {
    y < |a| && y < |b| && b[y].children == a[y].children && (all || b[y].open == a[y].open)
  }

  // ---------------------------------------------------------------------------
  // Basic facts about the walk

  /** Every row below `p` is a node after `p`. */
  lemma {:induction false} VisibleAbove(a: seq<Node>, p: NodeId, n: nat, all: bool)
    requires Ordered(a) && p < |a| && n <= |a[p].children|
    ensures forall y :: y in Visible(a, p, n, all) ==> p < y < |a|
    decreases |a| - p, 1, n
  {
    if n > 0 {
      VisibleAbove(a, p, n - 1, all);
      SubtreeAbove(a, a[p].children[n - 1], all);
    }
  }

  lemma {:induction false} SubtreeAbove(a: seq<Node>, c: NodeId, all: bool)
    requires Ordered(a) && c < |a|
    ensures forall y :: y in Subtree(a, c, all) ==> c <= y < |a|
    decreases |a| - c, 2, 0
  {
    if all || a[c].open {
      VisibleAbove(a, c, |a[c].children|, all);
    }
  }

  /** The walk reads only the nodes it emits. */
  lemma {:induction false} VisibleFrame(a: seq<Node>, b: seq<Node>, p: NodeId, n: nat, all: bool)
    requires Ordered(a) && Ordered(b) && p < |a| && p < |b|
    requires n <= |a[p].children| && n <= |b[p].children| && a[p].children[..n] == b[p].children[..n]
    requires forall y :: y in Visible(a, p, n, all) ==> Agree(a, b, y, all)
    ensures Visible(b, p, n, all) == Visible(a, p, n, all)
    decreases |a| - p, 1, n
  {
    if n > 0 {
      assert a[p].children[..n - 1] == a[p].children[..n][..n - 1];
      assert b[p].children[..n - 1] == b[p].children[..n][..n - 1];
      assert a[p].children[n - 1] == a[p].children[..n][n - 1];
      assert b[p].children[n - 1] == b[p].children[..n][n - 1];
      VisibleFrame(a, b, p, n - 1, all);
      SubtreeFrame(a, b, a[p].children[n - 1], all);
    }
  }

  lemma {:induction false} SubtreeFrame(a: seq<Node>, b: seq<Node>, c: NodeId, all: bool)
    requires Ordered(a) && Ordered(b) && c < |a| && c < |b|
    requires forall y :: y in Subtree(a, c, all) ==> Agree(a, b, y, all)
    ensures Subtree(b, c, all) == Subtree(a, c, all)
    decreases |a| - c, 2, 0
  {
    assert c in Subtree(a, c, all);
    if all || a[c].open {
      var k := |a[c].children|;
      assert a[c].children[..k] == b[c].children[..k];
      VisibleFrame(a, b, c, k, all);
    }
  }

  /** The full walk does not look at open flags. */
  lemma FullWalkIgnoresFlags(a: seq<Node>, b: seq<Node>)
    requires Ordered(a) && SameShape(a, b) && |a| >= 1
    ensures Ordered(b) && Flatten(b, true) == Flatten(a, true)
  {
    assert forall p, j :: 0 <= p < |b| && 0 <= j < |b[p].children| ==> b[p].children[j] == a[p].children[j];
    var n := |a[Root].children|;
    assert a[Root].children[..n] == b[Root].children[..n];
    VisibleAbove(a, Root, n, true);
    VisibleFrame(a, b, Root, n, true);
  }

  /** The rows of the first `i` children are a prefix of the rows of the first `n`. */
  lemma {:induction false} VisiblePrefix(a: seq<Node>, p: NodeId, i: nat, n: nat, all: bool)
    requires Ordered(a) && p < |a| && i <= n <= |a[p].children|
    ensures |Visible(a, p, i, all)| <= |Visible(a, p, n, all)|
    ensures Visible(a, p, n, all)[..|Visible(a, p, i, all)|] == Visible(a, p, i, all)
    decreases n
  {
    if i < n {
      VisiblePrefix(a, p, i, n - 1, all);
    }
  }

  /** Every child shows at least one row; exactly one row each iff none of
      them is expanded with children of its own. */
  lemma {:induction false} VisibleLength(a: seq<Node>, p: NodeId, n: nat, all: bool)
    requires Ordered(a) && p < |a| && n <= |a[p].children|
    ensures |Visible(a, p, n, all)| >= n
    ensures |Visible(a, p, n, all)| == n <==>
      forall j :: 0 <= j < n ==> |Subtree(a, a[p].children[j], all)| == 1
    decreases n
  {
    if n > 0 {
      VisibleLength(a, p, n - 1, all);
    }
  }

  /** A node shows one row exactly when it is collapsed or has no children. */
  lemma SubtreeSingle(a: seq<Node>, c: NodeId)
    requires Ordered(a) && c < |a|
    ensures |Subtree(a, c, false)| == 1 <==> !a[c].open || a[c].children == []
  {
    VisibleLength(a, c, |a[c].children|, false);
  }

  // ---------------------------------------------------------------------------
  // Positions in the walk

  /** `s` occurs in `v` starting at row `q`. */
  ghost predicate RowsAt(v: seq<NodeId>, q: nat, s: seq<NodeId>)
  {
    q + |s| <= |v| && v[q..q + |s|] == s
  }

  lemma RowsAtLeft(x: seq<NodeId>, y: seq<NodeId>, q: nat, s: seq<NodeId>)
    requires RowsAt(x, q, s)
    ensures RowsAt(x + y, q, s)
  {
    assert (x + y)[q..q + |s|] == x[q..q + |s|];
  }

  lemma RowsAtRight(x: seq<NodeId>, y: seq<NodeId>, q: nat, s: seq<NodeId>)
    requires RowsAt(y, q, s)
    ensures RowsAt(x + y, |x| + q, s)
  {
    assert (x + y)[|x| + q..|x| + q + |s|] == y[q..q + |s|];
  }

  /** Wherever a node appears in the walk, its own rows follow it contiguously. */
  lemma {:induction false} VisibleAt(a: seq<Node>, p: NodeId, n: nat, all: bool, q: nat)
    requires Ordered(a) && p < |a| && n <= |a[p].children| && q < |Visible(a, p, n, all)|
    ensures Visible(a, p, n, all)[q] < |a|
    ensures RowsAt(Visible(a, p, n, all), q, Subtree(a, Visible(a, p, n, all)[q], all))
    decreases |a| - p, 1, n
  {
    var x := Visible(a, p, n - 1, all);
    var c := a[p].children[n - 1];
    var s := Subtree(a, c, all);
    assert Visible(a, p, n, all) == x + s;
    if q < |x| {
      VisibleAt(a, p, n - 1, all, q);
      RowsAtLeft(x, s, q, Subtree(a, x[q], all));
    } else {
      SubtreeAt(a, c, all, q - |x|);
      RowsAtRight(x, s, q - |x|, Subtree(a, s[q - |x|], all));
    }
  }

  lemma {:induction false} SubtreeAt(a: seq<Node>, c: NodeId, all: bool, q: nat)
    requires Ordered(a) && c < |a| && q < |Subtree(a, c, all)|
    ensures Subtree(a, c, all)[q] < |a|
    ensures RowsAt(Subtree(a, c, all), q, Subtree(a, Subtree(a, c, all)[q], all))
    decreases |a| - c, 2, 0
  {
    var s := Subtree(a, c, all);
    if q > 0 {
      var w := Visible(a, c, |a[c].children|, all);
      assert s == [c] + w;
      VisibleAt(a, c, |a[c].children|, all, q - 1);
      RowsAtRight([c], w, q - 1, Subtree(a, w[q - 1], all));
    } else {
      assert s[0..|s|] == s;
    }
  }

  // ---------------------------------------------------------------------------
  // Changing one open flag

  /** `node.open = o` on node `x`, as a new arena. */
  function SetOpen(a: seq<Node>, x: NodeId, o: bool): seq<Node>
    requires x < |a|
  {
    a[x := a[x].(open := o)]
  }

  /** `b` is `a` with at most the open flag of node `x` changed. */
  ghost predicate FlagOnly(a: seq<Node>, b: seq<Node>, x: NodeId)
  {
    |b| == |a| &&
    forall k :: 0 <= k < |a| ==> b[k].children == a[k].children && (k != x ==> b[k].open == a[k].open)
  }

  lemma SetOpenFlagOnly(a: seq<Node>, x: NodeId, o: bool)
    requires Ordered(a) && x < |a|
    ensures FlagOnly(a, SetOpen(a, x, o), x) && Ordered(SetOpen(a, x, o))
    ensures SameShape(a, SetOpen(a, x, o))
  {
    var b := SetOpen(a, x, o);
    assert forall k :: 0 <= k < |a| ==> b[k].children == a[k].children;
  }

  /** Setting a flag keeps every node's text, indent and links. */
  lemma SetOpenSameShape(a: seq<Node>, x: NodeId, o: bool)
    requires x < |a|
    ensures SameShape(a, SetOpen(a, x, o)) && SetOpen(a, x, o)[x].open == o
  {
  }

  /** `e` occurs in `v` at row `q` and at no other row. */
  ghost predicate OnlyAt(v: seq<NodeId>, q: nat, e: NodeId)
  {
    q < |v| && v[q] == e && forall k :: 0 <= k < |v| && k != q ==> v[k] != e
  }

  lemma OnlyAtSplit(x: seq<NodeId>, y: seq<NodeId>, q: nat, e: NodeId)
    requires OnlyAt(x + y, q, e)
    ensures q < |x| ==> OnlyAt(x, q, e) && e !in y
    ensures q >= |x| ==> OnlyAt(y, q - |x|, e) && e !in x
  {
    assert forall k :: 0 <= k < |x| ==> (x + y)[k] == x[k];
    assert forall k :: 0 <= k < |y| ==> (x + y)[|x| + k] == y[k];
  }

  /** Replacing a stretch of the left part of `v == x + y`. */
  lemma SpliceLeft(x: seq<NodeId>, y: seq<NodeId>, q: nat, l: nat, m: seq<NodeId>, v: seq<NodeId>, vb: seq<NodeId>)
    requires q + l <= |x| && v == x + y && vb == (x[..q] + m + x[q + l..]) + y
    ensures q + l <= |v| && vb == v[..q] + m + v[q + l..]
  {
    assert v[..q] == x[..q];
    assert v[q + l..] == x[q + l..] + y;
  }

  /** Replacing a stretch of the right part of `v == x + y`: row `q` of `v`
      is row `q - |x|` of `y`. */
  lemma SpliceRight(x: seq<NodeId>, y: seq<NodeId>, yb: seq<NodeId>, q: nat, l: nat, m: seq<NodeId>, v: seq<NodeId>, vb: seq<NodeId>)
    requires |x| <= q && q - |x| + l <= |y| && yb == y[..q - |x|] + m + y[q - |x| + l..]
    requires v == x + y && vb == x + yb
    ensures q + l <= |v| && vb == v[..q] + m + v[q + l..]
  {
    assert v[..q] == x + y[..q - |x|];
    assert v[q + l..] == y[q - |x| + l..];
  }

  /** A walk that never shows `x` does not notice its flag. */
  lemma VisibleAvoid(a: seq<Node>, b: seq<Node>, x: NodeId, p: NodeId, n: nat)
    requires Ordered(a) && Ordered(b) && FlagOnly(a, b, x) && p < |a| && n <= |a[p].children|
    requires x !in Visible(a, p, n, false)
    ensures n <= |b[p].children| && Visible(b, p, n, false) == Visible(a, p, n, false)
  {
    VisibleAbove(a, p, n, false);
    assert b[p].children == a[p].children;
    assert a[p].children[..n] == b[p].children[..n];
    VisibleFrame(a, b, p, n, false);
  }

  lemma SubtreeAvoid(a: seq<Node>, b: seq<Node>, x: NodeId, c: NodeId)
    requires Ordered(a) && Ordered(b) && FlagOnly(a, b, x) && c < |a|
    requires x !in Subtree(a, c, false)
    ensures Subtree(b, c, false) == Subtree(a, c, false)
  {
    SubtreeAbove(a, c, false);
    SubtreeFrame(a, b, c, false);
  }

  /** Changing the flag of the node shown at row `q` (and at no other row)
      replaces that node's rows and leaves every other row in place. */
  lemma {:induction false} ToggleVisible(a: seq<Node>, b: seq<Node>, x: NodeId, p: NodeId, n: nat, q: nat)
    requires Ordered(a) && Ordered(b) && FlagOnly(a, b, x) && p < |a| && n <= |a[p].children|
    requires OnlyAt(Visible(a, p, n, false), q, x)
    ensures x < |a| && RowsAt(Visible(a, p, n, false), q, Subtree(a, x, false))
    ensures Visible(b, p, n, false)
            == Visible(a, p, n, false)[..q] + Subtree(b, x, false)
               + Visible(a, p, n, false)[q + |Subtree(a, x, false)|..]
    decreases |a| - p, 1, n, 1
  {
    VisibleAt(a, p, n, false, q);
    var xs := Visible(a, p, n - 1, false);
    var s := Subtree(a, a[p].children[n - 1], false);
    assert Visible(a, p, n, false) == xs + s;
    OnlyAtSplit(xs, s, q, x);
    if q < |xs| {
      ToggleVisibleEarlier(a, b, x, p, n, q);
    } else {
      ToggleVisibleLast(a, b, x, p, n, q);
    }
  }

  /** ToggleVisible, when the row lies among the first n - 1 children's rows. */
  lemma {:induction false} ToggleVisibleEarlier(a: seq<Node>, b: seq<Node>, x: NodeId, p: NodeId, n: nat, q: nat)
    requires Ordered(a) && Ordered(b) && FlagOnly(a, b, x) && p < |a| && 0 < n <= |a[p].children|
    requires OnlyAt(Visible(a, p, n - 1, false), q, x)
    requires x !in Subtree(a, a[p].children[n - 1], false)
    ensures x < |a| && q + |Subtree(a, x, false)| <= |Visible(a, p, n, false)|
    ensures Visible(b, p, n, false)
            == Visible(a, p, n, false)[..q] + Subtree(b, x, false)
               + Visible(a, p, n, false)[q + |Subtree(a, x, false)|..]
    decreases |a| - p, 1, n, 0
  {
    var xs := Visible(a, p, n - 1, false);
    var c := a[p].children[n - 1];
    var s := Subtree(a, c, false);
    SubtreeAvoid(a, b, x, c);
    ToggleVisible(a, b, x, p, n - 1, q);
    assert Visible(a, p, n, false) == xs + s;
    assert b[p].children == a[p].children;
    assert Visible(b, p, n, false) == Visible(b, p, n - 1, false) + Subtree(b, c, false);
    SpliceLeft(xs, s, q, |Subtree(a, x, false)|, Subtree(b, x, false), Visible(a, p, n, false), Visible(b, p, n, false));
  }

  /** ToggleVisible, when the row lies among the last child's rows. */
  lemma {:induction false} ToggleVisibleLast(a: seq<Node>, b: seq<Node>, x: NodeId, p: NodeId, n: nat, q: nat)
    requires Ordered(a) && Ordered(b) && FlagOnly(a, b, x) && p < |a| && 0 < n <= |a[p].children|
    requires |Visible(a, p, n - 1, false)| <= q
    requires OnlyAt(Subtree(a, a[p].children[n - 1], false), q - |Visible(a, p, n - 1, false)|, x)
    requires x !in Visible(a, p, n - 1, false)
    ensures x < |a| && q + |Subtree(a, x, false)| <= |Visible(a, p, n, false)|
    ensures Visible(b, p, n, false)
            == Visible(a, p, n, false)[..q] + Subtree(b, x, false)
               + Visible(a, p, n, false)[q + |Subtree(a, x, false)|..]
    decreases |a| - p, 1, n, 0
  {
    var xs := Visible(a, p, n - 1, false);
    var c := a[p].children[n - 1];
    LastChildAvoid(a, b, x, p, n);
    ToggleSubtree(a, b, x, c, q - |xs|);
    SpliceRight(xs, Subtree(a, c, false), Subtree(b, c, false), q, |Subtree(a, x, false)|, Subtree(b, x, false),
                Visible(a, p, n, false), Visible(b, p, n, false));
  }

  /** When the first n - 1 children's rows avoid `x`, only the last child's rows can change. */
  lemma LastChildAvoid(a: seq<Node>, b: seq<Node>, x: NodeId, p: NodeId, n: nat)
    requires Ordered(a) && Ordered(b) && FlagOnly(a, b, x) && p < |a| && 0 < n <= |a[p].children|
    requires x !in Visible(a, p, n - 1, false)
    ensures Visible(a, p, n, false) == Visible(a, p, n - 1, false) + Subtree(a, a[p].children[n - 1], false)
    ensures Visible(b, p, n, false) == Visible(a, p, n - 1, false) + Subtree(b, a[p].children[n - 1], false)
  {
    VisibleAvoid(a, b, x, p, n - 1);
    assert b[p].children == a[p].children;
  }

  lemma {:induction false} ToggleSubtree(a: seq<Node>, b: seq<Node>, x: NodeId, c: NodeId, q: nat)
    requires Ordered(a) && Ordered(b) && FlagOnly(a, b, x) && c < |a|
    requires OnlyAt(Subtree(a, c, false), q, x)
    ensures x < |a| && RowsAt(Subtree(a, c, false), q, Subtree(a, x, false))
    ensures Subtree(b, c, false)
            == Subtree(a, c, false)[..q] + Subtree(b, x, false)
               + Subtree(a, c, false)[q + |Subtree(a, x, false)|..]
    decreases |a| - c, 2, 1
  {
    SubtreeAt(a, c, false, q);
    if q > 0 {
      ToggleSubtreeBelow(a, b, x, c, q);
    } else {
      var s := Subtree(a, c, false);
      assert s[..0] == [] && s[|s|..] == [];
    }
  }

  /** ToggleSubtree, when the row lies strictly below `c`. */
  lemma {:induction false} ToggleSubtreeBelow(a: seq<Node>, b: seq<Node>, x: NodeId, c: NodeId, q: nat)
    requires Ordered(a) && Ordered(b) && FlagOnly(a, b, x) && c < |a| && 0 < q
    requires OnlyAt(Subtree(a, c, false), q, x)
    ensures x < |a| && q + |Subtree(a, x, false)| <= |Subtree(a, c, false)|
    ensures Subtree(b, c, false)
            == Subtree(a, c, false)[..q] + Subtree(b, x, false)
               + Subtree(a, c, false)[q + |Subtree(a, x, false)|..]
    decreases |a| - c, 2, 0
  {
    var s := Subtree(a, c, false);
    var k := |a[c].children|;
    var w := Visible(a, c, k, false);
    assert s[0] == c;
    assert a[c].open && s == [c] + w;
    assert b[c].open && b[c].children == a[c].children;
    OnlyAtSplit([c], w, q, x);
    ToggleVisible(a, b, x, c, k, q - 1);
    assert Subtree(b, c, false) == [c] + Visible(b, c, k, false);
    SpliceRight([c], w, Visible(b, c, k, false), q, |Subtree(a, x, false)|, Subtree(b, x, false), s, Subtree(b, c, false));
  }

  // ---------------------------------------------------------------------------
  // Rows are distinct; a shown node's parent is shown and open

  lemma IncreasingSplit(x: seq<NodeId>, y: seq<NodeId>)
    requires Increasing(x + y)
    ensures Increasing(x) && Increasing(y)
    ensures forall u, v :: u in x && v in y ==> u < v
  {
    forall u, v | u in x && v in y ensures u < v {
      var i :| 0 <= i < |x| && x[i] == u;
      var j :| 0 <= j < |y| && y[j] == v;
      assert (x + y)[i] == u && (x + y)[|x| + j] == v;
    }
    forall i, j | 0 <= i < j < |y| ensures y[i] < y[j] {
      assert (x + y)[|x| + i] == y[i] && (x + y)[|x| + j] == y[j];
    }
    forall i, j | 0 <= i < j < |x| ensures x[i] < x[j] {
      assert (x + y)[i] == x[i] && (x + y)[j] == x[j];
    }
  }

  lemma IncreasingJoin(x: seq<NodeId>, y: seq<NodeId>)
    requires Increasing(x) && Increasing(y)
    requires forall u, v :: u in x && v in y ==> u < v
    ensures Increasing(x + y)
  {
    forall i, j | 0 <= i < j < |x + y| ensures (x + y)[i] < (x + y)[j] {
      if j < |x| {
      } else if i >= |x| {
        assert (x + y)[i] == y[i - |x|] && (x + y)[j] == y[j - |x|];
      } else {
        assert (x + y)[i] == x[i] && x[i] in x;
        assert (x + y)[j] == y[j - |x|] && y[j - |x|] in y;
      }
    }
  }

  /** The open-only walk keeps a subset of the full walk's rows, in the same
      order; so when the full walk has no repeats, neither has the visible list. */
  lemma {:induction false} VisibleIncreasing(a: seq<Node>, p: NodeId, n: nat)
    requires Ordered(a) && p < |a| && n <= |a[p].children| && Increasing(Visible(a, p, n, true))
    ensures Increasing(Visible(a, p, n, false))
    ensures forall y :: y in Visible(a, p, n, false) ==> y in Visible(a, p, n, true)
    decreases |a| - p, 1, n
  {
    if n > 0 {
      var c := a[p].children[n - 1];
      IncreasingSplit(Visible(a, p, n - 1, true), Subtree(a, c, true));
      VisibleIncreasing(a, p, n - 1);
      SubtreeIncreasing(a, c);
      IncreasingJoin(Visible(a, p, n - 1, false), Subtree(a, c, false));
    }
  }

  lemma {:induction false} SubtreeIncreasing(a: seq<Node>, c: NodeId)
    requires Ordered(a) && c < |a| && Increasing(Subtree(a, c, true))
    ensures Increasing(Subtree(a, c, false))
    ensures forall y :: y in Subtree(a, c, false) ==> y in Subtree(a, c, true)
    decreases |a| - c, 2, 0
  {
    var w := Visible(a, c, |a[c].children|, true);
    IncreasingSplit([c], w);
    VisibleIncreasing(a, c, |a[c].children|);
    if a[c].open {
      IncreasingJoin([c], Visible(a, c, |a[c].children|, false));
    }
  }

  /** Every shown node hangs under `p` directly, or under a node that is
      itself shown and open. */
  lemma {:induction false} VisibleParentShown(a: seq<Node>, p: NodeId, n: nat, y: NodeId)
    requires Tree(a) && p < |a| && n <= |a[p].children| && y in Visible(a, p, n, false)
    ensures y < |a| && a[y].parent.Some?
    ensures a[y].parent.value == p ||
            (a[y].parent.value in Visible(a, p, n, false) && a[a[y].parent.value].open)
    decreases |a| - p, 1, n
  {
    var c := a[p].children[n - 1];
    if y in Visible(a, p, n - 1, false) {
      VisibleParentShown(a, p, n - 1, y);
    } else if y != c {
      SubtreeParentShown(a, c, y);
    }
  }

  lemma {:induction false} SubtreeParentShown(a: seq<Node>, c: NodeId, y: NodeId)
    requires Tree(a) && c < |a| && y in Subtree(a, c, false) && y != c
    ensures y < |a| && a[y].parent.Some?
    ensures a[y].parent.value in Subtree(a, c, false) && a[a[y].parent.value].open
    decreases |a| - c, 2, 0
  {
    VisibleParentShown(a, c, |a[c].children|, y);
  }
}
