/** indentTree: one pass over the input lines with an explicit stack of the
    open ancestors of the most recent line. Every line becomes a node that is
    attached under the nearest stack entry indented less than it. */
module Parser {
  import opened Arena

  const TabChar: char := '\t'

  /** The number of leading `c` characters of `line`. */
  function Indentation(line: string, c: char): (d: nat)
    ensures d <= |line|
    ensures forall k :: 0 <= k < d ==> line[k] == c
    ensures d < |line| ==> line[d] != c
  {
    if |line| > 0 && line[0] == c then 1 + Indentation(line[1..], c) else 0
  }

  /** indentDepth: counts the leading `indent` runes, stopping at the first other one. */
  method IndentDepth(line: string, indent: char) returns (depth: nat)
    ensures depth <= |line| && forall k :: 0 <= k < depth ==> line[k] == indent
    ensures depth < |line| ==> line[depth] != indent
    ensures depth == Indentation(line, indent)
  {
    depth := 0;
    for i := 0 to |line|
      invariant depth == i
      invariant forall k :: 0 <= k < i ==> line[k] == indent
    {
      if line[i] == indent {
        depth := depth + 1;
      } else {
        break;
      }
    }
  }

  /** newNode: the line's tabs become its indent and the rest its text; it
      starts with the default open flag and no links. */
  method NewNode(line: string, defaultOpen: bool) returns (n: Node)
    ensures n.indent == Indentation(line, TabChar) && n.text == line[Indentation(line, TabChar)..]
    ensures |n.text| + n.indent == |line| && (n.text != [] ==> n.text[0] != TabChar)
    ensures n.open == defaultOpen && n.parent == None && n.children == []
  {
    var indent := IndentDepth(line, TabChar);
    n := Node(line[indent..], indent, defaultOpen, None, []);
  }

  /** The `stack` of node pointers, as a growable list of arena indices. */
  class Stack {
    var items: seq<NodeId>

    constructor ()
      ensures items == []
    {
      items := [];
    }

    method Push(n: NodeId)
      modifies this
      ensures items == old(items) + [n]
    {
      items := items + [n];
    }

    method Pop() returns (n: NodeId)
      requires items != []
      modifies this
      ensures n == old(items)[|old(items)| - 1] && items == old(items)[..|old(items)| - 1]
    {
      n := items[|items| - 1];
      items := items[..|items| - 1];
    }

    method ReplaceTop(n: NodeId)
      requires items != []
      modifies this
      ensures items == old(items)[..|old(items)| - 1] + [n]
    {
      items := items[..|items| - 1] + [n];
    }

    function Top(): NodeId
      reads this
      requires items != []
    {
      items[|items| - 1]
    }

    function Bottom(): NodeId
      reads this
      requires items != []
    {
      items[0]
    }
  }

  /** `p` is the nearest line before `m` indented less than `m`. */
  ghost predicate NearestShallower(a: seq<Node>, p: NodeId, m: NodeId)
  {
    p < m < |a| && a[p].indent < a[m].indent &&
    forall i :: p < i < m ==> a[m].indent <= a[i].indent
  }

  /** Every line hangs under the nearest earlier line indented less than it. */
  ghost predicate Parents(a: seq<Node>)
  {
    forall m {:trigger a[m].parent} :: 0 < m < |a| ==> a[m].parent.Some? && NearestShallower(a, a[m].parent.value, m)
  }

  /** The full walk from `x` numbers every node from `x` to the end of the arena. */
  ghost predicate Covers(a: seq<Node>, x: NodeId)
    requires Ordered(a)
  {
    x < |a| && Subtree(a, x, true) == Range(x, |a|)
  }

  /** `c` is the last child of `p` and is indented deeper than `p`. */
  ghost predicate Link(a: seq<Node>, p: NodeId, c: NodeId)
  {
    p < |a| && c < |a| && a[p].children != [] &&
    a[p].children[|a[p].children| - 1] == c && a[p].indent < a[c].indent
  }

  /** `st` climbs the arena along last children, from bottom to top, each
      entry indented deeper than the one below it. */
  ghost predicate Chain(a: seq<Node>, st: seq<NodeId>)
  {
    |st| >= 1 && Increasing(st) && (forall k :: 0 <= k < |st| ==> st[k] < |a|) &&
    forall k :: 0 <= k < |st| - 1 ==> Link(a, st[k], st[k + 1])
  }

  /** The parser's stack over the arena built so far: it starts at the root,
      ends at the newest node, each entry is the last child of the one below
      it, indents strictly increase upwards, and the full walk from each
      entry covers every node from that entry to the end. */
  ghost predicate Spine(a: seq<Node>, st: seq<NodeId>)
  {
    Ordered(a) && Chain(a, st) && st[0] == Root && st[|st| - 1] == |a| - 1 &&
    forall k :: 0 <= k < |st| ==> Covers(a, st[k])
  }

  lemma RangeSplit(lo: nat, mid: nat, hi: nat)
    requires lo <= mid <= hi
    ensures Range(lo, mid) + Range(mid, hi) == Range(lo, hi)
  {
  }

  lemma RangeTail(p: nat, v: seq<NodeId>, h: nat)
    requires p < h && [p] + v == Range(p, h)
    ensures v == Range(p + 1, h)
  {
    assert v == ([p] + v)[1..];
  }

  /** If `[p] + v + Range(c, h)` numbers `p` to `h`, then `v` numbers the gap. */
  lemma RangeMiddle(p: nat, v: seq<NodeId>, c: nat, h: nat)
    requires p < c <= h && [p] + v + Range(c, h) == Range(p, h)
    ensures v == Range(p + 1, c)
  {
    assert |v| == c - p - 1;
    forall i | 0 <= i < |v| ensures v[i] == p + 1 + i {
      assert ([p] + v + Range(c, h))[1 + i] == v[i];
    }
  }

  /** `r` is `a` with node `n` added at the end as the last child of `p`. */
  ghost predicate Grown(a: seq<Node>, r: seq<Node>, p: NodeId, n: Node)
  {
    p < |a| && |r| == |a| + 1 &&
    r[|a|] == n.(parent := Some(p)) &&
    r[p] == a[p].(children := a[p].children + [|a|]) &&
    forall y :: 0 <= y < |a| && y != p ==> r[y] == a[y]
  }

  lemma AppendGrows(a: seq<Node>, p: NodeId, n: Node)
    requires p < |a| && n.parent == None
    ensures Grown(a, Append(a + [n], p, |a|), p, n)
  {
    var r := Append(a + [n], p, |a|);
    forall y | 0 <= y < |a| && y != p ensures r[y] == a[y] {
      assert (a + [n])[y] == a[y];
    }
  }

  /** Attaching keeps children after their parents. */
  lemma GrownOrdered(a: seq<Node>, r: seq<Node>, p: NodeId, n: Node)
    requires Ordered(a) && Grown(a, r, p, n) && n.children == []
    ensures Ordered(r)
  {
    forall y, j | 0 <= y < |r| && 0 <= j < |r[y].children| ensures y < r[y].children[j] < |r| {
      if y != p && y < |a| {
        assert r[y].children[j] == a[y].children[j];
      } else if y == p && j < |a[p].children| {
        assert r[y].children[j] == a[y].children[j];
      }
    }
  }

  /** Attaching keeps the tree links. */
  lemma GrownTree(a: seq<Node>, r: seq<Node>, p: NodeId, n: Node)
    requires Tree(a) && Grown(a, r, p, n) && n.children == [] && a[p].indent < n.indent
    ensures Tree(r)
  {
    GrownOrdered(a, r, p, n);
    forall y, j | 0 <= y < |r| && 0 <= j < |r[y].children|
      ensures r[r[y].children[j]].parent == Some(y)
    {
      if y != p && y < |a| {
        assert r[y].children[j] == a[y].children[j];
      } else if y == p && j < |a[p].children| {
        assert r[y].children[j] == a[y].children[j];
      }
    }
    forall y | 0 < y < |r|
      ensures r[y].parent.Some? && r[y].parent.value < y &&
              y in r[r[y].parent.value].children &&
              r[r[y].parent.value].indent < r[y].indent
    {
      if y < |a| {
        var q := a[y].parent.value;
        assert y in a[q].children;
        assert r[q].children == a[q].children || r[q].children == a[q].children + [|a|];
      } else {
        assert r[p].children[|a[p].children|] == y;
      }
    }
  }

  /** Attaching under the nearest shallower line keeps the parent rule. */
  lemma GrownParents(a: seq<Node>, r: seq<Node>, p: NodeId, n: Node)
    requires Parents(a) && Grown(a, r, p, n) && a[p].indent < n.indent
    requires forall i :: p < i < |a| ==> n.indent <= a[i].indent
    ensures Parents(r)
  {
    forall m | 0 < m < |r| ensures r[m].parent.Some? && NearestShallower(r, r[m].parent.value, m) {
      if m < |a| {
        assert r[m].parent == a[m].parent;
        assert forall i :: 0 <= i < |a| ==> r[i].indent == a[i].indent;
      } else {
        assert forall i :: 0 <= i < |a| ==> r[i].indent == a[i].indent;
      }
    }
  }

  /** After attaching under entry `k`, the full walk from each entry at or
      below `k` covers every node from that entry to the new one. */
  lemma {:induction false} GrownRange(a: seq<Node>, r: seq<Node>, st: seq<NodeId>, k: nat, n: Node, j: nat)
    requires Ordered(a) && Ordered(r) && Chain(a, st) && j <= k < |st|
    requires Grown(a, r, st[k], n) && n.children == []
    requires forall i :: j <= i <= k ==> Covers(a, st[i])
    ensures Covers(r, st[j])
    decreases k - j
  {
    if j == k {
      GrownRangeTop(a, r, st[k], n);
    } else {
      GrownRange(a, r, st, k, n, j + 1);
      assert Link(a, st[j], st[j + 1]);
      assert st[j] < st[j + 1] <= st[k];
      GrownRangeBelow(a, r, st[j], st[j + 1], st[k], n);
    }
  }

  lemma RangeCons(p: nat, h: nat)
    requires p < h
    ensures [p] + Range(p + 1, h) == Range(p, h)
  {
  }

  /** The walk over the children of a covering entry numbers every node after it. */
  lemma CoversChildren(a: seq<Node>, p: NodeId)
    requires Ordered(a) && Covers(a, p)
    ensures Visible(a, p, |a[p].children|, true) == Range(p + 1, |a|)
  {
    assert Subtree(a, p, true) == [p] + Visible(a, p, |a[p].children|, true);
    RangeTail(p, Visible(a, p, |a[p].children|, true), |a|);
  }

  /** Attaching under `p` leaves the walk over its earlier children alone. */
  lemma GrownChildren(a: seq<Node>, r: seq<Node>, p: NodeId, n: Node)
    requires Ordered(a) && Ordered(r) && Grown(a, r, p, n)
    ensures Visible(r, p, |a[p].children|, true) == Visible(a, p, |a[p].children|, true)
  {
    var cnt := |a[p].children|;
    VisibleAbove(a, p, cnt, true);
    assert a[p].children[..cnt] == r[p].children[..cnt];
    VisibleFrame(a, r, p, cnt, true);
  }

  /** The entry that receives the new node covers it as its last row. */
  lemma GrownRangeTop(a: seq<Node>, r: seq<Node>, p: NodeId, n: Node)
    requires Ordered(a) && Ordered(r) && Grown(a, r, p, n) && n.children == [] && Covers(a, p)
    ensures Covers(r, p)
  {
    var cnt := |a[p].children|;
    CoversChildren(a, p);
    GrownChildren(a, r, p, n);
    assert Subtree(r, |a|, true) == [|a|];
    assert Visible(r, p, cnt + 1, true) == Range(p + 1, |a|) + [|a|];
    RangeCons(p, |a| + 1);
    assert Subtree(r, p, true) == [p] + (Range(p + 1, |a|) + [|a|]);
  }

  /** The children of `p` before its last child `c` number the nodes between the two. */
  lemma CoversBefore(a: seq<Node>, p: NodeId, c: NodeId)
    requires Ordered(a) && p < c && Covers(a, p) && Covers(a, c)
    requires a[p].children != [] && a[p].children[|a[p].children| - 1] == c
    ensures Visible(a, p, |a[p].children| - 1, true) == Range(p + 1, c)
  {
    var cnt := |a[p].children|;
    var v := Visible(a, p, cnt - 1, true);
    assert Subtree(a, p, true) == [p] + Visible(a, p, cnt, true);
    assert Visible(a, p, cnt, true) == v + Subtree(a, c, true);
    RangeMiddle(p, v, c, |a|);
  }

  /** Attaching below `c` leaves the walk over the earlier children of `p` alone. */
  lemma GrownBefore(a: seq<Node>, r: seq<Node>, p: NodeId, c: NodeId, t: NodeId, n: Node)
    requires Ordered(a) && Ordered(r) && Grown(a, r, t, n) && p < c <= t
    requires a[p].children != [] && a[p].children[|a[p].children| - 1] == c
    requires Visible(a, p, |a[p].children| - 1, true) == Range(p + 1, c)
    ensures Visible(r, p, |a[p].children| - 1, true) == Range(p + 1, c)
  {
    var cnt := |a[p].children|;
    var v := Visible(a, p, cnt - 1, true);
    forall y | y in v ensures Agree(a, r, y, true) {
      var i :| 0 <= i < |v| && v[i] == y;
    }
    assert a[p].children[..cnt - 1] == r[p].children[..cnt - 1];
    VisibleFrame(a, r, p, cnt - 1, true);
  }

  /** An entry whose last child `c` covers the new node covers it too. */
  lemma GrownRangeBelow(a: seq<Node>, r: seq<Node>, p: NodeId, c: NodeId, t: NodeId, n: Node)
    requires Ordered(a) && Ordered(r) && Grown(a, r, t, n) && p < c <= t
    requires a[p].children != [] && a[p].children[|a[p].children| - 1] == c
    requires Covers(a, p) && Covers(a, c) && Covers(r, c)
    ensures Covers(r, p)
  {
    var cnt := |a[p].children|;
    CoversBefore(a, p, c);
    GrownBefore(a, r, p, c, t, n);
    assert r[p].children == a[p].children;
    assert Visible(r, p, cnt, true) == Visible(r, p, cnt - 1, true) + Subtree(r, c, true);
    RangeSplit(p + 1, c, |a| + 1);
    assert Visible(r, p, cnt, true) == Range(p + 1, |a| + 1);
    RangeCons(p, |a| + 1);
    assert Subtree(r, p, true) == [p] + Visible(r, p, cnt, true);
  }

  /** Attaching under entry `k` leaves the stack cut above `k` with the new node on top. */
  lemma GrownSpine(a: seq<Node>, r: seq<Node>, st: seq<NodeId>, k: nat, n: Node)
    requires Tree(a) && Spine(a, st) && k < |st| && Grown(a, r, st[k], n)
    requires n.children == [] && a[st[k]].indent < n.indent
    ensures Spine(r, st[..k + 1] + [|a|])
  {
    var st' := st[..k + 1] + [|a|];
    GrownOrdered(a, r, st[k], n);
    GrownChain(a, r, st, k, n);
    forall j | 0 <= j < |st'| ensures Covers(r, st'[j]) {
      if j <= k {
        GrownRange(a, r, st, k, n, j);
      } else {
        assert Subtree(r, |a|, true) == [|a|];
      }
    }
  }

  lemma GrownChain(a: seq<Node>, r: seq<Node>, st: seq<NodeId>, k: nat, n: Node)
    requires Chain(a, st) && k < |st| && st[|st| - 1] == |a| - 1 && Grown(a, r, st[k], n)
    requires a[st[k]].indent < n.indent
    ensures Chain(r, st[..k + 1] + [|a|])
  {
    var st' := st[..k + 1] + [|a|];
    forall j | 0 <= j < |st'| - 1 ensures Link(r, st'[j], st'[j + 1]) {
      if j < k {
        assert Link(a, st[j], st[j + 1]);
        assert st[j] < st[k] && st[j + 1] <= st[k];
      }
    }
    assert st[k] <= st[|st| - 1];
  }

  /** Each stack entry above the bottom is the nearest earlier line indented
      less than it is, the entry below it. */
  ghost predicate Nested(a: seq<Node>, st: seq<NodeId>)
  {
    |st| >= 1 && (forall k :: 0 <= k < |st| ==> st[k] < |a|) &&
    forall k :: 0 <= k < |st| - 1 ==> NearestShallower(a, st[k], st[k + 1])
  }

  /** Each entry of the parser's stack is the parent of the one above it. */
  lemma SpineNested(a: seq<Node>, st: seq<NodeId>)
    requires Tree(a) && Parents(a) && Chain(a, st)
    ensures Nested(a, st)
  {
    forall k | 0 <= k < |st| - 1 ensures NearestShallower(a, st[k], st[k + 1]) {
      var ch := a[st[k]].children;
      assert Link(a, st[k], st[k + 1]);
      assert a[ch[|ch| - 1]].parent == Some(st[k]);
    }
  }

  /** Every node after `t` is indented at least `ind` deep. */
  ghost predicate Deeper(a: seq<Node>, t: NodeId, ind: int)
  {
    forall y :: t < y < |a| ==> ind <= a[y].indent
  }

  /** One pop of the dedent loop: the entry popped is at least `ind` deep, so
      every node after the entry below it is too; the root is never popped,
      since no line is indented less than zero. */
  lemma PopStep(a: seq<Node>, st: seq<NodeId>, j: nat, ind: int)
    requires Nested(a, st) && a[st[0]].indent == -1 && 1 <= j <= |st|
    requires 0 <= ind <= a[st[j - 1]].indent && Deeper(a, st[j - 1], ind)
    ensures 2 <= j && Deeper(a, st[j - 2], ind)
  {
    var m := st[j - 1];
    assert NearestShallower(a, st[j - 2], m);
    forall y | st[j - 2] < y < |a| ensures ind <= a[y].indent {
      if y < m {
        assert a[m].indent <= a[y].indent;
      }
    }
  }

  /** Lines 0 .. i - 1 have been read into nodes 1 .. i. */
  ghost predicate Read(a: seq<Node>, lines: seq<string>, i: nat, defaultOpen: bool)
  {
    |a| == i + 1 && i <= |lines| && |a| >= 1 && a[Root].text == "" && !a[Root].open &&
    forall k :: 0 <= k < i ==>
      a[k + 1].indent == Indentation(lines[k], TabChar) &&
      a[k + 1].text == lines[k][Indentation(lines[k], TabChar)..] &&
      a[k + 1].open == defaultOpen
  }

  /** The new node has the largest index yet, so appending it keeps every
      child list in increasing order. */
  lemma GrownSorted(a: seq<Node>, r: seq<Node>, p: NodeId, n: Node)
    requires Ordered(a) && Sorted(a) && Grown(a, r, p, n) && n.children == []
    ensures Sorted(r)
  {
    forall q, i, j | 0 <= q < |r| && 0 <= i < j < |r[q].children|
      ensures r[q].children[i] < r[q].children[j]
    {
      if q == p && j == |a[p].children| {
        assert r[q].children[i] == a[p].children[i];
      } else if q < |a| {
        assert r[q].children[i] == a[q].children[i] && r[q].children[j] == a[q].children[j];
      }
    }
  }

  /** The invariant of the parser loop after reading `i` lines. */
  ghost predicate Parsing(a: seq<Node>, st: seq<NodeId>, lines: seq<string>, i: nat, defaultOpen: bool)
  {
    Tree(a) && Sorted(a) && Parents(a) && Spine(a, st) && Read(a, lines, i, defaultOpen)
  }

  /** Adding line `i` as node `i + 1` extends what has been read. */
  lemma GrownRead(a: seq<Node>, r: seq<Node>, p: NodeId, n: Node, lines: seq<string>, i: nat, defaultOpen: bool)
    requires Read(a, lines, i, defaultOpen) && i < |lines| && Grown(a, r, p, n)
    requires n == Node(lines[i][Indentation(lines[i], TabChar)..], Indentation(lines[i], TabChar), defaultOpen, None, [])
    ensures Read(r, lines, i + 1, defaultOpen)
  {
    forall y | 0 <= y < |a| ensures r[y].text == a[y].text && r[y].indent == a[y].indent && r[y].open == a[y].open {
      if y != p {
        assert r[y] == a[y];
      }
    }
    forall k | 0 <= k < i + 1
      ensures r[k + 1].indent == Indentation(lines[k], TabChar) &&
              r[k + 1].text == lines[k][Indentation(lines[k], TabChar)..] &&
              r[k + 1].open == defaultOpen
    {
      if k < i {
        assert a[k + 1].indent == Indentation(lines[k], TabChar);
      }
    }
  }

  /** Attaching line `i` under stack entry `k` keeps the invariant of the parser loop. */
  lemma GrownParsing(a: seq<Node>, r: seq<Node>, st: seq<NodeId>, k: nat, n: Node, lines: seq<string>, i: nat, defaultOpen: bool)
    requires Parsing(a, st, lines, i, defaultOpen) && k < |st| && i < |lines| && Grown(a, r, st[k], n)
    requires n == Node(lines[i][Indentation(lines[i], TabChar)..], Indentation(lines[i], TabChar), defaultOpen, None, [])
    requires a[st[k]].indent < n.indent && Deeper(a, st[k], n.indent)
    ensures Parsing(r, st[..k + 1] + [|a|], lines, i + 1, defaultOpen)
  {
    GrownTree(a, r, st[k], n);
    GrownParents(a, r, st[k], n);
    GrownSpine(a, r, st, k, n);
    GrownRead(a, r, st[k], n, lines, i, defaultOpen);
    GrownSorted(a, r, st[k], n);
  }

  lemma AttachLine(a: seq<Node>, st: seq<NodeId>, k: nat, n: Node, lines: seq<string>, i: nat, defaultOpen: bool)
    requires Parsing(a, st, lines, i, defaultOpen) && k < |st| && i < |lines|
    requires n == Node(lines[i][Indentation(lines[i], TabChar)..], Indentation(lines[i], TabChar), defaultOpen, None, [])
    requires a[st[k]].indent < n.indent && Deeper(a, st[k], n.indent)
    ensures Parsing(Append(a + [n], st[k], |a|), st[..k + 1] + [|a|], lines, i + 1, defaultOpen)
  {
    AppendGrows(a, st[k], n);
    GrownParsing(a, Append(a + [n], st[k], |a|), st, k, n, lines, i, defaultOpen);
  }

  /** What indentTree promises: one node per line after the synthetic root,
      each holding its line's indent, stripped text and the default flag,
      hung under the nearest earlier line indented less than it, with the
      full pre-order walk visiting the lines in input order. */
  ghost predicate Parsed(lines: seq<string>, defaultOpen: bool, a: seq<Node>)
  {
    |a| == |lines| + 1 && Shaped(a) && Sorted(a) && Parents(a) &&
    a[Root].text == "" && a[Root].indent == -1 && !a[Root].open && a[Root].parent == None &&
    forall k :: 0 <= k < |lines| ==>
      a[k + 1].indent == Indentation(lines[k], TabChar) &&
      a[k + 1].text == lines[k][Indentation(lines[k], TabChar)..] &&
      a[k + 1].open == defaultOpen
  }

  /** After the last line the stack's bottom, the root, covers the whole arena. */
  lemma ParsingDone(a: seq<Node>, st: seq<NodeId>, lines: seq<string>, defaultOpen: bool)
    requires Parsing(a, st, lines, |lines|, defaultOpen)
    ensures Parsed(lines, defaultOpen, a)
  {
    RootCovers(a, st);
  }

  /** The root at the stack's bottom covers the arena, so the full walk
      below it numbers every line in order. */
  lemma RootCovers(a: seq<Node>, st: seq<NodeId>)
    requires Tree(a) && Spine(a, st)
    ensures Shaped(a)
  {
    assert Covers(a, st[0]);
    assert Subtree(a, Root, true) == [Root] + Flatten(a, true);
    RangeTail(Root, Flatten(a, true), |a|);
  }

  /** The dedent loop: pops the stack until its top is indented less than
      `ind`; the root, at indent -1, is never popped. */
  method Dedent(st: Stack, a: seq<Node>, ghost full: seq<NodeId>, ind: int)
    requires Nested(a, full) && a[full[0]].indent == -1 && full[|full| - 1] == |a| - 1
    requires st.items == full && 0 <= ind <= a[st.Top()].indent
    modifies st
    ensures 1 <= |st.items| < |full| && st.items == full[..|st.items|]
    ensures a[st.Top()].indent < ind && Deeper(a, st.Top(), ind)
  {
    while ind <= a[st.Top()].indent
      invariant 1 <= |st.items| <= |full| && st.items == full[..|st.items|]
      invariant Deeper(a, st.Top(), ind)
      decreases |st.items|
    {
      PopStep(a, full, |st.items|, ind);
      var _ := st.Pop();
    }
  }

  /** `st.top().Append(n); st.push(n)`: the node of line `i` becomes the last
      child of the stack's top, which is indented less than it while every
      later node is indented at least as deep, and then goes on the stack. */
  method AttachTop(st: Stack, a: seq<Node>, ghost full: seq<NodeId>, n: Node, lines: seq<string>, i: nat, defaultOpen: bool)
    returns (r: seq<Node>)
    requires i < |lines| && Parsing(a, full, lines, i, defaultOpen)
    requires n == Node(lines[i][Indentation(lines[i], TabChar)..], Indentation(lines[i], TabChar), defaultOpen, None, [])
    requires 1 <= |st.items| <= |full| && st.items == full[..|st.items|]
    requires a[st.Top()].indent < n.indent && Deeper(a, st.Top(), n.indent)
    modifies st
    ensures r == Append(a + [n], old(st.Top()), |a|) && st.items == old(st.items) + [|a|]
    ensures Parsing(r, st.items, lines, i + 1, defaultOpen)
  {
    var k := |st.items| - 1;
    var p := st.Top();
    assert p == full[k];
    AttachLine(a, full, k, n, lines, i, defaultOpen);
    r := Append(a + [n], p, |a|);
    st.Push(|a|);
  }

  /** One iteration of indentTree's scan loop: line `i` becomes node `i + 1`,
      attached under the nearest stack entry indented less than it. */
  method ReadLine(st: Stack, a: seq<Node>, lines: seq<string>, i: nat, defaultOpen: bool) returns (r: seq<Node>)
    requires i < |lines| && Parsing(a, st.items, lines, i, defaultOpen)
    modifies st
    ensures Parsing(r, st.items, lines, i + 1, defaultOpen)
  {
    var n := NewNode(lines[i], defaultOpen);
    ghost var full := st.items;
    SpineNested(a, full);
    if n.indent > a[st.Top()].indent {
      r := AttachTop(st, a, full, n, lines, i, defaultOpen);
    } else if n.indent == a[st.Top()].indent {
      PopStep(a, full, |full|, n.indent);
      var _ := st.Pop();
      r := AttachTop(st, a, full, n, lines, i, defaultOpen);
    } else {
      Dedent(st, a, full, n.indent);
      r := AttachTop(st, a, full, n, lines, i, defaultOpen);
    }
  }

  /** indentTree, returning the whole arena: node 0 is the synthetic root and
      node k + 1 is input line k; the forest is the root's children. */
  method IndentTree(lines: seq<string>, defaultOpen: bool) returns (a: seq<Node>)
    ensures Parsed(lines, defaultOpen, a)
  {
    var st := new Stack();
    st.Push(Root);
    a := [Node("", -1, false, None, [])];
    assert Subtree(a, Root, true) == [Root];
    for i := 0 to |lines|
      invariant Parsing(a, st.items, lines, i, defaultOpen)
    {
      a := ReadLine(st, a, lines, i, defaultOpen);
    }
    ParsingDone(a, st.items, lines, defaultOpen);
    // st.root() is still the synthetic root, so its children are `a[Root].children`.
    assert st.Bottom() == Root;
  }
}
