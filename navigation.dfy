/** The bubbletea model: the parsed forest, the rows shown by the last render,
    the cursor, and the key handling that moves the cursor and opens and
    closes nodes. `Step` is the key handling as a function of the model's
    fields; the class `Model` is the Go struct, whose `Update` is proved to
    do what `Step` says. */
module Navigation {
  import opened Arena
  import opened Parser
  import opened Render

  /** The key cases of Update: "q"/"ctrl+c", "k"/"up"/"ctrl+p",
      "j"/"down"/"ctrl+n", "h"/"left", "tab", "l"/"right", and any other message. */
  datatype Event = Quit | Up | Down | Left | Tab | Right | Other

  /** The fields of the Go model: the arena behind `tree`, `visibleNodes`,
      `cursor`, and whether `tree` is still set (Quit sets it to nil). */
  datatype State = State(nodes: seq<Node>, visible: seq<NodeId>, cursor: int, hasTree: bool)

  /** model.VisibleNode: the node on row `index` of the last render, or nil. */
  function VisibleNode(visible: seq<NodeId>, index: int): (r: Option<NodeId>)
    ensures r == None <==> index < 0 || index >= |visible|
    ensures r.Some? ==> 0 <= index < |visible| && r.value == visible[index]
  {
    if index < 0 || index > |visible| - 1 then None else Some(visible[index])
  }

  /** model.NumVisibleNodes. */
  function NumVisibleNodes(visible: seq<NodeId>): int
  {
    |visible|
  }

  /** The position of the first `x` in `s`, or `|s|` when there is none: what
      the sibling search in the "h" case leaves in `i`. */
  function IndexOf(s: seq<NodeId>, x: NodeId): (i: nat)
    ensures i <= |s| && (i < |s| ==> s[i] == x)
    ensures forall k :: 0 <= k < i ==> s[k] != x
  {
    if s == [] then 0 else if s[0] == x then 0 else 1 + IndexOf(s[1..], x)
  }

  /** The links Update follows stay inside the arena: every listed row and
      every parent is a node. */
  ghost predicate Linked(s: State)
  {
    (forall k :: 0 <= k < |s.visible| ==> s.visible[k] < |s.nodes|) &&
    forall y :: 0 <= y < |s.nodes| && s.nodes[y].parent.Some? ==> s.nodes[y].parent.value < |s.nodes|
  }

  /** A parsed arena (open flags aside) whose listed rows are real nodes,
      never the synthetic root. */
  ghost predicate Sound(s: State)
  {
    Linked(s) && Shaped(s.nodes) && Sorted(s.nodes) &&
    forall k :: 0 <= k < |s.visible| ==> 0 < s.visible[k]
  }

  /** A parsed arena whose rows are listed by the walk is sound. */
  lemma ShownSound(s: State)
    requires Shaped(s.nodes) && Sorted(s.nodes) && forall y :: y in s.visible ==> 0 < y < |s.nodes|
    ensures Sound(s)
  {
    forall y | 0 <= y < |s.nodes| && s.nodes[y].parent.Some?
      ensures s.nodes[y].parent.value < |s.nodes|
    {
      assert y != Root;
    }
    forall k | 0 <= k < |s.visible| ensures 0 < s.visible[k] < |s.nodes| {
      assert s.visible[k] in s.visible;
    }
  }

  /** model.Update, key by key, on the model's fields. */
  function Step(s: State, e: Event): State
    requires Linked(s)
  {
    match e
    case Quit => s.(hasTree := false)
    case Up => if s.cursor > 0 then s.(cursor := s.cursor - 1) else s
    case Down => if s.cursor < NumVisibleNodes(s.visible) - 1 then s.(cursor := s.cursor + 1) else s
    case Left => LeftKey(s)
    case Tab => TabKey(s)
    case Right => RightKey(s)
    case Other => s
  }

  /** "h"/"left": close the node under the cursor when it is expanded with
      children; otherwise, when it has a parent, move the cursor up by its
      position among the parent's children plus one and flip the parent. */
  function LeftKey(s: State): State
    requires Linked(s)
  {
    match VisibleNode(s.visible, s.cursor)
    case None => s
    case Some(x) =>
      if s.nodes[x].open && |s.nodes[x].children| > 0 then
        s.(nodes := SetOpen(s.nodes, x, false))
      else if s.nodes[x].parent.Some? then
        var p := s.nodes[x].parent.value;
        var i := IndexOf(s.nodes[p].children, x);
        s.(cursor := s.cursor - (i + 1), nodes := SetOpen(s.nodes, p, !s.nodes[p].open))
      else s
  }

  /** "tab": flip the node under the cursor, unless it has no children. */
  function TabKey(s: State): State
    requires Linked(s)
  {
    match VisibleNode(s.visible, s.cursor)
    case None => s
    case Some(x) =>
      if |s.nodes[x].children| == 0 then s else s.(nodes := SetOpen(s.nodes, x, !s.nodes[x].open))
  }

  /** "l"/"right": the node under the cursor is open exactly when it has children. */
  function RightKey(s: State): State
    requires Linked(s)
  {
    match VisibleNode(s.visible, s.cursor)
    case None => s
    case Some(x) => s.(nodes := SetOpen(s.nodes, x, |s.nodes[x].children| > 0))
  }

  // ---------------------------------------------------------------------------
  // What each key does

  /** Changing one flag keeps a parsed arena parsed. */
  lemma SetOpenSound(s: State, x: NodeId, o: bool)
    requires Sound(s) && x < |s.nodes|
    ensures Sound(s.(nodes := SetOpen(s.nodes, x, o)))
    ensures FlagOnly(s.nodes, SetOpen(s.nodes, x, o), x)
  {
    SetOpenOnly(s, x, o);
    SetOpenShaped(s.nodes, x, o);
  }

  /** The parser's shape does not depend on open flags. */
  lemma SetOpenShaped(a: seq<Node>, x: NodeId, o: bool)
    requires Shaped(a) && Sorted(a) && x < |a|
    ensures Shaped(SetOpen(a, x, o)) && Sorted(SetOpen(a, x, o))
  {
    var b := SetOpen(a, x, o);
    SetOpenFlagOnly(a, x, o);
    FullWalkIgnoresFlags(a, b);
    SetOpenTree(a, x, o);
  }

  lemma SetOpenTree(a: seq<Node>, x: NodeId, o: bool)
    requires Tree(a) && Sorted(a) && x < |a|
    ensures Tree(SetOpen(a, x, o)) && Sorted(SetOpen(a, x, o))
  {
    var b := SetOpen(a, x, o);
    forall k | 0 <= k < |a|
      ensures b[k].children == a[k].children && b[k].parent == a[k].parent && b[k].indent == a[k].indent
    {
    }
  }

  /** Every key keeps the model sound, and leaves the rows of the last
      render as they were (only View rebuilds them). */
  lemma StepSound(s: State, e: Event)
    requires Sound(s)
    ensures Sound(Step(s, e)) && Step(s, e).visible == s.visible
  {
    match e
    case Left => LeftSound(s);
    case Tab => TabSound(s);
    case Right => RightSound(s);
    case _ => SoundFields(s, Step(s, e));
  }

  /** Soundness looks at the arena and the listed rows only. */
  lemma SoundFields(s: State, t: State)
    requires Sound(s) && t.nodes == s.nodes && t.visible == s.visible
    ensures Sound(t)
  {
  }

  lemma LeftSound(s: State)
    requires Sound(s)
    ensures Sound(LeftKey(s)) && LeftKey(s).visible == s.visible
  {
    match VisibleNode(s.visible, s.cursor)
    case None =>
    case Some(x) =>
      if s.nodes[x].open && |s.nodes[x].children| > 0 {
        SetOpenSound(s, x, false);
      } else if s.nodes[x].parent.Some? {
        var p := s.nodes[x].parent.value;
        SetOpenSound(s, p, !s.nodes[p].open);
        SoundFields(s.(nodes := SetOpen(s.nodes, p, !s.nodes[p].open)), LeftKey(s));
      }
  }

  lemma TabSound(s: State)
    requires Sound(s)
    ensures Sound(TabKey(s)) && TabKey(s).visible == s.visible
  {
    match VisibleNode(s.visible, s.cursor)
    case None =>
    case Some(x) =>
      if |s.nodes[x].children| != 0 {
        SetOpenSound(s, x, !s.nodes[x].open);
      }
  }

  lemma RightSound(s: State)
    requires Sound(s)
    ensures Sound(RightKey(s)) && RightKey(s).visible == s.visible
  {
    match VisibleNode(s.visible, s.cursor)
    case None =>
    case Some(x) =>
      SetOpenSound(s, x, |s.nodes[x].children| > 0);
  }

  /** Up moves one row up unless the cursor is already on the first row
      (or above it); Down moves one row down only while a row follows.
      Neither touches a flag. */
  lemma UpDownClamped(s: State)
    requires Linked(s)
    ensures Step(s, Up).nodes == s.nodes && Step(s, Down).nodes == s.nodes
    ensures Step(s, Up).cursor == s.cursor - 1 <==> s.cursor > 0
    ensures Step(s, Up).cursor != s.cursor - 1 ==> Step(s, Up) == s
    ensures s.cursor >= 0 ==> Step(s, Up).cursor >= 0
    ensures Step(s, Down).cursor == s.cursor + 1 <==> s.cursor < |s.visible| - 1
    ensures Step(s, Down).cursor != s.cursor + 1 ==> Step(s, Down) == s
    ensures s.cursor < |s.visible| ==> Step(s, Down).cursor < |s.visible|
  {
  }

  /** With no node under the cursor, "h", "tab" and "l" do nothing. */
  lemma NilIsNoOp(s: State, e: Event)
    requires Linked(s) && (e == Left || e == Tab || e == Right)
    ensures VisibleNode(s.visible, s.cursor) == None ==> Step(s, e) == s
    ensures Step(s, e) != s ==> 0 <= s.cursor < |s.visible|
  {
  }

  /** Setting one flag changes that flag and no other part of the arena. */
  lemma SetOpenOnly(s: State, x: NodeId, o: bool)
    requires Linked(s) && x < |s.nodes|
    ensures FlagOnly(s.nodes, SetOpen(s.nodes, x, o), x) && SetOpen(s.nodes, x, o)[x].open == o
    ensures Linked(s.(nodes := SetOpen(s.nodes, x, o)))
  {
    var b := SetOpen(s.nodes, x, o);
    assert forall k :: 0 <= k < |b| ==> b[k].parent == s.nodes[k].parent;
  }

  /** "tab" flips the flag of the node under the cursor when it has children,
      and changes nothing for a leaf; "l" sets the flag to "has children".
      No other flag and not the cursor change. */
  lemma TabRightFlags(s: State, x: NodeId)
    requires Linked(s) && VisibleNode(s.visible, s.cursor) == Some(x)
    ensures FlagOnly(s.nodes, Step(s, Tab).nodes, x) && Step(s, Tab).cursor == s.cursor
    ensures |s.nodes[x].children| == 0 ==> Step(s, Tab) == s
    ensures |s.nodes[x].children| > 0 ==> Step(s, Tab).nodes[x].open == !s.nodes[x].open
    ensures FlagOnly(s.nodes, Step(s, Right).nodes, x) && Step(s, Right).cursor == s.cursor
    ensures Step(s, Right).nodes[x].open <==> |s.nodes[x].children| > 0
    ensures SameShape(s.nodes, Step(s, Tab).nodes) && SameShape(s.nodes, Step(s, Right).nodes)
  {
    SetOpenOnly(s, x, !s.nodes[x].open);
    SetOpenOnly(s, x, |s.nodes[x].children| > 0);
    SetOpenSameShape(s.nodes, x, !s.nodes[x].open);
    SetOpenSameShape(s.nodes, x, |s.nodes[x].children| > 0);
  }

  /** "l" twice is "l" once. */
  lemma RightIdempotent(s: State)
    requires Linked(s)
    ensures Linked(Step(s, Right)) && Step(Step(s, Right), Right) == Step(s, Right)
  {
    match VisibleNode(s.visible, s.cursor)
    case None =>
    case Some(x) =>
      SetOpenOnly(s, x, |s.nodes[x].children| > 0);
      var t := Step(s, Right);
      assert SetOpen(t.nodes, x, |t.nodes[x].children| > 0) == t.nodes;
  }

  /** "tab" twice restores the model. */
  lemma TabInvolution(s: State)
    requires Linked(s)
    ensures Linked(Step(s, Tab)) && Step(Step(s, Tab), Tab) == s
  {
    match VisibleNode(s.visible, s.cursor)
    case None =>
    case Some(x) =>
      if |s.nodes[x].children| > 0 {
        SetOpenOnly(s, x, !s.nodes[x].open);
        var t := Step(s, Tab);
        assert SetOpen(t.nodes, x, !t.nodes[x].open) == s.nodes;
      }
  }

  /** "h" on an expanded node with children closes it and keeps the cursor;
      otherwise, below a parent, it moves the cursor up by the node's
      position among its siblings plus one and flips the parent's flag only;
      a node without a parent is left alone. */
  lemma LeftFlags(s: State, x: NodeId)
    requires Linked(s) && VisibleNode(s.visible, s.cursor) == Some(x)
    ensures s.nodes[x].open && |s.nodes[x].children| > 0 ==>
      FlagOnly(s.nodes, Step(s, Left).nodes, x) && !Step(s, Left).nodes[x].open &&
      Step(s, Left).cursor == s.cursor
    ensures !(s.nodes[x].open && |s.nodes[x].children| > 0) && s.nodes[x].parent.Some? ==>
      var p := s.nodes[x].parent.value;
      p < |s.nodes| &&
      FlagOnly(s.nodes, Step(s, Left).nodes, p) &&
      Step(s, Left).nodes[p].open == !s.nodes[p].open &&
      Step(s, Left).cursor == s.cursor - (IndexOf(s.nodes[p].children, x) + 1)
    ensures !(s.nodes[x].open && |s.nodes[x].children| > 0) && s.nodes[x].parent.None? ==>
      Step(s, Left) == s
    ensures SameShape(s.nodes, Step(s, Left).nodes)
  {
    SetOpenOnly(s, x, false);
    SetOpenSameShape(s.nodes, x, false);
    if s.nodes[x].parent.Some? {
      var p := s.nodes[x].parent.value;
      SetOpenOnly(s, p, !s.nodes[p].open);
      SetOpenSameShape(s.nodes, p, !s.nodes[p].open);
    }
  }

  /** In a sound model every listed node has a parent (top-level nodes hang
      under the synthetic root), so the parent is never nil where "h" logs
      its text, and the sibling search always finds the node. */
  lemma ListedHasParent(s: State, x: NodeId)
    requires Sound(s) && VisibleNode(s.visible, s.cursor) == Some(x)
    ensures 0 < x < |s.nodes| && s.nodes[x].parent.Some? && s.nodes[x].parent.value < x
    ensures var p := s.nodes[x].parent.value;
            IndexOf(s.nodes[p].children, x) < |s.nodes[p].children| &&
            s.nodes[p].children[IndexOf(s.nodes[p].children, x)] == x
  {
  }

  /** Quit drops the tree and nothing else. */
  lemma QuitDropsTree(s: State)
    requires Linked(s)
    ensures !Step(s, Quit).hasTree && Step(s, Quit).(hasTree := s.hasTree) == s
    ensures Step(s, Other) == s
  {
  }

  // ---------------------------------------------------------------------------
  // Where "h" puts the cursor

  /** The visible list of a parsed arena has no repeats and never lists the root. */
  lemma ShownDistinct(a: seq<Node>)
    requires Shaped(a)
    ensures Increasing(Flatten(a, false))
    ensures forall y :: y in Flatten(a, false) ==> 0 < y < |a|
  {
    VisibleIncreasing(a, Root, |a[Root].children|);
  }

  /** Each of the first `i` children of `p` shows one row. */
  ghost predicate OneRowEach(a: seq<Node>, p: NodeId, i: nat)
    requires Ordered(a) && p < |a| && i <= |a[p].children|
  {
    forall j :: 0 <= j < i ==> !a[a[p].children[j]].open || a[a[p].children[j]].children == []
  }

  lemma OneRowEachLength(a: seq<Node>, p: NodeId, i: nat)
    requires Ordered(a) && p < |a| && i <= |a[p].children|
    ensures |Visible(a, p, i, false)| >= i
    ensures |Visible(a, p, i, false)| == i <==> OneRowEach(a, p, i)
  {
    VisibleLength(a, p, i, false);
    forall j | 0 <= j < i
      ensures |Subtree(a, a[p].children[j], false)| == 1 <==>
              !a[a[p].children[j]].open || a[a[p].children[j]].children == []
    {
      SubtreeSingle(a, a[p].children[j]);
    }
  }

  /** A top-level node sits below the rows of its earlier siblings. */
  lemma TopLevelRow(a: seq<Node>, i: nat)
    requires Ordered(a) && |a| > Root && i < |a[Root].children|
    ensures |Visible(a, Root, i, false)| < |Flatten(a, false)|
    ensures Flatten(a, false)[|Visible(a, Root, i, false)|] == a[Root].children[i]
  {
    var n := |a[Root].children|;
    var x := a[Root].children[i];
    VisiblePrefix(a, Root, i + 1, n, false);
    assert Visible(a, Root, i + 1, false) == Visible(a, Root, i, false) + Subtree(a, x, false);
    assert Flatten(a, false)[..|Visible(a, Root, i + 1, false)|][|Visible(a, Root, i, false)|] == x;
  }

  /** Below an open node shown on row `r`, its `i`-th child follows the rows
      of its earlier children. */
  lemma NestedRow(a: seq<Node>, p: NodeId, i: nat, r: nat)
    requires Ordered(a) && |a| > Root && p < |a| && a[p].open && i < |a[p].children|
    requires r < |Flatten(a, false)| && Flatten(a, false)[r] == p
    ensures r + 1 + |Visible(a, p, i, false)| < |Flatten(a, false)|
    ensures Flatten(a, false)[r + 1 + |Visible(a, p, i, false)|] == a[p].children[i]
  {
    var v := Flatten(a, false);
    var t := Subtree(a, p, false);
    var before := Visible(a, p, i, false);
    VisibleAt(a, Root, |a[Root].children|, false, r);
    ChildInSubtree(a, p, i);
    assert v[r..r + |t|] == t;
    assert v[r + 1 + |before|] == v[r..r + |t|][1 + |before|];
  }

  /** Inside an open node's rows, its `i`-th child follows the node and the
      rows of its earlier children. */
  lemma ChildInSubtree(a: seq<Node>, p: NodeId, i: nat)
    requires Ordered(a) && p < |a| && a[p].open && i < |a[p].children|
    ensures 1 + |Visible(a, p, i, false)| < |Subtree(a, p, false)|
    ensures Subtree(a, p, false)[1 + |Visible(a, p, i, false)|] == a[p].children[i]
  {
    var m := |a[p].children|;
    var x := a[p].children[i];
    var w := Visible(a, p, m, false);
    var before := Visible(a, p, i, false);
    assert Subtree(a, p, false) == [p] + w;
    VisiblePrefix(a, p, i + 1, m, false);
    assert Visible(a, p, i + 1, false) == before + Subtree(a, x, false);
    assert w[..|before| + |Subtree(a, x, false)|][|before|] == x;
  }

  /** The cursor-jump lemma of the "h" key. Let row `q` of a fresh render
      show `x`, the `i`-th child of `p`. Then `q - (i + 1)` is at or below
      the row of `p` (row -1 for the synthetic root), and it is that row
      exactly when each earlier sibling of `x` shows one row (is closed or
      has no children). */
  lemma CursorJump(a: seq<Node>, q: nat, x: NodeId, p: NodeId, i: nat)
    requires Shaped(a) && q < |Flatten(a, false)| && Flatten(a, false)[q] == x
    requires x < |a| && a[x].parent == Some(p) && p < |a| && i < |a[p].children| && a[p].children[i] == x
    ensures p != Root ==> IndexOf(Flatten(a, false), p) < |Flatten(a, false)|
    ensures var row := if p == Root then -1 else IndexOf(Flatten(a, false), p);
            row <= q - (i + 1) && (q - (i + 1) == row <==> OneRowEach(a, p, i))
  {
    var v := Flatten(a, false);
    var before := Visible(a, p, i, false);
    ShownDistinct(a);
    OneRowEachLength(a, p, i);
    if p == Root {
      TopLevelRow(a, i);
      assert q == |before|;
    } else {
      VisibleParentShown(a, Root, |a[Root].children|, x);
      var r := IndexOf(v, p);
      NestedRow(a, p, i, r);
      assert q == r + 1 + |before|;
    }
  }

  // ---------------------------------------------------------------------------
  // The "h" jump as the code has it, and as it is evidently meant

  /** An arena for the single line "a" meeting the parser's postcondition (`OneLineParsed`). */
  const OneLine: seq<Node> := [Node("", -1, false, None, [1]), Node("a", 0, false, Some(Root), [])]

  /** An arena for the lines "p", "\tx", "\t\ty", "\tz", every node open, meeting
      the parser's postcondition (`Nested4Parsed`). */
  const Nested4: seq<Node> := [Node("", -1, false, None, [1]),
                                Node("p", 0, true, Some(0), [2, 4]),
                                Node("x", 1, true, Some(1), [3]),
                                Node("y", 2, true, Some(2), []),
                                Node("z", 1, true, Some(1), [])]

  /** The lines behind `OneLine` and `Nested4`. */
  const OneLineLines: seq<string> := ["a"]
  const Nested4Lines: seq<string> := ["p", "\tx", "\t\ty", "\tz"]

  /** `OneLine` meets `Parsed`, what `IndentTree` ensures, for its line with nodes closed. */
  lemma OneLineParsed()
    ensures Parsed(OneLineLines, false, OneLine)
  {
    OneLineSound();
    assert Indentation(OneLineLines[0], TabChar) == 0;
    assert OneLine[1].text == OneLineLines[0][0..];
  }

  /** `Nested4` meets `Parsed`, what `IndentTree` ensures, for its lines with nodes open. */
  lemma Nested4Parsed()
    ensures Parsed(Nested4Lines, true, Nested4)
  {
    Nested4Sound();
    Nested4Parents();
    Nested4Read();
  }

  lemma Nested4Parents()
    ensures Parents(Nested4)
  {
    var a := Nested4;
    forall m | 0 < m < |a| ensures a[m].parent.Some? && NearestShallower(a, a[m].parent.value, m) {
      if m == 4 {
        assert a[2].indent == 1 && a[3].indent == 2;
      }
    }
  }

  lemma Nested4Read()
    ensures forall k :: 0 <= k < |Nested4Lines| ==>
              Nested4[k + 1].indent == Indentation(Nested4Lines[k], TabChar) &&
              Nested4[k + 1].text == Nested4Lines[k][Indentation(Nested4Lines[k], TabChar)..] &&
              Nested4[k + 1].open
  {
    var a, ls := Nested4, Nested4Lines;
    forall k | 0 <= k < |ls|
      ensures a[k + 1].indent == Indentation(ls[k], TabChar) && a[k + 1].text == ls[k][Indentation(ls[k], TabChar)..]
    {
      var l := ls[k];
      if k == 0 {
        assert Indentation(l, TabChar) == 0 && l[0..] == "p";
      } else if k == 1 {
        assert l[0] == TabChar && l[1] != TabChar;
        assert Indentation(l, TabChar) == 1 && l[1..] == "x";
      } else if k == 2 {
        assert l[0] == TabChar && l[1] == TabChar && l[2] != TabChar;
        assert Indentation(l, TabChar) == 2 && l[2..] == "y";
      } else {
        assert l[0] == TabChar && l[1] != TabChar;
        assert Indentation(l, TabChar) == 1 && l[1..] == "z";
      }
    }
  }

  lemma OneLineSound()
    ensures Sound(State(OneLine, [1], 0, true)) && Flatten(OneLine, false) == [1]
  {
    OneLineShaped();
    OneLineShown();
  }

  lemma OneLineShaped()
    ensures Shaped(OneLine) && Sorted(OneLine)
  {
    var a := OneLine;
    assert Tree(a) && Sorted(a);
    assert Flatten(a, true) == [1] by {
      assert Visible(a, 1, 0, true) == [] && Visible(a, Root, 0, true) == [];
      assert Subtree(a, 1, true) == [1];
    }
    var r := Range(1, 2);
    assert |r| == 1 && r[0] == 1;
  }

  lemma OneLineShown()
    ensures Flatten(OneLine, false) == [1]
  {
    var a := OneLine;
    assert Visible(a, 1, 0, false) == [] && Visible(a, Root, 0, false) == [];
    assert Subtree(a, 1, false) == [1];
  }

  /** On a top-level node that is closed or a leaf, "h" still takes the
      `parent != nil` branch, because the synthetic root is its parent: on
      the first line the cursor goes to -1, where no row is highlighted and
      "h", "tab" and "l" find no node. */
  lemma LeftOnTopLevel()
    ensures Parsed(OneLineLines, false, OneLine)
    ensures var s := State(OneLine, [1], 0, true);
            Linked(s) && Sound(s) && Flatten(OneLine, false) == s.visible &&
            Step(s, Left).cursor == -1 && VisibleNode(s.visible, Step(s, Left).cursor) == None
  {
    OneLineSound();
    OneLineParsed();
    assert IndexOf(OneLine[Root].children, 1) == 0;
  }

  lemma Nested4Sound()
    ensures Sound(State(Nested4, [1, 2, 3, 4], 3, true)) && Flatten(Nested4, false) == [1, 2, 3, 4]
  {
    Nested4Shaped();
    Nested4Sorted();
    ShownSound(State(Nested4, [1, 2, 3, 4], 3, true));
  }

  lemma Nested4Shaped()
    ensures Shaped(Nested4) && Flatten(Nested4, false) == [1, 2, 3, 4]
  {
    Nested4Tree();
    Nested4Walk();
  }

  lemma Nested4Linked()
    ensures Linked(State(Nested4, [1, 2, 3, 4], 3, true))
  {
    var a := Nested4;
    forall y | 0 <= y < |a| && a[y].parent.Some? ensures a[y].parent.value < |a| {
      assert a[y].parent.value <= 2;
    }
  }

  lemma Nested4Tree()
    ensures Tree(Nested4)
  {
    Nested4Ordered();
    Nested4Down();
    Nested4Up();
  }

  lemma Nested4Ordered()
    ensures Ordered(Nested4)
  {
    var a := Nested4;
    forall p, j | 0 <= p < |a| && 0 <= j < |a[p].children| ensures p < a[p].children[j] < |a| {
      if p == 0 { assert a[p].children == [1]; }
      else if p == 1 { assert a[p].children == [2, 4]; }
      else if p == 2 { assert a[p].children == [3]; }
      else { assert false; }
    }
  }

  lemma Nested4Down()
    ensures forall p, j :: 0 <= p < |Nested4| && 0 <= j < |Nested4[p].children| ==>
              Nested4[Nested4[p].children[j]].parent == Some(p)
  {
    var a := Nested4;
    forall p, j | 0 <= p < |a| && 0 <= j < |a[p].children| ensures a[a[p].children[j]].parent == Some(p) {
      if p == 0 { assert a[p].children == [1]; }
      else if p == 1 { assert a[p].children == [2, 4]; }
      else if p == 2 { assert a[p].children == [3]; }
      else { assert false; }
    }
  }

  lemma Nested4Up()
    ensures forall y {:trigger Nested4[y].parent} :: 0 < y < |Nested4| ==>
              Nested4[y].parent.Some? && Nested4[y].parent.value < y &&
              y in Nested4[Nested4[y].parent.value].children &&
              Nested4[Nested4[y].parent.value].indent < Nested4[y].indent
  {
    var a := Nested4;
    forall y | 0 < y < |a|
      ensures a[y].parent.Some? && a[y].parent.value < y &&
              y in a[a[y].parent.value].children && a[a[y].parent.value].indent < a[y].indent
    {
      if y == 1 { assert a[0].children == [1]; }
      else if y == 2 || y == 4 { assert a[1].children == [2, 4]; }
      else { assert a[2].children == [3]; }
    }
  }

  lemma Nested4Sorted()
    ensures Sorted(Nested4)
  {
    var a := Nested4;
    forall p, i, j | 0 <= p < |a| && 0 <= i < j < |a[p].children|
      ensures a[p].children[i] < a[p].children[j]
    {
      assert p == 1 by {
        assert |a[0].children| == |a[2].children| == 1 && |a[3].children| == |a[4].children| == 0;
      }
    }
  }

  lemma Nested4Walk()
    ensures Ordered(Nested4) && Flatten(Nested4, true) == Range(1, |Nested4|)
    ensures Flatten(Nested4, false) == [1, 2, 3, 4]
  {
    Chain5(Nested4, true);
    Chain5(Nested4, false);
    RangeFour();
  }

  lemma RangeFour()
    ensures Range(1, 5) == [1, 2, 3, 4]
  {
    var r := Range(1, 5);
    assert |r| == 4 && r[0] == 1 && r[1] == 2 && r[2] == 3 && r[3] == 4;
  }

  /** For the lines "p", "\tx", "\t\ty", "\tz" read with every node open, "h"
      on the leaf "z" (row 3) moves the cursor by two, to row 1, which shows
      "x" and not the parent "p" on row 0; and once "p" is closed the next
      render has a single row, so the cursor points past the end. */
  lemma LeftPastExpandedSibling()
    ensures Parsed(Nested4Lines, true, Nested4)
    ensures var s := State(Nested4, [1, 2, 3, 4], 3, true);
            Linked(s) && Sound(s) && Flatten(Nested4, false) == s.visible &&
            Step(s, Left).cursor == 1 && s.visible[1] != 1 &&
            Ordered(Step(s, Left).nodes) && Flatten(Step(s, Left).nodes, false) == [1]
  {
    Nested4Parsed();
    Nested4Left();
  }

  /** "h" on "z" in `Nested4`: the cursor lands on "x" and "p" is closed. */
  lemma Nested4Left()
    ensures var s := State(Nested4, [1, 2, 3, 4], 3, true);
            Linked(s) && Sound(s) && Flatten(Nested4, false) == s.visible &&
            Step(s, Left).cursor == 1 && s.visible[1] != 1 &&
            Ordered(Step(s, Left).nodes) && Flatten(Step(s, Left).nodes, false) == [1]
  {
    Nested4Sound();
    Nested4LeftStep();
    Nested4Closed();
  }

  lemma Nested4LeftStep()
    ensures var s := State(Nested4, [1, 2, 3, 4], 3, true);
            Linked(s) && Step(s, Left) == s.(cursor := 1, nodes := SetOpen(Nested4, 1, false))
  {
    Nested4Linked();
    var s := State(Nested4, [1, 2, 3, 4], 3, true);
    assert VisibleNode(s.visible, 3) == Some(4);
    assert IndexOf(Nested4[1].children, 4) == 1;
  }

  /** Nested4 with "p" closed shows one row. */
  lemma Nested4Closed()
    ensures Ordered(SetOpen(Nested4, 1, false)) && Flatten(SetOpen(Nested4, 1, false), false) == [1]
  {
    var b := SetOpen(Nested4, 1, false);
    assert Ordered(b);
    assert Visible(b, Root, 0, false) == [] && Subtree(b, 1, false) == [1];
  }

  /** The walk over Nested4, with or without every node expanded. */
  lemma Chain5(a: seq<Node>, all: bool)
    requires a == Nested4
    ensures Ordered(a) && Flatten(a, all) == [1, 2, 3, 4]
  {
    Chain5Below(a, all);
    assert Visible(a, Root, 0, all) == [];
  }

  lemma Chain5Below(a: seq<Node>, all: bool)
    requires a == Nested4
    ensures Ordered(a) && Subtree(a, 1, all) == [1, 2, 3, 4]
  {
    Nested4Ordered();
    Chain5Middle(a, all);
    LeafRow(a, 4, all);
    assert a[1].open && a[1].children == [2, 4];
    assert Visible(a, 1, 1, all) == [2, 3];
  }

  lemma Chain5Middle(a: seq<Node>, all: bool)
    requires a == Nested4 && Ordered(a)
    ensures Subtree(a, 2, all) == [2, 3]
  {
    LeafRow(a, 3, all);
    assert a[2].open && a[2].children == [3];
    assert Visible(a, 2, 1, all) == [3];
  }

  /** A node without children shows one row. */
  lemma LeafRow(a: seq<Node>, c: NodeId, all: bool)
    requires Ordered(a) && c < |a| && a[c].children == []
    ensures Subtree(a, c, all) == [c]
  {
  }

  /** "h" as evidently intended: close an expanded node; otherwise close the
      parent and put the cursor on the parent's row, and do nothing on a
      top-level node, which has no parent to close. */
  function LeftToParent(s: State): State
    requires Linked(s)
  {
    match VisibleNode(s.visible, s.cursor)
    case None => s
    case Some(x) =>
      if s.nodes[x].open && |s.nodes[x].children| > 0 then
        s.(nodes := SetOpen(s.nodes, x, false))
      else if s.nodes[x].parent.Some? && s.nodes[x].parent.value != Root then
        var p := s.nodes[x].parent.value;
        s.(cursor := IndexOf(s.visible, p), nodes := SetOpen(s.nodes, p, false))
      else s
  }

  /** The intended "h" keeps the model sound and the rows of the last render. */
  lemma LeftToParentSound(s: State)
    requires Sound(s)
    ensures Sound(LeftToParent(s)) && LeftToParent(s).visible == s.visible
  {
    match VisibleNode(s.visible, s.cursor)
    case None =>
    case Some(x) =>
      if s.nodes[x].open && |s.nodes[x].children| > 0 {
        SetOpenSound(s, x, false);
      } else if s.nodes[x].parent.Some? && s.nodes[x].parent.value != Root {
        var p := s.nodes[x].parent.value;
        SetOpenSound(s, p, false);
        SoundFields(s.(nodes := SetOpen(s.nodes, p, false)), LeftToParent(s));
      }
  }

  /** A position before which `x` does not occur, holding `x` unless it is
      the end, is the first position of `x`. */
  lemma IndexOfFirst(s: seq<NodeId>, x: NodeId, r: nat)
    requires r <= |s| && (r < |s| ==> s[r] == x) && forall k :: 0 <= k < r ==> s[k] != x
    ensures IndexOf(s, x) == r
  {
  }

  /** After the intended "h" below a parent, the next render shows the
      parent, now closed, on the cursor's row, with every row above it
      unchanged; on a top-level node nothing changes. */
  lemma LeftToParentLands(s: State, x: NodeId)
    requires Sound(s) && s.visible == Flatten(s.nodes, false)
    requires VisibleNode(s.visible, s.cursor) == Some(x) && !(s.nodes[x].open && |s.nodes[x].children| > 0)
    ensures s.nodes[x].parent == Some(Root) ==> LeftToParent(s) == s
    ensures s.nodes[x].parent != Some(Root) ==>
      var t := LeftToParent(s);
      var v := Flatten(t.nodes, false);
      s.nodes[x].parent.Some? && FlagOnly(s.nodes, t.nodes, s.nodes[x].parent.value) &&
      0 <= t.cursor < |v| && v[t.cursor] == s.nodes[x].parent.value &&
      !t.nodes[v[t.cursor]].open &&
      v[..t.cursor] == s.visible[..t.cursor]
  {
    var a := s.nodes;
    assert 0 < x < |a|;
    var p := a[x].parent.value;
    if p != Root {
      ShownDistinct(a);
      VisibleParentShown(a, Root, |a[Root].children|, x);
      var r := IndexOf(s.visible, p);
      SetOpenSound(s, p, false);
      CloseShownParent(a, p, r);
      assert LeftToParent(s) == s.(cursor := r, nodes := SetOpen(a, p, false));
    }
  }

  /** Closing the node on row `r` of the walk keeps it on row `r`, with the
      rows above it unchanged. */
  lemma CloseShownParent(a: seq<Node>, p: NodeId, r: nat)
    requires Shaped(a) && r < |Flatten(a, false)| && Flatten(a, false)[r] == p
    ensures p < |a| && Ordered(SetOpen(a, p, false))
    ensures var v := Flatten(SetOpen(a, p, false), false);
            r < |v| && v[r] == p && v[..r] == Flatten(a, false)[..r]
  {
    var n := |a[Root].children|;
    var u := Flatten(a, false);
    ShownDistinct(a);
    assert p in u;
    var b := SetOpen(a, p, false);
    SetOpenFlagOnly(a, p, false);
    assert OnlyAt(u, r, p);
    ToggleVisible(a, b, p, Root, n, r);
    assert b[Root].children == a[Root].children;
    assert Subtree(b, p, false) == [p];
    var v := Flatten(b, false);
    assert v == u[..r] + [p] + u[r + |Subtree(a, p, false)|..];
  }


  /** The code and the intended "h" agree below a parent exactly when each
      earlier sibling shows one row. */
  lemma LeftAgreesWhenSiblingsFlat(s: State, x: NodeId)
    requires Sound(s) && s.visible == Flatten(s.nodes, false)
    requires VisibleNode(s.visible, s.cursor) == Some(x) && !(s.nodes[x].open && |s.nodes[x].children| > 0)
    requires s.nodes[x].parent != Some(Root)
    ensures s.nodes[x].parent.Some? && s.nodes[x].parent.value < |s.nodes|
    ensures var p := s.nodes[x].parent.value;
            Step(s, Left) == LeftToParent(s) <==> OneRowEach(s.nodes, p, IndexOf(s.nodes[p].children, x))
  {
    var a := s.nodes;
    assert 0 < x < |a|;
    var p := a[x].parent.value;
    var i := IndexOf(a[p].children, x);
    ShownDistinct(a);
    VisibleParentShown(a, Root, |a[Root].children|, x);
    CursorJump(a, s.cursor, x, p, i);
    assert a[p].open;
  }

  // ---------------------------------------------------------------------------
  // The model object

  class Model {
    var nodes: seq<Node>
    var visible: seq<NodeId>
    var cursor: int
    var hasTree: bool

    function Snapshot(): State
      reads this
    {
      State(nodes, visible, cursor, hasTree)
    }

    ghost predicate Valid()
      reads this
    {
      Sound(Snapshot())
    }

    /** initialModel: the parsed forest, no rows yet, the cursor on row 0. */
    constructor (lines: seq<string>, defaultOpen: bool)
      ensures Valid() && Parsed(lines, defaultOpen, nodes)
      ensures visible == [] && cursor == 0 && hasTree
    {
      var tree := IndentTree(lines, defaultOpen);
      ShownSound(State(tree, [], 0, true));
      nodes := tree;
      visible := [];
      cursor := 0;
      hasTree := true;
    }

    /** model.Update for one key: the key switch, which keeps the model sound. */
    method Update(e: Event)
      requires Valid()
      modifies this
      ensures Valid() && Snapshot() == Step(old(Snapshot()), e)
    {
      StepSound(Snapshot(), e);
      Dispatch(e);
    }

    /** The switch of Update over the keys. */
    method Dispatch(e: Event)
      requires Linked(Snapshot())
      modifies this
      ensures Snapshot() == Step(old(Snapshot()), e)
    {
      match e {
        case Quit =>
          hasTree := false;
        case Up =>
          if cursor > 0 {
            cursor := cursor - 1;
          }
        case Down =>
          if cursor < NumVisibleNodes(visible) - 1 {
            cursor := cursor + 1;
          }
        case Left =>
          PressLeft();
        case Tab =>
          PressTab();
        case Right =>
          PressRight();
        case Other =>
      }
    }

    /** The "h"/"left" case of Update. */
    method PressLeft()
      requires Linked(Snapshot())
      modifies this
      ensures Snapshot() == Step(old(Snapshot()), Left)
    {
      var node := VisibleNode(visible, cursor);
      if node.Some? {
        var x := node.value;
        if nodes[x].open && |nodes[x].children| > 0 {
          nodes := SetOpen(nodes, x, false);
        } else if nodes[x].parent.Some? {
          var p := nodes[x].parent.value;
          var siblings := nodes[p].children;
          var i := 0;
          while i < |siblings|
            invariant 0 <= i <= |siblings|
            invariant forall k :: 0 <= k < i ==> siblings[k] != x
          {
            if siblings[i] == x {
              break;
            }
            i := i + 1;
          }
          cursor := cursor - (i + 1);
          nodes := SetOpen(nodes, p, !nodes[p].open);
        }
      }
    }

    /** "h" as evidently intended: close the parent and put the cursor on
        the parent's row, found by searching the rows of the last render. */
    method PressLeftToParent()
      requires Valid()
      modifies this
      ensures Valid() && Snapshot() == LeftToParent(old(Snapshot()))
    {
      LeftToParentSound(Snapshot());
      CloseParent();
    }

    /** The body of PressLeftToParent. */
    method CloseParent()
      requires Linked(Snapshot())
      modifies this
      ensures Snapshot() == LeftToParent(old(Snapshot()))
    {
      var node := VisibleNode(visible, cursor);
      if node.Some? {
        var x := node.value;
        if nodes[x].open && |nodes[x].children| > 0 {
          nodes := SetOpen(nodes, x, false);
        } else if nodes[x].parent.Some? && nodes[x].parent.value != Root {
          var p := nodes[x].parent.value;
          var row := 0;
          while row < |visible| && visible[row] != p
            invariant 0 <= row <= |visible|
            invariant forall k :: 0 <= k < row ==> visible[k] != p
          {
            row := row + 1;
          }
          IndexOfFirst(visible, p, row);
          cursor := row;
          nodes := SetOpen(nodes, p, false);
        }
      }
    }

    /** The "tab" case of Update. */
    method PressTab()
      requires Linked(Snapshot())
      modifies this
      ensures Snapshot() == Step(old(Snapshot()), Tab)
    {
      var node := VisibleNode(visible, cursor);
      if node.Some? && |nodes[node.value].children| != 0 {
        nodes := SetOpen(nodes, node.value, !nodes[node.value].open);
      }
    }

    /** The "l"/"right" case of Update. */
    method PressRight()
      requires Linked(Snapshot())
      modifies this
      ensures Snapshot() == Step(old(Snapshot()), Right)
    {
      var node := VisibleNode(visible, cursor);
      if node.Some? {
        nodes := SetOpen(nodes, node.value, |nodes[node.value].children| > 0);
      }
    }

    /** treeView (TreeFormat) and folderView (FolderFormat): write the open
        rows from the top of the forest with the cursor's row highlighted,
        and make them the new `visibleNodes`. */
    method RenderView(f: Format) returns (out: string)
      requires Valid()
      modifies this
      ensures Valid() && nodes == old(nodes) && cursor == old(cursor) && hasTree == old(hasTree)
      ensures visible == Flatten(nodes, false)
      ensures out == Join(ViewLines(Rows(nodes, f, Root, |nodes[Root].children|, "", false), 0, cursor))
    {
      var lines, shown;
      out, lines, shown := PrintNodes(nodes, f, Root, "", cursor, "", 0, []);
      visible := shown;
      ShownDistinct(nodes);
      ShownSound(Snapshot());
    }

    /** model.View: nothing once the tree is gone, otherwise the view in the
        configured format, or "No style found" for an unknown one. */
    method View(format: string) returns (out: string)
      requires Valid()
      modifies this
      ensures Valid() && nodes == old(nodes) && cursor == old(cursor) && hasTree == old(hasTree)
      ensures !hasTree ==> out == "" && visible == old(visible)
      ensures hasTree && format == "tree" ==>
        visible == Flatten(nodes, false) &&
        out == Join(ViewLines(Rows(nodes, TreeFormat, Root, |nodes[Root].children|, "", false), 0, cursor))
      ensures hasTree && format == "folder" ==>
        visible == Flatten(nodes, false) &&
        out == Join(ViewLines(Rows(nodes, FolderFormat, Root, |nodes[Root].children|, "", false), 0, cursor))
      ensures hasTree && format != "tree" && format != "folder" ==> out == "No style found" && visible == old(visible)
    {
      if !hasTree {
        return "";
      }
      if format == "tree" {
        out := RenderView(TreeFormat);
      } else if format == "folder" {
        out := RenderView(FolderFormat);
      } else {
        out := "No style found";
      }
    }
  }
}
