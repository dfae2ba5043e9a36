/** The renderers treeView, folderView and printTree. Each walks the forest in
    pre-order and writes one line per node it reaches; the two interactive
    views descend only into open nodes and record, in `visibleNodes`, the node
    behind every line they write. */
module Render {
  import opened Arena
  import opened Parser

  // ---------------------------------------------------------------------------
  // Glyphs, colours and counts

  const Esc: char := '\U{1B}'
  const Tee: string := "├──"
  const Elbow: string := "└──"
  const Bar: string := "│"
  const OpenMark: string := "▾"
  const ClosedMark: string := "▸"

  /** The two layouts `View` can draw. */
  datatype Format = TreeFormat | FolderFormat

  /** colorWhite: the text between the bright-white and the reset codes. */
  function ColorWhite(s: string): (r: string)
    ensures |r| == |s| + 9 && r[5..|r| - 4] == s
  {
    [Esc] + "[97m" + s + [Esc] + "[0m"
  }

  /** colorGreen: the text between the green and the reset codes. */
  function ColorGreen(s: string): (r: string)
    ensures |r| == |s| + 9 && r[5..|r| - 4] == s
  {
    [Esc] + "[32m" + s + [Esc] + "[0m"
  }

  /** The text of a row, green on the cursor's row and white elsewhere. */
  function Paint(highlight: bool, s: string): string
  {
    if highlight then ColorGreen(s) else ColorWhite(s)
  }

  /** A painted text gives back both its colour and its text. */
  lemma PaintInjective(h1: bool, s1: string, h2: bool, s2: string)
    requires Paint(h1, s1) == Paint(h2, s2)
    ensures h1 == h2 && s1 == s2
  {
    var r := Paint(h1, s1);
    assert r[2] == (if h1 then '3' else '9');
    assert r[2] == (if h2 then '3' else '9');
  }

  function Digit(d: nat): (c: char)
    requires d < 10
    ensures '0' <= c <= '9' && c as int - '0' as int == d
  {
    ('0' as int + d) as char
  }

  /** fmt's `%v` of a count: its decimal digits. */
  function NatToString(n: nat): (s: string)
    ensures s != [] && forall k :: 0 <= k < |s| ==> '0' <= s[k] <= '9'
    decreases n
  {
    if n < 10 then [Digit(n)] else NatToString(n / 10) + [Digit(n % 10)]
  }

  /** The number a string of decimal digits denotes. */
  function DigitsValue(s: string): nat
    requires forall k :: 0 <= k < |s| ==> '0' <= s[k] <= '9'
  {
    if s == [] then 0 else DigitsValue(s[..|s| - 1]) * 10 + (s[|s| - 1] as int - '0' as int)
  }

  /** NatToString reads back as the number it wrote, without leading zeros. */
  lemma {:induction false} NatToStringValue(n: nat)
    ensures DigitsValue(NatToString(n)) == n
    ensures NatToString(n)[0] == '0' ==> n == 0
    decreases n
  {
    if n >= 10 {
      NatToStringValue(n / 10);
      var s := NatToString(n);
      assert s[..|s| - 1] == NatToString(n / 10);
    }
  }

  /** The ` (N)` suffix: present on a closed node with N > 0 children, and
      giving back N. */
  function Count(x: Node): (s: string)
    ensures s != [] <==> !x.open && |x.children| > 0
    ensures s != [] ==>
              3 < |s| && s[..2] == " (" && s[|s| - 1] == ')' &&
              (forall k :: 2 <= k < |s| - 1 ==> '0' <= s[k] <= '9') &&
              DigitsValue(s[2..|s| - 1]) == |x.children|
  {
    if !x.open && |x.children| > 0 then
      NatToStringValue(|x.children|);
      var s := " (" + NatToString(|x.children|) + ")";
      assert s[2..|s| - 1] == NatToString(|x.children|);
      s
    else ""
  }

  /** The glyph in front of a node's text. */
  function Runes(f: Format, x: Node, lastChild: bool): string
  {
    match f
    case TreeFormat => if lastChild then Elbow else Tee
    case FolderFormat => if x.open then OpenMark else if x.children != [] then ClosedMark else " "
  }

  /** What a node adds to the prefix of its children's lines, before three spaces. */
  function ChildBar(f: Format, x: Node, lastChild: bool): string
  {
    match f
    case TreeFormat => if lastChild && x.children != [] then " " else Bar
    case FolderFormat => ""
  }

  // ---------------------------------------------------------------------------
  // The rows of a walk

  /** One written line before colouring: the node, its prefix, its glyph,
      its text and its count suffix. */
  datatype Row = Row(node: NodeId, prefix: string, runes: string, text: string, count: string)

  /** The rows for the first `n` children of `p` (printNodes over `nodes[:n]`). */
  function Rows(a: seq<Node>, f: Format, p: NodeId, n: nat, prefix: string, all: bool): seq<Row>
    requires Ordered(a) && p < |a| && n <= |a[p].children|
    decreases |a| - p, 1, n
  {
    if n == 0 then [] else Rows(a, f, p, n - 1, prefix, all) + ChildRows(a, f, p, n - 1, prefix, all)
  }

  /** The rows for child `i` of `p`: its own, then (when it is expanded) its children's. */
  function ChildRows(a: seq<Node>, f: Format, p: NodeId, i: nat, prefix: string, all: bool): seq<Row>
    requires Ordered(a) && p < |a| && i < |a[p].children|
    decreases |a| - p, 0, 0
  {
    var c := a[p].children[i];
    var lastChild := i == |a[p].children| - 1;
    [Row(c, prefix, Runes(f, a[c], lastChild), a[c].text, Count(a[c]))] +
    if all || a[c].open then Rows(a, f, c, |a[c].children|, prefix + ChildBar(f, a[c], lastChild) + "   ", all) else []
  }

  /** The line treeView and folderView write for a row. */
  function Decorate(r: Row, highlight: bool): string
  {
    r.prefix + r.runes + " " + Paint(highlight, r.text) + r.count + "\n"
  }

  /** The line printTree writes for a row. */
  function Plain(r: Row): string
  {
    r.prefix + r.runes + " " + r.text + "\n"
  }

  /** The lines for `rows`, the first of them being line number `base`. */
  function ViewLines(rows: seq<Row>, base: int, cursor: int): (ls: seq<string>)
    ensures |ls| == |rows|
  {
    seq(|rows|, k requires 0 <= k < |rows| => Decorate(rows[k], base + k == cursor))
  }

  function PlainLines(rows: seq<Row>): (ls: seq<string>)
    ensures |ls| == |rows|
  {
    seq(|rows|, k requires 0 <= k < |rows| => Plain(rows[k]))
  }

  /** What a strings.Builder holds after writing `ls` in order. */
  function Join(ls: seq<string>): string
  {
    if ls == [] then "" else Join(ls[..|ls| - 1]) + ls[|ls| - 1]
  }

  lemma {:induction false} JoinAppend(x: seq<string>, y: seq<string>)
    ensures Join(x + y) == Join(x) + Join(y)
    decreases |y|
  {
    if y != [] {
      assert (x + y)[..|x + y| - 1] == x + y[..|y| - 1];
      JoinAppend(x, y[..|y| - 1]);
    } else {
      assert x + y == x;
    }
  }

  /** Regrouping steps for the writer's accumulated output and visible list. */
  lemma Concat3<T>(w: seq<T>, x: seq<T>, y: seq<T>)
    ensures w + x + y == w + (x + y)
  {
  }

  lemma Concat4<T>(w: seq<T>, x: seq<T>, y: seq<T>, z: seq<T>)
    ensures w + x + y + z == w + (x + y + z) == w + (x + (y + z))
  {
  }

  lemma ViewLinesAppend(x: seq<Row>, y: seq<Row>, base: int, mid: int, cursor: int)
    requires mid == base + |x|
    ensures Join(ViewLines(x + y, base, cursor)) == Join(ViewLines(x, base, cursor)) + Join(ViewLines(y, mid, cursor))
  {
    var l, l1, l2 := ViewLines(x + y, base, cursor), ViewLines(x, base, cursor), ViewLines(y, mid, cursor);
    forall k | 0 <= k < |l| ensures l[k] == (l1 + l2)[k] {
      if k < |x| {
        assert (x + y)[k] == x[k];
      } else {
        assert (x + y)[k] == y[k - |x|];
      }
    }
    assert l == l1 + l2;
    JoinAppend(l1, l2);
  }

  lemma PlainLinesAppend(x: seq<Row>, y: seq<Row>)
    ensures Join(PlainLines(x + y)) == Join(PlainLines(x)) + Join(PlainLines(y))
  {
    var l, l1, l2 := PlainLines(x + y), PlainLines(x), PlainLines(y);
    forall k | 0 <= k < |l| ensures l[k] == (l1 + l2)[k] {
      if k < |x| {
        assert (x + y)[k] == x[k];
      } else {
        assert (x + y)[k] == y[k - |x|];
      }
    }
    assert l == l1 + l2;
    JoinAppend(l1, l2);
  }

  lemma {:induction false} RowsLength(a: seq<Node>, f: Format, p: NodeId, n: nat, prefix: string, all: bool)
    requires Ordered(a) && p < |a| && n <= |a[p].children|
    ensures |Rows(a, f, p, n, prefix, all)| == |Visible(a, p, n, all)|
    decreases |a| - p, 1, n
  {
    if n > 0 {
      var c := a[p].children[n - 1];
      var lastChild := n - 1 == |a[p].children| - 1;
      RowsLength(a, f, p, n - 1, prefix, all);
      if all || a[c].open {
        RowsLength(a, f, c, |a[c].children|, prefix + ChildBar(f, a[c], lastChild) + "   ", all);
      }
    }
  }

  // ---------------------------------------------------------------------------
  // What the rows show

  /** `x` is the last child of its parent. */
  ghost predicate LastChild(a: seq<Node>, x: NodeId)
    requires x < |a|
  {
    a[x].parent.Some? && a[x].parent.value < |a| &&
    a[a[x].parent.value].children != [] &&
    a[a[x].parent.value].children[|a[a[x].parent.value].children| - 1] == x
  }

  /** Row `r` draws node `r.node` as format `f` does: its text, its count,
      and its glyph, which in the tree layout marks the last child. */
  ghost predicate Drawn(a: seq<Node>, f: Format, r: Row)
  {
    r.node < |a| && r.text == a[r.node].text && r.count == Count(a[r.node]) &&
    r.runes == Runes(f, a[r.node], LastChild(a, r.node))
  }

  /** The rows draw, one each and in order, the nodes of `v`. */
  ghost predicate Shows(a: seq<Node>, f: Format, rows: seq<Row>, v: seq<NodeId>)
  {
    |rows| == |v| && forall k :: 0 <= k < |rows| ==> rows[k].node == v[k] && Drawn(a, f, rows[k])
  }

  lemma ShowsAppend(a: seq<Node>, f: Format, r1: seq<Row>, v1: seq<NodeId>, r2: seq<Row>, v2: seq<NodeId>)
    requires Shows(a, f, r1, v1) && Shows(a, f, r2, v2)
    ensures Shows(a, f, r1 + r2, v1 + v2)
  {
    forall k | 0 <= k < |r1 + r2| ensures (r1 + r2)[k].node == (v1 + v2)[k] && Drawn(a, f, (r1 + r2)[k]) {
      if k >= |r1| {
        assert (r1 + r2)[k] == r2[k - |r1|] && (v1 + v2)[k] == v2[k - |r1|];
      }
    }
  }

  /** The walk's rows are the visible list, line for line, each drawn as its
      node asks: the renderers write one line per entry of `visibleNodes`. */
  lemma {:induction false} RowsShow(a: seq<Node>, f: Format, p: NodeId, n: nat, prefix: string, all: bool)
    requires Tree(a) && Sorted(a) && p < |a| && n <= |a[p].children|
    ensures Shows(a, f, Rows(a, f, p, n, prefix, all), Visible(a, p, n, all))
    decreases |a| - p, 1, n
  {
    if n > 0 {
      RowsShow(a, f, p, n - 1, prefix, all);
      ChildRowsShow(a, f, p, n - 1, prefix, all);
      ShowsAppend(a, f, Rows(a, f, p, n - 1, prefix, all), Visible(a, p, n - 1, all),
                  ChildRows(a, f, p, n - 1, prefix, all), Subtree(a, a[p].children[n - 1], all));
    }
  }

  lemma {:induction false} ChildRowsShow(a: seq<Node>, f: Format, p: NodeId, i: nat, prefix: string, all: bool)
    requires Tree(a) && Sorted(a) && p < |a| && i < |a[p].children|
    ensures Shows(a, f, ChildRows(a, f, p, i, prefix, all), Subtree(a, a[p].children[i], all))
    decreases |a| - p, 0, 0
  {
    var ch := a[p].children;
    var c := ch[i];
    var lastChild := i == |ch| - 1;
    assert a[c].parent == Some(p);
    assert LastChild(a, c) <==> lastChild by {
      if !lastChild {
        assert ch[i] < ch[|ch| - 1];
      }
    }
    var row := Row(c, prefix, Runes(f, a[c], lastChild), a[c].text, Count(a[c]));
    assert Shows(a, f, [row], [c]);
    if all || a[c].open {
      var prefix' := prefix + ChildBar(f, a[c], lastChild) + "   ";
      RowsShow(a, f, c, |a[c].children|, prefix', all);
      ShowsAppend(a, f, [row], [c], Rows(a, f, c, |a[c].children|, prefix', all), Visible(a, c, |a[c].children|, all));
    } else {
      ShowsAppend(a, f, [row], [c], [], []);
    }
  }

  /** Exactly the line whose number is the cursor shows its text in green. */
  lemma CursorRowGreen(rows: seq<Row>, base: int, cursor: int, k: nat)
    requires k < |rows|
    ensures ViewLines(rows, base, cursor)[k] == Decorate(rows[k], true) <==> base + k == cursor
  {
    var r := rows[k];
    if ViewLines(rows, base, cursor)[k] == Decorate(r, true) && base + k != cursor {
      var head := r.prefix + r.runes + " ";
      var l1 := Decorate(r, true);
      var l0 := Decorate(r, false);
      assert |Paint(true, r.text)| == |Paint(false, r.text)|;
      assert l1[|head|..|head| + |r.text| + 9] == Paint(true, r.text);
      assert l0[|head|..|head| + |r.text| + 9] == Paint(false, r.text);
      PaintInjective(true, r.text, false, r.text);
    }
  }

  /** The screen of treeView and folderView: line `k` draws the node the
      visible list holds at `k`, and it is green exactly when `k` is the cursor. */
  lemma ScreenRows(a: seq<Node>, f: Format, cursor: int)
    requires Tree(a) && Sorted(a)
    ensures var rows := Rows(a, f, Root, |a[Root].children|, "", false);
            Shows(a, f, rows, Flatten(a, false)) &&
            forall k :: 0 <= k < |rows| ==>
              (ViewLines(rows, 0, cursor)[k] == Decorate(rows[k], true) <==> k == cursor)
  {
    var rows := Rows(a, f, Root, |a[Root].children|, "", false);
    RowsShow(a, f, Root, |a[Root].children|, "", false);
    forall k | 0 <= k < |rows|
      ensures ViewLines(rows, 0, cursor)[k] == Decorate(rows[k], true) <==> k == cursor
    {
      CursorRowGreen(rows, 0, cursor, k);
    }
  }

  /** The lines for child `i` of `p`, starting at line number `at`: its own
      line, then (when it is expanded) the lines of its children. */
  lemma ChildLines(a: seq<Node>, f: Format, p: NodeId, i: nat, prefix: string, at: int, cursor: int)
    requires Ordered(a) && p < |a| && i < |a[p].children|
    ensures var c := a[p].children[i];
            var lastChild := i == |a[p].children| - 1;
            var row := Row(c, prefix, Runes(f, a[c], lastChild), a[c].text, Count(a[c]));
            Join(ViewLines(ChildRows(a, f, p, i, prefix, false), at, cursor)) ==
              Decorate(row, at == cursor) +
              if a[c].open then
                Join(ViewLines(Rows(a, f, c, |a[c].children|, prefix + ChildBar(f, a[c], lastChild) + "   ", false), at + 1, cursor))
              else ""
  {
    var c := a[p].children[i];
    var lastChild := i == |a[p].children| - 1;
    var row := Row(c, prefix, Runes(f, a[c], lastChild), a[c].text, Count(a[c]));
    var below := if a[c].open then Rows(a, f, c, |a[c].children|, prefix + ChildBar(f, a[c], lastChild) + "   ", false) else [];
    assert ChildRows(a, f, p, i, prefix, false) == [row] + below;
    ViewLinesAppend([row], below, at, at + 1, cursor);
    assert Join(ViewLines([row], at, cursor)) == Decorate(row, at == cursor);
  }

  /** Writing child `i` of `p` plainly: its own line, then its children's. */
  lemma PlainStep(a: seq<Node>, p: NodeId, i: nat, prefix: string)
    requires Ordered(a) && p < |a| && i < |a[p].children|
    ensures var c := a[p].children[i];
            var lastChild := i == |a[p].children| - 1;
            var row := Row(c, prefix, Runes(TreeFormat, a[c], lastChild), a[c].text, Count(a[c]));
            Join(PlainLines(Rows(a, TreeFormat, p, i + 1, prefix, true))) ==
              Join(PlainLines(Rows(a, TreeFormat, p, i, prefix, true))) + Plain(row) +
              Join(PlainLines(Rows(a, TreeFormat, c, |a[c].children|, prefix + ChildBar(TreeFormat, a[c], lastChild) + "   ", true)))
  {
    var c := a[p].children[i];
    var lastChild := i == |a[p].children| - 1;
    var row := Row(c, prefix, Runes(TreeFormat, a[c], lastChild), a[c].text, Count(a[c]));
    var before := Rows(a, TreeFormat, p, i, prefix, true);
    var below := Rows(a, TreeFormat, c, |a[c].children|, prefix + ChildBar(TreeFormat, a[c], lastChild) + "   ", true);
    PlainLinesAppend(before, [row]);
    assert Join(PlainLines([row])) == Plain(row);
    PlainLinesAppend(before + [row], below);
    assert Rows(a, TreeFormat, p, i + 1, prefix, true) == before + [row] + below;
  }

  // ---------------------------------------------------------------------------
  // The renderers

  /** The glyph and the child bar chosen for node `x` in each layout. */
  method Glyphs(f: Format, x: Node, lastChild: bool, hasChildren: bool) returns (runes: string, childBar: string)
    requires hasChildren == (|x.children| > 0)
    ensures runes == Runes(f, x, lastChild) && childBar == ChildBar(f, x, lastChild)
  {
    match f {
      case TreeFormat =>
        childBar := Bar;
        if lastChild {
          runes := Elbow;
          if hasChildren {
            childBar := " ";
          }
        } else {
          runes := Tee;
        }
      case FolderFormat =>
        childBar := "";
        if x.open {
          runes := OpenMark;
        } else if hasChildren {
          runes := ClosedMark;
        } else {
          runes := " ";
        }
    }
  }

  /** printNodes of treeView (TreeFormat) and folderView (FolderFormat): the
      closure's captured `w`, `lines` and `visibleNodes` are threaded through
      as in- and out-parameters. It writes the lines of the open-only walk
      under `p`, numbering them from `lines0`, and appends the walk to the
      visible list. */
  method PrintNodes(a: seq<Node>, f: Format, p: NodeId, prefix: string, cursor: int,
                    w0: string, lines0: int, visible0: seq<NodeId>)
    returns (w: string, lines: int, visible: seq<NodeId>)
    requires Ordered(a) && p < |a|
    ensures visible == visible0 + Visible(a, p, |a[p].children|, false)
    ensures lines == lines0 + |Visible(a, p, |a[p].children|, false)|
    ensures w == w0 + Join(ViewLines(Rows(a, f, p, |a[p].children|, prefix, false), lines0, cursor))
    decreases |a| - p, 1
  {
    w, lines, visible := w0, lines0, visible0;
    var nodes := a[p].children;
    for i := 0 to |nodes|
      invariant visible == visible0 + Visible(a, p, i, false)
      invariant lines == lines0 + |Visible(a, p, i, false)|
      invariant w == w0 + Join(ViewLines(Rows(a, f, p, i, prefix, false), lines0, cursor))
    {
      ghost var done := Rows(a, f, p, i, prefix, false);
      ghost var seen := Visible(a, p, i, false);
      ghost var w1 := w;
      RowsLength(a, f, p, i, prefix, false);
      ViewLinesAppend(done, ChildRows(a, f, p, i, prefix, false), lines0, lines, cursor);
      w, lines, visible := PrintChild(a, f, p, i, prefix, cursor, w, lines, visible);
      Concat3(w0, Join(ViewLines(done, lines0, cursor)), w[|w1|..]);
      Concat3(visible0, seen, Subtree(a, nodes[i], false));
    }
  }

  /** One pass of printNodes' loop body, for child `i` of `p`: write its line
      (green on the cursor's line, with the count when it is closed), count
      the line, record the node, and descend when it is open. */
  method PrintChild(a: seq<Node>, f: Format, p: NodeId, i: nat, prefix: string, cursor: int,
                    w0: string, lines0: int, visible0: seq<NodeId>)
    returns (w: string, lines: int, visible: seq<NodeId>)
    requires Ordered(a) && p < |a| && i < |a[p].children|
    ensures visible == visible0 + Subtree(a, a[p].children[i], false)
    ensures lines == lines0 + |Subtree(a, a[p].children[i], false)|
    ensures w == w0 + Join(ViewLines(ChildRows(a, f, p, i, prefix, false), lines0, cursor))
    decreases |a| - p, 0
  {
    var nodes := a[p].children;
    var n := nodes[i];
    var lastChild := i == |nodes| - 1;
    var hasChildren := |a[n].children| > 0;
    var runes, childBar := Glyphs(f, a[n], lastChild, hasChildren);
    var text: string;
    if lines0 == cursor {
      text := ColorGreen(a[n].text);
    } else {
      text := ColorWhite(a[n].text);
    }
    var count := "";
    if !a[n].open && |a[n].children| > 0 {
      count := " (" + NatToString(|a[n].children|) + ")";
    }

    ChildLines(a, f, p, i, prefix, lines0, cursor);
    assert text == Paint(lines0 == cursor, a[n].text) && count == Count(a[n]);
    var line := prefix + runes + " " + text + count + "\n";
    w := w0 + line;
    lines := lines0 + 1;
    visible := visible0 + [n];
    if a[n].open {
      w, lines, visible := PrintNodes(a, f, n, prefix + childBar + "   ", cursor, w, lines, visible);
      Concat3(w0, line, w[|w0 + line|..]);
      Concat3(visible0, [n], Visible(a, n, |a[n].children|, false));
    }
  }

  /** printNodes of printTree: every node, expanded or not, written plainly. */
  method PrintAll(a: seq<Node>, p: NodeId, prefix: string, w0: string) returns (w: string)
    requires Ordered(a) && p < |a|
    ensures w == w0 + Join(PlainLines(Rows(a, TreeFormat, p, |a[p].children|, prefix, true)))
    decreases |a| - p
  {
    w := w0;
    var nodes := a[p].children;
    for i := 0 to |nodes|
      invariant w == w0 + Join(PlainLines(Rows(a, TreeFormat, p, i, prefix, true)))
    {
      var n := nodes[i];
      var lastChild := i == |nodes| - 1;
      var hasChildren := |a[n].children| > 0;
      var childBar := Bar;
      var runes: string;
      if lastChild {
        runes := Elbow;
        if hasChildren {
          childBar := " ";
        }
      } else {
        runes := Tee;
      }

      PlainStep(a, p, i, prefix);
      assert runes == Runes(TreeFormat, a[n], lastChild) && childBar == ChildBar(TreeFormat, a[n], lastChild);
      ghost var done := Join(PlainLines(Rows(a, TreeFormat, p, i, prefix, true)));
      var line := prefix + runes + " " + a[n].text + "\n";
      w := w + line;
      ghost var w1 := w;
      w := PrintAll(a, n, prefix + childBar + "   ", w);
      Concat4(w0, done, line, w[|w1|..]);
    }
  }

  /** printTree: parse the text, then write the whole forest, expanded. */
  method PrintTree(lines: seq<string>, defaultOpen: bool) returns (w: string)
    ensures exists a: seq<Node> ::
              Parsed(lines, defaultOpen, a) &&
              w == Join(PlainLines(Rows(a, TreeFormat, Root, |a[Root].children|, "", true)))
  {
    var nodes := IndentTree(lines, defaultOpen);
    w := PrintAll(nodes, Root, "", "");
  }

  /** What printTree writes: one line per input line, in input order, each
      showing that line's text without its leading tabs. */
  lemma PrintedInOrder(lines: seq<string>, defaultOpen: bool, a: seq<Node>)
    requires Parsed(lines, defaultOpen, a)
    ensures |Rows(a, TreeFormat, Root, |a[Root].children|, "", true)| == |lines|
    ensures forall k :: 0 <= k < |lines| ==>
      Rows(a, TreeFormat, Root, |a[Root].children|, "", true)[k].node == k + 1 &&
      Rows(a, TreeFormat, Root, |a[Root].children|, "", true)[k].text == lines[k][Indentation(lines[k], TabChar)..]
  {
    var rows := Rows(a, TreeFormat, Root, |a[Root].children|, "", true);
    RowsShow(a, TreeFormat, Root, |a[Root].children|, "", true);
    assert Shows(a, TreeFormat, rows, Range(1, |a|));
    forall k | 0 <= k < |lines|
      ensures rows[k].node == k + 1 && rows[k].text == lines[k][Indentation(lines[k], TabChar)..]
    {
      assert rows[k].node == Range(1, |a|)[k] && Drawn(a, TreeFormat, rows[k]);
    }
  }
}
