# colaps in Dafny

A model of colaps, a terminal viewer that turns tab-indented text into a
collapsible tree. It covers the four parts of `colaps.go` that carry logic:

- **the parser** `indentTree`: one pass over the lines with a stack of open
  ancestors, with its helpers `newNode`, `indentDepth`, the `stack` type and
  `node.Append`;
- **the renderers** `treeView`, `folderView` and `printTree`: pre-order
  walks that write one line per node and record the visible rows;
- **the key handling** of `model.Update`: up, down, collapse-and-jump
  ("h"), toggle ("tab"), expand ("l") and quit;
- **the model object** with `VisibleNode`, `NumVisibleNodes`, `initialModel`
  and `View`.

Nodes live in an arena, a `seq<Node>`, and refer to each other by index.
Index 0 is the parser's synthetic root at indent -1. Input line `k` becomes
node `k + 1`, and the forest the program shows is the root's children.

The project has four modules:

| module | file | contents |
|---|---|---|
| `Arena` | `arena.dfy` | the node datatype and `Append`. `Visible`, `Subtree` and `Flatten` are the pre-order walk, descending into open nodes, or into every node when `all` holds. The file also proves facts about the walk: rows are distinct, a shown node's parent is shown and open, and flipping one flag splices one block of rows. |
| `Parser` | `parser.dfy` | `IndentDepth`, `NewNode`, the `Stack` class and `IndentTree`, a loop proved against the predicate `Parsed`. |
| `Render` | `render.dfy` | the recursive `printNodes` closures as methods (`PrintNodes`/`PrintChild`, `PrintAll`), proved against the row functions `Rows` and `ViewLines`. |
| `Navigation` | `navigation.dfy` | `Step`, the key handling as a function of the model's fields. The class `Model` holds the Go struct's fields; its `Update` and `View` are proved against `Step` and the renderers. |

Behaviour of the code worth knowing:

- Top-level nodes do have a parent, the synthetic root, because `Append`
  sets it (colaps.go:364-367).
- "tab" does nothing on a leaf (colaps.go:116).
- "l" on a leaf clears its flag (colaps.go:126).
- "h" below a parent lands on the parent's row only in the cases described
  under Findings.

## Model

| member | source | states |
|---|---|---|
| Arena.Append | colaps.go:364-367 | the child is added at the end of the parent's children and gets the parent as its parent; every other link, text, indent and flag is unchanged |
| Arena.SetOpen | colaps.go:102 | definition: `node.open = o` on one node, as a new arena; the same assignment serves colaps.go:111, 119 and 126 |
| Arena.Visible | colaps.go:157-195 | definition: the rows of a node's first `n` children, in pre-order; with `all` false it descends only into open nodes (treeView and folderView), with `all` true into every node (printTree, colaps.go:266-289) |
| Arena.Subtree | colaps.go:189-193 | definition: a node's own row, then, when it is expanded, the rows of its children |
| Arena.Flatten | colaps.go:197 | definition: the walk started on the forest, i.e. the synthetic root's children |
| Arena.VisibleLength | colaps.go:157-195 | each child of a node shows at least one row; the first `n` children show exactly `n` rows iff each of them shows one row |
| Arena.SubtreeSingle | colaps.go:189-193 | a node shows a single row exactly when it is closed or has no children |
| Arena.FullWalkIgnoresFlags | colaps.go:266-289 | printTree's walk does not depend on any open flag: two arenas differing only in flags print the same nodes |
| Arena.ToggleVisible | colaps.go:189-193 | after one node's flag changes, the next render keeps every row before that node's row, replaces that node's block of rows by its new block, and keeps every row after the old block |
| Arena.VisibleIncreasing | colaps.go:157-195 | the open-only walk lists a subset of the full walk's nodes, in the same order; when the full walk has no repeats, neither has the visible list |
| Arena.VisibleParentShown | colaps.go:191-193 | every node the render lists hangs directly under the start of the walk, or under a node that is itself listed and open |
| Parser.Indentation | colaps.go:370-380 | the count of leading indent characters: all of them are the indent character and the next one is not |
| Parser.IndentDepth | colaps.go:370-380 | the loop stops at the first non-indent character and returns the length of the leading run of indent characters |
| Parser.NewNode | colaps.go:347-354 | the node takes the line's leading tab count as its indent, the rest of the line as its text (which does not start with a tab), the default open flag, and no links |
| Parser.Stack.constructor | colaps.go:320 | the stack starts empty |
| Parser.Stack.Push | colaps.go:295-297 | the node is added on top |
| Parser.Stack.Pop | colaps.go:299-303 | returns the top and removes it, keeping the rest |
| Parser.Stack.ReplaceTop | colaps.go:305-307 | only the top entry is replaced |
| Parser.Stack.Top | colaps.go:309-311 | definition: the last entry |
| Parser.Stack.Bottom | colaps.go:313-315 | definition: the first entry. `IndentTree` shows it is still the synthetic root `Root` after the last line, so the returned forest is `Root`'s children |
| Parser.Dedent | colaps.go:335-337 | pops until the top is indented less than the new line. What is left is a prefix of the old stack, at least the root; the root at indent -1 is never popped |
| Parser.AttachTop | colaps.go:328-329 | the new node becomes the last child of the top entry and is pushed; the parser's loop invariant is kept |
| Parser.ReadLine | colaps.go:325-340 | the three indent cases: deeper, equal (pop once) and shallower (pop to a shallower entry). Each attaches the line under the nearest earlier line indented less than it, and keeps the loop invariant |
| Parser.ParsingDone | colaps.go:344 | when the scan ends, the walk below the root visits every node |
| Parser.IndentTree | colaps.go:318-345 | one node per line, holding that line's indent, stripped text and the default flag. Each node hangs under the nearest earlier line indented less than it, children are in input order, and the full pre-order walk visits the lines in input order |
| Render.ColorWhite | colaps.go:254-256 | the text wrapped in the bright-white and reset escape codes, 9 characters longer |
| Render.ColorGreen | colaps.go:258-260 | the text wrapped in the green and reset escape codes, 9 characters longer |
| Render.PaintInjective | colaps.go:176-180 | a painted text determines both its colour and its text |
| Render.NatToStringValue | colaps.go:184 | the decimal digits written for a count read back as that count, with no leading zero |
| Render.Paint | colaps.go:176-180 | definition: colorGreen on the cursor's line, colorWhite elsewhere |
| Render.NatToString | colaps.go:184 | the `%v` rendering of a count: a non-empty string of decimal digits |
| Render.Count | colaps.go:182-185 | the ` (N)` suffix is present iff the node is closed and has children, and N reads back as the number of children |
| Render.Glyphs | colaps.go:160-173 | the glyph and child bar of treeView (elbow on the last child, tee otherwise; a blank bar under a last child with children) and of folderView (open, closed or leaf mark, no bar) |
| Render.Runes | colaps.go:163-173 | definition: the glyph in front of a node's text. Tree layout: elbow on the last child, tee otherwise. Folder layout (colaps.go:219-225): open, closed or leaf mark |
| Render.ChildBar | colaps.go:163-170 | definition: what a node adds to its children's prefix, before three spaces. Tree layout: a blank under a last child with children, a bar otherwise. Folder layout: nothing (colaps.go:216) |
| Render.Rows | colaps.go:157-195 | definition: the rows written for the first `n` children of a node, each row recording the node, its prefix, glyph, text and count |
| Render.ChildRows | colaps.go:159-193 | definition: one child's row, then its children's rows with the prefix extended by its bar and three spaces, when it is expanded |
| Render.Decorate | colaps.go:187 | definition: the line `prefix + glyph + " " + painted text + count + "\n"` |
| Render.Plain | colaps.go:285 | definition: the line `prefix + glyph + " " + text + "\n"` printTree writes |
| Render.ViewLines | colaps.go:176-187 | one line per row, numbered from a base; the line whose number is the cursor is painted green (stated in `CursorRowGreen`) |
| Render.PlainLines | colaps.go:285 | one printTree line per row |
| Render.Join | colaps.go:151 | definition: what the `strings.Builder` holds after writing the lines in order |
| Render.RowsLength | colaps.go:187-189 | one line is written per visible node |
| Render.RowsShow | colaps.go:187-193 | the written rows are, in order, the visible nodes; each shows its node's text and count, and a glyph that in the tree layout marks exactly the last child |
| Render.CursorRowGreen | colaps.go:176-180 | a line is green exactly when its number equals the cursor |
| Render.ScreenRows | colaps.go:150-201 | the screen of treeView and folderView: line `k` draws the `k`-th visible node and is green exactly when `k` is the cursor |
| Render.PrintNodes | colaps.go:157-196 | writes the lines of the open-only walk, numbering them from the current line count, and appends exactly that walk to the visible list |
| Render.PrintChild | colaps.go:159-193 | one pass of the loop: the node's line, one more line counted, the node recorded, and its rows below when it is open |
| Render.PrintAll | colaps.go:266-289 | printTree's walk writes the plain line of every node, expanded or not |
| Render.PrintTree | colaps.go:262-291 | the output is the plain lines of the full walk of the parsed input |
| Render.PrintedInOrder | colaps_test.go:15-56 | printTree writes one line per input line, in input order, each with its line's text without the leading tabs |
| Navigation.VisibleNode | colaps.go:47-53 | no node iff the index is negative or past the last row; otherwise the node on that row |
| Navigation.NumVisibleNodes | colaps.go:55-57 | definition: the number of rows of the last render |
| Navigation.IndexOf | colaps.go:104-109 | the sibling search stops at the first occurrence, or at the end when there is none |
| Navigation.Step | colaps.go:77-127 | definition: the key switch of Update on the model's fields. Quit clears the tree; up and down move the cursor within the rows; the other keys go to `LeftKey`, `TabKey`, `RightKey`; any other message changes nothing |
| Navigation.LeftKey | colaps.go:94-112 | definition: the "h" case (see `LeftFlags`, `CursorJump`) |
| Navigation.TabKey | colaps.go:114-119 | definition: the "tab" case (see `TabRightFlags`, `TabInvolution`) |
| Navigation.RightKey | colaps.go:121-126 | definition: the "l" case (see `TabRightFlags`, `RightIdempotent`) |
| Navigation.StepSound | colaps.go:76-131 | every key keeps the model a parsed tree with only real nodes listed, and leaves the visible rows alone |
| Navigation.UpDownClamped | colaps.go:84-92 | up moves one row iff the cursor is above 0; down moves one row iff a row follows; otherwise nothing changes, and no flag changes |
| Navigation.NilIsNoOp | colaps.go:95-98 | with no node under the cursor, "h", "tab" and "l" change nothing; any change means the cursor was on a row |
| Navigation.TabRightFlags | colaps.go:114-126 | "tab" flips the node's flag if it has children and is a no-op on a leaf. "l" sets the flag to "has children". Neither changes another flag or the cursor, and text, indent and links stay unchanged |
| Navigation.RightIdempotent | colaps.go:121-126 | pressing "l" twice is the same as pressing it once |
| Navigation.TabInvolution | colaps.go:114-119 | pressing "tab" twice restores the model |
| Navigation.LeftFlags | colaps.go:94-112 | "h" on an open node with children closes only it and keeps the cursor. Otherwise, below a parent, it moves the cursor up by the sibling index plus one and flips only the parent's flag. Without a parent the model does nothing (see "Left out"). In every case, text, indent and links stay unchanged |
| Navigation.ListedHasParent | colaps.go:99-109 | every listed node has a parent (top-level ones have the synthetic root), so the logged parent is never nil and the sibling search finds the node |
| Navigation.QuitDropsTree | colaps.go:80-82 | quit clears the tree and changes nothing else; an unknown message changes nothing |
| Navigation.ShownDistinct | colaps.go:189 | the visible list never repeats a node and never lists the synthetic root |
| Navigation.CursorJump | colaps.go:104-110 | after "h" on the `i`-th child, the new cursor is at or below the parent's row (-1 for a top-level node). It is exactly that row iff every earlier sibling shows one row |
| Navigation.OneLineParsed | colaps.go:318-345 | the two-node arena used for the single line "a" meets `Parsed` for that line with nodes closed, the postcondition of `IndentTree` |
| Navigation.Nested4Parsed | colaps.go:318-345 | the five-node arena used for "p", "\tx", "\t\ty", "\tz" meets `Parsed` for those lines with nodes open, the postcondition of `IndentTree` |
| Navigation.LeftOnTopLevel | colaps.go:103-111 | for the single line "a", read into an arena meeting `Parsed` (what `IndentTree` ensures), "h" on row 0 moves the cursor to -1, where there is no node |
| Navigation.LeftPastExpandedSibling | colaps.go:104-111 | for "p", "\tx", "\t\ty", "\tz", read with every node open into an arena meeting `Parsed` (what `IndentTree` ensures), "h" on "z" puts the cursor on row 1, which shows "x", not "p". After "p" closes, the render has one row |
| Navigation.LeftToParent | colaps.go:94-112 | definition: "h" as evidently intended. It closes an open node that has children. Below a parent other than the synthetic root, it closes the parent and puts the cursor on the parent's row. Otherwise nothing changes (see `LeftToParentLands`) |
| Navigation.LeftToParentSound | colaps.go:94-112 | the corrected "h" keeps the model sound and the visible rows unchanged |
| Navigation.LeftToParentLands | colaps.go:103-111 | after the corrected "h" below a non-root parent, the next render shows the parent, now closed, on the cursor's row, with every row above unchanged. On a top-level node it changes nothing |
| Navigation.LeftAgreesWhenSiblingsFlat | colaps.go:104-111 | the code's "h" and the corrected one agree iff every earlier sibling shows one row |
| Navigation.Model.constructor | colaps.go:59-64 | initialModel: the parsed forest, no visible rows, cursor 0, tree present |
| Navigation.Model.Update | colaps.go:76-131 | the new fields are `Step` of the old ones for the key, and the model stays sound |
| Navigation.Model.Dispatch | colaps.go:77-127 | the key switch; the new fields are `Step` of the old ones |
| Navigation.Model.PressLeft | colaps.go:94-112 | the "h" case with its sibling-search loop does what `Step` says for "h" |
| Navigation.Model.PressTab | colaps.go:114-119 | the "tab" case does what `Step` says for "tab" |
| Navigation.Model.PressRight | colaps.go:121-126 | the "l" case does what `Step` says for "l" |
| Navigation.Model.PressLeftToParent | colaps.go:94-112 | the corrected "h": a loop finds the parent's row, and the result is `LeftToParent` of the old fields |
| Navigation.Model.CloseParent | colaps.go:101-111 | the body of the corrected "h", equal to `LeftToParent` of the old fields |
| Navigation.Model.RenderView | colaps.go:150-201 | treeView/folderView: writes the lines of the open-only walk with the cursor's line green, and makes that walk the new visible list; nothing else changes |
| Navigation.Model.View | colaps.go:133-147 | empty once the tree is gone; the tree or folder view for "tree" and "folder"; "No style found" for any other format, with the rows untouched |

## Left out

- Reading standard input, `bufio.Scanner` line splitting, `main`, flags, `Init`, the log file and the logger call at colaps.go:99 are not modelled. The input is taken as a list of lines already split.
- Scanner limits are not modelled: the 64 KiB token limit and the stripping of a trailing `\r`.
- The bubbletea event loop is replaced by `Event`, one value per key case of Update. Key strings are not parsed, and the returned `tea.Cmd` values are not modelled.
- The globals `defaultOpen` and `defaultFormat` are parameters: of `IndentTree`/`NewNode` and of `View` respectively.
- `Navigation.Model.Update`: `StepSound`, `Dispatch` and the `Press*` methods carry the switch in separate members. Together they do what the Go switch does, except for the parentless "h" branch described below.
- The renderers' `visibleNodes := m.visibleNodes[:0]` reuses the old slice's backing array. The model builds a fresh sequence, so that sharing is not modelled.
- `Navigation.LeftFlags`: the branch for a node without a parent is modelled as a no-op. In the code, colaps.go:99 reads `node.parent.text` before the nil check at colaps.go:103, so that branch would panic. It is unreachable for parsed trees: `Navigation.ListedHasParent` proves that every listed node has a parent.
- `Navigation.LeftKey`: the same no-op for a parentless node, where colaps.go:99 would panic; unreachable, as above.
- `Navigation.Model.PressLeft`: the same no-op for a parentless node, where colaps.go:99 would panic; unreachable, as above.
- `Render.RowsShow` does not describe the prefix strings in detail, i.e. the bar and space columns inherited from the ancestors. They are built by the same expression as in the code, but no separate property is proved about them.
- `Render.PrintedInOrder` proves the nodes and texts of printTree's lines in order. It does not prove the literal expected string of the test in colaps_test.go.
- Go strings are byte sequences; here they are sequences of characters. Tabs and the glyphs are whole characters, so lengths are counted in characters, not bytes.

## Findings

| source | as written | input that shows it | evidently intended | confidence | as-written member | corrected member |
|---|---|---|---|---|---|---|
| colaps.go:103-111 | "h" on a top-level node that is closed or a leaf takes the `parent != nil` branch, because `Append` made the synthetic root its parent. The cursor moves up by the node's position plus one, and the hidden root's flag flips | the single line "a", cursor on row 0, key "h": the cursor becomes -1 and no row is highlighted | a top-level node has no parent to collapse, so nothing happens (proved in `Navigation.LeftToParentLands`) | not executed | Navigation.LeftOnTopLevel | Navigation.LeftToParent |
| colaps.go:104-111 | the cursor moves up by the sibling index plus one, which is the parent's row only when every earlier sibling shows one row | lines "p", "\tx", "\t\ty", "\tz", all open, cursor on "z" (row 3), key "h": the cursor goes to row 1 ("x"), and after "p" closes only one row remains | the cursor moves to the parent's row and the parent closes (proved in `Navigation.LeftToParentLands`, `Navigation.LeftAgreesWhenSiblingsFlat`) | not executed | Navigation.LeftPastExpandedSibling | Navigation.LeftToParent |

The class keeps the key handling as the code has it, with `Update` going
through `Step`. The corrected behaviour is the function
`Navigation.LeftToParent`, and `Navigation.Model.PressLeftToParent` carries
it out on the model object.
