# TruffulaPrinter tree renderer, modelled in Dafny

TruffulaPrinter prints a directory tree. It prints one line per entry,
starting at the root, in depth-first pre-order. Each line is indented three
spaces per level, and a directory's name ends in "/". Hidden entries can be
left out together with everything below them. According to its doc-comment
and tests, when colour is on the levels cycle through white, purple and
yellow, and each directory's entries are listed by name, compared
case-insensitively first and then exactly, so "Cat.png" comes before
"cat.png". The code as written does neither; see "Findings".

The model has these parts:

- `FileTree` is the in-memory tree that stands in for `java.io.File`. Each
  entry has a name, a directory flag, a hidden flag and the entries its
  listing returns.
- `Names` is the sibling comparator.
- `Sorter` sorts one listing and orders a whole tree.
- `Renderer` is the documented printer. It orders the tree, then renders
  each line as depth, text and colour.
- `OutputParser` reads the printed lines back into a tree. This shows that
  the output is a pre-order listing in which every subtree is one
  contiguous block.
- `StackPrinter` is a loop over an explicit stack. It is proved to print
  exactly what the recursive renderer prints.
- `AsWritten` is the recursive helper exactly as the code is written. Its
  differences from the documented behaviour are listed under "Findings".
- `Scenarios` holds concrete trees on which the as-written printer and the
  documented one give different output.

One `Line` stands for one `println`. The colour is set before the line and
reset after it, so the reset is implicit. With colour off, every line is
white, which is what the tests expect. The `Renderer` is where the
documented behaviour is specified. Where the code and the tests disagree,
that module follows the tests and the doc-comment, and `AsWritten` follows
the code.

## Model

| member | source | states |
|---|---|---|
| Names.CompareTo | src/TruffulaPrinter.java:91-92 | The exact comparison used for the tie-break is zero exactly when the two names are identical. |
| Names.CompareToAntisymmetric | src/TruffulaPrinter.java:91-92 | Swapping the two names negates the exact comparison. |
| Names.CompareToTransitive | src/TruffulaPrinter.java:91-92 | The exact comparison is a strict order: a < b and b < c give a < c. |
| Names.NameCompare | src/TruffulaPrinter.java:91-92 | The sibling comparator (case-insensitive, then exact) calls two names equal only when they are identical, so distinct siblings are totally ordered. |
| Names.NameCompareAntisymmetric | src/TruffulaPrinter.java:91-92 | Swapping two names negates the sibling comparison. |
| Names.NameCompareTransitive | src/TruffulaPrinter.java:91-92 | "May be listed before" is transitive. |
| Names.UpperCaseFirst | src/TruffulaPrinter.java:91-92 | "Cat.png" sorts before "cat.png", the documented tie-break. |
| Sorter.Insert | src/TruffulaPrinter.java:91-92 | Inserting into a sorted listing keeps it sorted and adds exactly that entry. |
| Sorter.SortEntries | src/TruffulaPrinter.java:81-92 | The sorted listing is in name order and is a permutation of the listing. |
| Sorter.SortEntriesIsStrictArrangement | src/TruffulaPrinter.java:91-92 | Any strictly ascending arrangement of the listing's entries is exactly what sorting returns. |
| Sorter.SortedArrangementUnique | src/TruffulaPrinter.java:91-92 | Two sorted permutations of one listing, one of them strict, are equal. |
| Sorter.SortTree | src/TruffulaPrinter.java:81-92 | Ordering a tree keeps each entry's name, kind and hidden flag, and the length of its listing. |
| Sorter.SortTreeListsInOrder | src/TruffulaPrinter.java:81-92 | Every listing of the ordered tree, at every level, is in name order. |
| Sorter.SortTreeRearranges | src/TruffulaPrinter.java:81-92 | Each listing of the ordered tree holds exactly the original listing's entries, each with its own subtree ordered, rearranged and nothing else. |
| Sorter.SortTreeSize | src/TruffulaPrinter.java:81-92 | Ordering a tree neither adds nor loses an entry. |
| Renderer.Indent | src/TruffulaPrinter.java:135-140 | The indentation for level d is exactly 3*d spaces. |
| Renderer.Label | src/TruffulaPrinter.java:142-147 | The printed label is the entry's name with "/" appended for a directory, and the bare name for a plain file. |
| Renderer.ColorAt | src/TruffulaPrinter.java:88-89 | With colour on, depths 0, 1, 2 mod 3 get white, purple and yellow. With colour off every depth gets white. |
| Renderer.IndexAtDepthIsDepthMod3 | src/TruffulaPrinter.java:88-89 | Advancing the colour index once per level gives depth mod 3 at every depth. |
| Renderer.RenderNode | src/TruffulaPrinter.java:127-191 | An entry yields lines iff it is shown. Its first line is its own line. Every later line is deeper. |
| Renderer.RenderForest | src/TruffulaPrinter.java:182-188 | A listing's lines all sit at its level or deeper, and the first sits at its level. |
| Renderer.Render | src/TruffulaPrinter.java:108-125 | A missing or unshown root prints nothing. Otherwise the first line is the root's label at depth 0, and every later line is at depth 1 or more. Every line is indented 3*depth and coloured by depth (white when colour is off). |
| Renderer.RenderNodeLinesWellFormed | src/TruffulaPrinter.java:127-174 | Every line of a subtree is indented and coloured for its own depth. |
| Renderer.Prune | src/TruffulaPrinter.java:129-133 | Pruning keeps the entry's own fields, never adds an entry, lists nothing under a plain file, and leaves only shown entries in the listing. |
| Renderer.PruneLeavesOnlyShown | src/TruffulaPrinter.java:129-133 | After pruning, no entry remains that the options hide. |
| Renderer.RenderIgnoresPruned | src/TruffulaPrinter.java:129-133 | A hidden entry and everything below it contribute no line: rendering the pruned tree gives the same lines. |
| Renderer.RenderNodeCount | src/TruffulaPrinter.java:127-191 | A shown entry prints one line per entry that survives pruning. |
| Renderer.RenderCountsEveryEntry | src/TruffulaPrinterTest.java:235-242 | With hidden entries shown, the printer prints one line for every entry of the tree. |
| Renderer.RenderUnfold | src/TruffulaPrinter.java:177-190 | Output unfolds as the recursion does. A shown entry gives its own line, then the subtrees of its sorted listing, one level deeper. An empty listing adds nothing. |
| OutputParser.LineNamesEntry | src/TruffulaPrinter.java:142-147 | The text after a line's indentation gives back the entry's name. A trailing "/" appears exactly for directories. |
| OutputParser.ParseRenderNode | src/TruffulaPrinter.java:127-191 | For names without "/" (true of every real directory entry), parsing an entry's lines gives back the pruned entry with its nesting. |
| OutputParser.ParseForestRender | src/TruffulaPrinter.java:182-188 | For names without "/" (true of every real directory entry), parsing a listing's lines gives back its shown entries, each with its subtree, in order. |
| OutputParser.ParseRender | src/TruffulaPrinter.java:168-190 | For names without "/" (true of every real directory entry), parsing the printer's output gives back exactly the ordered tree without its hidden entries. |
| OutputParser.OutputListsInOrder | src/TruffulaPrinterTest.java:138-147 | For names without "/" (true of every real directory entry), the printed tree read back lists the siblings of every directory in name order, at every level, hidden entries removed. |
| StackPrinter.Pop | src/TruffulaPrinter.java:177-190 | Popping one frame leaves printed-plus-pending unchanged, and makes progress. |
| StackPrinter.PrintTree | src/TruffulaPrinter.java:108-125 | The explicit-stack printer prints exactly the lines of the recursive renderer. |
| AsWritten.ChildIndex | src/TruffulaPrinter.java:183-186 | For a parent index of 0, 1 or 2 the child receives 1 or 2, never 0, and below the root it alternates: 1 gives 2 and 2 gives 1. |
| AsWritten.Walk | src/TruffulaPrinter.java:127-191 | The code's helper prints exactly the lines of the uncoloured renderer for the entry, taken in raw listing order, and its first line carries the index it was called with. |
| AsWritten.WalkChildren | src/TruffulaPrinter.java:177-190 | The code's loop over a listing prints exactly the uncoloured renderer's lines for that listing in raw listing order, even though the index reset persists across siblings. |
| AsWritten.PrintTreeAsWritten | src/TruffulaPrinter.java:108-125 | The code prints nothing iff the root is missing or hidden. Otherwise it prints the uncoloured, unsorted rendering from depth 0, and every line carries the code's index for its depth. |
| AsWritten.WalkIndexByDepth | src/TruffulaPrinter.java:182-186 | Every line the code prints carries the colour index for its depth, whatever its place among its siblings. |
| AsWritten.CodeIndexClosedForm | src/TruffulaPrinter.java:183-186 | The code's colour index is 0 at the root, then 1 at odd depths and 2 at even depths. |
| AsWritten.CodeIndexAgreesOnlyAt | src/TruffulaPrinter.java:183-186 | The code's index equals depth mod 3 exactly at depth 0 and at depths that are 1 or 2 mod 6. |
| Scenarios.CodeWhiteWhereDepthGivesPurple | src/TruffulaPrinter.java:168-171 | With colour on, the code prints a first-level file in white. The documented renderer prints it in purple. |
| Scenarios.ListingOrderVersusNameOrder | src/TruffulaPrinter.java:178-186 | A listing [zebra.txt, Apple.txt] is printed in that order by the code, and as Apple.txt, zebra.txt by the renderer. |
| Scenarios.CodeIndexAtDepth3 | src/TruffulaPrinter.java:183-186 | At depth 3 the code's index is 1, while depth mod 3 is 0. |

## Left out

- The `java.io.File` calls `getName`, `isDirectory`, `isHidden` and `listFiles` become fields of `FileTree.Node`. What makes an entry hidden on each platform is not modelled.
- A listing that fails (`listFiles` returning null) is represented as an empty listing, because the printer treats the two alike.
- `ColorPrinter`, `ConsoleColor`, the escape-code strings and the line separator are not part of this model. A line carries an abstract colour, and the reset after each line is implicit.
- With colour off the code sets no colour. The line is taken to print in white, as the tests expect; `ColorPrinter` is not part of this model.
- The constructors, the custom colour sequence parameter and `main` are not modelled. The default white, purple, yellow sequence is `Renderer.Palette`.
- `AlphabeticalFileSorter` is not part of this model. Only its ordering rule is modelled, taken from the doc-comment and the tests: compare case-insensitively, then exactly. Its algorithm and its stability are not modelled.
- Names.CompareTo: compares characters as Unicode scalar values, while Java's `String.compareTo` compares UTF-16 code units. The two orders differ when a character above U+FFFF meets one in U+E000 to U+FFFF. For example, Java compares the surrogate 0xD83D of U+1F600 with U+FF21 and ranks U+1F600 first, while the model ranks U+FF21 first.
- Names.NameCompare: lower-casing changes only the ASCII letters A-Z. Java's full Unicode `toLowerCase` is not modelled.
- Symbolic links are not modelled. `isDirectory` and `listFiles` follow links, so a link to an ancestor directory makes the printer print that ancestor's subtree again under ever longer paths. This stops once the platform's limit on links followed in one path lookup makes `isDirectory` false for the link, which then prints as a plain file. A `FileTree.Node` is finite and has no links, so this repetition is not represented.
- The test scaffolding is not modelled: temporary directories, creating hidden files, and the platform checks.

## Findings

| source | as written | input that shows it | evidently intended | confidence | as-written member | corrected member |
|---|---|---|---|---|---|---|
| src/TruffulaPrinter.java:168-171 | With colour on, every line is printed in white | a directory "myFolder" holding "Apple.txt", colour on: the file's line is white | The line at depth d uses colour d mod 3 of white, purple, yellow, so the file is purple | high, not executed | Scenarios.CodeWhiteWhereDepthGivesPurple | Renderer.Render |
| src/TruffulaPrinter.java:178-186 | A directory's entries are printed in the order the listing returns them | a directory listing [zebra.txt, Apple.txt] prints zebra.txt first | Entries are sorted case-insensitively, then exactly, so Apple.txt comes first | high, not executed | Scenarios.ListingOrderVersusNameOrder | Sorter.SortTreeListsInOrder |
| src/TruffulaPrinter.java:183-186 | The index passed to a child is (c == 2 ? 0 : c) + 1, which is never 0 | an entry at depth 3 gets index 1 | The index cycles 0, 1, 2 with depth (depth mod 3), so depth 3 is white again | high, not executed | AsWritten.CodeIndexAgreesOnlyAt | Renderer.IndexAtDepthIsDepthMod3 |
