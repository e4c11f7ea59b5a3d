# Mention graph loader

The program reads `mentions.txt`. Each line has the form `source<TAB>target<TAB>weight`, meaning "`source` mentioned `target`, `weight` times". From these lines it builds a directed graph whose vertices are the names and whose edges carry the weights. It then draws that graph in a window, labelling each edge with its weight.

This project models the loader `createGraph` and the two per-edge rules of the renderer that compute something: the label text and the stroke width.

What the loader does, as modelled:
- Empty lines are skipped.
- Every other line is cut with Java's `String.split("\t")`:
  - interior and leading empty fields are kept;
  - trailing empty fields are dropped;
  - if the line has no tab, the whole line is the only field.
- A line that does not give exactly three fields stops the load with an `IllegalArgumentException` holding the line.
- The third field is read with `Integer.valueOf`. Text that is not an `int` stops the load with a `NumberFormatException`.
- Missing endpoints are added as vertices, then one edge with the weight is added.

Files:
- `java_string.dfy` (module `JavaString`): `String.split("\t")` as `SplitTab`. It is proved against joining with tabs, in both directions.
- `java_integer.dfy` (module `JavaInteger`):
  - `newtype int32` for Java's `int`, with its two's-complement wrap-around;
  - `Integer.valueOf` as `ParseInt`;
  - `String.valueOf(int)` as `ToString`, with both round trips.
- `mention_graph.dfy` (module `MentionGraph`):
  - `ParseLine` is one line.
  - `ParseAll` is every line, in order, up to the first failure.
  - `Build` inserts the mentions into a graph value.
  - `Load` is the loader as a function.
  - The class `Graph` is the JUNG graph object, with `ContainsVertex`, `AddVertex` and `AddEdge`.
  - The method `CreateGraph` is the loop of `createGraph`, with `AddLine` as its body. It is proved to compute `Load`.
- `rendering.dfy` (module `Rendering`): the edge label `String.valueOf(weight)` and the stroke width `(weight - 6) / 2F`.
- `wrappers.dfy` (module `Wrappers`): `Option` and `Result`.

Three points of the code are worth noting; the model follows the code in each:
- Only the field-count error carries the line. A bad weight surfaces as the `NumberFormatException` of `Integer.valueOf`, whose message names the field. So `LoadError` is `FieldCount(line)` or `NotAnInt(field)`.
- The graph is a JUNG `DirectedSparseGraph` (line 37). Whether a second edge between the same ordered pair is kept therefore depends on JUNG. The model makes this a parameter, `ParallelPolicy`: `KeepParallel` keeps every edge, `RejectParallel` refuses the second edge and leaves the graph unchanged. Every property is proved for both policies, or says which one it is about.
- The renderer wraps the drawing in a scroll pane but then adds the drawing component itself to the window (`Visualization.java:117`). The renderer is left out, so nothing in the model depends on this.

`Load` reads all lines first and then builds the graph, while the program inserts each line as soon as it reads it. A failure throws the partial graph away, so the outcomes are the same. `CreateGraph` keeps the program's interleaved order and is proved equal to `Load`.

## Model

| member | source | states |
|---|---|---|
| JavaString.SplitTab | src/main/java/heignamerican/gf/mentiongraph/Visualization.java:46 | no field contains a tab; a string without a tab is its only field; when there is a tab the last field is never empty |
| JavaString.SplitTabJoin | src/main/java/heignamerican/gf/mentiongraph/Visualization.java:46 | every line equals its fields joined by tabs, followed by the tabs of the trailing empty fields that were dropped |
| JavaString.SplitTabOfJoin | src/main/java/heignamerican/gf/mentiongraph/Visualization.java:46 | tab-free fields whose last one is non-empty, joined with tabs and followed by any number of tabs, split back into exactly those fields |
| JavaString.SplitAll | src/main/java/heignamerican/gf/mentiongraph/Visualization.java:46 | cutting at every tab gives one field more than there are tabs, and no field contains a tab |
| JavaString.StripTrailingEmpty | src/main/java/heignamerican/gf/mentiongraph/Visualization.java:46 | dropping the trailing empty fields leaves a prefix whose last field, if any, is not empty, and every dropped field is empty |
| JavaString.SplitAllJoin | src/main/java/heignamerican/gf/mentiongraph/Visualization.java:46 | cutting at every tab and joining again with tabs gives the original string |
| JavaString.JoinSplitAll | src/main/java/heignamerican/gf/mentiongraph/Visualization.java:46 | cutting tab-free fields joined with tabs gives the fields back |
| JavaString.StripPadded | src/main/java/heignamerican/gf/mentiongraph/Visualization.java:46 | removing trailing empty fields removes exactly the empty fields appended after a non-empty last field |
| JavaString.SplitTabDropsTrailingTab | src/main/java/heignamerican/gf/mentiongraph/Visualization.java:46 | `"A\tB\t5\t"` has the three fields `A`, `B`, `5` |
| JavaString.SplitTabTwoFields | src/main/java/heignamerican/gf/mentiongraph/Visualization.java:46 | `"A\tB\t"` has two fields |
| JavaString.SplitTabKeepsInteriorEmpty | src/main/java/heignamerican/gf/mentiongraph/Visualization.java:46 | `"A\t\t5"` has the three fields `A`, empty, `5` |
| JavaString.SplitTabKeepsLeadingEmpty | src/main/java/heignamerican/gf/mentiongraph/Visualization.java:46 | `"\tB\t5"` keeps its leading empty field |
| JavaString.SplitTabOnlyTabs | src/main/java/heignamerican/gf/mentiongraph/Visualization.java:46 | a line of one or more tabs, and nothing else, has no field at all, while the empty string is one empty field |
| JavaInteger.Wrap | src/main/java/heignamerican/gf/mentiongraph/Visualization.java:96 | the result is congruent to the input modulo 2^32 and equals it inside the range of `int` |
| JavaInteger.NatToString | src/main/java/heignamerican/gf/mentiongraph/Visualization.java:102 | the decimal string of `n` is one or more digits, has no leading zero and has the value `n` |
| JavaInteger.ParseIntToString | src/main/java/heignamerican/gf/mentiongraph/Visualization.java:102 | `String.valueOf(w)` is canonical text and `Integer.valueOf` reads it back as `w` |
| JavaInteger.ToStringParseInt | src/main/java/heignamerican/gf/mentiongraph/Visualization.java:53 | for canonical text, `String.valueOf` of the parsed value is the text itself |
| JavaInteger.NatToStringOfDigits | src/main/java/heignamerican/gf/mentiongraph/Visualization.java:53 | digits without a leading zero are the decimal string of their own value |
| JavaInteger.ParseInt | src/main/java/heignamerican/gf/mentiongraph/Visualization.java:53 | `Integer.valueOf`; specified by `ParseIntShape` and `ParseIntOfDigits` (accepted exactly when sign and digits are in range, with the signed value), `ParseIntOutOfRange`, `ParseIntRejectsText`, and the round trips `ParseIntToString` and `ToStringParseInt` |
| JavaInteger.ToString | src/main/java/heignamerican/gf/mentiongraph/Visualization.java:102 | `String.valueOf(int)`; specified by `ParseIntToString` (canonical text that reads back as the value) and `ToStringParseInt` (the only canonical text for that value) |
| JavaInteger.ParseIntShape | src/main/java/heignamerican/gf/mentiongraph/Visualization.java:53 | every accepted text is an optional sign followed by at least one digit, its value is the signed value of those digits, and a negative value has a `-` |
| JavaInteger.ParseIntOfDigits | src/main/java/heignamerican/gf/mentiongraph/Visualization.java:53 | conversely, every optional sign followed by one or more digits whose signed value is within the range of `int` is accepted with that value |
| JavaInteger.ParseIntOutOfRange | src/main/java/heignamerican/gf/mentiongraph/Visualization.java:53 | an optional sign followed by digits whose signed value is outside the range of `int` is rejected |
| JavaInteger.ParseIntRejectsText | src/main/java/heignamerican/gf/mentiongraph/Visualization.java:53 | the empty string, a sign alone, letters, a leading space and a decimal point are rejected |
| JavaInteger.ParseIntRange | src/main/java/heignamerican/gf/mentiongraph/Visualization.java:53 | 2147483647 and -2147483648 are accepted; 2147483648 and -2147483649 are rejected |
| JavaInteger.ParseIntLenient | src/main/java/heignamerican/gf/mentiongraph/Visualization.java:53 | `+5`, `007` and `-0` are accepted as 5, 7 and 0 |
| MentionGraph.ParseLine | src/main/java/heignamerican/gf/mentiongraph/Visualization.java:45-53 | a line gives nothing exactly when it is empty; a field-count error carries the line itself; an accepted line had three fields |
| MentionGraph.ParseLineFields | src/main/java/heignamerican/gf/mentiongraph/Visualization.java:46-53 | an accepted line is its tab-free source, a tab, its tab-free target, a tab, a field that parses to the weight, and any trailing tabs |
| MentionGraph.ParseLineOfFields | src/main/java/heignamerican/gf/mentiongraph/Visualization.java:46-53 | conversely, every such line is accepted with exactly that source, target and weight |
| MentionGraph.ParseLineFieldCount | src/main/java/heignamerican/gf/mentiongraph/Visualization.java:46-48 | a non-empty line that does not split into three fields fails with that exact line |
| MentionGraph.ParseLineTrailingTab | src/main/java/heignamerican/gf/mentiongraph/Visualization.java:46-53 | `"A\tB\t5\t"` is accepted as A to B with weight 5 |
| MentionGraph.ParseLineEmptyTarget | src/main/java/heignamerican/gf/mentiongraph/Visualization.java:46-53 | `"A\t\t5"` is accepted with the empty string as target |
| MentionGraph.ParseLineFieldCountExample | src/main/java/heignamerican/gf/mentiongraph/Visualization.java:46-48 | `"A\tB\t"` fails on the field count, not on parsing |
| MentionGraph.ParseLineSpaceExample | src/main/java/heignamerican/gf/mentiongraph/Visualization.java:45-48 | the line of one space is not skipped: it fails on the field count with that line |
| MentionGraph.ParseLineNotAnInt | src/main/java/heignamerican/gf/mentiongraph/Visualization.java:46-53 | a non-empty line with three fields whose third is not an `int` fails with that third field |
| MentionGraph.ParseLineNotAnIntExample | src/main/java/heignamerican/gf/mentiongraph/Visualization.java:53 | `"A\tB\tabc"` fails on its weight field `abc` |
| MentionGraph.ExampleLineAB | src/main/java/heignamerican/gf/mentiongraph/Visualization.java:46-53 | the line `A<TAB>B<TAB>10` means A mentioned B 10 times |
| MentionGraph.ParseAll | src/main/java/heignamerican/gf/mentiongraph/Visualization.java:44-53 | every line in order up to the first failure; specified by `ParseAllSucceeds`, `ParseAllFailsAtFirstBadLine`, `ParseAllStopsAtError` and `ParseAllMentions` |
| MentionGraph.ParseAllStep | src/main/java/heignamerican/gf/mentiongraph/Visualization.java:44-53 | when all lines parse, the earlier lines parse and the last line is accepted, adding its mention if it is not empty |
| MentionGraph.LineAccepted | src/main/java/heignamerican/gf/mentiongraph/Visualization.java:44-53 | when all lines parse, each line is accepted or empty |
| MentionGraph.ParseAllSucceeds | src/main/java/heignamerican/gf/mentiongraph/Visualization.java:44-53 | parsing succeeds if and only if every line is accepted or empty |
| MentionGraph.ParseAllFailsAtFirstBadLine | src/main/java/heignamerican/gf/mentiongraph/Visualization.java:44-53 | a failure is the error of the first line that fails, and every line before it is accepted |
| MentionGraph.ParseAllStopsAtError | src/main/java/heignamerican/gf/mentiongraph/Visualization.java:44-53 | once a prefix fails, the later lines change nothing |
| MentionGraph.ParseAllPrefix | src/main/java/heignamerican/gf/mentiongraph/Visualization.java:44-53 | the mentions of a prefix are a prefix of the mentions |
| MentionGraph.ParseAllEmptyLines | src/main/java/heignamerican/gf/mentiongraph/Visualization.java:44-45 | empty lines give no mention |
| MentionGraph.ParseAllMentions | src/main/java/heignamerican/gf/mentiongraph/Visualization.java:44-53 | there is one mention per non-empty line, in order, and it is that line's meaning |
| MentionGraph.MentionHasLine | src/main/java/heignamerican/gf/mentiongraph/Visualization.java:51-53 | every mention is the meaning of some line |
| MentionGraph.LineHasMention | src/main/java/heignamerican/gf/mentiongraph/Visualization.java:51-53 | the meaning of every accepted line is among the mentions |
| MentionGraph.LinesJoinMentions | src/main/java/heignamerican/gf/mentiongraph/Visualization.java:51-53 | every line that joins two names has a mention that joins them |
| MentionGraph.FirstMentionFirstLine | src/main/java/heignamerican/gf/mentiongraph/Visualization.java:44-53 | the first mention of an ordered pair is the meaning of the first line that joins that pair |
| MentionGraph.Insert | src/main/java/heignamerican/gf/mentiongraph/Visualization.java:54-60 | one accepted line added to the graph; specified by `InsertVertices`, `InsertHasEdge`, `InsertNewPair` and `InsertWellFormed` |
| MentionGraph.Build | src/main/java/heignamerican/gf/mentiongraph/Visualization.java:54-60 | the mentions inserted in order; specified by `BuildVertices`, `BuildKeepsEvery`, `BuildRejectKeepsFirst`, `BuildHasEdges` and `BuildEdgesHaveMentions` |
| MentionGraph.Load | src/main/java/heignamerican/gf/mentiongraph/Visualization.java:37-63 | the loader as a function; specified by `LoadSucceeds`, `LoadFailsAtFirstBadLine`, `LoadStopsAtError`, `LoadVertices`, `LoadKeepsEveryLine`, `LoadRejectKeepsFirst` and `LoadEdgesHaveLines`, and implemented by `CreateGraph` |
| MentionGraph.InsertWellFormed | src/main/java/heignamerican/gf/mentiongraph/Visualization.java:54-60 | inserting a mention keeps the graph invariant: ids are positions, endpoints are vertices, and pairs are distinct under `RejectParallel` |
| MentionGraph.InsertVertices | src/main/java/heignamerican/gf/mentiongraph/Visualization.java:54-59 | after a line, both endpoints are vertices and nothing else is added; endpoints already present leave the set unchanged |
| MentionGraph.InsertHasEdge | src/main/java/heignamerican/gf/mentiongraph/Visualization.java:60 | the old edges stay first, and the line's ordered pair has an edge under either policy |
| MentionGraph.BuildWellFormed | src/main/java/heignamerican/gf/mentiongraph/Visualization.java:54-60 | every graph built from mentions keeps the graph invariant |
| MentionGraph.BuildPrefix | src/main/java/heignamerican/gf/mentiongraph/Visualization.java:54-60 | fewer mentions give fewer vertices and a prefix of the edges |
| MentionGraph.BuildVertices | src/main/java/heignamerican/gf/mentiongraph/Visualization.java:54-59 | the vertices are exactly the endpoints of the mentions |
| MentionGraph.BuildKeepsEvery | src/main/java/heignamerican/gf/mentiongraph/Visualization.java:60 | under `KeepParallel`, edge `k` is mention `k` with id `k` |
| MentionGraph.BuildHasEdges | src/main/java/heignamerican/gf/mentiongraph/Visualization.java:60 | the ordered pair of every mention has an edge |
| MentionGraph.BuildEdgesHaveMentions | src/main/java/heignamerican/gf/mentiongraph/Visualization.java:60 | every edge, with its weight, is one of the mentions |
| MentionGraph.BuildRejectKeepsFirst | src/main/java/heignamerican/gf/mentiongraph/Visualization.java:60 | under `RejectParallel`, every edge is the first mention of its ordered pair and has that mention's weight |
| MentionGraph.LoadWellFormed | src/main/java/heignamerican/gf/mentiongraph/Visualization.java:37-63 | every loaded graph keeps the graph invariant |
| MentionGraph.LoadEmptyLines | src/main/java/heignamerican/gf/mentiongraph/Visualization.java:44-45 | a file of empty lines loads to the empty graph |
| MentionGraph.LoadSucceeds | src/main/java/heignamerican/gf/mentiongraph/Visualization.java:44-53 | the load succeeds if and only if every line is accepted or empty |
| MentionGraph.LoadFailsAtFirstBadLine | src/main/java/heignamerican/gf/mentiongraph/Visualization.java:46-53 | a failed load reports the error of the first failing line, and all earlier lines are accepted |
| MentionGraph.LoadStopsAtError | src/main/java/heignamerican/gf/mentiongraph/Visualization.java:44-62 | the lines after the first failure change nothing |
| MentionGraph.LoadPrefix | src/main/java/heignamerican/gf/mentiongraph/Visualization.java:44-62 | lines are processed in order: every prefix of a file that loads gives fewer vertices and a prefix of the edges |
| MentionGraph.NamesVertexOfMention | src/main/java/heignamerican/gf/mentiongraph/Visualization.java:51-52 | an accepted line names exactly its source and its target |
| MentionGraph.LoadVertices | src/main/java/heignamerican/gf/mentiongraph/Visualization.java:51-59 | on success, a name is a vertex if and only if it is the first or second field of some non-empty line |
| MentionGraph.LoadKeepsEveryLine | src/main/java/heignamerican/gf/mentiongraph/Visualization.java:60 | under `KeepParallel` there is one edge per non-empty line, in order, with that line's endpoints and weight |
| MentionGraph.LoadLinesHaveEdges | src/main/java/heignamerican/gf/mentiongraph/Visualization.java:60 | under either policy, the ordered pair of every accepted line has an edge |
| MentionGraph.LoadEdgesHaveLines | src/main/java/heignamerican/gf/mentiongraph/Visualization.java:60 | under either policy, every edge has the endpoints and weight of some accepted line |
| MentionGraph.LoadRejectKeepsFirst | src/main/java/heignamerican/gf/mentiongraph/Visualization.java:60 | under `RejectParallel`, every edge carries the weight of the first line that joins its ordered pair |
| MentionGraph.ParseAllSnoc | src/main/java/heignamerican/gf/mentiongraph/Visualization.java:44-53 | one more accepted line adds its mention at the end |
| MentionGraph.LoadSnoc | src/main/java/heignamerican/gf/mentiongraph/Visualization.java:44-60 | one more accepted line inserts its mention into the graph of the earlier lines |
| MentionGraph.LoadSnocEmpty | src/main/java/heignamerican/gf/mentiongraph/Visualization.java:45 | one more empty line changes nothing |
| MentionGraph.LoadSnocError | src/main/java/heignamerican/gf/mentiongraph/Visualization.java:46-53 | one more failing line makes its error the result of the load |
| MentionGraph.InsertNewPair | src/main/java/heignamerican/gf/mentiongraph/Visualization.java:54-60 | a line with a new ordered pair adds its endpoints and appends its edge under either policy |
| MentionGraph.ParseAllThree | src/main/java/heignamerican/gf/mentiongraph/Visualization.java:44-53 | three accepted lines give their three mentions in order |
| MentionGraph.BuildExample | src/main/java/heignamerican/gf/mentiongraph/Visualization.java:54-60 | A to B (10), B to C (8), A to C (10) give three vertices and three edges |
| MentionGraph.LoadExample | src/main/java/heignamerican/gf/mentiongraph/Visualization.java:44-62 | the three-line example file loads to three vertices and three edges under both policies; the two edges of weight 10 stay distinct |
| MentionGraph.Graph.constructor | src/main/java/heignamerican/gf/mentiongraph/Visualization.java:37 | a new graph is empty and satisfies the invariant |
| MentionGraph.Graph.ContainsVertex | src/main/java/heignamerican/gf/mentiongraph/Visualization.java:54-57 | true exactly when `v` is a vertex of the graph's current value |
| MentionGraph.Graph.AddVertex | src/main/java/heignamerican/gf/mentiongraph/Visualization.java:54-59 | the vertex set becomes the old set plus `v`; the result is true if and only if `v` was missing; edges are unchanged; re-adding is a no-op |
| MentionGraph.Graph.AddEdge | src/main/java/heignamerican/gf/mentiongraph/Visualization.java:60 | the edge is appended with the next id if and only if the policy keeps parallel edges or the pair is new; vertices are unchanged |
| MentionGraph.AddLine | src/main/java/heignamerican/gf/mentiongraph/Visualization.java:45-60 | one pass of the loop: a failing line returns its error and leaves the graph unchanged; an empty line changes nothing; an accepted line inserts its mention |
| MentionGraph.CreateGraph | src/main/java/heignamerican/gf/mentiongraph/Visualization.java:35-64 | returns an error if and only if `Load` fails, with the same error; otherwise a fresh graph that satisfies the invariant and equals `Load` of the lines |
| Rendering.EdgeLabel | src/main/java/heignamerican/gf/mentiongraph/Visualization.java:102 | the label is canonical decimal text that `Integer.valueOf` reads back as the edge's weight |
| Rendering.LabelOfLoadedEdge | src/main/java/heignamerican/gf/mentiongraph/Visualization.java:102 | the label of every loaded edge reads back as the weight of a line that joins the edge's endpoints |
| Rendering.LabelRoundTrip | src/main/java/heignamerican/gf/mentiongraph/Visualization.java:102 | a canonical weight field and the label of an edge with that weight are the same text |
| Rendering.StrokeWidth | src/main/java/heignamerican/gf/mentiongraph/Visualization.java:96-98 | the stroke width of an edge and of its arrow; specified by `StrokeWidthUnclamped`, `StrokeWidthWraps` and `StrokeWidthExamples` |
| Rendering.StrokeWidthUnclamped | src/main/java/heignamerican/gf/mentiongraph/Visualization.java:96 | the width is `(w - 6) / 2` with no clamping, and it is at most zero if and only if `w <= 6` |
| Rendering.StrokeWidthExamples | src/main/java/heignamerican/gf/mentiongraph/Visualization.java:96 | weights 10, 6 and 4 give widths 2.0, 0.0 and -1.0 |
| Rendering.StrokeWidthWraps | src/main/java/heignamerican/gf/mentiongraph/Visualization.java:96 | below `Integer.MIN_VALUE + 6` the `int` subtraction wraps and the width is large and positive |

## Left out

- Reading `mentions.txt` (`Files.readAllLines`, UTF-8 decoding, line terminators, line 43) is I/O. The model takes the lines as a given `seq<string>`.
- `null` lines (line 45): `Files.readAllLines` never returns one, and `string` has no null, so only the empty-line half of the guard is modelled.
- JUNG's `DirectedSparseGraph.addEdge`, `addVertex` and `containsVertex` (lines 37, 54-60) are library code that is not part of this model. The vertex operations are modelled from their documented meaning. What `addEdge` does with a second edge for the same ordered pair is the `ParallelPolicy` parameter, not a single claim.
- Edge identity: each edge is a fresh lambda `() -> edgeLabel` (line 60). This is modelled as the edge's insertion index `id`, so equal endpoints and weight still give distinct edges.
- `ParseInt`: `Integer.valueOf` also accepts non-ASCII Unicode decimal digits, such as full-width digits, through `Character.digit`. The model accepts ASCII digits only.
- `LoadError.NotAnInt` keeps the field, not the exception's message text, whose exact wording belongs to the Java library.
- `StrokeWidth`: the float division by `2F` is modelled as exact division on reals, so float rounding of large weights is not captured. `BasicStroke`, which receives the width (and which in Java rejects a negative width), is not part of this model. The model only computes the width.
- The rest of `visualize` (lines 66-123): the KK layout and its parameters, vertex and edge colours and shapes, label placement, the `JFrame`, `JPanel` and `JScrollPane`. These are library and GUI calls with nothing to compute.
- `main` (lines 125 onwards) only calls `createGraph` and `visualize`.
