/**
 * The loader of the mention graph: the lines of `mentions.txt`, each
 * `source<TAB>target<TAB>weight`, become a directed graph whose vertices are
 * the names and whose edges carry the weights. Empty lines are skipped; the
 * first line with a wrong field count or a weight that is not an `int` stops
 * the load.
 *
 * `Load` is the loader as a function of the lines; the class `Graph` and the
 * method `CreateGraph` are the loader as the program runs it, a loop that
 * updates one graph object in place, proved to compute `Load`.
 */
module MentionGraph {
  import opened Wrappers
  import opened JavaString
  import opened JavaInteger

  /** What one accepted line says: `source` mentioned `target`, `weight` times. */
  datatype Mention = Mention(source: string, target: string, weight: int32)

  /**
   * An edge of the graph. The program makes every edge a new lambda object,
   * so edges with equal endpoints and weight are still distinct; here `id`,
   * the edge's position in insertion order, is that identity.
   */
  datatype Edge = Edge(id: nat, source: string, target: string, weight: int32)

  /**
   * Why a load fails: an `IllegalArgumentException` whose message is the
   * offending line, or the `NumberFormatException` of `Integer.valueOf`,
   * whose message names the weight field it could not parse.
   */
  datatype LoadError = FieldCount(line: string) | NotAnInt(field: string)

  /**
   * What the graph does when a second edge joins an ordered pair that already
   * has one: keep both (a multigraph) or refuse the new one, leaving the graph
   * as it was (a graph with at most one edge per ordered pair).
   */
  datatype ParallelPolicy = KeepParallel | RejectParallel

  /** The value of a graph: its vertex set and its edges in insertion order. */
  datatype GraphValue = GraphValue(vertices: set<string>, edges: seq<Edge>)

  const EmptyGraph: GraphValue := GraphValue({}, [])

  /** Some edge goes from `source` to `target`. */
  predicate HasEdge(edges: seq<Edge>, source: string, target: string)
  {
    exists i :: 0 <= i < |edges| && edges[i].source == source && edges[i].target == target
  }

  /**
   * The graph invariant: every edge's id is its position, both its endpoints
   * are vertices, and under `RejectParallel` no two edges join the same
   * ordered pair.
   */
  ghost predicate WellFormed(g: GraphValue, policy: ParallelPolicy)
  {
    && (forall i :: 0 <= i < |g.edges| ==>
          g.edges[i].id == i && g.edges[i].source in g.vertices && g.edges[i].target in g.vertices)
    && (policy == RejectParallel ==>
          forall i, j :: 0 <= i < j < |g.edges| ==>
            g.edges[i].source != g.edges[j].source || g.edges[i].target != g.edges[j].target)
  }

  /**
   * One line of the file: an empty line gives nothing; any other line must
   * split on tabs into exactly three fields, the third an `int`.
   */
  function ParseLine(line: string): (r: Result<Option<Mention>, LoadError>)
    ensures r == Ok(None) <==> line == ""
    ensures r.Err? && r.error.FieldCount? ==> r.error.line == line
    ensures r.Ok? && r.value.Some? ==> |SplitTab(line)| == 3
  {
    if line == "" then Ok(None)
    else
      var vals := SplitTab(line);
      if |vals| != 3 then Err(FieldCount(line))
      else match ParseInt(vals[2])
        case None => Err(NotAnInt(vals[2]))
        case Some(w) => Ok(Some(Mention(vals[0], vals[1], w)))
  }

  /** The graph after one accepted line: both endpoints are vertices, then the edge is added. */
  function Insert(g: GraphValue, m: Mention, policy: ParallelPolicy): GraphValue
  {
    var vertices := g.vertices + {m.source, m.target};
    if policy == RejectParallel && HasEdge(g.edges, m.source, m.target) then GraphValue(vertices, g.edges)
    else GraphValue(vertices, g.edges + [Edge(|g.edges|, m.source, m.target, m.weight)])
  }

  /** The mentions of the lines in order, or the error of the first line that fails. */
  function ParseAll(lines: seq<string>): Result<seq<Mention>, LoadError>
  {
    if lines == [] then Ok([])
    else
      match ParseAll(lines[..|lines| - 1])
      case Err(e) => Err(e)
      case Ok(ms) =>
        match ParseLine(lines[|lines| - 1])
        case Err(e) => Err(e)
        case Ok(None) => Ok(ms)
        case Ok(Some(m)) => Ok(ms + [m])
  }

  /** The graph of a sequence of mentions, inserted in order into the empty graph. */
  function Build(ms: seq<Mention>, policy: ParallelPolicy): GraphValue
  {
    if ms == [] then EmptyGraph else Insert(Build(ms[..|ms| - 1], policy), ms[|ms| - 1], policy)
  }

  /**
   * The loader as a function of the lines: the lines are read in order and
   * the first line that fails decides the error; otherwise the graph holds
   * the mentions of all lines, inserted in order. The program inserts each
   * line as soon as it has read it, but a failure throws the graph away, so
   * the outcome is the same.
   */
  function Load(lines: seq<string>, policy: ParallelPolicy): Result<GraphValue, LoadError>
  {
    match ParseAll(lines)
    case Err(e) => Err(e)
    case Ok(ms) => Ok(Build(ms, policy))
  }

  /** The non-empty lines, in order. */
  function NonEmpty(lines: seq<string>): (r: seq<string>)
    ensures forall k :: 0 <= k < |r| ==> r[k] != ""
  {
    if lines == [] then []
    else NonEmpty(lines[..|lines| - 1]) + (if lines[|lines| - 1] == "" then [] else [lines[|lines| - 1]])
  }

  /** `line` is a non-empty line and `v` its first or second tab-separated field. */
  ghost predicate NamesVertex(line: string, v: string)
  {
    line != "" && |SplitTab(line)| >= 2 && (v == SplitTab(line)[0] || v == SplitTab(line)[1])
  }

  /** `line` is accepted and says `source` mentioned `target`. */
  ghost predicate JoinsPair(line: string, source: string, target: string)
  {
    ParseLine(line).Ok? && ParseLine(line).value.Some?
    && ParseLine(line).value.value.source == source && ParseLine(line).value.value.target == target
  }

  /** Line `i` is the first line of `lines` that joins `source` to `target`. */
  ghost predicate FirstToJoin(lines: seq<string>, i: int, source: string, target: string)
  {
    0 <= i < |lines| && JoinsPair(lines[i], source, target)
    && forall j :: 0 <= j < i ==> !JoinsPair(lines[j], source, target)
  }

  /** Mention `k` is the first of `ms` from `source` to `target`. */
  ghost predicate FirstMention(ms: seq<Mention>, k: int, source: string, target: string)
  {
    0 <= k < |ms| && ms[k].source == source && ms[k].target == target
    && forall j :: 0 <= j < k ==> ms[j].source != source || ms[j].target != target
  }

  /** Line `i` is the first line of `lines` that fails. */
  ghost predicate FirstBadLine(lines: seq<string>, i: int)
  {
    0 <= i < |lines| && ParseLine(lines[i]).Err?
    && forall j :: 0 <= j < i ==> ParseLine(lines[j]).Ok?
  }

  // ---------------------------------------------------------------------
  // Lines

  lemma JoinTabThree(fs: seq<string>)
    requires |fs| == 3
    ensures JoinTab(fs) == fs[0] + [TAB] + fs[1] + [TAB] + fs[2]
  {
    assert fs[1..][1..] == fs[2..] == [fs[2]];
    assert JoinTab(fs[2..]) == fs[2];
    assert JoinTab(fs[1..]) == fs[1] + [TAB] + fs[2];
    assert fs[0] + [TAB] + (fs[1] + [TAB] + fs[2]) == fs[0] + [TAB] + fs[1] + [TAB] + fs[2];
  }

  /** An accepted line is its source, a tab, its target, a tab, an `int` and any trailing tabs. */
  lemma ParseLineFields(line: string, m: Mention)
    requires ParseLine(line) == Ok(Some(m))
    ensures TAB !in m.source && TAB !in m.target
    ensures exists field: string, k: nat ::
      ParseInt(field) == Some(m.weight) && line == m.source + [TAB] + m.target + [TAB] + field + Tabs(k)
  {
    var vals := SplitTab(line);
    SplitTabJoin(line);
    var k: nat :| line == JoinTab(vals) + Tabs(k);
    JoinTabThree(vals);
    assert ParseInt(vals[2]) == Some(m.weight);
  }

  /** Conversely, every such line is accepted with exactly that meaning. */
  lemma ParseLineOfFields(source: string, target: string, field: string, k: nat)
    requires TAB !in source && TAB !in target && ParseInt(field).Some?
    ensures ParseLine(source + [TAB] + target + [TAB] + field + Tabs(k))
         == Ok(Some(Mention(source, target, ParseInt(field).value)))
  {
    ParseIntShape(field);
    forall i | 0 <= i < |field| ensures field[i] != TAB {
      if i > 0 { assert field[i] == field[1..][i - 1]; }
    }
    var fs := [source, target, field];
    assert TabFree(fs);
    JoinTabThree(fs);
    SplitTabOfJoin(fs, k);
  }

  /** A non-empty line whose field count is not three is refused with that line. */
  lemma ParseLineFieldCount(line: string)
    requires line != "" && |SplitTab(line)| != 3
    ensures ParseLine(line) == Err(FieldCount(line))
  {
  }

  /** A trailing tab is dropped, as Java's split does. */
  lemma ParseLineTrailingTab(line: string)
    requires line == "A\tB\t5\t"
    ensures ParseLine(line) == Ok(Some(Mention("A", "B", 5)))
  {
    assert ParseInt("5") == Some(5) by { assert "5"[..0] == ""; }
    assert line == "A" + [TAB] + "B" + [TAB] + "5" + Tabs(1);
    ParseLineOfFields("A", "B", "5", 1);
  }

  /** An empty target is kept and accepted as the name of a vertex. */
  lemma ParseLineEmptyTarget(line: string)
    requires line == "A\t\t5"
    ensures ParseLine(line) == Ok(Some(Mention("A", "", 5)))
  {
    assert ParseInt("5") == Some(5) by { assert "5"[..0] == ""; }
    assert line == "A" + [TAB] + "" + [TAB] + "5" + Tabs(0);
    ParseLineOfFields("A", "", "5", 0);
  }

  /** Two fields and a trailing tab fail on the field count, not on parsing. */
  lemma ParseLineFieldCountExample(line: string)
    requires line == "A\tB\t"
    ensures ParseLine(line) == Err(FieldCount(line))
  {
    SplitTabTwoFields(line);
  }

  /**
   * Only the empty line is skipped: a line of one space is not skipped, and
   * as it has no tab it is one field and fails on the field count.
   */
  lemma ParseLineSpaceExample(line: string)
    requires line == " "
    ensures ParseLine(line) == Err(FieldCount(line))
  {
    assert TAB !in line;
    ParseLineFieldCount(line);
  }

  /**
   * A non-empty line with three fields whose third is not an `int` fails
   * to parse, and the error carries that field.
   */
  lemma ParseLineNotAnInt(line: string)
    requires line != "" && |SplitTab(line)| == 3 && ParseInt(SplitTab(line)[2]).None?
    ensures ParseLine(line) == Err(NotAnInt(SplitTab(line)[2]))
  {
  }

  /** The example of a weight that is not a number. */
  lemma ParseLineNotAnIntExample(line: string)
    requires line == "A\tB\tabc"
    ensures ParseLine(line) == Err(NotAnInt("abc"))
  {
    var fs := ["A", "B", "abc"];
    assert TabFree(fs);
    JoinTabThree(fs);
    assert line == JoinTab(fs) + Tabs(0);
    SplitTabOfJoin(fs, 0);
    ParseIntRejectsText();
  }

  // ---------------------------------------------------------------------
  // Reading every line

  /** One more line: the earlier lines parse, and the last line is accepted and adds its mention, if any. */
  lemma ParseAllStep(lines: seq<string>)
    requires lines != [] && ParseAll(lines).Ok?
    ensures ParseAll(lines[..|lines| - 1]).Ok? && ParseLine(lines[|lines| - 1]).Ok?
    ensures ParseLine(lines[|lines| - 1]) == Ok(None) ==>
      ParseAll(lines).value == ParseAll(lines[..|lines| - 1]).value
    ensures ParseLine(lines[|lines| - 1]).value.Some? ==>
      ParseAll(lines).value == ParseAll(lines[..|lines| - 1]).value + [ParseLine(lines[|lines| - 1]).value.value]
  {
  }

  /** When the lines parse, each of them is accepted or empty. */
  lemma {:induction false} LineAccepted(lines: seq<string>, i: nat)
    requires ParseAll(lines).Ok? && i < |lines|
    ensures ParseLine(lines[i]).Ok?
  {
    ParseAllStep(lines);
    if i < |lines| - 1 {
      assert lines[..|lines| - 1][i] == lines[i];
      LineAccepted(lines[..|lines| - 1], i);
    }
  }

  /** A failure is the error of the first line that fails. */
  lemma {:induction false} ParseAllFailsAtFirstBadLine(lines: seq<string>)
    requires ParseAll(lines).Err?
    ensures exists i :: FirstBadLine(lines, i) && ParseLine(lines[i]) == Err(ParseAll(lines).error)
  {
    var init := lines[..|lines| - 1];
    assert forall i :: 0 <= i < |init| ==> init[i] == lines[i];
    if ParseAll(init).Err? {
      ParseAllFailsAtFirstBadLine(init);
      var i :| FirstBadLine(init, i) && ParseLine(init[i]) == Err(ParseAll(init).error);
      assert FirstBadLine(lines, i);
    } else {
      forall j | 0 <= j < |init| ensures ParseLine(lines[j]).Ok? {
        LineAccepted(init, j);
      }
      assert FirstBadLine(lines, |lines| - 1);
    }
  }

  /** Parsing succeeds exactly when every line is accepted or empty. */
  lemma ParseAllSucceeds(lines: seq<string>)
    ensures ParseAll(lines).Ok? <==> forall i :: 0 <= i < |lines| ==> ParseLine(lines[i]).Ok?
  {
    if ParseAll(lines).Ok? {
      forall i | 0 <= i < |lines| ensures ParseLine(lines[i]).Ok? {
        LineAccepted(lines, i);
      }
    } else {
      ParseAllFailsAtFirstBadLine(lines);
    }
  }

  /** Once a prefix fails, the lines after it are not read. */
  lemma {:induction false} ParseAllStopsAtError(lines: seq<string>, n: nat)
    requires n <= |lines| && ParseAll(lines[..n]).Err?
    ensures ParseAll(lines) == ParseAll(lines[..n])
  {
    if n == |lines| {
      assert lines[..n] == lines;
    } else {
      var init := lines[..|lines| - 1];
      assert init[..n] == lines[..n];
      ParseAllStopsAtError(init, n);
    }
  }

  /** The mentions of a prefix come first. */
  lemma {:induction false} ParseAllPrefix(lines: seq<string>, n: nat)
    requires n <= |lines| && ParseAll(lines).Ok?
    ensures ParseAll(lines[..n]).Ok? && ParseAll(lines[..n]).value <= ParseAll(lines).value
  {
    if n == |lines| {
      assert lines[..n] == lines;
    } else {
      var init := lines[..|lines| - 1];
      assert init[..n] == lines[..n];
      ParseAllPrefix(init, n);
    }
  }

  /** A file of empty lines has no mention. */
  lemma {:induction false} ParseAllEmptyLines(lines: seq<string>)
    requires forall i :: 0 <= i < |lines| ==> lines[i] == ""
    ensures ParseAll(lines) == Ok([])
  {
    if lines != [] {
      ParseAllEmptyLines(lines[..|lines| - 1]);
    }
  }

  /** The mentions are those of the non-empty lines, one per line, in order. */
  lemma {:induction false} ParseAllMentions(lines: seq<string>)
    requires ParseAll(lines).Ok?
    ensures |ParseAll(lines).value| == |NonEmpty(lines)|
    ensures forall k :: 0 <= k < |NonEmpty(lines)| ==>
      ParseLine(NonEmpty(lines)[k]) == Ok(Some(ParseAll(lines).value[k]))
  {
    if lines != [] {
      ParseAllMentions(lines[..|lines| - 1]);
    }
  }

  /** Every mention comes from a line. */
  lemma {:induction false} MentionHasLine(lines: seq<string>, k: nat)
    requires ParseAll(lines).Ok? && k < |ParseAll(lines).value|
    ensures exists i :: 0 <= i < |lines| && ParseLine(lines[i]) == Ok(Some(ParseAll(lines).value[k]))
  {
    var init := lines[..|lines| - 1];
    var ms0 := ParseAll(init).value;
    var ms := ParseAll(lines).value;
    if k < |ms0| {
      MentionHasLine(init, k);
      var i :| 0 <= i < |init| && ParseLine(init[i]) == Ok(Some(ms0[k]));
      assert lines[i] == init[i] && ms[k] == ms0[k];
    } else {
      assert ParseLine(lines[|lines| - 1]) == Ok(Some(ms[k]));
    }
  }

  /** The mention of every accepted line is among the mentions. */
  lemma {:induction false} LineHasMention(lines: seq<string>, i: nat)
    requires ParseAll(lines).Ok? && i < |lines|
    requires ParseLine(lines[i]).Ok? && ParseLine(lines[i]).value.Some?
    ensures ParseLine(lines[i]).value.value in ParseAll(lines).value
  {
    var init := lines[..|lines| - 1];
    var m := ParseLine(lines[i]).value.value;
    ParseAllStep(lines);
    var ms0, ms := ParseAll(init).value, ParseAll(lines).value;
    if i < |init| {
      assert init[i] == lines[i];
      LineHasMention(init, i);
      var k :| 0 <= k < |ms0| && ms0[k] == m;
      assert ms0 <= ms;
      assert ms[k] == m;
    } else {
      assert i == |lines| - 1;
      assert ms == ms0 + [m];
    }
  }

  /** Every line that joins two names has a mention that joins them. */
  lemma LinesJoinMentions(lines: seq<string>)
    requires ParseAll(lines).Ok?
    ensures forall i, source, target :: 0 <= i < |lines| && JoinsPair(lines[i], source, target) ==>
      exists k :: (0 <= k < |ParseAll(lines).value|
        && ParseAll(lines).value[k].source == source && ParseAll(lines).value[k].target == target)
  {
    forall i, source, target | 0 <= i < |lines| && JoinsPair(lines[i], source, target)
      ensures exists k :: (0 <= k < |ParseAll(lines).value|
        && ParseAll(lines).value[k].source == source && ParseAll(lines).value[k].target == target)
    {
      LineHasMention(lines, i);
    }
  }

  /** The first mention of an ordered pair comes from the first line that joins it. */
  lemma {:induction false} FirstMentionFirstLine(lines: seq<string>, k: nat, source: string, target: string)
    requires ParseAll(lines).Ok? && FirstMention(ParseAll(lines).value, k, source, target)
    ensures exists i :: (FirstToJoin(lines, i, source, target)
      && ParseLine(lines[i]) == Ok(Some(ParseAll(lines).value[k])))
  {
    var init := lines[..|lines| - 1];
    var ms0 := ParseAll(init).value;
    var ms := ParseAll(lines).value;
    assert ms0 <= ms;
    assert forall j :: 0 <= j < |init| ==> init[j] == lines[j];
    if k < |ms0| {
      assert FirstMention(ms0, k, source, target);
      FirstMentionFirstLine(init, k, source, target);
      var i :| FirstToJoin(init, i, source, target) && ParseLine(init[i]) == Ok(Some(ms0[k]));
      assert FirstToJoin(lines, i, source, target);
    } else {
      LinesJoinMentions(init);
      assert forall j :: 0 <= j < |init| ==> !JoinsPair(init[j], source, target);
      assert ParseLine(lines[|lines| - 1]) == Ok(Some(ms[k]));
      assert FirstToJoin(lines, |lines| - 1, source, target);
    }
  }

  // ---------------------------------------------------------------------
  // The graph of the mentions

  /** Adding an accepted line keeps the graph invariant. */
  lemma InsertWellFormed(g: GraphValue, m: Mention, policy: ParallelPolicy)
    requires WellFormed(g, policy)
    ensures WellFormed(Insert(g, m, policy), policy)
  {
  }

  /**
   * After an accepted line both endpoints are vertices, nothing else is
   * added, and endpoints that were already vertices leave the set as it was.
   */
  lemma InsertVertices(g: GraphValue, m: Mention, policy: ParallelPolicy)
    ensures m.source in Insert(g, m, policy).vertices && m.target in Insert(g, m, policy).vertices
    ensures Insert(g, m, policy).vertices == g.vertices + {m.source, m.target}
    ensures m.source in g.vertices && m.target in g.vertices ==> Insert(g, m, policy).vertices == g.vertices
  {
  }

  /** After inserting a mention, its ordered pair has an edge under either policy. */
  lemma InsertHasEdge(g: GraphValue, m: Mention, policy: ParallelPolicy)
    ensures g.edges <= Insert(g, m, policy).edges
    ensures HasEdge(Insert(g, m, policy).edges, m.source, m.target)
  {
    var h := Insert(g, m, policy);
    if HasEdge(g.edges, m.source, m.target) {
      EdgesPrefixHasEdge(g.edges, h.edges, m.source, m.target);
    } else {
      assert h.edges[|g.edges|] == Edge(|g.edges|, m.source, m.target, m.weight);
    }
  }

  lemma EdgesPrefixHasEdge(a: seq<Edge>, b: seq<Edge>, source: string, target: string)
    requires a <= b && HasEdge(a, source, target)
    ensures HasEdge(b, source, target)
  {
    var j :| 0 <= j < |a| && a[j].source == source && a[j].target == target;
    assert b[j] == a[j];
  }

  /** Every graph `Build` makes keeps the graph invariant. */
  lemma {:induction false} BuildWellFormed(ms: seq<Mention>, policy: ParallelPolicy)
    ensures WellFormed(Build(ms, policy), policy)
  {
    if ms != [] {
      BuildWellFormed(ms[..|ms| - 1], policy);
      InsertWellFormed(Build(ms[..|ms| - 1], policy), ms[|ms| - 1], policy);
    }
  }

  /** The graph of a prefix of the mentions has fewer vertices and its edges come first. */
  lemma {:induction false} BuildPrefix(a: seq<Mention>, b: seq<Mention>, policy: ParallelPolicy)
    requires a <= b
    ensures Build(a, policy).vertices <= Build(b, policy).vertices
    ensures Build(a, policy).edges <= Build(b, policy).edges
  {
    if |a| < |b| {
      var init := b[..|b| - 1];
      assert a <= init;
      BuildPrefix(a, init, policy);
      InsertHasEdge(Build(init, policy), b[|b| - 1], policy);
    } else {
      assert a == b;
    }
  }

  /** The vertices are exactly the endpoints of the mentions. */
  lemma {:induction false} BuildVertices(ms: seq<Mention>, policy: ParallelPolicy)
    ensures forall v :: v in Build(ms, policy).vertices <==>
      exists k :: 0 <= k < |ms| && (ms[k].source == v || ms[k].target == v)
  {
    if ms != [] {
      var init := ms[..|ms| - 1];
      BuildVertices(init, policy);
      assert forall k :: 0 <= k < |init| ==> init[k] == ms[k];
    }
  }

  /** With `KeepParallel` there is one edge per mention, in order. */
  lemma {:induction false} BuildKeepsEvery(ms: seq<Mention>)
    ensures |Build(ms, KeepParallel).edges| == |ms|
    ensures forall k :: 0 <= k < |ms| ==>
      Build(ms, KeepParallel).edges[k] == Edge(k, ms[k].source, ms[k].target, ms[k].weight)
  {
    if ms != [] {
      BuildKeepsEvery(ms[..|ms| - 1]);
    }
  }

  /** Under either policy, the ordered pair of every mention has an edge. */
  lemma {:induction false} BuildHasEdges(ms: seq<Mention>, policy: ParallelPolicy)
    ensures forall k :: 0 <= k < |ms| ==> HasEdge(Build(ms, policy).edges, ms[k].source, ms[k].target)
  {
    if ms != [] {
      var init := ms[..|ms| - 1];
      var g := Build(init, policy);
      BuildHasEdges(init, policy);
      InsertHasEdge(g, ms[|ms| - 1], policy);
      forall k | 0 <= k < |init| ensures HasEdge(Build(ms, policy).edges, ms[k].source, ms[k].target) {
        assert init[k] == ms[k];
        EdgesPrefixHasEdge(g.edges, Build(ms, policy).edges, ms[k].source, ms[k].target);
      }
    }
  }

  /** Every edge is a mention of the sequence. */
  lemma {:induction false} BuildEdgesHaveMentions(ms: seq<Mention>, policy: ParallelPolicy)
    ensures forall j :: 0 <= j < |Build(ms, policy).edges| ==>
      var e := Build(ms, policy).edges[j];
      Mention(e.source, e.target, e.weight) in ms
  {
    if ms != [] {
      var init := ms[..|ms| - 1];
      BuildEdgesHaveMentions(init, policy);
      InsertHasEdge(Build(init, policy), ms[|ms| - 1], policy);
      assert ms == init + [ms[|ms| - 1]];
    }
  }

  /** With `RejectParallel`, every edge is the first mention of its ordered pair. */
  lemma {:induction false} BuildRejectKeepsFirst(ms: seq<Mention>)
    ensures forall j :: 0 <= j < |Build(ms, RejectParallel).edges| ==>
      var e := Build(ms, RejectParallel).edges[j];
      exists k :: FirstMention(ms, k, e.source, e.target) && ms[k].weight == e.weight
  {
    if ms != [] {
      var init := ms[..|ms| - 1];
      var g := Build(init, RejectParallel);
      var h := Build(ms, RejectParallel);
      BuildRejectKeepsFirst(init);
      BuildHasEdges(init, RejectParallel);
      InsertHasEdge(g, ms[|ms| - 1], RejectParallel);
      assert forall k :: 0 <= k < |init| ==> init[k] == ms[k];
      forall j | 0 <= j < |h.edges|
        ensures exists k :: FirstMention(ms, k, h.edges[j].source, h.edges[j].target) && ms[k].weight == h.edges[j].weight
      {
        var e := h.edges[j];
        if j < |g.edges| {
          assert e == g.edges[j];
          var k :| FirstMention(init, k, e.source, e.target) && init[k].weight == e.weight;
          assert FirstMention(ms, k, e.source, e.target);
        } else {
          assert !HasEdge(g.edges, e.source, e.target);
          assert FirstMention(ms, |init|, e.source, e.target);
        }
      }
      assert h == Build(ms, RejectParallel);
    } else {
      assert Build(ms, RejectParallel).edges == [];
    }
  }

  // ---------------------------------------------------------------------
  // The graph built by Load

  /** Every graph `Load` builds keeps the graph invariant. */
  lemma LoadWellFormed(lines: seq<string>, policy: ParallelPolicy)
    requires Load(lines, policy).Ok?
    ensures WellFormed(Load(lines, policy).value, policy)
  {
    BuildWellFormed(ParseAll(lines).value, policy);
  }

  /** Empty lines add no vertex and no edge: a file of empty lines gives the empty graph. */
  lemma LoadEmptyLines(lines: seq<string>, policy: ParallelPolicy)
    requires forall i :: 0 <= i < |lines| ==> lines[i] == ""
    ensures Load(lines, policy) == Ok(EmptyGraph)
  {
    ParseAllEmptyLines(lines);
  }

  /** The load succeeds exactly when every line is accepted or empty. */
  lemma LoadSucceeds(lines: seq<string>, policy: ParallelPolicy)
    ensures Load(lines, policy).Ok? <==> forall i :: 0 <= i < |lines| ==> ParseLine(lines[i]).Ok?
  {
    ParseAllSucceeds(lines);
  }

  /** A failed load reports the error of the first line that fails. */
  lemma LoadFailsAtFirstBadLine(lines: seq<string>, policy: ParallelPolicy)
    requires Load(lines, policy).Err?
    ensures exists i :: FirstBadLine(lines, i) && ParseLine(lines[i]) == Err(Load(lines, policy).error)
  {
    ParseAllFailsAtFirstBadLine(lines);
  }

  /** Once a prefix fails, the lines after it change nothing: the load stops there. */
  lemma LoadStopsAtError(lines: seq<string>, n: nat, policy: ParallelPolicy)
    requires n <= |lines| && Load(lines[..n], policy).Err?
    ensures Load(lines, policy) == Load(lines[..n], policy)
  {
    ParseAllStopsAtError(lines, n);
  }

  /**
   * Lines are processed in order: when the whole file loads, every prefix
   * loads to a graph with fewer vertices whose edges come first.
   */
  lemma LoadPrefix(lines: seq<string>, n: nat, policy: ParallelPolicy)
    requires n <= |lines| && Load(lines, policy).Ok?
    ensures Load(lines[..n], policy).Ok?
    ensures Load(lines[..n], policy).value.vertices <= Load(lines, policy).value.vertices
    ensures Load(lines[..n], policy).value.edges <= Load(lines, policy).value.edges
  {
    ParseAllPrefix(lines, n);
    BuildPrefix(ParseAll(lines[..n]).value, ParseAll(lines).value, policy);
  }

  /** An accepted line names exactly the two endpoints of its mention. */
  lemma NamesVertexOfMention(line: string, m: Mention, v: string)
    requires ParseLine(line) == Ok(Some(m))
    ensures NamesVertex(line, v) <==> v == m.source || v == m.target
  {
  }

  /** The vertices are exactly the first and second fields of the non-empty lines. */
  lemma LoadVertices(lines: seq<string>, policy: ParallelPolicy)
    requires Load(lines, policy).Ok?
    ensures forall v :: v in Load(lines, policy).value.vertices <==>
      exists i :: 0 <= i < |lines| && NamesVertex(lines[i], v)
  {
    var ms := ParseAll(lines).value;
    BuildVertices(ms, policy);
    forall v | v in Load(lines, policy).value.vertices
      ensures exists i :: 0 <= i < |lines| && NamesVertex(lines[i], v)
    {
      var k :| 0 <= k < |ms| && (ms[k].source == v || ms[k].target == v);
      MentionHasLine(lines, k);
      var i :| 0 <= i < |lines| && ParseLine(lines[i]) == Ok(Some(ms[k]));
      NamesVertexOfMention(lines[i], ms[k], v);
    }
    forall v, i | 0 <= i < |lines| && NamesVertex(lines[i], v)
      ensures v in Load(lines, policy).value.vertices
    {
      LineAccepted(lines, i);
      var m := ParseLine(lines[i]).value.value;
      NamesVertexOfMention(lines[i], m, v);
      LineHasMention(lines, i);
      var k :| 0 <= k < |ms| && ms[k] == m;
    }
  }

  /**
   * With `KeepParallel`, there is one edge per non-empty line, in the order
   * of the lines, with that line's endpoints and weight: parallel edges are
   * neither merged nor dropped.
   */
  lemma LoadKeepsEveryLine(lines: seq<string>)
    requires Load(lines, KeepParallel).Ok?
    ensures |Load(lines, KeepParallel).value.edges| == |NonEmpty(lines)|
    ensures forall k :: 0 <= k < |NonEmpty(lines)| ==>
      var e := Load(lines, KeepParallel).value.edges[k];
      e.id == k && ParseLine(NonEmpty(lines)[k]) == Ok(Some(Mention(e.source, e.target, e.weight)))
  {
    ParseAllMentions(lines);
    BuildKeepsEvery(ParseAll(lines).value);
  }

  /** Under either policy, every accepted line's ordered pair has an edge. */
  lemma LoadLinesHaveEdges(lines: seq<string>, policy: ParallelPolicy)
    requires Load(lines, policy).Ok?
    ensures forall i, source, target :: 0 <= i < |lines| && JoinsPair(lines[i], source, target) ==>
      HasEdge(Load(lines, policy).value.edges, source, target)
  {
    LinesJoinMentions(lines);
    BuildHasEdges(ParseAll(lines).value, policy);
  }

  /** Under either policy, every edge carries the weight of some line that joins its endpoints. */
  lemma LoadEdgesHaveLines(lines: seq<string>, policy: ParallelPolicy)
    requires Load(lines, policy).Ok?
    ensures forall j :: 0 <= j < |Load(lines, policy).value.edges| ==>
      var e := Load(lines, policy).value.edges[j];
      exists i :: 0 <= i < |lines| && ParseLine(lines[i]) == Ok(Some(Mention(e.source, e.target, e.weight)))
  {
    var ms := ParseAll(lines).value;
    var h := Build(ms, policy);
    BuildEdgesHaveMentions(ms, policy);
    forall j | 0 <= j < |h.edges|
      ensures exists i :: (0 <= i < |lines|
        && ParseLine(lines[i]) == Ok(Some(Mention(h.edges[j].source, h.edges[j].target, h.edges[j].weight))))
    {
      var e := h.edges[j];
      var k :| 0 <= k < |ms| && ms[k] == Mention(e.source, e.target, e.weight);
      MentionHasLine(lines, k);
    }
  }

  /**
   * With `RejectParallel`, an edge carries the weight of the FIRST line that
   * joins its endpoints; later lines with the same ordered pair are dropped.
   */
  lemma LoadRejectKeepsFirst(lines: seq<string>)
    requires Load(lines, RejectParallel).Ok?
    ensures forall j :: 0 <= j < |Load(lines, RejectParallel).value.edges| ==>
      var e := Load(lines, RejectParallel).value.edges[j];
      exists i :: FirstToJoin(lines, i, e.source, e.target)
        && ParseLine(lines[i]) == Ok(Some(Mention(e.source, e.target, e.weight)))
  {
    var ms := ParseAll(lines).value;
    var h := Build(ms, RejectParallel);
    BuildRejectKeepsFirst(ms);
    forall j | 0 <= j < |h.edges|
      ensures exists i :: (FirstToJoin(lines, i, h.edges[j].source, h.edges[j].target)
        && ParseLine(lines[i]) == Ok(Some(Mention(h.edges[j].source, h.edges[j].target, h.edges[j].weight))))
    {
      var e := h.edges[j];
      var k :| FirstMention(ms, k, e.source, e.target) && ms[k].weight == e.weight;
      FirstMentionFirstLine(lines, k, e.source, e.target);
      assert ms[k] == Mention(e.source, e.target, e.weight);
    }
  }

  /** A line `source<TAB>target<TAB>weight` with tab-free names and no trailing tab. */
  lemma PlainLine(line: string, source: string, target: string, field: string)
    requires TAB !in source && TAB !in target && ParseInt(field).Some?
    requires line == source + [TAB] + target + [TAB] + field
    ensures ParseLine(line) == Ok(Some(Mention(source, target, ParseInt(field).value)))
  {
    assert line == source + [TAB] + target + [TAB] + field + Tabs(0);
    ParseLineOfFields(source, target, field, 0);
  }

  lemma ParseTen()
    ensures ParseInt("10") == Some(10) && ParseInt("8") == Some(8)
  {
    assert "10"[..1] == "1" && "1"[..0] == "" && "8"[..0] == "";
  }

  /** The first line of the example file. */
  lemma ExampleLineAB()
    ensures ParseLine("A\tB\t10") == Ok(Some(Mention("A", "B", 10)))
  {
    ParseTen();
    PlainLine("A\tB\t10", "A", "B", "10");
  }

  /** The second line of the example file. */
  lemma ExampleLineBC()
    ensures ParseLine("B\tC\t8") == Ok(Some(Mention("B", "C", 8)))
  {
    ParseTen();
    PlainLine("B\tC\t8", "B", "C", "8");
  }

  /** The third line of the example file. */
  lemma ExampleLineAC()
    ensures ParseLine("A\tC\t10") == Ok(Some(Mention("A", "C", 10)))
  {
    ParseTen();
    PlainLine("A\tC\t10", "A", "C", "10");
  }

  /** One accepted line after lines that parse adds that line's mention. */
  lemma ParseAllSnoc(lines: seq<string>, line: string, ms: seq<Mention>, m: Mention)
    requires ParseAll(lines) == Ok(ms) && ParseLine(line) == Ok(Some(m))
    ensures ParseAll(lines + [line]) == Ok(ms + [m])
  {
    assert (lines + [line])[..|lines|] == lines;
  }

  /** One accepted line after a prefix that loads adds that line's mention. */
  lemma LoadSnoc(lines: seq<string>, line: string, m: Mention, g: GraphValue, policy: ParallelPolicy)
    requires Load(lines, policy) == Ok(g) && ParseLine(line) == Ok(Some(m))
    ensures Load(lines + [line], policy) == Ok(Insert(g, m, policy))
  {
    var ms := ParseAll(lines).value;
    ParseAllSnoc(lines, line, ms, m);
    assert (ms + [m])[..|ms|] == ms;
  }

  /** A line with a new ordered pair appends its edge under either policy. */
  lemma InsertNewPair(g: GraphValue, m: Mention, policy: ParallelPolicy)
    requires !HasEdge(g.edges, m.source, m.target)
    ensures Insert(g, m, policy)
      == GraphValue(g.vertices + {m.source, m.target}, g.edges + [Edge(|g.edges|, m.source, m.target, m.weight)])
  {
  }

  /** Three accepted lines give their three mentions in order. */
  lemma ParseAllThree(a: string, b: string, c: string, ma: Mention, mb: Mention, mc: Mention)
    requires ParseLine(a) == Ok(Some(ma)) && ParseLine(b) == Ok(Some(mb)) && ParseLine(c) == Ok(Some(mc))
    ensures ParseAll([a, b, c]) == Ok([ma, mb, mc])
  {
    assert ParseAll([a]) == Ok([ma]) by {
      ParseAllSnoc([], a, [], ma);
      assert [] + [a] == [a] && [] + [ma] == [ma];
    }
    assert ParseAll([a, b]) == Ok([ma, mb]) by {
      ParseAllSnoc([a], b, [ma], mb);
      assert [a] + [b] == [a, b] && [ma] + [mb] == [ma, mb];
    }
    ParseAllSnoc([a, b], c, [ma, mb], mc);
    assert [a, b] + [c] == [a, b, c] && [ma, mb] + [mc] == [ma, mb, mc];
  }

  /** Inserting A->B (10), B->C (8) and A->C (10) gives three vertices and three distinct edges. */
  lemma BuildExample(policy: ParallelPolicy)
    ensures Build([Mention("A", "B", 10), Mention("B", "C", 8), Mention("A", "C", 10)], policy)
      == GraphValue({"A", "B", "C"}, [Edge(0, "A", "B", 10), Edge(1, "B", "C", 8), Edge(2, "A", "C", 10)])
  {
    var ab, bc, ac := Mention("A", "B", 10), Mention("B", "C", 8), Mention("A", "C", 10);
    var g1 := GraphValue({"A", "B"}, [Edge(0, "A", "B", 10)]);
    var g2 := GraphValue({"A", "B", "C"}, [Edge(0, "A", "B", 10), Edge(1, "B", "C", 8)]);
    assert Build([ab], policy) == g1 by {
      assert [ab][..0] == [];
      InsertNewPair(EmptyGraph, ab, policy);
      assert EmptyGraph.vertices + {"A", "B"} == {"A", "B"};
      assert EmptyGraph.edges + [Edge(0, "A", "B", 10)] == [Edge(0, "A", "B", 10)];
    }
    assert Build([ab, bc], policy) == g2 by {
      assert [ab, bc][..1] == [ab];
      assert !HasEdge(g1.edges, "B", "C") by {
        assert "A"[0] != "B"[0];
        assert |g1.edges| == 1 && g1.edges[0].source == "A";
      }
      InsertNewPair(g1, bc, policy);
      assert {"A", "B"} + {"B", "C"} == {"A", "B", "C"};
      assert g1.edges + [Edge(1, "B", "C", 8)] == g2.edges;
    }
    assert [ab, bc, ac][..2] == [ab, bc];
    assert !HasEdge(g2.edges, "A", "C") by {
      assert "B"[0] != "C"[0] && "A"[0] != "B"[0];
      assert |g2.edges| == 2 && g2.edges[0].target == "B" && g2.edges[1].source == "B";
    }
    InsertNewPair(g2, ac, policy);
    assert {"A", "B", "C"} + {"A", "C"} == {"A", "B", "C"};
    assert g2.edges + [Edge(2, "A", "C", 10)] == [Edge(0, "A", "B", 10), Edge(1, "B", "C", 8), Edge(2, "A", "C", 10)];
  }

  /** An empty line changes nothing. */
  lemma LoadSnocEmpty(lines: seq<string>, policy: ParallelPolicy)
    ensures Load(lines + [""], policy) == Load(lines, policy)
  {
    assert (lines + [""])[..|lines|] == lines;
  }

  /** A failing line after a prefix that loads is the error of the whole load. */
  lemma LoadSnocError(lines: seq<string>, line: string, e: LoadError, policy: ParallelPolicy)
    requires Load(lines, policy).Ok? && ParseLine(line) == Err(e)
    ensures Load(lines + [line], policy) == Err(e)
  {
    assert (lines + [line])[..|lines|] == lines;
  }

  /**
   * The example file gives three vertices and three edges; the two edges of
   * weight 10 stay distinct. The result is the same under both policies.
   */
  lemma LoadExample(policy: ParallelPolicy)
    ensures Load(["A\tB\t10", "B\tC\t8", "A\tC\t10"], policy) == Ok(GraphValue(
      {"A", "B", "C"},
      [Edge(0, "A", "B", 10), Edge(1, "B", "C", 8), Edge(2, "A", "C", 10)]))
  {
    ExampleLineAB();
    ExampleLineBC();
    ExampleLineAC();
    ParseAllThree("A\tB\t10", "B\tC\t8", "A\tC\t10",
      Mention("A", "B", 10), Mention("B", "C", 8), Mention("A", "C", 10));
    BuildExample(policy);
  }

  // ---------------------------------------------------------------------
  // The graph object and the loader loop

  /**
   * The graph object that `createGraph` fills in place: vertices are added
   * when missing, then the edge.
   */
  class Graph {
    const policy: ParallelPolicy
    var vertices: set<string>
    var edges: seq<Edge>

    function Value(): GraphValue
      reads this
    {
      GraphValue(vertices, edges)
    }

    ghost predicate Valid()
      reads this
    {
      WellFormed(Value(), policy)
    }

    constructor (policy: ParallelPolicy)
      ensures this.policy == policy && Valid()
      ensures Value() == EmptyGraph
    {
      this.policy := policy;
      vertices := {};
      edges := [];
    }

    /** `containsVertex`: whether `v` is a vertex of the graph's current value. */
    function ContainsVertex(v: string): (present: bool)
      reads this
      ensures present <==> v in Value().vertices
    {
      v in vertices
    }

    /** Adds `v`; a vertex already present is left alone and `false` is returned. */
    method AddVertex(v: string) returns (added: bool)
      requires Valid()
      modifies this
      ensures Valid()
      ensures added <==> v !in old(vertices)
      ensures vertices == old(vertices) + {v}
      ensures edges == old(edges)
    {
      added := v !in vertices;
      if added {
        vertices := vertices + {v};
      }
    }

    /**
     * Adds an edge from `source` to `target`, both already vertices, with the
     * next id; under `RejectParallel` a second edge for the same ordered pair
     * is refused and `false` is returned.
     */
    method AddEdge(source: string, target: string, weight: int32) returns (added: bool)
      requires Valid() && source in vertices && target in vertices
      modifies this
      ensures Valid()
      ensures added <==> policy == KeepParallel || !HasEdge(old(edges), source, target)
      ensures vertices == old(vertices)
      ensures edges == if added then old(edges) + [Edge(|old(edges)|, source, target, weight)] else old(edges)
    {
      added := policy == KeepParallel
        || !(exists i :: 0 <= i < |edges| && edges[i].source == source && edges[i].target == target);
      if added {
        edges := edges + [Edge(|edges|, source, target, weight)];
      }
    }
  }

  /**
   * The body of `createGraph`'s loop for one line: an empty line is skipped;
   * otherwise the line is split and its weight parsed, and only then are
   * missing endpoints added and the edge added. A failing line leaves the
   * graph as it was.
   */
  method AddLine(graph: Graph, line: string) returns (err: Option<LoadError>)
    requires graph.Valid()
    modifies graph
    ensures graph.Valid()
    ensures ParseLine(line).Err? ==> err == Some(ParseLine(line).error) && graph.Value() == old(graph.Value())
    ensures ParseLine(line) == Ok(None) ==> err == None && graph.Value() == old(graph.Value())
    ensures ParseLine(line).Ok? && ParseLine(line).value.Some? ==>
      err == None && graph.Value() == Insert(old(graph.Value()), ParseLine(line).value.value, graph.policy)
  {
    if line == "" {
      return None;
    }
    var vals := SplitTab(line);
    if |vals| != 3 {
      return Some(FieldCount(line));
    }
    var source := vals[0];
    var target := vals[1];
    var edgeLabel := ParseInt(vals[2]);
    if edgeLabel.None? {
      return Some(NotAnInt(vals[2]));
    }
    ghost var before := graph.Value();
    ghost var m := Mention(source, target, edgeLabel.value);
    assert ParseLine(line) == Ok(Some(m));
    if !graph.ContainsVertex(source) {
      var _ := graph.AddVertex(source);
    }
    if !graph.ContainsVertex(target) {
      var _ := graph.AddVertex(target);
    }
    assert graph.vertices == before.vertices + {source, target} && graph.edges == before.edges;
    var added := graph.AddEdge(source, target, edgeLabel.value);
    assert graph.edges == Insert(before, m, graph.policy).edges by {
      if added {
        assert graph.edges == before.edges + [Edge(|before.edges|, source, target, edgeLabel.value)];
      }
    }
    return None;
  }

  /**
   * `createGraph` on the lines of the file: a new graph, filled line by line
   * in order, or the error of the first line that fails. It computes `Load`.
   */
  method CreateGraph(lines: seq<string>, policy: ParallelPolicy) returns (r: Result<Graph, LoadError>)
    ensures r.Err? <==> Load(lines, policy).Err?
    ensures r.Err? ==> r.error == Load(lines, policy).error
    ensures r.Ok? ==> (fresh(r.value) && r.value.policy == policy && r.value.Valid()
      && r.value.Value() == Load(lines, policy).value)
  {
    var graph := new Graph(policy);
    for i := 0 to |lines|
      invariant graph.policy == policy && graph.Valid()
      invariant Load(lines[..i], policy) == Ok(graph.Value())
    {
      assert lines[..i + 1] == lines[..i] + [lines[i]];
      ghost var before := graph.Value();
      var err := AddLine(graph, lines[i]);
      if err.Some? {
        LoadSnocError(lines[..i], lines[i], err.value, policy);
        LoadStopsAtError(lines, i + 1, policy);
        return Err(err.value);
      }
      if lines[i] == "" {
        LoadSnocEmpty(lines[..i], policy);
      } else {
        LoadSnoc(lines[..i], lines[i], ParseLine(lines[i]).value.value, before, policy);
      }
    }
    assert lines[..|lines|] == lines;
    return Ok(graph);
  }
}
