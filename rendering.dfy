/**
 * The two rules of the renderer that compute something from the graph: the
 * label of an edge is the decimal string of its weight, and the stroke of an
 * edge (and of its arrow) is `(weight - 6) / 2` wide, computed as Java does:
 * the subtraction on `int`, then a division by the float `2F`.
 */
module Rendering {
  import opened Wrappers
  import opened JavaInteger
  import opened MentionGraph

  /** `String.valueOf(weight)`; parsing it gives the weight back. */
  function EdgeLabel(e: Edge): (text: string)
    ensures Canonical(text)
    ensures ParseInt(text) == Some(e.weight)
  {
    ParseIntToString(e.weight);
    ToString(e.weight)
  }

  /**
   * `(weight - 6) / 2F`. The subtraction is on `int` and wraps around below
   * `Integer.MIN_VALUE + 6`; the float division is modelled as exact division
   * on reals.
   */
  function StrokeWidth(weight: int32): real
  {
    (Wrap(weight as int - 6) as int as real) / 2.0
  }

  /**
   * The label drawn on a loaded edge, read back with `Integer.valueOf`, is
   * the weight of a line of the file that joins the edge's endpoints.
   */
  lemma LabelOfLoadedEdge(lines: seq<string>, policy: ParallelPolicy, k: nat)
    requires Load(lines, policy).Ok? && k < |Load(lines, policy).value.edges|
    ensures var e := Load(lines, policy).value.edges[k];
      exists i :: (0 <= i < |lines| && ParseInt(EdgeLabel(e)).Some?
        && ParseLine(lines[i]) == Ok(Some(Mention(e.source, e.target, ParseInt(EdgeLabel(e)).value))))
  {
    LoadEdgesHaveLines(lines, policy);
  }

  /** A label written by the renderer and read back as a weight field gives the same weight. */
  lemma LabelRoundTrip(e: Edge, field: string)
    requires ParseInt(field) == Some(e.weight) && Canonical(field)
    ensures EdgeLabel(e) == field
  {
    ToStringParseInt(field, e.weight);
  }

  /** No clamping: the width is `(w - 6) / 2` for every weight whose subtraction does not wrap. */
  lemma StrokeWidthUnclamped(weight: int32)
    requires weight as int >= MIN_VALUE + 6
    ensures StrokeWidth(weight) == ((weight as int - 6) as real) / 2.0
    ensures StrokeWidth(weight) <= 0.0 <==> weight <= 6
  {
  }

  /** The widths for weights 10, 6 and 4: positive, zero and negative, computed without clamping. */
  lemma StrokeWidthExamples()
    ensures StrokeWidth(10) == 2.0
    ensures StrokeWidth(6) == 0.0
    ensures StrokeWidth(4) == -1.0
  {
    StrokeWidthUnclamped(10);
    StrokeWidthUnclamped(6);
    StrokeWidthUnclamped(4);
  }

  /** Below `Integer.MIN_VALUE + 6` the `int` subtraction wraps to a large positive width. */
  lemma StrokeWidthWraps(weight: int32)
    requires weight as int < MIN_VALUE + 6
    ensures StrokeWidth(weight) == ((weight as int - 6 + 0x1_0000_0000) as real) / 2.0
    ensures StrokeWidth(weight) > 0.0
  {
    var x := weight as int - 6 + 0x1_0000_0000;
    assert MIN_VALUE <= x <= MAX_VALUE;
    assert (x - MIN_VALUE) % 0x1_0000_0000 == x - MIN_VALUE;
    assert (weight as int - 6 - MIN_VALUE) % 0x1_0000_0000 == x - MIN_VALUE;
  }
}
