/** Python source as the generators write it: a line is an indentation
    level and a text, `indent` gives four spaces per level, and a list of
    texts is joined with `", "` between neighbours. */
module PyText {

  /** `indent`: four spaces per level. */
  function Indent(level: nat): (r: string)
    ensures |r| == 4 * level
    ensures forall k :: 0 <= k < |r| ==> r[k] == ' '
  {
    if level == 0 then "" else "    " + Indent(level - 1)
  }

  /** Indenting by `a + b` levels is indenting by `a` and then by `b`. */
  lemma {:induction false} IndentAdds(a: nat, b: nat)
    ensures Indent(a + b) == Indent(a) + Indent(b)
    decreases a
  {
    if a > 0 {
      IndentAdds(a - 1, b);
      assert Indent(a + b) == "    " + Indent(a - 1 + b);
    }
  }

  /** One output line: its indentation level and its text. */
  datatype Line = Line(level: nat, text: string)

  /** Each line's text after `indent`, with the newline. */
  function Render(lines: seq<Line>): string {
    if |lines| == 0 then ""
    else Indent(lines[0].level) + lines[0].text + "\n" + Render(lines[1..])
  }

  /** Rendering a concatenation renders each part in order. */
  lemma {:induction false} RenderAppend(a: seq<Line>, b: seq<Line>)
    ensures Render(a + b) == Render(a) + Render(b)
    decreases |a|
  {
    if |a| == 0 {
      assert a + b == b;
    } else {
      assert (a + b)[0] == a[0] && (a + b)[1..] == a[1..] + b;
      RenderAppend(a[1..], b);
    }
  }

  /** Texts joined with `", "` between neighbours. */
  function CommaJoin(parts: seq<string>): string {
    if |parts| == 0 then ""
    else if |parts| == 1 then parts[0]
    else parts[0] + ", " + CommaJoin(parts[1..])
  }
}
