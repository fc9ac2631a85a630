/**
  What the generated Java program prints: the instrumented method's trace and
  the `main` around it.

  The method prints a line on entry, two in the base case (`Base case: …` and
  `Returning 1`), one before each recursive call and two on the way back,
  every line indented by two spaces per level of recursion; it returns
  `n * f(n - 1)` with `f(0) == 1`.
 */
module Tracing {
  import opened Chars
  import opened Text
  import opened Extractor

  /** One `println` of the instrumented method, before it is rendered as text:
      `level` is the recursion depth, which sets the indentation. */
  datatype Event =
    | Enter(arg: nat, level: nat)
    | Call(arg: nat, level: nat)
    | Base(level: nat)
    | Computed(child: nat, product: nat, level: nat)
    | Return(result: nat, level: nat)

  /** The events a call prints and the value it returns. */
  datatype Run = Run(events: seq<Event>, value: nat)

  /** `"  ".repeat(depth)`: two spaces per level. */
  function Indent(depth: nat): (r: string)
    ensures |r| == 2 * depth
    ensures forall i :: 0 <= i < |r| ==> r[i] == ' '
  {
    if depth == 0 then "" else "  " + Indent(depth - 1)
  }

  /** The reference definition of what the instrumented method computes. */
  function Fact(n: nat): nat {
    if n == 0 then 1 else n * Fact(n - 1)
  }

  /** The text of an event, for a method called `name` whose parameter is spelt `p`. */
  function Render(e: Event, name: string, p: string): (r: string)
    ensures Indent(e.level) <= r
    ensures |r| > 2 * e.level && !IsSpace(r[2 * e.level])
  {
    Indent(e.level) + match e
      case Enter(m, _) => "Entering " + name + "(" + NatToString(m) + ")"
      case Call(m, _) => "Calling " + name + "(" + NatToString(m) + ")"
      case Base(_) => "Base case: " + p + " == 0, returning 1"
      case Computed(c, v, _) => "Computed " + p + " * " + NatToString(c) + " = " + NatToString(v)
      case Return(v, _) => "Returning " + NatToString(v)
  }

  /** The instrumented method called with argument `n` at recursion depth `depth`:
      what it prints, in order, and its result. */
  function Trace(n: nat, depth: nat): (r: Run)
    ensures r.value == Fact(n)
    ensures |r.events| == 4 * n + 3
    ensures r.events[0] == Enter(n, depth)
    ensures r.events[|r.events| - 1] == Return(Fact(n), depth)
    decreases n
  {
    if n == 0 then
      Run([Enter(0, depth), Base(depth), Return(1, depth)], 1)
    else
      var child := Trace(n - 1, depth + 1);
      var product := n * child.value;
      Run([Enter(n, depth), Call(n - 1, depth)]
          + child.events
          + [Computed(child.value, product, depth), Return(product, depth)],
          product)
  }

  /** An independent, non-recursive description of the trace's `i`-th event: the
      calls descend from `n` to 0 one level deeper each time, printing an entry
      and a call each, the base case prints two events, and the returns climb
      back up reporting the partial factorials `Fact(j + 1)` in increasing order. */
  function ExpectedEvent(n: nat, depth: nat, i: nat): Event
    requires i < 4 * n + 3
  {
    if i < 2 * n then
      var k := i / 2;
      if i % 2 == 0 then Enter(n - k, depth + k) else Call(n - k - 1, depth + k)
    else if i == 2 * n then Enter(0, depth + n)
    else if i == 2 * n + 1 then Base(depth + n)
    else if i == 2 * n + 2 then Return(1, depth + n)
    else
      var j := (i - 2 * n - 3) / 2;
      if (i - 2 * n - 3) % 2 == 0 then Computed(Fact(j), Fact(j + 1), depth + n - 1 - j)
      else Return(Fact(j + 1), depth + n - 1 - j)
  }

  /** Moving one level down the recursion shifts the description by two events. */
  lemma ExpectedShift(n: nat, depth: nat, i: nat)
    requires n > 0 && 2 <= i < 4 * n + 1
    ensures ExpectedEvent(n - 1, depth + 1, i - 2) == ExpectedEvent(n, depth, i)
  {
    if i < 2 * n {
      assert (i - 2) / 2 == i / 2 - 1 && (i - 2) % 2 == i % 2;
    } else if i >= 2 * n + 3 {
      assert i - 2 - 2 * (n - 1) - 3 == i - 2 * n - 3;
    }
  }

  /** The description's first two and last two events, for a call that recurses. */
  lemma ExpectedEnds(n: nat, depth: nat)
    requires n > 0
    ensures ExpectedEvent(n, depth, 0) == Enter(n, depth)
    ensures ExpectedEvent(n, depth, 1) == Call(n - 1, depth)
    ensures ExpectedEvent(n, depth, 4 * n + 1) == Computed(Fact(n - 1), Fact(n), depth)
    ensures ExpectedEvent(n, depth, 4 * n + 2) == Return(Fact(n), depth)
  {
    assert (4 * n + 1 - 2 * n - 3) / 2 == n - 1 && (4 * n + 1 - 2 * n - 3) % 2 == 0;
    assert (4 * n + 2 - 2 * n - 3) / 2 == n - 1 && (4 * n + 2 - 2 * n - 3) % 2 == 1;
  }

  /** The recursive trace agrees event by event with the flat description. */
  lemma {:induction false} TraceMatchesExpected(n: nat, depth: nat)
    ensures forall i :: 0 <= i < |Trace(n, depth).events| ==>
      Trace(n, depth).events[i] == ExpectedEvent(n, depth, i)
    decreases n
  {
    var r := Trace(n, depth);
    if n > 0 {
      var child := Trace(n - 1, depth + 1);
      TraceMatchesExpected(n - 1, depth + 1);
      forall i | 2 <= i < 4 * n + 1
        ensures r.events[i] == ExpectedEvent(n, depth, i)
      {
        assert r.events[i] == child.events[i - 2];
        ExpectedShift(n, depth, i);
      }
      ExpectedEnds(n, depth);
      assert r.events[1] == Call(n - 1, depth);
      assert r.events[4 * n + 1] == Computed(Fact(n - 1), Fact(n), depth);
    }
  }

  /** Every event of a call is printed at its own level or deeper, and no deeper
      than the base case's level. */
  lemma TraceLevels(n: nat, depth: nat)
    ensures forall i :: 0 <= i < |Trace(n, depth).events| ==>
      depth <= Trace(n, depth).events[i].level <= depth + n
  {
    TraceMatchesExpected(n, depth);
  }

  /** The indentation of a shallower level is a prefix of that of a deeper one. */
  lemma IndentPrefix(a: nat, b: nat)
    requires a <= b
    ensures Indent(a) <= Indent(b)
    decreases b
  {
    if a < b {
      IndentPrefix(a, b - 1);
      assert Indent(b) == "  " + Indent(b - 1);
      assert Indent(b - 1) == Indent(a) + Indent(b - 1)[|Indent(a)|..];
      assert Indent(b)[..|Indent(a)|] == Indent(a);
    }
  }

  /** The printed lines of a sequence of events. */
  function RenderAll(es: seq<Event>, name: string, p: string): (r: seq<string>)
    ensures |r| == |es|
    ensures forall i :: 0 <= i < |es| ==> r[i] == Render(es[i], name, p)
  {
    seq(|es|, i requires 0 <= i < |es| => Render(es[i], name, p))
  }

  /** Every line a call prints is indented by at least two spaces per level of the call. */
  lemma TraceIndented(n: nat, depth: nat, name: string, p: string)
    ensures forall i :: 0 <= i < 4 * n + 3 ==>
      Indent(depth) <= RenderAll(Trace(n, depth).events, name, p)[i]
  {
    var r := Trace(n, depth);
    var lines := RenderAll(r.events, name, p);
    TraceLevels(n, depth);
    forall i | 0 <= i < 4 * n + 3
      ensures Indent(depth) <= lines[i]
    {
      IndentPrefix(depth, r.events[i].level);
    }
  }

  /** The argument the program's `main` passes. */
  const Input: nat := 3

  /** The header `main` prints before the call. */
  function Header(name: string): string {
    "Starting trace for " + name + "(" + NatToString(Input) + "):"
  }

  /** The line `main` prints after the call returned `v`. */
  function FinalLine(v: nat): string {
    "Final result: " + NatToString(v)
  }

  /** Everything the generated program prints, one element per `println`. */
  function ProgramLines(sig: Signature): (r: seq<string>)
    ensures |r| == 4 * Input + 5
    ensures r[0] == Header(sig.functionName)
    ensures r[|r| - 1] == FinalLine(Fact(Input))
  {
    var run := Trace(Input, 0);
    [Header(sig.functionName)] + RenderAll(run.events, sig.functionName, sig.param)
      + [FinalLine(run.value)]
  }

  /** The program's standard output. */
  function ProgramStdout(sig: Signature): string {
    Stdout(ProgramLines(sig))
  }

  /** Called on 3 at depth 0, the method prints these 15 events and returns 6. */
  lemma TraceOfThree()
    ensures Trace(3, 0) == Run([
      Enter(3, 0), Call(2, 0),
      Enter(2, 1), Call(1, 1),
      Enter(1, 2), Call(0, 2),
      Enter(0, 3), Base(3), Return(1, 3),
      Computed(1, 1, 2), Return(1, 2),
      Computed(1, 2, 1), Return(2, 1),
      Computed(2, 6, 0), Return(6, 0)], 6)
  {
    assert Trace(0, 3).events == [Enter(0, 3), Base(3), Return(1, 3)];
    assert Trace(1, 2).events == [Enter(1, 2), Call(0, 2)] + Trace(0, 3).events
      + [Computed(1, 1, 2), Return(1, 2)];
    assert Trace(2, 1).events == [Enter(2, 1), Call(1, 1)] + Trace(1, 2).events
      + [Computed(1, 2, 1), Return(2, 1)];
  }

  /** For input 3 the program prints 17 lines and ends with `Final result: 6`. */
  lemma ProgramPrintsSix(sig: Signature)
    ensures |ProgramLines(sig)| == 17
    ensures ProgramLines(sig)[16] == "Final result: 6"
    ensures var out := ProgramStdout(sig); |out| >= 16 && out[|out| - 16..] == "Final result: 6\n"
  {
    var lines := ProgramLines(sig);
    assert Fact(3) == 6;
    assert NatToString(6) == "6";
    assert lines == lines[..16] + [lines[16]];
    StdoutSnoc(lines[..16], lines[16]);
  }
}
