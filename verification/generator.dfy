/**
  The template half of `transformJavaCode`: the Java program text built from
  the extracted method name and parameter name.

  The template is a fixed sequence of literal chunks interleaved with holes,
  each hole standing for one of the two identifiers; nothing else of the
  caller's text reaches the program.
 */
module Generator {
  import opened Wrappers
  import opened Chars
  import opened Text
  import opened Extractor

  /** The two things a hole can stand for. */
  datatype Hole = FunctionName | ParamName

  /** A chunk of the template: fixed text, or a hole. */
  datatype Piece = Lit(text: string) | Slot(hole: Hole)

  /** The identifier a hole is filled with. */
  function Value(h: Hole, sig: Signature): string {
    match h
    case FunctionName => sig.functionName
    case ParamName => sig.param
  }

  /** The text a piece stands for once the holes are filled in from `sig`. */
  function PieceText(p: Piece, sig: Signature): string {
    match p
    case Lit(text) => text
    case Slot(h) => Value(h, sig)
  }

  /** The template with every hole filled in from `sig`. */
  function Fill(t: seq<Piece>, sig: Signature): string {
    if t == [] then "" else PieceText(t[0], sig) + Fill(t[1..], sig)
  }

  /** The program between the template's opening and closing line breaks: a
      class `Main` with the instrumented method and a `main` that calls it on 3. */
  const Program: seq<Piece> := [
    Lit("public class Main {\n"
      + "    public static int "), Slot(FunctionName), Lit("(int "), Slot(ParamName),
    Lit(", int depth) throws InterruptedException {\n"
      + "        String indent = \"  \".repeat(depth); // Simple spaces for indentation\n"
      + "        System.out.println(indent + \"Entering "), Slot(FunctionName),
    Lit("(\" + "), Slot(ParamName), Lit(" + \")\");\n"
      + "        Thread.sleep(300);\n"
      + "\n"
      + "        if ("), Slot(ParamName), Lit(" == 0) {\n"
      + "            System.out.println(indent + \"Base case: "), Slot(ParamName),
    Lit(" == 0, returning 1\");\n"
      + "            Thread.sleep(300);\n"
      + "            System.out.println(indent + \"Returning 1\");\n"
      + "            return 1;\n"
      + "        }\n"
      + "\n"
      + "        System.out.println(indent + \"Calling "), Slot(FunctionName),
    Lit("(\" + ("), Slot(ParamName), Lit(" - 1) + \")\");\n"
      + "        Thread.sleep(300);\n"
      + "        int result = "), Slot(FunctionName), Lit("("), Slot(ParamName),
    Lit(" - 1, depth + 1);\n"
      + "        System.out.println(indent + \"Computed "), Slot(ParamName),
    Lit(" * \" + result + \" = \" + ("), Slot(ParamName), Lit(" * result));\n"
      + "        Thread.sleep(300);\n"
      + "        System.out.println(indent + \"Returning \" + ("), Slot(ParamName),
    Lit(" * result));\n"
      + "        return "), Slot(ParamName), Lit(" * result;\n"
      + "    }\n"
      + "\n"
      + "    public static void main(String[] args) throws InterruptedException {\n"
      + "        int input = 3; // Smaller input for faster testing\n"
      + "        System.out.println(\"Starting trace for "), Slot(FunctionName),
    Lit("(\" + input + \"):\");\n"
      + "        int result = "), Slot(FunctionName), Lit("(input, 0);\n"
      + "        System.out.println(\"Final result: \" + result);\n"
      + "    }\n"
      + "}")
  ]

  /** The template literal as written: the program framed by a line break on each side. */
  const Template: seq<Piece> := [Lit("\n")] + Program + [Lit("\n")]

  /** `transformJavaCode`'s second step: fill the template and trim the result. */
  function Generate(sig: Signature): (r: string)
    ensures r == [] || (!IsSpace(r[0]) && !IsSpace(r[|r| - 1]))
  {
    Trim(Fill(Template, sig))
  }

  /** `transformJavaCode` as a whole: the program for the leftmost signature,
      or the error thrown when there is none. */
  function Transform(code: string): (r: Result<string, string>)
    ensures r.Failure? <==> Extract(code).Failure?
    ensures r.Failure? ==> r.error == NoSignatureMessage
    ensures r.Success? ==> r.value == Generate(Extract(code).value)
  {
    match Extract(code)
    case Failure(e) => Failure(e)
    case Success(sig) => Success(Generate(sig))
  }

  // ---------------------------------------------------------------------------
  // Properties of the template

  /** Filling distributes over concatenation of templates. */
  lemma {:induction false} FillAppend(t1: seq<Piece>, t2: seq<Piece>, sig: Signature)
    ensures Fill(t1 + t2, sig) == Fill(t1, sig) + Fill(t2, sig)
  {
    if t1 == [] {
      assert t1 + t2 == t2;
    } else {
      assert (t1 + t2)[1..] == t1[1..] + t2;
      FillAppend(t1[1..], t2, sig);
    }
  }

  /** The filled template ends with the text of its last piece. */
  lemma FillLast(t: seq<Piece>, sig: Signature)
    requires |t| > 0
    ensures Fill(t, sig) == Fill(t[..|t| - 1], sig) + PieceText(t[|t| - 1], sig)
  {
    var n := |t|;
    FillAppend(t[..n - 1], [t[n - 1]], sig);
    assert t[..n - 1] + [t[n - 1]] == t;
  }

  /** Framing a template by two line-break chunks frames its filled text the same way. */
  lemma FillFramed(t: seq<Piece>, sig: Signature)
    ensures Fill([Lit("\n")] + t + [Lit("\n")], sig) == "\n" + Fill(t, sig) + "\n"
  {
    FillAppend([Lit("\n")], t, sig);
    FillAppend([Lit("\n")] + t, [Lit("\n")], sig);
    assert Fill([Lit("\n")], sig) == "\n";
  }

  /** Filling a template framed by two line breaks and trimming the result yields
      the filled inner template, when that starts and ends with fixed non-space text. */
  lemma TrimFramedFill(t: seq<Piece>, sig: Signature)
    requires |t| > 0 && t[0].Lit? && t[|t| - 1].Lit?
    requires |t[0].text| > 0 && !IsSpace(t[0].text[0])
    requires |t[|t| - 1].text| > 0 && !IsSpace(t[|t| - 1].text[|t[|t| - 1].text| - 1])
    ensures Trim(Fill([Lit("\n")] + t + [Lit("\n")], sig)) == Fill(t, sig)
  {
    FillFramed(t, sig);
    FillLast(t, sig);
    var body, first, last := Fill(t, sig), t[0].text, t[|t| - 1].text;
    assert body == first + Fill(t[1..], sig);
    assert body == Fill(t[..|t| - 1], sig) + last;
    TrimFramed("\n", body, "\n");
  }

  /** The program's first chunk opens the class and its last chunk closes it. */
  lemma ProgramEnds()
    ensures |Program| > 0 && Program[0].Lit? && Program[|Program| - 1].Lit?
    ensures "public class Main {" <= Program[0].text
    ensures var last := Program[|Program| - 1].text; |last| > 0 && last[|last| - 1] == '}'
  {
  }

  /** Trimming removes exactly the two framing line breaks: the generated text is
      the filled program, which starts with `public class Main {` and ends with `}`. */
  lemma GenerateIsProgram(sig: Signature)
    ensures Generate(sig) == Fill(Program, sig)
    ensures "public class Main {" <= Generate(sig)
    ensures |Generate(sig)| > 0 && Generate(sig)[|Generate(sig)| - 1] == '}'
  {
    ProgramEnds();
    TrimFramedFill(Program, sig);
    FillLast(Program, sig);
    var r, last := Fill(Program, sig), Program[|Program| - 1].text;
    assert r[|r| - 1] == last[|last| - 1];
  }

  /** Occurrences of `c` in the template's literal text. */
  function LiteralCount(t: seq<Piece>, c: char): nat {
    if t == [] then 0
    else
      (match t[0]
       case Lit(text) => multiset(text)[c]
       case Slot(_) => 0)
      + LiteralCount(t[1..], c)
  }

  /** A character that cannot occur in an identifier occurs in the filled template
      exactly as often as in its literal text. */
  lemma {:induction false} FillCountsOnlyLiterals(t: seq<Piece>, sig: Signature, c: char)
    requires IsIdentifier(sig.functionName) && IsIdentifier(sig.param)
    requires !IsIdChar(c)
    ensures multiset(Fill(t, sig))[c] == LiteralCount(t, c)
  {
    if t != [] {
      FillCountsOnlyLiterals(t[1..], sig, c);
      match t[0]
      case Lit(_) =>
      case Slot(h) =>
        NotInIdentifier(Value(h, sig), c);
    }
  }

  /** Only the identifiers are spliced in: for any two extracted signatures the
      generated programs hold the same number of every character that cannot be
      part of an identifier, so the caller can add no quote, brace, parenthesis,
      semicolon, operator or line break to the program. */
  lemma GenerateFixesNonIdentifierText(sig1: Signature, sig2: Signature, c: char)
    requires IsIdentifier(sig1.functionName) && IsIdentifier(sig1.param)
    requires IsIdentifier(sig2.functionName) && IsIdentifier(sig2.param)
    requires !IsIdChar(c)
    ensures multiset(Generate(sig1))[c] == multiset(Generate(sig2))[c] == LiteralCount(Program, c)
  {
    GenerateIsProgram(sig1);
    GenerateIsProgram(sig2);
    FillCountsOnlyLiterals(Program, sig1, c);
    FillCountsOnlyLiterals(Program, sig2, c);
  }

  /** The number of holes of kind `h` in a template. */
  function HoleCount(t: seq<Piece>, h: Hole): nat {
    if t == [] then 0 else (if t[0] == Slot(h) then 1 else 0) + HoleCount(t[1..], h)
  }

  /** The total length of a template's literal text. */
  function LiteralLength(t: seq<Piece>): nat {
    if t == [] then 0 else (if t[0].Lit? then |t[0].text| else 0) + LiteralLength(t[1..])
  }

  /** One more hole adds one more copy of the name; kept apart so the step's
      nonlinear arithmetic is proved on its own. */
  lemma MulSucc(a: nat, b: nat)
    ensures (a + 1) * b == a * b + b
  {
  }

  /** The filled template is its literal text plus one copy of an identifier per hole. */
  lemma {:induction false} FillLength(t: seq<Piece>, sig: Signature)
    ensures |Fill(t, sig)| == LiteralLength(t)
      + HoleCount(t, FunctionName) * |sig.functionName| + HoleCount(t, ParamName) * |sig.param|
  {
    if t != [] {
      FillLength(t[1..], sig);
      var nf, np := |sig.functionName|, |sig.param|;
      var f, p := HoleCount(t[1..], FunctionName), HoleCount(t[1..], ParamName);
      assert |Fill(t, sig)| == |PieceText(t[0], sig)| + |Fill(t[1..], sig)|;
      if t[0] == Slot(FunctionName) {
        MulSucc(f, nf);
      } else if t[0] == Slot(ParamName) {
        MulSucc(p, np);
      }
    }
  }

  /** The generated text is the template's fixed literal text plus one copy of
      an identifier per hole. */
  lemma GenerateLength(sig: Signature)
    ensures |Generate(sig)| == LiteralLength(Program)
      + HoleCount(Program, FunctionName) * |sig.functionName| + HoleCount(Program, ParamName) * |sig.param|
  {
    GenerateIsProgram(sig);
    FillLength(Program, sig);
  }
}
