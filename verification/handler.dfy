/**
  The `/transform-run` endpoint: how its response and its effects on the
  `Main.java` file depend on the request's `code` field, on whether writing the
  file fails, and on what compiling and running the program reports.

  Writing, compiling, running and deleting are not performed here: their
  outcomes are parameters, and the handler's effects are reported as data.
 */
module Handler {
  import opened Wrappers
  import opened Extractor
  import opened Generator
  import opened Tracing

  /** The request body's `code` field: absent (or any other falsy value that is
      not a string), present but not a string, or a string. */
  datatype CodeField = Absent | NonString | Str(text: string)

  /** What `javac … && java Main` reported: the error passed to the callback, if
      any, by its message, and the two captured streams. */
  datatype ExecReport = ExecReport(error: Option<string>, stdout: string, stderr: string)

  /** An HTTP response: status code and body text. */
  datatype Response = Response(status: nat, body: string)

  /** The response together with what the handler did to the file system:
      the text it tried to write to `Main.java`, whether it ran the compiler,
      and whether it tried to delete the file. */
  datatype Outcome = Outcome(response: Response, written: Option<string>, ran: bool, unlinked: bool)

  const InvalidInputMessage := "Invalid input: 'code' must be a non-empty string."
  const TransformFailedPrefix := "Transformation failed: "
  const ExecFailedPrefix := "Execution failed:\n"

  /** The guard at the top of the handler: `code` is a non-empty string. */
  predicate IsValidCode(field: CodeField) {
    field.Str? && field.text != []
  }

  /** The body of the 500 response: the compiler's or program's standard error,
      or the error's own message when standard error is empty. */
  function ExecFailureBody(report: ExecReport): string
    requires report.error.Some?
  {
    ExecFailedPrefix + (if report.stderr != [] then report.stderr else report.error.value)
  }

  /** The handler, given the request's `code` field, the error writing the file
      raises (if it does) and what running the compiled program reports. */
  function Handle(field: CodeField, writeError: Option<string>, report: ExecReport): (r: Outcome)
    ensures r.response.status in {200, 400, 500}
    ensures !IsValidCode(field) ==>
      r == Outcome(Response(400, InvalidInputMessage), None, false, false)
    ensures r.unlinked <==> IsValidCode(field)
    ensures r.ran ==> r.unlinked
    ensures IsValidCode(field) && Extract(field.text).Failure? ==>
      r.response == Response(400, TransformFailedPrefix + NoSignatureMessage) && r.written.None? && !r.ran
    ensures IsValidCode(field) && Extract(field.text).Success? ==>
      r.written == Some(Generate(Extract(field.text).value))
    ensures r.ran <==> IsValidCode(field) && Extract(field.text).Success? && writeError.None?
    ensures r.response.status == 200 <==> r.ran && report.error.None?
    ensures r.response.status == 200 ==> r.response.body == report.stdout
    ensures r.response.status == 500 <==> r.ran && report.error.Some?
    ensures r.response.status == 500 ==> ExecFailedPrefix <= r.response.body
    ensures r.response.status == 500 && report.stderr != [] ==>
      r.response.body == ExecFailedPrefix + report.stderr
    ensures r.response.status == 500 && report.stderr == [] ==>
      r.response.body == ExecFailedPrefix + report.error.value
    ensures IsValidCode(field) && Extract(field.text).Success? && writeError.Some? ==>
      r.response == Response(400, TransformFailedPrefix + writeError.value)
    ensures r.response.status == 400 && IsValidCode(field) ==>
      TransformFailedPrefix <= r.response.body && !r.ran
  {
    if !IsValidCode(field) then
      Outcome(Response(400, InvalidInputMessage), None, false, false)
    else
      match Transform(field.text)
      case Failure(e) =>
        Outcome(Response(400, TransformFailedPrefix + e), None, false, true)
      case Success(program) =>
        match writeError
        case Some(e) =>
          Outcome(Response(400, TransformFailedPrefix + e), Some(program), false, true)
        case None =>
          var response :=
            if report.error.Some? then Response(500, ExecFailureBody(report))
            else Response(200, report.stdout);
          Outcome(response, Some(program), true, true)
  }

  /** Compiling and running the written file behaves as the generated program does:
      no error, and the program's output on standard output. */
  predicate RunsFaithfully(report: ExecReport, sig: Signature) {
    report.error.None? && report.stdout == ProgramStdout(sig)
  }

  /** Code that holds a signature, a file that is written and a run without error
      give a 200 response carrying the program's standard output. */
  lemma HandleSucceeds(code: string, report: ExecReport)
    requires Extract(code).Success? && report.error.None?
    ensures Handle(Str(code), None, report).response == Response(200, report.stdout)
  {
    assert code != [] by {
      ExtractEmptyFails();
    }
  }

  /** End to end: for code holding a signature, when the file is written and the
      program runs as generated, the response is 200 and its body is the trace,
      ending with the line `Final result: 6`. */
  lemma HandleTracesSignature(code: string, report: ExecReport)
    requires Extract(code).Success? && RunsFaithfully(report, Extract(code).value)
    ensures Handle(Str(code), None, report).response == Response(200, ProgramStdout(Extract(code).value))
    ensures var body := Handle(Str(code), None, report).response.body;
      |body| >= 16 && body[|body| - 16..] == "Final result: 6\n"
  {
    HandleSucceeds(code, report);
    ProgramPrintsSix(Extract(code).value);
  }

  /** The empty string holds no signature. */
  lemma ExtractEmptyFails()
    ensures Extract([]).Failure?
  {
  }
}
