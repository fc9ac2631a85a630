# JavaCVisualizer backend: signature extraction, trace program and `/transform-run`

This Dafny project models the core of `server.js`, the JavaCVisualizer backend.
A caller posts Java source that declares a recursive method `int f(int n)`.
`transformJavaCode` finds the method's name and parameter with a regular
expression. It then fills both into a fixed Java template. The result is a class
`Main` with a method named and parametrised like the caller's but with a fixed
factorial body. That method prints a narrated, indented trace, and `main` runs
it on 3. The `/transform-run` handler writes that program to
`Main.java`, compiles and runs it, and answers with its output or an error.

The model has eight modules, one per concept:

- `Wrappers` holds `Option` and `Result`.

- `Chars` holds the character classes. `IsSpace` is JavaScript's `\s` exactly:
  the ECMAScript WhiteSpace characters (tab, vertical tab, form feed, space,
  no-break space, byte order mark, the Unicode space separators) plus the
  LineTerminator characters. `String.prototype.trim` strips the same set.
- `Text` holds `trim`, Java's decimal rendering of non-negative numbers and the
  output of a run of `println` calls.
- `Extractor` holds the regular expression as a token pattern:
  - `IsSplit` is a declarative notion of a match at a position;
  - `Scan` is the greedy scanner;
  - `Extract` is the leftmost-match search with its error.
- `Signatures` writes a signature out as text and proves the round trip back
  through `Extract`.
- `Generator` holds the template as literal chunks and holes, and
  `Generate`/`Transform`.
- `Tracing` describes what the generated Java program prints:
  - `Trace` gives the recursive method's events and result;
  - `Render` turns an event into its text;
  - `ProgramLines` gives `main`'s complete output.
- `Handler` is the `/transform-run` handler. It is a pure function from:
  - the `code` field;
  - the error that writing the file may raise;
  - what compiling and running the program reports.

  Its result is the response, the text written, whether the program ran, and
  whether it tried to delete the file.

Writing, deleting, compiling and running are not performed. Their outcomes are
parameters of `Handler.Handle`, and its effects are returned as data.

`server.js` uses one fixed `Main.java` and a single `javac … && java Main`
command, and answers with text bodies. It keeps no per-request workspace, no
display options and no recording of the run.

## Model

| member | source | states |
|---|---|---|
| `Chars.NotInIdentifier` | server.js:14 | A character outside `[a-zA-Z0-9_]` occurs nowhere in a string matched by `[a-zA-Z_][a-zA-Z0-9_]*`. |
| `Text.TrimStart` | server.js:50 | The result is a suffix of the input; everything removed is white space; the result is empty or starts with a non-space. |
| `Text.TrimEnd` | server.js:50 | The result is a prefix of the input; everything removed is white space; the result is empty or ends with a non-space. |
| `Text.Trim` | server.js:50 | `trim()` leaves a string that neither starts nor ends with white space. |
| `Text.TrimFramed` | server.js:50 | Trimming white space from both sides of a body that begins and ends with non-space gives back exactly that body. |
| `Text.TrimIdempotent` | server.js:50 | Trimming twice is the same as trimming once. |
| `Text.NatToString` | server.js:24 | The decimal rendering Java uses for `"" + n` is a non-empty digit string without a leading zero unless it is `0`. |
| `Text.NatToStringRoundTrip` | server.js:37 | Reading the printed digits back gives the number printed. |
| `Text.StdoutSnoc` | server.js:47 | One more `println` appends the line and a line break to the output. |
| `Extractor.SpanSpaces` | server.js:14 | `\s*` from a position consumes exactly the longest run of white space there. |
| `Extractor.SpanIdChars` | server.js:14 | `[a-zA-Z0-9_]*` from a position consumes exactly the longest run of identifier characters there. |
| `Extractor.ScanToken` | server.js:14 | A successful token scan consumes a part that fits the token and cannot be extended. |
| `Extractor.Scan` | server.js:14 | Whatever the greedy scanner returns is a match of the pattern in which every token is maximal. |
| `Extractor.MatchAt` | server.js:14 | A match found at a position splits the text from there into parts, one fitting each of the eleven tokens. |
| `Extractor.FindFrom` | server.js:14 | The search returns a position at or after its start where the scanner matches, with that match. |
| `Extractor.Extract` | server.js:14-17 | On success both returned names are identifiers; on failure the error is "No valid recursive int method found in the input code.". |
| `Extractor.FindFromNone` | server.js:14 | A search that finds nothing has no match at any position it passed. |
| `Extractor.FindFromSkips` | server.js:14 | The search skips only positions where there is no match. |
| `Extractor.ScanComplete` | server.js:14 | The scanner finds every match whose tokens are maximal, so it does not miss a match. |
| `Extractor.SignatureSplitIsMaximal` | server.js:14 | Every match of the signature pattern has maximal tokens, because identifier characters, white space and the parentheses are disjoint. |
| `Extractor.MatchAtComplete` | server.js:14 | Whenever the expression matches at a position, the scanner returns that match. |
| `Extractor.MatchUnique` | server.js:14 | At a given start position the expression matches in at most one way. |
| `Extractor.ExtractSound` | server.js:14-17 | A successful extraction returns the two groups of a match that no match at an earlier position precedes. |
| `Extractor.ExtractComplete` | server.js:14-17 | If the expression matches at a position and at no earlier one, extraction returns that match's groups. |
| `Extractor.ExtractFailsIffNoMatch` | server.js:15 | Extraction fails exactly when no substring of the code matches, and then with the fixed message. |
| `Extractor.MatchEndsByFirstClose` | server.js:14 | A match ends no later than the first `)` after its start. |
| `Extractor.NoEarlierMatchInExtension` | server.js:14 | Appending text to code cannot create a match before the code's leftmost match. |
| `Extractor.ExtractIgnoresSuffix` | server.js:14-17 | Only the signature is inspected: appending anything (a method body, more methods) to code that holds a signature leaves the result unchanged. |
| `Signatures.JoinSplit` | server.js:14 | Parts that each fit their token, written one after another, form a match at position 0 whose groups are the name part and the parameter part. |
| `Signatures.ExtractRoundTrip` | server.js:14-17 | Round trip: a signature written with any white space the expression admits, followed by anything, extracts to exactly its name and parameter. |
| `Signatures.SplitShift` | server.js:14 | Prefixing text moves a match to the right by the prefix length and keeps its groups. |
| `Signatures.ExtractAfterPrefix` | server.js:14-17 | A written signature after any text in which no match starts is the one extracted. |
| `Signatures.PrintIsNotAType` | server.js:14 | No word boundary is needed before `int`: `print NAME(int PARAM)` extracts `NAME` and `PARAM`. |
| `Signatures.MatchStartsWithInt` | server.js:14 | Every match starts with the three letters `int`. |
| `Signatures.NoTNoSignature` | server.js:15 | Code without the letter `t` holds no signature and extraction fails. |
| `Signatures.Noop` | server.js:15 | `void noop()` is rejected with "No valid recursive int method found in the input code.". |
| `Generator.Generate` | server.js:20-50 | The generated program text neither starts nor ends with white space. |
| `Generator.Transform` | server.js:13-51 | `transformJavaCode` fails exactly when extraction fails, with the fixed message, and otherwise returns the program generated from the extracted names. |
| `Generator.TrimFramedFill` | server.js:20-50 | Trimming the filled template removes exactly the line breaks before and after the program. |
| `Generator.GenerateIsProgram` | server.js:20-50 | The generated text is the filled program itself; it begins with `public class Main {` and ends with `}`. |
| `Generator.FillCountsOnlyLiterals` | server.js:21-49 | When the names are identifiers, every character that cannot be part of an identifier occurs in the filled template exactly as often as in the template's literal text. |
| `Generator.GenerateFixesNonIdentifierText` | server.js:21-49 | Only identifiers are spliced in: for any two extracted signatures, the programs hold the same number of every quote, brace, parenthesis, semicolon, operator and line break. |
| `Generator.FillLength` | server.js:21-49 | The filled template is as long as its literal text plus one copy of the corresponding name per hole. |
| `Generator.GenerateLength` | server.js:20-50 | The generated program is as long as the template's literal text plus one copy of a name per hole. |
| `Tracing.Indent` | server.js:23 | `"  ".repeat(depth)` is exactly `2·depth` spaces. |
| `Tracing.Trace` | server.js:22-41 | The instrumented method returns `n!` and prints `4n + 3` lines. The first is its entry at its own depth; the last is its return of `n!`. |
| `Tracing.TraceMatchesExpected` | server.js:22-41 | Line `i` of the trace is what a flat description gives: entries and calls descending `n, n-1, …, 0` one level deeper each time; the base case at depth `n`; products `Fact(j+1)` reported while climbing back. |
| `Tracing.TraceLevels` | server.js:22-41 | Every line of a call at depth `d` is printed at a depth between `d` and `d + n`. |
| `Tracing.Render` | server.js:23-39 | Each printed line starts with exactly two spaces per level of its call (`indent`), followed by a non-space character. |
| `Tracing.IndentPrefix` | server.js:23 | The indentation of a shallower call is a prefix of that of a deeper call. |
| `Tracing.TraceIndented` | server.js:23-39 | Every line printed by a call at depth `d`, including its descendants' lines, starts with `2·d` spaces. |
| `Tracing.ProgramLines` | server.js:43-48 | `main` prints `4·3 + 5` lines: the header naming the method and the input first, `Final result: ` with `3!` last. |
| `Tracing.TraceOfThree` | server.js:44-46 | Called on 3 at depth 0, the method prints this 15-event sequence and returns 6. |
| `Tracing.ProgramPrintsSix` | server.js:44-47 | The program prints 17 lines, the last `Final result: 6`, and its output ends with that line and a line break. |
| `Handler.Handle` | server.js:57-92 | The status, body and effects of `/transform-run`. Missing, empty or non-string `code` gives 400 "Invalid input: …" with nothing written or run. An extraction failure gives 400 "Transformation failed: " and the fixed message. A write failure gives 400 "Transformation failed: " and the write error's own message. The program is written exactly when extraction succeeds, and it is the generated text. It runs exactly when it was written without error. The result is 500 exactly when the run reports an error: "Execution failed:" and a line break, then standard error, or the error's message when standard error is empty. It is 200 with standard output exactly when the run reports no error. Deletion is attempted exactly when `code` passed the guard, on both the run and the failure paths. |
| `Handler.HandleSucceeds` | server.js:57-86 | Code holding a signature, a successful write and an error-free run give 200 with the run's standard output. |
| `Handler.HandleTracesSignature` | server.js:57-86 | End to end: if the program behaves as generated, the response is 200 and carries the trace, ending with `Final result: 6` and a line break. |
| `Handler.ExtractEmptyFails` | server.js:59-64 | The empty string holds no signature, so code that extracts is never stopped by the empty-input guard. |

## Left out

- HTTP plumbing is not modelled:
  - Express routing and `body-parser` with its 1 MB limit;
  - the port set-up and `app.listen`;
  - the `GET /` liveness route.
- Filesystem and process effects are abstracted to parameters and returned data:
  - `fs.writeFile` and `fs.unlink`;
  - `exec` of `javac`/`java` and its 10-second timeout.
  - Whether the deletion succeeds is ignored, as the handler itself ignores it.
- The fixed shared path `Main.java` is not modelled. Concurrent requests can overwrite each other's file, and that race is a concurrency matter.
- `Thread.sleep` pacing is not modelled. It changes only the timing of the output, not its content.
- Console logging is not modelled.
- The content type of the responses is not modelled: only their status and text body are. Express sends a string body as `text/html`.
- `Text.Stdout`: every line is assumed to end with "\n". Java's `println` writes `System.lineSeparator()`, which is "\r\n" on Windows. `ProgramPrintsSix` and `HandleTracesSignature` speak of that "\n" terminator.
- `Tracing.Trace`: does not model Java's 32-bit `int` overflow of the product. `main` always passes 3, so the values stay far below 2³¹.
- `Tracing.Trace`: only non-negative arguments are modelled. A negative argument would recurse until the Java stack overflows, and `main` never passes one.
- The model does not state whether the generated Java compiles. The compiler is outside the model, and its verdict reaches the handler only through `ExecReport`. The expression accepts names for which the generated program cannot compile:
  - a parameter named `depth` makes the method declare `int depth` twice (server.js:22), and a duplicate formal parameter is a compile-time error (section 8.4.1 of the Java Language Specification);
  - a parameter named `indent` or `result` is declared again as a local variable (server.js:23, 36), which section 6.4 of the Java Language Specification forbids;
  - a parameter named `System` or `Thread` hides the class in `System.out.println` and `Thread.sleep` (server.js:24-25, section 6.5.2 of the Java Language Specification), so those lines do not compile;
  - a reserved word such as `class` or `int` is not a Java identifier at all.

  For these names `/transform-run` answers 500 with the compiler's diagnostics (server.js:78-81), and `Handler.RunsFaithfully` cannot hold, so `Handler.HandleTracesSignature` says nothing about them.
- JavaScript strings are sequences of UTF-16 code units. The model's strings are sequences of Unicode scalar values.
  - This can only change the positions at which the search tries a match, never the identifiers it returns: those are ASCII.
  - No character outside the Basic Multilingual Plane is white space.
- `Handler.Handle`: does not order its effects in time. The model says that the program is written, run and deleted, but not when. On the run path `fs.unlink` is started but not awaited before `res.send` (server.js:74, 81, 85). On the failure path the deletion is awaited before the 400 is sent (server.js:89-91).
- `Handler.Handle`: falsy non-string values of `code` (`null`, `false`, `0`) are folded into `Absent`. Truthy non-strings are `NonString`. All give the same 400 response.
