# flcrum design-by-contract checks and diagnostic exception, in Dafny

This project models the two tightly coupled pieces of flcrum's contract layer:

- **The diagnostic exception** (`flcrum::Exception`, `include/Exception.hh`): an
  immutable value holding one composed message. Built with no arguments it holds
  `"flcrum exception: "`. Built from a raising site it holds four lines: a prefix,
  then `"           on line: "` and the line in decimal, then
  `"           in file: "` and the file, then `"           message: "` and the
  message. `what()` returns that message. `THROW(m)` raises one with the default
  prefix and the call site.
- **The contract checks** (`include/DBC.hh`): `Assert`, `Require`, `Ensure`, the
  verbose forms `Assertv`, `Requirev`, `Ensurev`, and `Insist`. A failed check raises
  an exception with prefix `"Assertion error"`, the check's line and file, and the
  stringified condition (followed by `", "` and the extra message for the verbose
  forms). In a `NODBC` build every check except `Insist` expands to nothing.
  `Insist` is always compiled in and writes its message and a newline to the error
  stream before raising.

Files:

- `wrappers.dfy`: `Option`.
- `decimal.dfy` (module `Decimal`): the text `std::ostream << int` writes for an
  integer in the classic "C" locale with default stream flags, and a parser that
  reads it back.
- `lines.dfy` (module `Lines`): splitting text on a separator, joining lines, and
  rendering a sequence of lines as written characters.
- `exception.dfy` (module `Exceptions`): the exception value, its constructors,
  `what()` and `THROW`.
- `dbc.dfy` (module `DBC`): the checks and the error stream.

How the C++ is represented:

- Exception. A `datatype` with one field, the message. Nothing can update it, which
  is the C++ class's immutability: `d_message` is assigned in the constructors and
  only read by `what()` (`What`).
- Raising. A check returns an `Outcome`: `Ok`, or `Violation(e)` for
  `throw e`.
- The `NODBC` build switch is a parameter `dbc` of every gated check (`true` is
  the default build, with `NODBC` undefined). This lets both builds be stated and
  compared in one model.
- Conditions. A condition is a macro argument that the expansion may or may not
  evaluate. It is modelled as a function from the program state to its value and
  the state after its side effects (`Condition<S>`). Each check returns its outcome
  together with the resulting state. "Not evaluated" therefore means that the state
  comes back unchanged.
- Call site. `__LINE__` and `__FILE__` are a `Site` (line as a 32-bit `int`,
  file as a string).
- Condition text. The parameter `text` is the string that `#c` yields in the
  `Assert` or `Assertv` expansion that raises. For `Assert`, `Assertv` and `Insist`
  it is the condition as written. `Require`, `Ensure`, `Requirev` and `Ensurev`
  forward `c` to `Assert`/`Assertv` without `#`, so for them `text` is the
  condition after macro expansion.
- Error stream. `std::cerr` is the class `ErrorStream`. Its field `lines` holds the
  lines written so far, and `Text()` gives the characters written, each line
  followed by its newline.

Where the code, as written, is not a consistent C++ program, the model makes these
choices:

- Four-argument constructor. The macros build the exception with four arguments
  (`"Assertion error"`, line, file, text) at include/DBC.hh:49, 55-56 and 88.
  Only a three-argument constructor is declared (include/Exception.hh:36).
  The model's constructor is `Located(prefix, line, file, message)`.
- Undefined names. The constructor body uses an undefined `prepend`
  (include/Exception.hh:39) and streams an undefined `i` (include/Exception.hh:38).
  The model uses `prefix` for `prepend` and renders `line` in decimal.
- `THROW`. It uses the three-argument form (include/Exception.hh:62). The model
  gives it the default prefix `"flcrum exception: "` (include/Exception.hh:24).
- First line of a located message. It is the `prepend` slot
  (include/Exception.hh:39). The checks fill it with `"Assertion error"`
  (include/DBC.hh:49, 55 and 88).

## Model

| member | source | states |
|---|---|---|
| Decimal.FromInt | include/Exception.hh:38 | the decimal text of a line number is non-empty, has no newline, and begins with '-' exactly when the number is negative |
| Decimal.ParseFromInt | include/Exception.hh:38-40 | reading back the decimal text written for any integer recovers that integer, sign included |
| Exceptions.Default | include/Exception.hh:23-24 | the default-constructed exception's message is exactly "flcrum exception: " and so is non-empty |
| Exceptions.Exception.What | include/Exception.hh:49-52 | returns the stored message unchanged; the datatype has no operation that changes the message after construction |
| Exceptions.Located | include/Exception.hh:36-43 | a located exception's message is never empty: it is longer than its prefix and message together |
| Exceptions.LocatedStartsAndEnds | include/Exception.hh:39-42 | the composed message begins with the prefix and ends with the message |
| Exceptions.LocatedIsJoin | include/Exception.hh:39-42 | the composed message is exactly the four lines prefix, "           on line: " + decimal(line), "           in file: " + file and "           message: " + message, joined by "\n" |
| Exceptions.LocatedSplitsIntoFour | include/Exception.hh:39-42 | when prefix, file and message hold no newline, splitting the message on "\n" gives exactly those four lines |
| Exceptions.LineRecoverable | include/Exception.hh:38-40 | with a one-line prefix, parsing the text after "on line: " on the second line recovers the line number, negative ones included, whatever the file and message contain |
| Exceptions.FieldOffsets | include/Exception.hh:39-42 | the decimal line, the file and the message sit at fixed, computed offsets after the prefix and labels |
| Exceptions.FieldsInOrder | include/Exception.hh:40-42 | the decimal line, then the file, then the message occur in the message, in that order and without overlapping |
| Exceptions.LocatedCarries | include/Exception.hh:36-43 | with a one-line prefix, the message starts with the prefix, ends with the message, yields the line back and holds line, file and message in order |
| Exceptions.Throw | include/Exception.hh:62 | THROW(m) always raises; the exception carries the default prefix, the call-site line (recoverable), the file and m, in order |
| DBC.AssertionError | include/DBC.hh:49 | the exception of a failed check starts with "Assertion error", ends with the condition text, yields the call-site line back, and holds line, file and text in order |
| DBC.Assert | include/DBC.hh:48-49 | with contracts on, Assert evaluates the condition once and raises exactly when it is false, with the assertion error for its site and text; with contracts off it raises nothing and leaves the state untouched |
| DBC.Require | include/DBC.hh:50 | given the condition's text after macro expansion, Require is the same check as Assert for every input, in both builds |
| DBC.Ensure | include/DBC.hh:51 | given the condition's text after macro expansion, Ensure is the same check as Assert for every input, in both builds |
| DBC.Assertv | include/DBC.hh:54-56 | Assertv(c, m) is Assert(c) with the message text "#c, m": the condition text, ", " and m |
| DBC.Requirev | include/DBC.hh:57 | given the condition's text after macro expansion, Requirev is the same check as Assertv for every input, in both builds |
| DBC.Ensurev | include/DBC.hh:58 | given the condition's text after macro expansion, Ensurev is the same check as Assertv for every input, in both builds |
| DBC.NoDbcIsInert | include/DBC.hh:72-81 | in a NODBC build none of the six gated checks raises or evaluates its condition, whatever the condition is |
| DBC.InsistCheck | include/DBC.hh:85-89 | Insist evaluates its condition and raises exactly when it is false, with the assertion error for its site and condition text |
| DBC.ErrorStream.Insist | include/DBC.hh:85-89 | a failing Insist appends the entry m to the error stream (its characters and one newline) and raises; a passing one leaves the stream unchanged |
| DBC.InsistIgnoresBuild | include/DBC.hh:83-89 | Insist is outside the NODBC guard: in every build it behaves as Assert with contracts on, while a NODBC Assert does nothing |
| DBC.PassingChecksAreSilent | include/DBC.hh:48-58 | a check whose condition holds, used as a statement of its own, raises nothing, for every macro and build, and leaves no effect beyond the condition's own |
| DBC.ViolationLayout | include/DBC.hh:48-56 | when the file, condition text and m hold no newline, a failed Assert or Assertv raises a message whose four lines are "Assertion error", the call-site line, the file, and the condition text (plus ", " and m for Assertv) |
| DBC.FailedAssertExample | include/DBC.hh:48-49 | a worked instance at a chosen call site: Assert(1==0) at Site(34, "test/test_Testing.cc") raises with exactly the four lines "Assertion error", "           on line: 34", "           in file: test/test_Testing.cc", "           message: 1==0" |
| Lines.RenderedSnoc | include/DBC.hh:87 | writing one more line to the stream appends exactly that line's characters and one newline |

## Left out

- `soft_equiv` (include/SoftEquivalence.hh) compares floating-point values using `epsilon`, `sqrt` and `fabs`. Floating point is not modelled.
- `StaticChecker`, `StaticAssert` and `StaticAssertv` are compile-time checks only. They have no runtime behaviour to model.
- `as_string` and `AsString` depend on `std::ostringstream` formatting and `typeid(T).name()`, which are library behaviour. When a conversion fails, they raise through `THROW`, which is modelled (`Exceptions.Throw`).
- The test harness (`RUN`, `TEST`, `TESTFALSE`, `FUNC`) is defined in TestDriver.hh. TestDriver.hh is not part of this model.
- Writing to `std::cerr` is modelled as an append-only list of lines. Flushing by `std::endl` and real output are not modelled.
- Exception propagation is modelled as a returned `Violation`. Unwinding through callers is not modelled.
- The line number is a 32-bit `int` (`int32`). `__LINE__` always fits, so no overflow is modelled.
- `DBC.ErrorStream.Insist` takes the message `m` as a string. The C++ accepts anything that can be streamed to `std::cerr`. Formatting other types is not modelled.
- `DBC.Assertv`, `DBC.Requirev`, `DBC.Ensurev` and `DBC.ErrorStream.Insist` take the extra message `m` as a string that has already been computed. In C++, `m` is an expression. It is evaluated only when the condition is false, and never in a `NODBC` build. Its side effects are not modelled. Neither is the case where it raises on its own, for example `AsString(x)` raising through `THROW`, whose exception then replaces the assertion error.
- A condition (`Condition<S>`) is a total function, so it always returns. A condition that raises is not modelled; in C++ its exception propagates in place of the check's. A condition that never terminates is not modelled either.
- `Exceptions.Exception.What`: returns the whole stored message. In C++, `what()` returns `d_message.c_str()`, and a reader of that `const char*` sees the text only up to its first `'\0'`. The model takes each Dafny `char` to stand for one byte of the `std::string` and assumes messages hold no NUL. A prefix, file, condition text or `m` containing `'\0'` is not modelled. For such inputs, the properties that read fields off `What()` (`EndsWith` in `Exceptions.Throw`, `Exceptions.LocatedCarries` and `DBC.AssertionError`, and the later lines in `LocatedSplitsIntoFour` and `ViolationLayout`) describe the stored string, not the text `what()` exposes.
- `Decimal.FromInt`: renders the line as `std::stringstream` does in the classic "C" locale with default stream flags. The stream takes the global locale when it is constructed (include/Exception.hh:38). A host program that installs a global locale with digit grouping (for example `"1,234"`) is not modelled. Under such a locale `Decimal.Parse` would not read the line back, so the line-recovery parts of `Exceptions.LineRecoverable`, `Exceptions.LocatedCarries`, `Exceptions.Throw` and `DBC.AssertionError` assume the classic locale.
- `DBC.Require`, `DBC.Ensure`, `DBC.Requirev` and `DBC.Ensurev`: the macros pass `c` to `Assert`/`Assertv` without stringizing it (include/DBC.hh:50-51, 57-58). The preprocessor therefore expands any macro inside the condition before `#c` turns it into text. The model takes `text` as that expanded text and does not model the expansion. When the condition uses a macro, the message these four raise therefore differs from the one a direct `Assert`/`Assertv` on the same source text raises: `Require(n < LIMIT)` reports `n < 100` where `Assert(n < LIMIT)` reports `n < LIMIT`.
- `DBC.Assertv`, `DBC.Requirev`, `DBC.Ensurev` and `DBC.ErrorStream.Insist`: each check is modelled as a self-contained statement. Their expansions end in an unbraced `if` with no trailing `;` (include/DBC.hh:54-58, 85-89), so an `else` the caller writes after the check binds to the macro's own `if (!(c))`. That binding, and the control flow it produces, are not modelled. (`Assert`, `Require` and `Ensure` end with `;`, so the same code does not compile for them.) `DBC.PassingChecksAreSilent` describes the check used as a statement of its own.
