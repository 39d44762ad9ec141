/**
 * Design-by-contract checks of flcrum. `Assert`, `Require`, `Ensure` and their
 * verbose forms exist only in a build with contracts on (`NODBC` not defined);
 * in a `NODBC` build they expand to nothing. `Insist` is always compiled in and
 * writes its message to the error stream before raising.
 *
 * The macros take the condition as an expression, so evaluating it may change
 * program state. A condition is therefore modelled as a function from the
 * program state to its truth value and the state after its side effects; a
 * check yields its outcome together with the state it leaves behind.
 */
module DBC {
  import opened Wrappers
  import opened Exceptions
  import Decimal
  import opened Lines

  const AssertionPrefix: string := "Assertion error"

  /** The evaluation of a condition expression: its value and the state after its side effects. */
  type Condition<!S> = S -> (bool, S)

  /** A condition with no side effects, whose value is `b`. */
  function Holds<S>(b: bool): Condition<S> {
    s => (b, s)
  }

  /** What a check did: its outcome and the program state afterwards. */
  datatype Step<S> = Step(outcome: Outcome, state: S)

  /**
   * The exception every failed check raises: prefix "Assertion error", the
   * check's line and file, and the check's text as the message.
   */
  function AssertionError(site: Site, text: string): (e: Exception)
    ensures var msg := e.What();
            StartsWith(msg, AssertionPrefix) && EndsWith(msg, text) &&
            LineField(msg) == Some(site.line as int) &&
            InOrder(msg, Decimal.FromInt(site.line as int), site.file, text)
  {
    AssertionPrefixIsOneLine();
    LocatedCarries(AssertionPrefix, site.line, site.file, text);
    Located(AssertionPrefix, site.line, site.file, text)
  }

  /** The assertion prefix is a single line. */
  lemma AssertionPrefixIsOneLine()
    ensures '\n' !in AssertionPrefix
  {
    assert forall i | 0 <= i < |AssertionPrefix| :: AssertionPrefix[i] != '\n';
  }

  /**
   * `Assert(c)`, with `text` the stringified condition. With contracts on, it
   * evaluates `c` once and raises exactly when `c` is false; with contracts off
   * it neither evaluates `c` nor raises.
   */
  function Assert<S>(dbc: bool, c: Condition<S>, text: string, site: Site, s: S): (r: Step<S>)
    ensures dbc ==> r.state == c(s).1 && (r.outcome.Violation? <==> !c(s).0)
    ensures !dbc ==> r.outcome == Ok && r.state == s
    ensures r.outcome.Violation? ==> r.outcome.error == AssertionError(site, text)
  {
    if dbc then
      var (holds, after) := c(s);
      Step(if holds then Ok else Violation(AssertionError(site, text)), after)
    else
      Step(Ok, s)
  }

  /**
   * `Require(c)`: the same check as `Assert(c)` in both builds; `text` is the
   * condition after macro expansion, since `c` reaches `Assert` unstringized.
   */
  function Require<S>(dbc: bool, c: Condition<S>, text: string, site: Site, s: S): (r: Step<S>)
    ensures r == Assert(dbc, c, text, site, s)
  {
    if dbc then Assert(dbc, c, text, site, s) else Step(Ok, s)
  }

  /**
   * `Ensure(c)`: the same check as `Assert(c)` in both builds; `text` is the
   * condition after macro expansion, since `c` reaches `Assert` unstringized.
   */
  function Ensure<S>(dbc: bool, c: Condition<S>, text: string, site: Site, s: S): (r: Step<S>)
    ensures r == Assert(dbc, c, text, site, s)
  {
    if dbc then Assert(dbc, c, text, site, s) else Step(Ok, s)
  }

  /**
   * `Assertv(c, m)`: as `Assert(c)`, except that the exception's message is the
   * condition's text, ", " and `m`.
   */
  function Assertv<S>(dbc: bool, c: Condition<S>, text: string, m: string, site: Site, s: S): (r: Step<S>)
    ensures r == Assert(dbc, c, text + ", " + m, site, s)
  {
    if dbc then
      var (holds, after) := c(s);
      Step(if holds then Ok else Violation(AssertionError(site, text + ", " + m)), after)
    else
      Step(Ok, s)
  }

  /**
   * `Requirev(c, m)`: the same check as `Assertv(c, m)` in both builds; `text` is
   * the condition after macro expansion, since `c` reaches `Assertv` unstringized.
   */
  function Requirev<S>(dbc: bool, c: Condition<S>, text: string, m: string, site: Site, s: S): (r: Step<S>)
    ensures r == Assertv(dbc, c, text, m, site, s)
  {
    if dbc then Assertv(dbc, c, text, m, site, s) else Step(Ok, s)
  }

  /**
   * `Ensurev(c, m)`: the same check as `Assertv(c, m)` in both builds; `text` is
   * the condition after macro expansion, since `c` reaches `Assertv` unstringized.
   */
  function Ensurev<S>(dbc: bool, c: Condition<S>, text: string, m: string, site: Site, s: S): (r: Step<S>)
    ensures r == Assertv(dbc, c, text, m, site, s)
  {
    if dbc then Assertv(dbc, c, text, m, site, s) else Step(Ok, s)
  }

  /** The raising half of `Insist(c, m)`: evaluate `c` and raise exactly when it is false. */
  function InsistCheck<S>(c: Condition<S>, text: string, site: Site, s: S): (r: Step<S>)
    ensures r.state == c(s).1
    ensures r.outcome.Violation? <==> !c(s).0
    ensures r.outcome.Violation? ==> r.outcome.error == AssertionError(site, text)
  {
    var (holds, after) := c(s);
    Step(if holds then Ok else Violation(AssertionError(site, text)), after)
  }

  /** The error stream that `Insist` writes to, as the entries written so far (each followed by a newline). */
  class ErrorStream {
    var lines: seq<string>

    /** The characters written so far: each line followed by a newline. */
    function Text(): string
      reads this
    {
      Rendered(lines)
    }

    constructor ()
      ensures lines == []
    {
      lines := [];
    }

    /**
     * `Insist(c, m)`: evaluates `c`; when it is false, writes `m` and a newline
     * to the stream, then raises. When `c` holds, the stream is unchanged.
     */
    method Insist<S>(c: Condition<S>, text: string, m: string, site: Site, s: S) returns (r: Step<S>)
      modifies this
      ensures r == InsistCheck(c, text, site, s)
      ensures lines == old(lines) + (if c(s).0 then [] else [m])
      ensures Text() == old(Text()) + (if c(s).0 then "" else m + "\n")
    {
      var (holds, after) := c(s);
      if holds {
        r := Step(Ok, after);
      } else {
        RenderedSnoc(lines, m);
        lines := lines + [m];
        r := Step(Violation(AssertionError(site, text)), after);
      }
    }
  }

  /**
   * With `NODBC` defined, none of the six gated checks raises or evaluates its
   * condition: the state is left exactly as it was, whatever the condition does.
   */
  lemma NoDbcIsInert<S>(c: Condition<S>, text: string, m: string, site: Site, s: S)
    ensures Assert(false, c, text, site, s) == Step(Ok, s)
    ensures Require(false, c, text, site, s) == Step(Ok, s)
    ensures Ensure(false, c, text, site, s) == Step(Ok, s)
    ensures Assertv(false, c, text, m, site, s) == Step(Ok, s)
    ensures Requirev(false, c, text, m, site, s) == Step(Ok, s)
    ensures Ensurev(false, c, text, m, site, s) == Step(Ok, s)
  {
  }

  /**
   * `Insist` is not gated: whatever the build, it checks exactly as `Assert`
   * does with contracts on, while a `NODBC` `Assert` does nothing.
   */
  lemma InsistIgnoresBuild<S>(dbc: bool, c: Condition<S>, text: string, site: Site, s: S)
    ensures InsistCheck(c, text, site, s) == Assert(true, c, text, site, s)
    ensures !dbc ==> Assert(dbc, c, text, site, s).outcome == Ok
    ensures InsistCheck(c, text, site, s).outcome.Violation? <==> !c(s).0
  {
  }

  /**
   * A passing check, in either build and for every macro, raises nothing and
   * leaves no trace beyond the condition's own side effects (none at all when
   * contracts are off).
   */
  lemma PassingChecksAreSilent<S>(dbc: bool, c: Condition<S>, text: string, m: string, site: Site, s: S)
    requires c(s).0
    ensures var after := if dbc then c(s).1 else s;
            Assert(dbc, c, text, site, s) == Step(Ok, after) &&
            Require(dbc, c, text, site, s) == Step(Ok, after) &&
            Ensure(dbc, c, text, site, s) == Step(Ok, after) &&
            Assertv(dbc, c, text, m, site, s) == Step(Ok, after) &&
            Requirev(dbc, c, text, m, site, s) == Step(Ok, after) &&
            Ensurev(dbc, c, text, m, site, s) == Step(Ok, after) &&
            InsistCheck(c, text, site, s) == Step(Ok, c(s).1)
  {
  }

  /**
   * A failed check's message has the four layout lines: "Assertion error",
   * the call site's line, its file, and the condition text (followed, for the
   * verbose forms, by ", " and the extra message).
   */
  lemma ViolationLayout<S>(dbc: bool, c: Condition<S>, text: string, m: string, site: Site, s: S)
    requires '\n' !in site.file && '\n' !in text && '\n' !in m
    ensures var r := Assert(dbc, c, text, site, s);
            r.outcome.Violation? ==>
              Split(r.outcome.error.What(), '\n') ==
              [AssertionPrefix, OnLine + Decimal.FromInt(site.line as int), InFile + site.file, MessageLabel + text]
    ensures var r := Assertv(dbc, c, text, m, site, s);
            r.outcome.Violation? ==>
              Split(r.outcome.error.What(), '\n') ==
              [AssertionPrefix, OnLine + Decimal.FromInt(site.line as int), InFile + site.file,
               MessageLabel + text + ", " + m]
  {
    LocatedSplitsIntoFour(AssertionPrefix, site.line, site.file, text);
    assert '\n' !in text + ", " + m;
    LocatedSplitsIntoFour(AssertionPrefix, site.line, site.file, text + ", " + m);
    assert MessageLabel + (text + ", " + m) == MessageLabel + text + ", " + m;
  }

  /** The message of an assertion error for `1==0` on line 34 of a test file, line by line. */
  lemma ExampleMessageLines()
    ensures Split(AssertionError(Site(34, "test/test_Testing.cc"), "1==0").What(), '\n') ==
              ["Assertion error",
               "           on line: 34",
               "           in file: test/test_Testing.cc",
               "           message: 1==0"]
  {
    ExampleLineText();
    ExampleLabels();
    AssertionPrefixIsOneLine();
    LocatedSplitsIntoFour(AssertionPrefix, 34, "test/test_Testing.cc", "1==0");
  }

  lemma ExampleLineText()
    ensures OnLine + Decimal.FromInt(34) == "           on line: 34"
  {
    assert Decimal.DigitChar(3) == '3' && Decimal.DigitChar(4) == '4';
    assert Decimal.NatDigits(3) == "3";
    assert Decimal.FromInt(34) == "34";
  }

  lemma ExampleLabels()
    ensures InFile + "test/test_Testing.cc" == "           in file: test/test_Testing.cc"
    ensures MessageLabel + "1==0" == "           message: 1==0"
  {
  }

  /** `Assert(1==0)` on line 34 of a test file raises with exactly these four lines. */
  lemma FailedAssertExample()
    ensures var r := Assert(true, Holds<()>(1 == 0), "1==0", Site(34, "test/test_Testing.cc"), ());
            r.outcome.Violation? &&
            Split(r.outcome.error.What(), '\n') ==
              ["Assertion error",
               "           on line: 34",
               "           in file: test/test_Testing.cc",
               "           message: 1==0"]
  {
    ExampleMessageLines();
  }
}
