/**
 * The diagnostic exception of flcrum: an immutable value holding one composed,
 * human-readable message, built either from a fixed default or from a prefix,
 * the line and file of the raising site, and a message, laid out on four lines.
 */
module Exceptions {
  import opened Wrappers
  import Decimal
  import opened Lines

  /** The C++ `int` that carries the line number. */
  newtype int32 = x: int | -0x8000_0000 <= x < 0x8000_0000

  /** An exception is its message: nothing can change it once constructed. */
  datatype Exception = Exception(message: string) {
    /** The stored message, unchanged. */
    function What(): (r: string)
      ensures r == message
    {
      message
    }
  }

  /** The raising site, as `__LINE__` and `__FILE__` give it. */
  datatype Site = Site(line: int32, file: string)

  /** What a raising operation does: nothing, or raise an exception. */
  datatype Outcome = Ok | Violation(error: Exception)

  const DefaultMessage: string := "flcrum exception: "
  const OnLine: string := "           on line: "
  const InFile: string := "           in file: "
  const MessageLabel: string := "           message: "

  predicate StartsWith(s: string, p: string) {
    |p| <= |s| && s[..|p|] == p
  }

  predicate EndsWith(s: string, q: string) {
    |q| <= |s| && s[|s| - |q|..] == q
  }

  /** `s` holds `sub` starting at index `i`. */
  predicate OccursAt(sub: string, s: string, i: nat) {
    i + |sub| <= |s| && s[i..i + |sub|] == sub
  }

  /** `a`, `b` and `c` occur in `s` in that order, without overlapping. */
  ghost predicate InOrder(s: string, a: string, b: string, c: string) {
    exists i: nat, j: nat, k: nat ::
      OccursAt(a, s, i) && OccursAt(b, s, j) && OccursAt(c, s, k) &&
      i + |a| <= j && j + |b| <= k
  }

  /** The exception built with no arguments. */
  function Default(): (e: Exception)
    ensures e.What() == DefaultMessage && |e.What()| > 0
  {
    Exception(DefaultMessage)
  }

  /** The four lines of a located exception's message. */
  function Segments(prefix: string, line: int32, file: string, message: string): seq<string> {
    [prefix, OnLine + Decimal.FromInt(line as int), InFile + file, MessageLabel + message]
  }

  /**
   * The exception built from a prefix and a raising site: the prefix, then the
   * line in decimal, the file and the message, each on a labelled line of its own.
   */
  function Located(prefix: string, line: int32, file: string, message: string): (e: Exception)
    ensures |e.What()| > |prefix| + |message|
  {
    Exception(prefix + "\n"
              + OnLine + Decimal.FromInt(line as int) + "\n"
              + InFile + file + "\n"
              + MessageLabel + message)
  }

  /**
   * Where the pieces of a four-line layout sit, for any labels: `p`, then `a`
   * and `d`, then `b` and `f`, then `c` and `m`, the lines separated by newlines.
   */
  lemma LayoutFacts(p: string, a: string, d: string, b: string, f: string, c: string, m: string)
    ensures var s := p + "\n" + a + d + "\n" + b + f + "\n" + c + m;
            |s| == |p| + |a| + |d| + |b| + |f| + |c| + |m| + 3 &&
            s[..|p|] == p && s[|s| - |m|..] == m &&
            OccursAt(d, s, |p| + 1 + |a|) &&
            OccursAt(f, s, |p| + 1 + |a| + |d| + 1 + |b|) &&
            OccursAt(m, s, |s| - |m|)
  {
    var s := p + "\n" + a + d + "\n" + b + f + "\n" + c + m;
    assert s == p + ("\n" + a + d + "\n" + b + f + "\n" + c) + m;
    assert s == (p + "\n" + a) + d + ("\n" + b + f + "\n" + c + m);
    assert s == (p + "\n" + a + d + "\n" + b) + f + ("\n" + c + m);
  }

  /** A four-line layout is its lines joined by newlines, for any labels. */
  lemma LayoutIsJoin(p: string, a: string, d: string, b: string, f: string, c: string, m: string)
    ensures p + "\n" + a + d + "\n" + b + f + "\n" + c + m == Join([p, a + d, b + f, c + m], '\n')
  {
    Join4(p, a + d, b + f, c + m, '\n');
    assert p + ['\n'] + (a + d) + ['\n'] + (b + f) + ['\n'] + (c + m)
        == p + "\n" + a + d + "\n" + b + f + "\n" + c + m;
  }

  /** The located message starts with its prefix and ends with its message. */
  lemma LocatedStartsAndEnds(prefix: string, line: int32, file: string, message: string)
    ensures var msg := Located(prefix, line, file, message).What();
            msg[..|prefix|] == prefix && msg[|msg| - |message|..] == message
  {
    LayoutFacts(prefix, OnLine, Decimal.FromInt(line as int), InFile, file, MessageLabel, message);
  }

  /** The located message is its four segments joined by newlines. */
  lemma LocatedIsJoin(prefix: string, line: int32, file: string, message: string)
    ensures Located(prefix, line, file, message).What() == Join(Segments(prefix, line, file, message), '\n')
  {
    LayoutIsJoin(prefix, OnLine, Decimal.FromInt(line as int), InFile, file, MessageLabel, message);
  }

  /** With no newline in prefix, file or message, the message has exactly the four layout lines. */
  lemma LocatedSplitsIntoFour(prefix: string, line: int32, file: string, message: string)
    requires '\n' !in prefix && '\n' !in file && '\n' !in message
    ensures Split(Located(prefix, line, file, message).What(), '\n') ==
            [prefix, OnLine + Decimal.FromInt(line as int), InFile + file, MessageLabel + message]
  {
    var segs := Segments(prefix, line, file, message);
    LocatedIsJoin(prefix, line, file, message);
    assert '\n' !in segs[1] && '\n' !in segs[2] && '\n' !in segs[3];
    SplitJoin(segs, '\n');
  }

  /** The line number read back from the text after "on line: " on the second line. */
  function LineField(msg: string): Option<int> {
    var segs := Split(msg, '\n');
    if |segs| >= 2 && |segs[1]| >= |OnLine| && segs[1][..|OnLine|] == OnLine
    then Decimal.Parse(segs[1][|OnLine|..])
    else None
  }

  /** The rendered line number is recoverable, sign included, whatever the file and message hold. */
  lemma LineRecoverable(prefix: string, line: int32, file: string, message: string)
    requires '\n' !in prefix
    ensures LineField(Located(prefix, line, file, message).What()) == Some(line as int)
  {
    var segs := Segments(prefix, line, file, message);
    var d := Decimal.FromInt(line as int);
    LocatedIsJoin(prefix, line, file, message);
    assert '\n' !in segs[1];
    SplitJoinSecond(segs, '\n');
    assert segs[1][|OnLine|..] == d;
    Decimal.ParseFromInt(line as int);
  }

  /** Where the line, the file and the message start in a located message. */
  lemma FieldOffsets(prefix: string, line: int32, file: string, message: string)
    ensures var msg := Located(prefix, line, file, message).What();
            var d := Decimal.FromInt(line as int);
            var i := |prefix| + 1 + |OnLine|;
            var j := i + |d| + 1 + |InFile|;
            var k := j + |file| + 1 + |MessageLabel|;
            OccursAt(d, msg, i) && OccursAt(file, msg, j) && OccursAt(message, msg, k)
  {
    LayoutFacts(prefix, OnLine, Decimal.FromInt(line as int), InFile, file, MessageLabel, message);
  }

  /** The decimal line, then the file, then the message occur in the composed message, in that order. */
  lemma FieldsInOrder(prefix: string, line: int32, file: string, message: string)
    ensures InOrder(Located(prefix, line, file, message).What(), Decimal.FromInt(line as int), file, message)
  {
    var d := Decimal.FromInt(line as int);
    var i := |prefix| + 1 + |OnLine|;
    var j := i + |d| + 1 + |InFile|;
    var k := j + |file| + 1 + |MessageLabel|;
    FieldOffsets(prefix, line, file, message);
    var msg := Located(prefix, line, file, message).What();
    assert OccursAt(d, msg, i) && OccursAt(file, msg, j) && OccursAt(message, msg, k);
  }

  /** A located message with a one-line prefix starts with that prefix, carries the line, file and message in order, and ends with the message. */
  lemma LocatedCarries(prefix: string, line: int32, file: string, message: string)
    requires '\n' !in prefix
    ensures var msg := Located(prefix, line, file, message).What();
            StartsWith(msg, prefix) && EndsWith(msg, message) &&
            LineField(msg) == Some(line as int) &&
            InOrder(msg, Decimal.FromInt(line as int), file, message)
  {
    LocatedStartsAndEnds(prefix, line, file, message);
    LineRecoverable(prefix, line, file, message);
    FieldsInOrder(prefix, line, file, message);
  }

  /** The default message is a single line. */
  lemma DefaultMessageIsOneLine()
    ensures '\n' !in DefaultMessage
  {
    assert forall i | 0 <= i < |DefaultMessage| :: DefaultMessage[i] != '\n';
  }

  /**
   * `THROW(m)`: always raises, with the default prefix, the call site's line
   * and file, and `m` as the message.
   */
  function Throw(site: Site, m: string): (r: Outcome)
    ensures r.Violation?
    ensures var msg := r.error.What();
            StartsWith(msg, DefaultMessage) && EndsWith(msg, m) &&
            LineField(msg) == Some(site.line as int) &&
            InOrder(msg, Decimal.FromInt(site.line as int), site.file, m)
  {
    DefaultMessageIsOneLine();
    LocatedCarries(DefaultMessage, site.line, site.file, m);
    Violation(Located(DefaultMessage, site.line, site.file, m))
  }
}
