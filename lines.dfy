/**
 * Splitting text into lines and joining lines back together: the views of a
 * composed exception message and of the error stream that the properties of
 * this model are stated in.
 */
module Lines {

  /** The segments of `s` between occurrences of `sep`; never empty, never containing `sep`. */
  function Split(s: string, sep: char): (r: seq<string>)
    ensures |r| >= 1
    ensures forall i :: 0 <= i < |r| ==> sep !in r[i]
    decreases |s|
  {
    if s == [] then [""]
    else
      var rest := Split(s[1..], sep);
      if s[0] == sep then [""] + rest else [[s[0]] + rest[0]] + rest[1..]
  }

  /** The segments of `parts`, with one `sep` between each neighbouring pair. */
  function Join(parts: seq<string>, sep: char): string
    requires |parts| >= 1
    decreases |parts|
  {
    if |parts| == 1 then parts[0] else parts[0] + [sep] + Join(parts[1..], sep)
  }

  /**
   * Joining the segments of a split gives back the text: `Split` loses nothing,
   * so a property read off the segments of a message is a property of the message.
   */
  lemma {:induction false} JoinSplit(s: string, sep: char)
    ensures Join(Split(s, sep), sep) == s
    decreases |s|
  {
    if s != [] {
      var rest := Split(s[1..], sep);
      JoinSplit(s[1..], sep);
      if s[0] == sep {
        assert Split(s, sep)[1..] == rest;
      } else if |rest| == 1 {
        assert Join(Split(s, sep), sep) == [s[0]] + rest[0];
        assert [s[0]] + s[1..] == s;
      } else {
        var parts := Split(s, sep);
        assert parts[1..] == rest[1..];
        calc {
          Join(parts, sep);
          ([s[0]] + rest[0]) + [sep] + Join(rest[1..], sep);
          [s[0]] + (rest[0] + [sep] + Join(rest[1..], sep));
          [s[0]] + Join(rest, sep);
          s;
        }
      }
    }
  }

  /** Four segments joined: the separator between each neighbouring pair. */
  lemma Join4(a: string, b: string, c: string, d: string, sep: char)
    ensures Join([a, b, c, d], sep) == a + [sep] + b + [sep] + c + [sep] + d
  {
    assert [a, b, c, d][1..] == [b, c, d] && [b, c, d][1..] == [c, d] && [c, d][1..] == [d];
    assert Join([c, d], sep) == c + [sep] + d;
    assert Join([b, c, d], sep) == b + [sep] + (c + [sep] + d);
  }

  /** A segment free of `sep` followed by `sep` splits off as one segment. */
  lemma {:induction false} SplitCons(a: string, b: string, sep: char)
    requires sep !in a
    ensures Split(a + [sep] + b, sep) == [a] + Split(b, sep)
    decreases |a|
  {
    var s := a + [sep] + b;
    if a == [] {
      assert s[1..] == b;
    } else {
      assert s[1..] == a[1..] + [sep] + b;
      SplitCons(a[1..], b, sep);
      assert [a[0]] + a[1..] == a;
    }
  }

  /** Text free of `sep` is a single segment. */
  lemma {:induction false} SplitNoSep(a: string, sep: char)
    requires sep !in a
    ensures Split(a, sep) == [a]
    decreases |a|
  {
    if a != [] {
      SplitNoSep(a[1..], sep);
      assert [a[0]] + a[1..] == a;
    }
  }

  /** Splitting a join of `sep`-free segments gives back the segments. */
  lemma {:induction false} SplitJoin(parts: seq<string>, sep: char)
    requires |parts| >= 1
    requires forall i :: 0 <= i < |parts| ==> sep !in parts[i]
    ensures Split(Join(parts, sep), sep) == parts
    decreases |parts|
  {
    if |parts| == 1 {
      SplitNoSep(parts[0], sep);
    } else {
      SplitJoin(parts[1..], sep);
      SplitCons(parts[0], Join(parts[1..], sep), sep);
      assert [parts[0]] + parts[1..] == parts;
    }
  }

  /** The second segment of a join survives a split when the first two segments are free of `sep`. */
  lemma {:induction false} SplitJoinSecond(parts: seq<string>, sep: char)
    requires |parts| >= 2 && sep !in parts[0] && sep !in parts[1]
    ensures |Split(Join(parts, sep), sep)| >= 2 && Split(Join(parts, sep), sep)[1] == parts[1]
  {
    var tail := parts[1..];
    SplitCons(parts[0], Join(tail, sep), sep);
    if |tail| == 1 {
      SplitNoSep(tail[0], sep);
    } else {
      SplitCons(tail[0], Join(tail[1..], sep), sep);
    }
  }

  /** The characters written for a sequence of lines: each line followed by a newline. */
  function Rendered(lines: seq<string>): string
    decreases |lines|
  {
    if lines == [] then "" else lines[0] + "\n" + Rendered(lines[1..])
  }

  /** Writing one more line appends exactly that line and one newline. */
  lemma {:induction false} RenderedSnoc(lines: seq<string>, line: string)
    ensures Rendered(lines + [line]) == Rendered(lines) + line + "\n"
    decreases |lines|
  {
    if lines == [] {
      assert Rendered([line]) == line + "\n" + Rendered([]);
    } else {
      assert (lines + [line])[1..] == lines[1..] + [line];
      RenderedSnoc(lines[1..], line);
    }
  }
}
