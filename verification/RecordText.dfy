/** The line format of stored records: `tag:data` lines, split at every newline and, within a line,
    at the first colon. Lines without a colon and unknown tags are skipped. */
module RecordText {
  import opened Wrappers

  /** `str::split(c)`: always at least one piece. */
  function Split(s: string, c: char): (pieces: seq<string>)
    ensures |pieces| >= 1
    ensures forall p :: p in pieces ==> c !in p
  {
    if s == "" then [""]
    else
      var rest := Split(s[1..], c);
      if s[0] == c then [""] + rest
      else [[s[0]] + rest[0]] + rest[1..]
  }

  /** `str::split_once(c)` */
  function SplitOnce(s: string, c: char): Option<(string, string)> {
    if s == "" then None
    else if s[0] == c then Some(("", s[1..]))
    else
      match SplitOnce(s[1..], c)
      case Some((left, right)) => Some(([s[0]] + left, right))
      case None => None
  }

  lemma {:induction false} SplitAt(a: string, c: char, rest: string)
    requires c !in a
    ensures Split(a + [c] + rest, c) == [a] + Split(rest, c)
  {
    var s := a + [c] + rest;
    if a == "" {
      assert s[1..] == rest;
    } else {
      assert s[1..] == a[1..] + [c] + rest && s[0] == a[0];
      SplitAt(a[1..], c, rest);
      assert a == [a[0]] + a[1..];
    }
  }

  lemma {:induction false} SplitBoth(a: string, c: char, rest: string)
    ensures Split(a + [c] + rest, c) == Split(a, c) + Split(rest, c)
  {
    var s := a + [c] + rest;
    if a == "" {
      assert s[1..] == rest;
    } else {
      assert s[1..] == a[1..] + [c] + rest && s[0] == a[0];
      SplitBoth(a[1..], c, rest);
    }
  }

  lemma {:induction false} SplitLast(a: string, c: char)
    requires c !in a
    ensures Split(a, c) == [a]
  {
    if a != "" {
      SplitLast(a[1..], c);
      assert a == [a[0]] + a[1..];
    }
  }

  lemma {:induction false} SplitOnceAt(a: string, c: char, rest: string)
    requires c !in a
    ensures SplitOnce(a + [c] + rest, c) == Some((a, rest))
  {
    var s := a + [c] + rest;
    if a == "" {
      assert s[1..] == rest;
    } else {
      assert s[1..] == a[1..] + [c] + rest && s[0] == a[0];
      SplitOnceAt(a[1..], c, rest);
      assert a == [a[0]] + a[1..];
    }
  }

  lemma {:induction false} SplitOncePieces(s: string, c: char)
    ensures SplitOnce(s, c).Some? ==> forall x :: x in SplitOnce(s, c).value.1 ==> x in s
  {
    if s != "" && s[0] != c {
      SplitOncePieces(s[1..], c);
    }
  }

  // ----- folding a parser over the lines

  /** What one `tag:data` line does to the record read so far. */
  type FieldParser<!R, !E> = (R, string, string) -> Result<R, E>

  function ApplyLine<R, E>(field: FieldParser<R, E>, r: R, line: string): Result<R, E> {
    match SplitOnce(line, ':')
    case Some((tag, data)) => field(r, tag, data)
    case None => Ok(r)
  }

  /** The parsing loop: the first line that is refused ends it. */
  function ApplyLines<R, E>(field: FieldParser<R, E>, r: R, lines: seq<string>): Result<R, E> {
    if lines == [] then Ok(r)
    else
      match ApplyLine(field, r, lines[0])
      case Ok(next) => ApplyLines(field, next, lines[1..])
      case Err(e) => Err(e)
  }

  lemma {:induction false} ApplyBoth<R, E>(field: FieldParser<R, E>, r: R, lines: seq<string>, more: seq<string>)
    ensures ApplyLines(field, r, lines + more) == match ApplyLines(field, r, lines) {
              case Ok(next) => ApplyLines(field, next, more)
              case Err(e) => Err(e)
            }
    decreases |lines|
  {
    if lines == [] {
      assert lines + more == more;
    } else {
      assert (lines + more)[1..] == lines[1..] + more;
      match ApplyLine(field, r, lines[0])
      case Ok(next) => ApplyBoth(field, next, lines[1..], more);
      case Err(_) =>
    }
  }

  function ParseText<R, E>(field: FieldParser<R, E>, r: R, text: string): Result<R, E> {
    ApplyLines(field, r, Split(text, '\n'))
  }

  // ----- printing

  function Line(tag: string, data: string): string { tag + ":" + data + "\n" }

  function PrintFields(fields: seq<(string, string)>): string {
    if fields == [] then "" else Line(fields[0].0, fields[0].1) + PrintFields(fields[1..])
  }

  lemma {:induction false} PrintBoth(fields: seq<(string, string)>, more: seq<(string, string)>)
    ensures PrintFields(fields + more) == PrintFields(fields) + PrintFields(more)
  {
    if fields == [] {
      assert fields + more == more;
    } else {
      assert (fields + more)[1..] == fields[1..] + more;
      PrintBoth(fields[1..], more);
    }
  }

  function ApplyFields<R, E>(field: FieldParser<R, E>, r: R, fields: seq<(string, string)>): Result<R, E> {
    if fields == [] then Ok(r)
    else
      match field(r, fields[0].0, fields[0].1)
      case Ok(next) => ApplyFields(field, next, fields[1..])
      case Err(e) => Err(e)
  }

  ghost predicate Printable(fields: seq<(string, string)>) {
    forall i :: 0 <= i < |fields| ==>
      ':' !in fields[i].0 && '\n' !in fields[i].0 && '\n' !in fields[i].1
  }

  /** Parsing printed fields applies exactly those fields in order, whatever colons their data hold. */
  lemma {:induction false} ParsePrinted<R, E>(field: FieldParser<R, E>, r: R, fields: seq<(string, string)>)
    requires Printable(fields)
    ensures ParseText(field, r, PrintFields(fields)) == ApplyFields(field, r, fields)
  {
    var text := PrintFields(fields);
    if fields == [] {
      SplitLast("", '\n');
      assert ApplyLines(field, r, [""]) == ApplyLines(field, r, [""][1..]);
    } else {
      var (tag, data) := fields[0];
      var line, rest := tag + ":" + data, PrintFields(fields[1..]);
      assert text == line + ['\n'] + rest;
      SplitAt(line, '\n', rest);
      assert line == tag + [':'] + data;
      SplitOnceAt(tag, ':', data);
      var lines := Split(text, '\n');
      assert lines[0] == line && lines[1..] == Split(rest, '\n');
      match field(r, tag, data)
      case Ok(next) => ParsePrinted(field, next, fields[1..]);
      case Err(_) =>
    }
  }
}
