/** Assembling IRC messages from a stream that arrives in pieces. */
module IrcLines {

  /** The pieces of s between line ends, a line end being LF with an optional CR before it. */
  function Split(s: string): (pieces: seq<string>)
    ensures pieces != []
  {
    if s == "" then [""]
    else if s[0] == '\n' then [""] + Split(s[1..])
    else if |s| >= 2 && s[0] == '\r' && s[1] == '\n' then [""] + Split(s[2..])
    else
      var r := Split(s[1..]);
      [[s[0]] + r[0]] + r[1..]
  }

  function Last(pieces: seq<string>): string
    requires pieces != []
  {
    pieces[|pieces| - 1]
  }

  function Front(pieces: seq<string>): seq<string>
    requires pieces != []
  {
    pieces[..|pieces| - 1]
  }

  lemma {:induction false} SinglePiece(s: string)
    requires |Split(s)| == 1
    ensures Split(s)[0] == s
  {
    if s != "" { SinglePiece(s[1..]); }
  }

  lemma ConsFront(first: string, r: seq<string>)
    requires r != []
    ensures Front([first] + r) == [first] + Front(r) && Last([first] + r) == Last(r)
  {}

  lemma ResumesCons(first: string, r: seq<string>, more: seq<string>, b: string)
    requires r != [] && more == Front(r) + Split(Last(r) + b)
    ensures [first] + more == Front([first] + r) + Split(Last([first] + r) + b)
  {
    hide Split;
    ConsFront(first, r);
  }

  lemma ResumesSingle(a: string, b: string)
    requires Split(a) == [a]
    ensures Split(a + b) == Front(Split(a)) + Split(Last(Split(a)) + b)
  {
    hide Split;
  }

  /** Splitting may stop at any point: only the unfinished piece is needed to go on, even between CR and LF. */
  lemma {:induction false} SplitResumes(a: string, b: string)
    ensures Split(a + b) == Front(Split(a)) + Split(Last(Split(a)) + b)
    decreases |a|
  {
    hide Front, Last;
    if a == "" {
      ResumesSingle(a, b);
    } else if a[0] == '\n' {
      assert (a + b)[1..] == a[1..] + b;
      SplitResumes(a[1..], b);
      ResumesCons("", Split(a[1..]), Split(a[1..] + b), b);
    } else if |a| >= 2 && a[0] == '\r' && a[1] == '\n' {
      assert (a + b)[2..] == a[2..] + b;
      SplitResumes(a[2..], b);
      ResumesCons("", Split(a[2..]), Split(a[2..] + b), b);
    } else if |a| == 1 {
      assert a[1..] == "" && [a[0]] + "" == a;
      ResumesSingle(a, b);
    } else {
      SplitResumesInside(a, b);
    }
  }

  /** No line end starts at the first character. */
  predicate Inner(s: string) { s != "" && s[0] != '\n' && !(|s| >= 2 && s[0] == '\r' && s[1] == '\n') }

  function Glue(c: char, r: seq<string>): seq<string>
    requires r != []
  {
    [[c] + r[0]] + r[1..]
  }

  lemma SplitInner(s: string)
    requires Inner(s)
    ensures Split(s) == Glue(s[0], Split(s[1..]))
  {}

  lemma GlueMore(c: char, r: seq<string>, q: seq<string>)
    requires |r| > 1 && q != []
    ensures Glue(c, Front(r) + q) == Front(Glue(c, r)) + q && Last(Glue(c, r)) == Last(r)
  {}

  lemma SplitResumesInside(a: string, b: string)
    requires |a| >= 2 && Inner(a)
    ensures Split(a + b) == Front(Split(a)) + Split(Last(Split(a)) + b)
    decreases |a|, 0
  {
    hide Split;
    var t, r := a[1..], Split(a[1..]);
    assert (a + b)[1..] == t + b && (a + b)[0] == a[0] && (a + b)[1] == a[1];
    SplitResumes(t, b);
    SplitInner(a);
    SplitInner(a + b);
    if |r| == 1 {
      SinglePiece(t);
      assert Split(a) == [a] by { assert [a[0]] + t == a; }
    } else {
      GlueMore(a[0], r, Split(Last(r) + b));
    }
  }

  function NonEmpty(lines: seq<string>): seq<string> {
    if lines == [] then []
    else NonEmpty(lines[..|lines| - 1]) + if lines[|lines| - 1] == "" then [] else [lines[|lines| - 1]]
  }

  lemma {:induction false} NonEmptyConcat(a: seq<string>, b: seq<string>)
    ensures NonEmpty(a + b) == NonEmpty(a) + NonEmpty(b)
  {
    if b == [] {
      assert a + b == a;
    } else {
      NonEmptyConcat(a, b[..|b| - 1]);
      assert (a + b)[..|a + b| - 1] == a + b[..|b| - 1];
    }
  }

  class ServerConnection {
    var connected: bool
    var previousBuffer: string
    /** Messages passed on to the event handler, in order. */
    var handled: seq<string>
    /** All data received. */
    ghost var stream: string

    ghost predicate Valid()
      reads this
    {
      previousBuffer == Last(Split(stream)) && handled == NonEmpty(Front(Split(stream)))
    }

    constructor ()
      ensures Valid() && connected && stream == "" && handled == []
    {
      connected, previousBuffer, handled, stream := true, "", [], "";
    }

    /** One receive; None is a failed one. */
    method ProcessData(data: string, failed: bool)
      requires Valid() && connected
      modifies this
      ensures Valid()
      ensures if failed || data == "" then !connected && stream == old(stream) && handled == old(handled)
              else connected && stream == old(stream) + data
    {
      if failed || data == "" {
        connected := false;
        return;
      }
      hide Split, NonEmpty;
      SplitResumes(stream, data);
      ghost var before := Split(stream);
      stream := stream + data;
      var lines := Split(previousBuffer + data);
      FrontResumes(before, lines);
      previousBuffer := lines[|lines| - 1];
      lines := lines[..|lines| - 1];
      NonEmptyConcat(Front(before), lines);
      Handle(lines);
    }

    /** Passes complete lines on, empty ones excepted. */
    method Handle(lines: seq<string>)
      modifies this`handled
      ensures handled == old(handled) + NonEmpty(lines)
    {
      for i := 0 to |lines|
        invariant handled == old(handled) + NonEmpty(lines[..i])
      {
        assert lines[..i + 1][..i] == lines[..i];
        if lines[i] == "" { continue; }
        handled := handled + [lines[i]];
      }
      assert lines[..|lines|] == lines;
    }
  }

  lemma FrontResumes(a: seq<string>, b: seq<string>)
    requires a != [] && b != []
    ensures Front(Front(a) + b) == Front(a) + Front(b) && Last(Front(a) + b) == Last(b)
  {}

  // ----- Framing, section 2.3 of RFC 1459: messages end with CR LF and contain neither

  predicate IsMessage(m: string) { m != "" && '\r' !in m && '\n' !in m }

  function Framed(ms: seq<string>): string {
    if ms == [] then "" else ms[0] + "\r\n" + Framed(ms[1..])
  }

  /** A line with its end: CR LF, or a bare LF if the line does not itself end with CR. */
  predicate IsLine(line: string, end: string) {
    '\n' !in line && (end == "\r\n" || (end == "\n" && (line == "" || line[|line| - 1] != '\r')))
  }

  /** A line is cut off at its end, whichever of the two that is. */
  lemma {:induction false} SplitLine(line: string, end: string, rest: string)
    requires IsLine(line, end)
    ensures Split(line + end + rest) == [line] + Split(rest)
    decreases |line|
  {
    var s := line + end + rest;
    if line == "" {
      assert s[|end|..] == rest;
    } else {
      var more := line[1..];
      assert s[1..] == more + end + rest;
      assert forall c :: c in more ==> c in line;
      assert line[0] in line && (|line| > 1 ==> line[1] in line);
      assert |line| > 1 ==> more[|more| - 1] == line[|line| - 1];
      SplitLine(more, end, rest);
      assert [line[0]] + more == line;
      assert ([more] + Split(rest))[1..] == Split(rest);
    }
  }

  /** Lines with their ends. */
  function Joined(lines: seq<string>, ends: seq<string>): string
    requires |ends| == |lines|
  {
    if lines == [] then "" else lines[0] + ends[0] + Joined(lines[1..], ends[1..])
  }

  /** Lines come apart as they were put together, with either kind of end at each. */
  lemma {:induction false} LinesBack(lines: seq<string>, ends: seq<string>)
    requires |ends| == |lines| && forall i :: 0 <= i < |lines| ==> IsLine(lines[i], ends[i])
    ensures Split(Joined(lines, ends)) == lines + [""]
    decreases |lines|
  {
    if lines != [] {
      hide IsLine, Split;
      SplitLine(lines[0], ends[0], Joined(lines[1..], ends[1..]));
      LinesBack(lines[1..], ends[1..]);
      assert [lines[0]] + (lines[1..] + [""]) == lines + [""];
    } else {
      assert Split("") == [""];
    }
  }

  lemma {:induction false} SplitFramed(ms: seq<string>)
    requires forall i :: 0 <= i < |ms| ==> IsMessage(ms[i])
    ensures Split(Framed(ms)) == ms + [""]
  {
    if ms != [] {
      SplitLine(ms[0], "\r\n", Framed(ms[1..]));
      SplitFramed(ms[1..]);
      assert [ms[0]] + (ms[1..] + [""]) == ms + [""];
    }
  }

  lemma {:induction false} AllNonEmpty(ms: seq<string>)
    requires forall i :: 0 <= i < |ms| ==> ms[i] != ""
    ensures NonEmpty(ms) == ms
  {
    if ms != [] { AllNonEmpty(ms[..|ms| - 1]); }
  }

  /** Well-framed messages are received as they were sent; with ProcessData's invariant, however the stream is cut. */
  lemma FramedBack(ms: seq<string>)
    requires forall i :: 0 <= i < |ms| ==> IsMessage(ms[i])
    ensures NonEmpty(Front(Split(Framed(ms)))) == ms && Last(Split(Framed(ms))) == ""
  {
    SplitFramed(ms);
    assert Front(ms + [""]) == ms;
    AllNonEmpty(ms);
  }
}
