/** The loopback queue of `TextIOLoopback` (encore.py:76-102): lines written
    with `lwrite` are read back by `readline` before anything from the
    wrapped file. */
module Loopback {
  import opened Wrappers

  /** The line boundaries of Python's `str.splitlines()`. */
  predicate IsLineBreak(c: char) {
    || c == '\n' || c == '\r' || c == '\U{000B}' || c == '\U{000C}'
    || c == '\U{001C}' || c == '\U{001D}' || c == '\U{001E}'
    || c == '\U{0085}' || c == '\U{2028}' || c == '\U{2029}'
  }

  predicate NoBreak(l: string) {
    forall i :: 0 <= i < |l| ==> !IsLineBreak(l[i])
  }

  /** The length of the first line of `s`, without its line break. */
  function LineLen(s: string): (n: nat)
    ensures n <= |s| && NoBreak(s[..n]) && (n < |s| ==> IsLineBreak(s[n]))
  {
    if s == [] || IsLineBreak(s[0]) then 0
    else
      var m := LineLen(s[1..]);
      assert s[..m + 1] == [s[0]] + s[1..][..m];
      m + 1
  }

  /** `s.splitlines()`: the lines of `s` without their line breaks; "\r\n"
      is one break, and a break at the very end starts no further line. */
  function SplitLines(s: string): (ls: seq<string>)
    ensures forall i :: 0 <= i < |ls| ==> NoBreak(ls[i])
    decreases |s|
  {
    if s == [] then []
    else
      var n := LineLen(s);
      if n == |s| then [s]
      else
        var skip := if s[n] == '\r' && n + 1 < |s| && s[n + 1] == '\n' then 2 else 1;
        [s[..n]] + SplitLines(s[n + skip..])
  }

  /** A line boundary as `splitlines()` reads it: "\r\n", or one line-break
      character. */
  predicate IsBreak(b: string) {
    b == "\r\n" || (|b| == 1 && IsLineBreak(b[0]))
  }

  /** `ls[0] + bs[0] + ls[1] + bs[1] + ... + tail`: lines, each with the
      break that ends it, and a last line without a break. */
  function Joined(ls: seq<string>, bs: seq<string>, tail: string): string
    requires |ls| == |bs|
  {
    if ls == [] then tail else ls[0] + bs[0] + Joined(ls[1..], bs[1..], tail)
  }

  /** Lines and breaks that `Joined` puts together so that they read back:
      no line holds a break, and a lone "\r" is not followed by "\n" (the
      two would be read as one break). */
  predicate Layout(ls: seq<string>, bs: seq<string>, tail: string)
    decreases |ls|
  {
    && |ls| == |bs|
    && NoBreak(tail)
    && (ls != [] ==>
          && NoBreak(ls[0]) && IsBreak(bs[0])
          && (bs[0] == "\r" ==> !LfFirst(Joined(ls[1..], bs[1..], tail)))
          && Layout(ls[1..], bs[1..], tail))
  }

  predicate LfFirst(t: string) {
    t != [] && t[0] == '\n'
  }

  /** The last line, if it is not empty. */
  function Tail(tail: string): seq<string> {
    if tail == "" then [] else [tail]
  }

  /** A line followed by its break is read as that line. */
  lemma LineThenBreak(l: string, b: string, t: string)
    requires NoBreak(l) && IsBreak(b) && (b == "\r" ==> !LfFirst(t))
    ensures SplitLines(l + b + t) == [l] + SplitLines(t)
  {
    var s := l + b + t;
    assert forall i :: 0 <= i < |l| ==> s[i] == l[i];
    assert s[|l|] == b[0];
    var n := LineLen(s);
    assert forall i :: 0 <= i < n ==> !IsLineBreak(s[i]) by {
      forall i | 0 <= i < n ensures !IsLineBreak(s[i]) {
        assert s[..n][i] == s[i];
      }
    }
    assert n == |l|;
    assert s[..n] == l;
    if b == "\r\n" {
      assert s[n + 1] == '\n';
      assert s[n + 2..] == t;
    } else {
      assert s[n + 1..] == t;
      assert b == "\r" ==> !(n + 1 < |s| && s[n + 1] == '\n');
    }
  }

  /** A line without a break is read as itself, unless it is empty. */
  lemma LastLine(tail: string)
    requires NoBreak(tail)
    ensures SplitLines(tail) == Tail(tail)
  {
    if tail != "" {
      assert LineLen(tail) == |tail|;
    }
  }

  /** `splitlines()` returns exactly the lines of a string laid out as lines
      with any breaks ("\n", "\r", "\r\n", ...) and an optional last line
      without a break. */
  lemma {:induction false} SplitLinesOfJoined(ls: seq<string>, bs: seq<string>, tail: string)
    requires Layout(ls, bs, tail)
    ensures SplitLines(Joined(ls, bs, tail)) == ls + Tail(tail)
    decreases |ls|
  {
    if ls == [] {
      LastLine(tail);
    } else {
      SplitLinesOfJoined(ls[1..], bs[1..], tail);
      JoinedStep(ls, bs, tail);
    }
  }

  /** One step of `SplitLinesOfJoined`: the first line and its break are read
      as that line, in front of the lines of the rest. */
  lemma JoinedStep(ls: seq<string>, bs: seq<string>, tail: string)
    requires Layout(ls, bs, tail) && ls != []
    requires SplitLines(Joined(ls[1..], bs[1..], tail)) == ls[1..] + Tail(tail)
    ensures SplitLines(Joined(ls, bs, tail)) == ls + Tail(tail)
  {
    var t := Joined(ls[1..], bs[1..], tail);
    LayoutHead(ls, bs, tail);
    LineThenBreak(ls[0], bs[0], t);
    ConsAppend(ls, Tail(tail));
  }

  /** The first line of a layout, its break, and the rest. */
  lemma LayoutHead(ls: seq<string>, bs: seq<string>, tail: string)
    requires Layout(ls, bs, tail) && ls != []
    ensures NoBreak(ls[0]) && IsBreak(bs[0])
    ensures bs[0] == "\r" ==> !LfFirst(Joined(ls[1..], bs[1..], tail))
    ensures Joined(ls, bs, tail) == ls[0] + bs[0] + Joined(ls[1..], bs[1..], tail)
  {
  }

  lemma ConsAppend(ls: seq<string>, t: seq<string>)
    requires ls != []
    ensures [ls[0]] + (ls[1..] + t) == ls + t
  {
    assert ls == [ls[0]] + ls[1..];
  }

  lemma PrependLine(l: string, b: string, ls: seq<string>, bs: seq<string>, tail: string)
    requires NoBreak(l) && IsBreak(b) && Layout(ls, bs, tail)
    requires b == "\r" ==> !LfFirst(Joined(ls, bs, tail))
    ensures Layout([l] + ls, [b] + bs, tail)
    ensures Joined([l] + ls, [b] + bs, tail) == l + b + Joined(ls, bs, tail)
  {
    assert ([l] + ls)[1..] == ls && ([b] + bs)[1..] == bs;
  }

  /** A string is the concatenation of its pieces at two cut points. */
  lemma Pieces(s: string, i: nat, j: nat)
    requires i <= j <= |s|
    ensures s == s[..i] + s[i..j] + s[j..]
  {
    assert s[..j] == s[..i] + s[i..j];
  }

  /** Every string is laid out as lines, breaks and a last line; with
      `SplitLinesOfJoined`, this fixes `SplitLines(s)` for every `s`. */
  lemma {:induction false} SplitLinesCover(s: string)
    ensures exists ls, bs, tail :: Layout(ls, bs, tail) && Joined(ls, bs, tail) == s
    decreases |s|
  {
    if s == [] {
      assert Layout([], [], "") && Joined([], [], "") == s;
    } else {
      var n := LineLen(s);
      if n == |s| {
        assert s[..n] == s;
        assert Layout([], [], s) && Joined([], [], s) == s;
      } else {
        var skip := if s[n] == '\r' && n + 1 < |s| && s[n + 1] == '\n' then 2 else 1;
        var l, b, rest := s[..n], s[n..n + skip], s[n + skip..];
        SplitLinesCover(rest);
        var ls, bs, tail :| Layout(ls, bs, tail) && Joined(ls, bs, tail) == rest;
        assert IsBreak(b);
        assert b == "\r" ==> !LfFirst(rest);
        PrependLine(l, b, ls, bs, tail);
        Pieces(s, n, n + skip);
        assert Layout([l] + ls, [b] + bs, tail) && Joined([l] + ls, [b] + bs, tail) == s;
      }
    }
  }

  /** The `splitlines()` pieces of each string, in order. */
  function SplitAll(lines: seq<string>): seq<string> {
    if lines == [] then [] else SplitLines(lines[0]) + SplitAll(lines[1..])
  }

  function TotalLength(lines: seq<string>): nat {
    if lines == [] then 0 else |lines[0]| + TotalLength(lines[1..])
  }

  function Concat(ls: seq<string>): string {
    if ls == [] then "" else ls[0] + Concat(ls[1..])
  }

  lemma {:induction false} SplitAllAppend(a: seq<string>, b: seq<string>)
    ensures SplitAll(a + b) == SplitAll(a) + SplitAll(b)
    ensures TotalLength(a + b) == TotalLength(a) + TotalLength(b)
    decreases |a|
  {
    if a != [] {
      assert (a + b)[1..] == a[1..] + b;
      SplitAllAppend(a[1..], b);
    } else {
      assert a + b == b;
    }
  }

  lemma {:induction false} ConcatCons(h: string, ls: seq<string>)
    ensures Concat([h] + ls) == h + Concat(ls)
  {
    assert ([h] + ls)[1..] == ls;
  }

  class TextIOLoopback {
    /** The lines written back and not yet read, oldest first. */
    var pending: seq<string>

    /** A new wrapper starts with an empty queue (encore.py:82). */
    constructor ()
      ensures pending == []
    {
      pending := [];
    }

    /** `readline(size)` (encore.py:90-97). With lines queued, it returns the
        first queued line whole when `size` is not positive or not smaller
        than the line, and otherwise its first `size` characters, leaving the
        rest queued. `None` stands for the empty queue, where the call reads
        from the wrapped file instead. */
    method Readline(size: int) returns (line: Option<string>)
      modifies this
      ensures old(pending) == [] ==> line == None && pending == old(pending)
      ensures old(pending) != [] && (size <= 0 || size >= |old(pending)[0]|) ==>
        line == Some(old(pending)[0]) && pending == old(pending)[1..]
      ensures old(pending) != [] && 0 < size < |old(pending)[0]| ==>
        && line == Some(old(pending)[0][..size])
        && |pending| == |old(pending)|
        && line.value + pending[0] == old(pending)[0]
        && pending[1..] == old(pending)[1..]
      ensures old(pending) != [] ==> line.Some? && line.value + Concat(pending) == Concat(old(pending))
    {
      if pending == [] {
        line := None;
        return;
      }
      var e := pending[0];
      if size <= 0 || size >= |e| {
        line := Some(e);
        assert pending == [e] + pending[1..];
        ConcatCons(e, pending[1..]);
        pending := pending[1..];
      } else {
        line := Some(e[..size]);
        assert pending == [e] + pending[1..];
        ConcatCons(e, pending[1..]);
        pending := [e[size..]] + pending[1..];
        ConcatCons(e[size..], pending[1..]);
        assert e[..size] + e[size..] == e;
      }
    }

    /** `lwrite(*lines)` (encore.py:99-102): queues the `splitlines()` pieces
        of each argument in order, after what is already queued, and returns
        the total length of the arguments. */
    method LWrite(lines: seq<string>) returns (n: int)
      modifies this
      ensures pending == old(pending) + SplitAll(lines)
      ensures n == TotalLength(lines)
    {
      var i := 0;
      n := 0;
      while i < |lines|
        invariant 0 <= i <= |lines|
        invariant pending == old(pending) + SplitAll(lines[..i])
        invariant n == TotalLength(lines[..i])
      {
        SplitAllAppend(lines[..i], [lines[i]]);
        assert lines[..i + 1] == lines[..i] + [lines[i]];
        pending := pending + SplitLines(lines[i]);
        n := n + |lines[i]|;
        i := i + 1;
      }
      assert lines[..|lines|] == lines;
    }
  }
}
