/** The string helpers `trim` and `take` (encore.py:32-38), over Python's
    `str.split()` with no argument: runs of whitespace separate words, and
    leading and trailing whitespace give no empty words. */
module Text {

  /** The characters `str.isspace` accepts, which is what `str.split()`
      splits on. */
  predicate IsSpace(c: char) {
    || c == ' ' || c == '\t' || c == '\n' || c == '\r' || c == '\U{000B}' || c == '\U{000C}'
    || c == '\U{001C}' || c == '\U{001D}' || c == '\U{001E}' || c == '\U{001F}'
    || c == '\U{0085}' || c == '\U{00A0}' || c == '\U{1680}'
    || ('\U{2000}' <= c <= '\U{200A}')
    || c == '\U{2028}' || c == '\U{2029}' || c == '\U{202F}' || c == '\U{205F}' || c == '\U{3000}'
  }

  predicate NoSpace(w: string) {
    forall i :: 0 <= i < |w| ==> !IsSpace(w[i])
  }

  /** A word: what `str.split()` can return. */
  predicate IsWord(w: string) {
    w != [] && NoSpace(w)
  }

  /** The length of the word at the start of `s`. */
  function WordLen(s: string): (n: nat)
    requires s != [] && !IsSpace(s[0])
    ensures 1 <= n <= |s| && NoSpace(s[..n]) && (n < |s| ==> IsSpace(s[n]))
  {
    if |s| == 1 || IsSpace(s[1]) then 1
    else
      var m := WordLen(s[1..]);
      assert s[..m + 1] == [s[0]] + s[1..][..m];
      m + 1
  }

  /** `s.split()`. */
  function Words(s: string): (ws: seq<string>)
    ensures forall i :: 0 <= i < |ws| ==> IsWord(ws[i])
  {
    if s == [] then []
    else if IsSpace(s[0]) then Words(s[1..])
    else var n := WordLen(s); [s[..n]] + Words(s[n..])
  }

  /** `' '.join(ws)`. */
  function Join(ws: seq<string>): string {
    if ws == [] then ""
    else if |ws| == 1 then ws[0]
    else ws[0] + " " + Join(ws[1..])
  }

  /** The words of `s` joined by single spaces (encore.py:32-33). The
      `filter(None, ...)` of the source removes nothing, since `split()`
      gives no empty words. */
  function Trim(s: string): string {
    Join(Words(s))
  }

  /** The position where `st[:count]` ends and `st[count:]` begins for a
      tuple of `n` items, with Python's clamping of out-of-range and negative
      slice bounds. */
  function SliceAt(n: nat, count: int): (j: nat)
    ensures j <= n
    ensures count >= 0 ==> j == if count < n then count else n
    ensures count < 0 ==> j == if n + count > 0 then n + count else 0
  {
    if count >= 0 then (if count < n then count else n)
    else if n + count > 0 then n + count else 0
  }

  /** `take(s, count)` (encore.py:36-38): the first `count` words, and the
      remaining words joined by single spaces. */
  function Take(s: string, count: int): (r: (seq<string>, string))
  {
    var st := Words(s);
    var j := SliceAt(|st|, count);
    (st[..j], Join(st[j..]))
  }

  // ---------------------------------------------------------------------
  // Reading words back
  // ---------------------------------------------------------------------

  /** A word followed by nothing or by whitespace is read as that word. */
  lemma {:induction false} WordsAfterWord(w: string, t: string)
    requires IsWord(w) && (t == [] || IsSpace(t[0]))
    ensures Words(w + t) == [w] + Words(t)
  {
    var s := w + t;
    assert s[0] == w[0];
    var n := WordLen(s);
    assert forall i :: 0 <= i < |w| ==> s[i] == w[i];
    assert |w| < |s| ==> s[|w|] == t[0];
    assert forall i :: 0 <= i < n ==> !IsSpace(s[i]) by {
      forall i | 0 <= i < n ensures !IsSpace(s[i]) {
        assert s[..n][i] == s[i];
      }
    }
    assert n == |w|;
    assert s[..n] == w;
    assert s[n..] == t;
  }

  /** `' '.join(ws).split() == ws` for a list of words. */
  lemma {:induction false} WordsOfJoin(ws: seq<string>)
    requires forall i :: 0 <= i < |ws| ==> IsWord(ws[i])
    ensures Words(Join(ws)) == ws
    decreases |ws|
  {
    if ws == [] {
    } else if |ws| == 1 {
      WordsAfterWord(ws[0], "");
      assert ws[0] + "" == ws[0];
    } else {
      var rest := Join(ws[1..]);
      WordsOfJoin(ws[1..]);
      assert Words(" " + rest) == Words(rest) by {
        assert (" " + rest)[1..] == rest;
      }
      WordsAfterWord(ws[0], " " + rest);
      assert ws[0] + " " + rest == ws[0] + (" " + rest);
      assert ws == [ws[0]] + ws[1..];
    }
  }

  /** Every character of `g` is whitespace. */
  predicate AllSpace(g: string) {
    forall i :: 0 <= i < |g| ==> IsSpace(g[i])
  }

  /** `g0 + ws[0] + g1 + ws[1] + ... + ws[n-1] + gn`: words with the
      whitespace runs around and between them. */
  function Spaced(gaps: seq<string>, ws: seq<string>): string
    requires |gaps| == |ws| + 1
  {
    if ws == [] then gaps[0] else gaps[0] + ws[0] + Spaced(gaps[1..], ws[1..])
  }

  /** Whitespace runs that can stand around words: runs between two words
      are not empty, the runs at either end may be. */
  predicate Gaps(gaps: seq<string>, ws: seq<string>) {
    && |gaps| == |ws| + 1
    && (forall i :: 0 <= i < |gaps| ==> AllSpace(gaps[i]))
    && (forall i :: 0 < i < |ws| ==> gaps[i] != [])
  }

  /** Leading whitespace gives no words. */
  lemma {:induction false} WordsAfterSpace(g: string, t: string)
    requires AllSpace(g)
    ensures Words(g + t) == Words(t)
    decreases |g|
  {
    if g != [] {
      assert (g + t)[0] == g[0];
      assert (g + t)[1..] == g[1..] + t;
      WordsAfterSpace(g[1..], t);
    } else {
      assert g + t == t;
    }
  }

  /** `str.split()` returns exactly the words of a string made of words and
      whitespace runs, whatever the runs are. */
  lemma {:induction false} WordsOfSpaced(gaps: seq<string>, ws: seq<string>)
    requires forall i :: 0 <= i < |ws| ==> IsWord(ws[i])
    requires Gaps(gaps, ws)
    ensures Words(Spaced(gaps, ws)) == ws
    decreases |ws|
  {
    if ws == [] {
      WordsAfterSpace(gaps[0], "");
      assert gaps[0] + "" == gaps[0];
    } else {
      var t := Spaced(gaps[1..], ws[1..]);
      assert Gaps(gaps[1..], ws[1..]);
      WordsOfSpaced(gaps[1..], ws[1..]);
      assert t == [] || IsSpace(t[0]) by {
        if |ws| > 1 {
          assert gaps[1] != [] && t[0] == gaps[1][0];
        } else {
          assert t == gaps[1];
        }
      }
      WordsAfterWord(ws[0], t);
      WordsAfterSpace(gaps[0], ws[0] + t);
      assert gaps[0] + ws[0] + t == gaps[0] + (ws[0] + t);
      assert ws == [ws[0]] + ws[1..];
    }
  }

  lemma PrependSpace(c: char, gs: seq<string>, ws: seq<string>)
    requires IsSpace(c) && Gaps(gs, ws)
    ensures Gaps(gs[0 := [c] + gs[0]], ws)
    ensures Spaced(gs[0 := [c] + gs[0]], ws) == [c] + Spaced(gs, ws)
  {
    var gaps := gs[0 := [c] + gs[0]];
    assert AllSpace([c] + gs[0]);
    if ws != [] {
      assert gaps[1..] == gs[1..];
    }
  }

  lemma PrependWord(w: string, gs: seq<string>, ws: seq<string>)
    requires IsWord(w) && Gaps(gs, ws) && (ws != [] ==> gs[0] != [])
    ensures Gaps([""] + gs, [w] + ws)
    ensures Spaced([""] + gs, [w] + ws) == w + Spaced(gs, ws)
  {
    assert ([""] + gs)[1..] == gs && ([w] + ws)[1..] == ws;
  }

  /** Without a leading run, a string of words starts with its first word. */
  lemma SpacedStartsWithWord(gs: seq<string>, ws: seq<string>)
    requires Gaps(gs, ws) && ws != [] && gs[0] == [] && IsWord(ws[0])
    ensures Spaced(gs, ws) != [] && !IsSpace(Spaced(gs, ws)[0])
  {
    assert Spaced(gs, ws) == ws[0] + Spaced(gs[1..], ws[1..]);
  }

  /** A whitespace character in front of a string laid out as words and
      runs joins the first run. */
  lemma CoverSpace(s: string, gs: seq<string>)
    requires s != [] && IsSpace(s[0])
    requires Gaps(gs, Words(s[1..])) && Spaced(gs, Words(s[1..])) == s[1..]
    ensures Gaps(gs[0 := [s[0]] + gs[0]], Words(s)) && Spaced(gs[0 := [s[0]] + gs[0]], Words(s)) == s
  {
    PrependSpace(s[0], gs, Words(s[1..]));
    assert s == [s[0]] + s[1..];
  }

  /** A string that starts with a word splits into that word and the words
      after it. */
  lemma WordsAtWord(s: string)
    requires s != [] && !IsSpace(s[0])
    ensures Words(s) == [s[..WordLen(s)]] + Words(s[WordLen(s)..])
  {
  }

  /** The rest after a word starts with whitespace, so when it has words its
      leading run is not empty. */
  lemma RunAfterWord(s: string, gs: seq<string>)
    requires s != [] && !IsSpace(s[0])
    requires var rest := s[WordLen(s)..];
      Gaps(gs, Words(rest)) && Spaced(gs, Words(rest)) == rest
    ensures Words(s[WordLen(s)..]) != [] ==> gs[0] != []
  {
    var rws := Words(s[WordLen(s)..]);
    if rws != [] && gs[0] == [] {
      SpacedStartsWithWord(gs, rws);
      assert false;
    }
  }

  /** A word in front of a string laid out as words and runs becomes the first
      word, after an empty leading run. */
  lemma CoverWord(s: string, gs: seq<string>)
    requires s != [] && !IsSpace(s[0])
    requires var rest := s[WordLen(s)..];
      Gaps(gs, Words(rest)) && Spaced(gs, Words(rest)) == rest
    ensures Gaps([""] + gs, Words(s)) && Spaced([""] + gs, Words(s)) == s
  {
    var n := WordLen(s);
    WordsAtWord(s);
    RunAfterWord(s, gs);
    PrependWord(s[..n], gs, Words(s[n..]));
    assert s == s[..n] + s[n..];
  }

  /** Every string is its words with whitespace runs around and between
      them; with `WordsOfSpaced`, this fixes `Words(s)` for every `s`. */
  lemma {:induction false} WordsCover(s: string)
    ensures exists gaps :: Gaps(gaps, Words(s)) && Spaced(gaps, Words(s)) == s
    decreases |s|
  {
    if s == [] {
      assert Gaps([""], Words(s)) && Spaced([""], Words(s)) == s;
    } else if IsSpace(s[0]) {
      WordsCover(s[1..]);
      var gs :| Gaps(gs, Words(s[1..])) && Spaced(gs, Words(s[1..])) == s[1..];
      CoverSpace(s, gs);
    } else {
      var rest := s[WordLen(s)..];
      WordsCover(rest);
      var gs :| Gaps(gs, Words(rest)) && Spaced(gs, Words(rest)) == rest;
      CoverWord(s, gs);
    }
  }

  /** A string in which every whitespace character is a single space that
      stands between two other characters: no leading, trailing or doubled
      spaces, and no other whitespace. */
  predicate Normal(t: string) {
    forall i :: 0 <= i < |t| && IsSpace(t[i]) ==>
      t[i] == ' ' && 0 < i < |t| - 1 && !IsSpace(t[i - 1]) && !IsSpace(t[i + 1])
  }

  /** Words joined by single spaces form a normal string. */
  lemma {:induction false} JoinNormal(ws: seq<string>)
    requires forall i :: 0 <= i < |ws| ==> IsWord(ws[i])
    ensures Normal(Join(ws))
    ensures |ws| > 0 ==> Join(ws) != [] && !IsSpace(Join(ws)[0]) && !IsSpace(Join(ws)[|Join(ws)| - 1])
    decreases |ws|
  {
    if |ws| > 1 {
      JoinNormal(ws[1..]);
      var w, rest := ws[0], Join(ws[1..]);
      var t := w + " " + rest;
      assert forall i :: 0 <= i < |w| ==> t[i] == w[i];
      forall i | 0 <= i < |t| && IsSpace(t[i])
        ensures t[i] == ' ' && 0 < i < |t| - 1 && !IsSpace(t[i - 1]) && !IsSpace(t[i + 1])
      {
        if i == |w| {
          assert t[i - 1] == w[|w| - 1];
          assert t[i + 1] == rest[0];
        } else if i > |w| {
          var j := i - |w| - 1;
          assert t[i] == rest[j];
          assert t[i - 1] == if j == 0 then ' ' else rest[j - 1];
          assert t[i + 1] == rest[j + 1];
        }
      }
      assert t[0] == w[0];
      assert t[|t| - 1] == rest[|rest| - 1];
    }
  }

  // ---------------------------------------------------------------------
  // trim and take
  // ---------------------------------------------------------------------

  /** `trim(s)` has the words of `s`, in order, and no leading, trailing or
      doubled spaces. */
  lemma TrimSpec(s: string)
    ensures Words(Trim(s)) == Words(s)
    ensures Normal(Trim(s))
    ensures Trim(s) == "" <==> Words(s) == []
  {
    WordsOfJoin(Words(s));
    JoinNormal(Words(s));
  }

  /** `trim(trim(s)) == trim(s)`. */
  lemma TrimIdempotent(s: string)
    ensures Trim(Trim(s)) == Trim(s)
  {
    WordsOfJoin(Words(s));
  }

  /** `take(s, count)` splits the words of `s`: the words taken, followed by
      the words of the remainder, are the words of `s`. For `count >= 0` it
      takes the first `min(count, #words)` words; a negative `count` leaves
      that many words (or all of them) for the remainder. The remainder is
      itself trimmed. */
  lemma TakeSpec(s: string, count: int)
    ensures var (first, rest) := Take(s, count);
      && first + Words(rest) == Words(s)
      && Normal(rest)
      && (count >= 0 ==> first == Words(s)[..if count < |Words(s)| then count else |Words(s)|])
      && (count < 0 ==> |Words(rest)| == if -count < |Words(s)| then -count else |Words(s)|)
  {
    var st := Words(s);
    var j := SliceAt(|st|, count);
    assert Take(s, count) == (st[..j], Join(st[j..]));
    TakeRest(st, j);
  }

  /** What `take` returns at the cut point `j`: the words before it, and the
      words after it joined into a normal string that splits back into them. */
  lemma TakeRest(st: seq<string>, j: nat)
    requires j <= |st| && forall i :: 0 <= i < |st| ==> IsWord(st[i])
    ensures Words(Join(st[j..])) == st[j..] && Normal(Join(st[j..]))
    ensures st[..j] + st[j..] == st
  {
    WordsOfJoin(st[j..]);
    JoinNormal(st[j..]);
  }
}
