/** Dispatching a token sequence down the command tree: `cmdict.__call__`
    (core.py:209-223). The actions are not run; the result records which
    callable would be called with which arguments. */
module Dispatch {
  import opened Wrappers
  import opened Values
  import opened Entries
  import opened Resolution

  /** What a call of the dictionary does: it returns True or False, having
      called at most one action, or it raises NotImplementedError. */
  datatype CallResult = Returned(reached: bool, fired: Option<Invocation>) | NotImplementedRaised

  /** `d(*tokens)`. A first token that is non-empty and contained decides
      alone: a nested level gets the remaining tokens, an action is called
      with them, a reserved slot raises. Otherwise a callable default slot is
      called with all the tokens. A default slot holding a nested level is
      callable too: its own result is thrown away and True is returned. */
  function Call(es: seq<Entry>, tokens: seq<string>): (r: CallResult)
    ensures r.Returned? && r.fired.Some? ==> r.reached
    decreases |tokens|, Sub(es)
  {
    if |tokens| > 0 && tokens[0] != "" && Contains(es, S(tokens[0])) then
      match GetItem(es, S(tokens[0]))
      case Sub(c) => Call(c, tokens[1..])
      case Act(b) => Returned(true, Some(Invoke(b, Strs(tokens[1..]))))
      case Unset => NotImplementedRaised
    else
      match GetItem(es, Default)
      case Act(b) => Returned(true, Some(Invoke(b, Strs(tokens))))
      case Sub(c) =>
        (match Call(c, tokens)
         case NotImplementedRaised => NotImplementedRaised
         case Returned(_, fired) => Returned(true, fired))
      case Unset => Returned(false, None)
  }

  /** Some slot of the tree, at any depth, holds the action `b`. */
  ghost predicate Stores(es: seq<Entry>, b: Bind)
    decreases Sub(es)
  {
    exists i :: 0 <= i < |es| && (es[i].v == Act(b) || (es[i].v.Sub? && Stores(es[i].v.es, b)))
  }

  /** What `d[k]` returns, unless it is None, is the value of one of the entries. */
  lemma GetItemIsEntry(es: seq<Entry>, k: Key)
    requires !GetItem(es, k).Unset?
    ensures exists i :: 0 <= i < |es| && es[i].v == GetItem(es, k)
  {
    var i := IndexOf(es, Resolve(es, k));
    assert es[i].v == GetItem(es, k);
  }

  /** An action that a call fires is one stored in the tree, called with its
      bound arguments followed by the tokens left over when it was reached. */
  lemma {:induction false} FiredActionIsStored(es: seq<Entry>, tokens: seq<string>)
    ensures var r := Call(es, tokens);
      r.Returned? && r.fired.Some? ==>
        exists b, j :: 0 <= j <= |tokens| && Stores(es, b) && r.fired.value == Invoke(b, Strs(tokens[j..]))
    decreases |tokens|, Sub(es)
  {
    var r := Call(es, tokens);
    if r.Returned? && r.fired.Some? {
      if |tokens| > 0 && tokens[0] != "" && Contains(es, S(tokens[0])) {
        var v := GetItem(es, S(tokens[0]));
        GetItemIsEntry(es, S(tokens[0]));
        var i :| 0 <= i < |es| && es[i].v == v;
        match v
        case Sub(c) =>
          FiredActionIsStored(c, tokens[1..]);
          var b, j :| 0 <= j <= |tokens[1..]| && Stores(c, b) && r.fired.value == Invoke(b, Strs(tokens[1..][j..]));
          assert tokens[1..][j..] == tokens[j + 1..];
          assert Stores(es, b);
        case Act(b) =>
          assert Stores(es, b);
          assert r.fired.value == Invoke(b, Strs(tokens[1..]));
      } else {
        var v := GetItem(es, Default);
        GetItemIsEntry(es, Default);
        var i :| 0 <= i < |es| && es[i].v == v;
        match v
        case Sub(c) =>
          FiredActionIsStored(c, tokens);
          var b, j :| 0 <= j <= |tokens| && Stores(c, b) && r.fired.value == Invoke(b, Strs(tokens[j..]));
          assert Stores(es, b);
        case Act(b) =>
          assert Stores(es, b);
          assert tokens[0..] == tokens;
      }
    }
  }

  /** A first token that resolves decides the call on its own: there is no
      fallback to this level's default slot, and a reserved slot always
      raises (core.py:210-219). */
  lemma ResolvedTokenDecides(es: seq<Entry>, t: string, rest: seq<string>)
    requires t != "" && Contains(es, S(t))
    ensures GetItem(es, S(t)).Sub? ==> Call(es, [t] + rest) == Call(GetItem(es, S(t)).es, rest)
    ensures GetItem(es, S(t)).Act? ==>
      Call(es, [t] + rest) == Returned(true, Some(Invoke(GetItem(es, S(t)).b, Strs(rest))))
    ensures GetItem(es, S(t)).Unset? ==> Call(es, [t] + rest) == NotImplementedRaised
  {
    assert ([t] + rest)[1..] == rest;
  }

  /** Without a first token that resolves, the default slot decides: an
      action is called with all the tokens; a missing or reserved default is
      a soft miss, never an exception (core.py:220-223). */
  lemma UnresolvedFallsBack(es: seq<Entry>, tokens: seq<string>)
    requires tokens == [] || tokens[0] == "" || !Contains(es, S(tokens[0]))
    ensures GetItem(es, Default).Act? ==>
      Call(es, tokens) == Returned(true, Some(Invoke(GetItem(es, Default).b, Strs(tokens))))
    ensures GetItem(es, Default).Unset? ==> Call(es, tokens) == Returned(false, None)
    ensures GetItem(es, Default).Sub? ==>
      Call(es, tokens) == match Call(GetItem(es, Default).es, tokens)
                          case NotImplementedRaised => NotImplementedRaised
                          case Returned(_, f) => Returned(true, f)
  {
  }

  /** A level whose only entry is a default action `h` sends every token
      sequence, the empty one included, to `h`. */
  lemma {:induction false} OnlyDefaultAction(h: Bind, tokens: seq<string>)
    ensures Call([Entry(Default, Act(h))], tokens) == Returned(true, Some(Invoke(h, Strs(tokens))))
  {
    var es := [Entry(Default, Act(h))];
    if tokens != [] {
      KeysCons(es);
      NoMatch(es, tokens[0]);
    }
  }
}
