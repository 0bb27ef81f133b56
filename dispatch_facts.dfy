/** How building the tree and calling it fit together: what a call reaches
    after `extend` has promoted an action or given a subcommand a default
    (core.py:186-204, 209-223). */
module DispatchFacts {
  import opened Wrappers
  import opened Values
  import opened Entries
  import opened Resolution
  import opened Extension
  import opened ExtensionWellFormed
  import opened ExtensionFacts
  import opened Dispatch

  /** `c` is a key of the level that no other key extends, so the word `c`
      selects it. */
  ghost predicate Selects(es: seq<Entry>, c: string) {
    && c != "" && S(c) in Keys(es)
    && forall c' :: S(c') in Keys(es) && c <= c' ==> c' == c
  }

  /** Calling `c` on a level where `c` selects a subcommand `sub` is calling
      `sub` with the remaining words. */
  lemma EntersSubcommand(es: seq<Entry>, c: string, sub: seq<Entry>, rest: seq<string>)
    requires Distinct(es) && Selects(es, c) && Lookup(es, S(c)) == Some(Sub(sub))
    ensures Call(es, [c] + rest) == Call(sub, rest)
  {
    ExactKeyResolves(es, c);
    ResolvedTokenDecides(es, c, rest);
  }

  /** A level whose default slot holds `h` answers the empty call with `h()`. */
  lemma DefaultAnswersEmptyCall(es: seq<Entry>, h: Bind)
    requires Lookup(es, Default) == Some(Act(h))
    ensures Call(es, []) == Returned(true, Some(Invoke(h, [])))
  {
    UnresolvedFallsBack(es, []);
  }

  /** Extending an action at `c` with a dict that does not define `c`
      promotes it: `c` then leads to the dict's commands, with the old
      action as their default, so calling `c` alone still calls the old
      action (core.py:196-201). */
  lemma {:induction false} PromotionKeepsAction(es: seq<Entry>, c: string, ps: seq<Pair>, rest: seq<string>)
    requires WellFormed(es) && Selects(es, c) && GetItem(es, S(c)).Act?
    requires !DictHas(ps, Str(c)) && Construct(Dict(ps)).err.None?
    ensures var r := ExtendKv(es, Str(c), [Dict(ps)]);
      var promoted := Put(Construct(Dict(ps)).es, Default, GetItem(es, S(c)));
      && r.err.None?
      && Call(r.es, [c] + rest) == Call(promoted, rest)
      && Call(r.es, [c]) == Returned(true, Some(Invoke(GetItem(es, S(c)).b, [])))
  {
    var old_action := GetItem(es, S(c));
    var promoted := Put(Construct(Dict(ps)).es, Default, old_action);
    var r := ExtendKv(es, Str(c), [Dict(ps)]);
    ExactKeyResolves(es, c);
    ExtendOntoAction(es, Str(c), Dict(ps), []);
    assert [Dict(ps)] + [] == [Dict(ps)];
    assert Lookup(r.es, S(c)) == Some(Sub(promoted));
    ExtendKvFrame(es, Str(c), [Dict(ps)]);
    ExtendKvWellFormed(es, Str(c), [Dict(ps)]);
    assert Selects(r.es, c);
    EntersSubcommand(r.es, c, promoted, rest);
    EntersSubcommand(r.es, c, promoted, []);
    assert [c] + [] == [c];
    DefaultAnswersEmptyCall(promoted, old_action.b);
  }

  /** Extending a subcommand at `c` with a callable `f` and arguments `a`
      gives it the default action `bind(f, *a)`: calling `c` alone calls
      `f(*a)`, and the subcommand's other commands stay as they were
      (core.py:194-195). */
  lemma {:induction false} CallableBecomesDefault(es: seq<Entry>, c: string, f: Item, a: seq<Item>, rest: seq<string>)
    requires WellFormed(es) && Selects(es, c) && GetItem(es, S(c)).Sub? && Callable(f)
    ensures var r := ExtendKv(es, Str(c), [f] + a);
      var sub := GetItem(es, S(c)).es;
      && r.err.None?
      && Call(r.es, [c] + rest) == Call(Put(sub, Default, Act(Rebind(f, a))), rest)
      && Call(r.es, [c]) == Returned(true, Some(Apply(f, a)))
      && forall k' :: k' != Default ==> Lookup(Put(sub, Default, Act(Rebind(f, a))), k') == Lookup(sub, k')
  {
    var sub := GetItem(es, S(c)).es;
    var given := Put(sub, Default, Act(Rebind(f, a)));
    var r := ExtendKv(es, Str(c), [f] + a);
    ExactKeyResolves(es, c);
    ExtendOntoSubcommand(es, Str(c), f, a);
    assert Lookup(r.es, S(c)) == Some(Sub(given));
    ExtendKvFrame(es, Str(c), [f] + a);
    ExtendKvWellFormed(es, Str(c), [f] + a);
    assert Selects(r.es, c);
    EntersSubcommand(r.es, c, given, rest);
    EntersSubcommand(r.es, c, given, []);
    assert [c] + [] == [c];
    DefaultAnswersEmptyCall(given, Rebind(f, a));
    assert a + [] == a;
  }
}
