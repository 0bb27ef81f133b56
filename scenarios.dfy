/** Worked examples of the command dictionary, each proved by evaluating the
    model: abbreviation, promotion of an action to a subcommand, the
    placeholder, and the order in which `update` commits its items. */
module Scenarios {
  import opened Wrappers
  import opened Values
  import opened Entries
  import opened Resolution
  import opened Extension
  import opened Dispatch

  /** With the keys "start" and "status", "sta" is ambiguous and "star"
      stands for "start" (core.py:116-119, 126-130). */
  lemma StartStatusProbes()
    ensures var es := [Entry(S("start"), Act(Bind(1, []))), Entry(S("status"), Act(Bind(2, [])))];
      && !Contains(es, S("sta"))
      && Contains(es, S("star")) && Resolve(es, S("star")) == S("start")
  {
    var es := [Entry(S("start"), Act(Bind(1, []))), Entry(S("status"), Act(Bind(2, [])))];
    assert Matches(es, "sta") == ["start", "status"];
    assert !("star" <= "status") by { assert "star"[3] != "status"[3]; }
    assert Matches(es, "star") == ["start"];
  }

  /** With the keys "start" and "starts", the exact key "start" is not
      contained, and reading it falls back to the literal key; "sta" is
      ambiguous and missing, and reads None (core.py:116-119, 126-130,
      138-139). */
  lemma StartStartsProbes()
    ensures var es := [Entry(S("start"), Act(Bind(1, []))), Entry(S("starts"), Act(Bind(2, [])))];
      && !Contains(es, S("start"))
      && GetItem(es, S("start")) == Act(Bind(1, []))
      && GetItem(es, S("sta")) == Unset
  {
    var es := [Entry(S("start"), Act(Bind(1, []))), Entry(S("starts"), Act(Bind(2, [])))];
    assert Matches(es, "start") == ["start", "starts"];
    assert Matches(es, "sta") == ["start", "starts"];
    assert IndexOf(es, S("sta")) == -1;
  }

  /** The empty probe is a prefix of every key: it is contained in a level
      whose only key is "run", and not in one with "run" and "rest"
      (core.py:116-119). */
  lemma EmptyProbe()
    ensures Contains([Entry(S("run"), Act(Bind(1, [])))], S(""))
    ensures !Contains([Entry(S("run"), Act(Bind(1, []))), Entry(S("rest"), Act(Bind(2, [])))], S(""))
  {
    assert Matches([Entry(S("run"), Act(Bind(1, [])))], "") == ["run"];
    assert Matches([Entry(S("run"), Act(Bind(1, []))), Entry(S("rest"), Act(Bind(2, [])))], "") == ["run", "rest"];
  }

  /** The tree that `("deploy", f)` and then `("deploy", {"canary": g})`
      build from an empty dictionary. */
  function DeployTree(): seq<Entry> {
    [Entry(S("deploy"), Sub([Entry(S("canary"), Act(Bind(2, []))), Entry(Default, Act(Bind(1, [])))]))]
  }

  /** `(w, f)` on an empty level stores `f` at `w`, for every word `w`
      (core.py:196-204). */
  lemma ActionIntoEmpty(w: string, f: FuncId)
    ensures ExtendKv([], Str(w), [Func(f)]) == Outcome([Entry(S(w), Act(Bind(f, [])))], None)
  {
    assert [Func(f)][1..] == [];
    assert ExtendKv([], Str(w), [Func(f)]) == ExtendAbsent([], Str(w), [Func(f)]);
  }

  lemma CanaryCopy()
    ensures Construct(Dict([Pair(Str("canary"), Func(2))])) == Outcome([Entry(S("canary"), Act(Bind(2, [])))], None)
  {
    var c := [Entry(S("canary"), Act(Bind(2, [])))];
    ActionIntoEmpty("canary", 2);
    assert [Pair(Str("canary"), Func(2))][1..] == [];
    assert UpdatePairs(c, []) == Outcome(c, None);
  }

  lemma DeploySecond()
    ensures var es1 := [Entry(S("deploy"), Act(Bind(1, [])))];
      ExtendKv(es1, Str("deploy"), [Dict([Pair(Str("canary"), Func(2))])]) == Outcome(DeployTree(), None)
  {
    var es1 := [Entry(S("deploy"), Act(Bind(1, [])))];
    var v := Dict([Pair(Str("canary"), Func(2))]);
    assert Matches(es1, "deploy") == ["deploy"];
    assert ExtendKv(es1, Str("deploy"), [v]) == ExtendPresent(es1, Str("deploy"), [v]);
    assert GetItem(es1, S("deploy")) == Act(Bind(1, []));
    assert !DictHas(v.pairs, Str("deploy"));
    CanaryCopy();
    var c := [Entry(S("canary"), Act(Bind(2, [])))];
    assert IndexOf(c, Default) == -1;
    assert Put(c, Default, Act(Bind(1, []))) == DeployTree()[0].v.es;
    assert IndexOf(es1, S("deploy")) == 0;
  }

  lemma CanaryDefault(rest: seq<string>)
    requires rest == [] || rest == ["x"]
    ensures Call(DeployTree()[0].v.es, rest) == Returned(true, Some(Invocation(1, Strs(rest))))
  {
    var sub := DeployTree()[0].v.es;
    if rest != [] {
      assert !("x" <= "canary") by { assert "x"[0] != "canary"[0]; }
      assert Matches(sub, "x") == [];
    }
    assert IndexOf(sub, Default) == 1;
    assert GetItem(sub, Default) == Act(Bind(1, []));
    UnresolvedFallsBack(sub, rest);
    assert Invoke(Bind(1, []), Strs(rest)) == Invocation(1, Strs(rest));
  }

  /** "canary", or any abbreviation of it such as "can", calls `g`. */
  lemma CanaryNamed(word: string)
    requires word == "canary" || word == "can"
    ensures Call(DeployTree()[0].v.es, [word]) == Returned(true, Some(Invocation(2, [])))
  {
    var sub := DeployTree()[0].v.es;
    if word == "canary" {
      assert Matches(sub, word) == ["canary"];
    } else {
      assert "can" <= "canary";
      assert Matches(sub, "can") == ["canary"];
    }
    assert GetItem(sub, S(word)) == Act(Bind(2, []));
    ResolvedTokenDecides(sub, word, []);
    assert Strs([]) == [];
    assert Invoke(Bind(2, []), Strs([])) == Invocation(2, []);
  }

  lemma DeployEnters(t: string, rest: seq<string>)
    requires t == "deploy" || t == "dep"
    ensures Call(DeployTree(), [t] + rest) == Call(DeployTree()[0].v.es, rest)
  {
    var es := DeployTree();
    if t == "deploy" {
      assert Matches(es, "deploy") == ["deploy"];
    } else {
      assert Matches(es, "dep") == ["deploy"];
    }
    ResolvedTokenDecides(es, t, rest);
  }

  lemma DeployAlone()
    ensures Call(DeployTree(), ["deploy"]) == Returned(true, Some(Invocation(1, [])))
  {
    DeployEnters("deploy", []);
    assert ["deploy"] + [] == ["deploy"];
    CanaryDefault([]);
    assert Strs([]) == [];
  }

  lemma DeployToCanary()
    ensures Call(DeployTree(), ["deploy", "canary"]) == Returned(true, Some(Invocation(2, [])))
  {
    DeployEnters("deploy", ["canary"]);
    assert ["deploy"] + ["canary"] == ["deploy", "canary"];
    CanaryNamed("canary");
  }

  lemma DeployAbbreviated()
    ensures Call(DeployTree(), ["dep", "can"]) == Returned(true, Some(Invocation(2, [])))
  {
    DeployEnters("dep", ["can"]);
    assert ["dep"] + ["can"] == ["dep", "can"];
    CanaryNamed("can");
  }

  lemma DeployUnknownWord()
    ensures Call(DeployTree(), ["deploy", "x"]) == Returned(true, Some(Invocation(1, [Str("x")])))
  {
    DeployEnters("deploy", ["x"]);
    assert ["deploy"] + ["x"] == ["deploy", "x"];
    CanaryDefault(["x"]);
    assert Strs(["x"]) == [Str("x")];
  }

  /** After `("deploy", f)` and then `("deploy", {"canary": g})`, the action
      `f` moves under the default slot of a new "deploy" subcommand:
      "deploy" alone still calls `f`, "deploy canary" (or "dep can") calls
      `g`, and an unknown word after "deploy" is passed to `f`
      (core.py:196-201, 209-223). */
  lemma DeployCanary()
    ensures var es1 := ExtendKv([], Str("deploy"), [Func(1)]).es;
      var r := ExtendKv(es1, Str("deploy"), [Dict([Pair(Str("canary"), Func(2))])]);
      && r.err.None?
      && Call(r.es, ["deploy"]) == Returned(true, Some(Invocation(1, [])))
      && Call(r.es, ["deploy", "canary"]) == Returned(true, Some(Invocation(2, [])))
      && Call(r.es, ["dep", "can"]) == Returned(true, Some(Invocation(2, [])))
      && Call(r.es, ["deploy", "x"]) == Returned(true, Some(Invocation(1, [Str("x")])))
  {
    ActionIntoEmpty("deploy", 1);
    DeploySecond();
    DeployAlone();
    DeployToCanary();
    DeployAbbreviated();
    DeployUnknownWord();
  }

  // ---------------------------------------------------------------------
  // Writes use the key as given
  // ---------------------------------------------------------------------

  lemma DepWrite()
    ensures ExtendKv([Entry(S("deploy"), Act(Bind(1, [])))], Str("dep"), [Func(2)])
      == Outcome([Entry(S("deploy"), Act(Bind(1, []))), Entry(S("dep"), Act(Bind(2, [])))], None)
  {
    var es := [Entry(S("deploy"), Act(Bind(1, [])))];
    assert Matches(es, "dep") == ["deploy"];
    assert ExtendKv(es, Str("dep"), [Func(2)]) == ExtendPresent(es, Str("dep"), [Func(2)]);
    assert GetItem(es, S("dep")) == Act(Bind(1, []));
    assert [Func(2)][1..] == [];
    assert IndexOf(es, S("dep")) == -1;
  }

  /** The level after "dep" was written beside "deploy". */
  function DeployAndDep(): seq<Entry> {
    [Entry(S("deploy"), Act(Bind(1, []))), Entry(S("dep"), Act(Bind(2, [])))]
  }

  lemma DepIsAmbiguous()
    ensures Call(DeployAndDep(), ["dep"]) == Returned(false, None)
  {
    var es := DeployAndDep();
    assert Matches(es, "dep") == ["deploy", "dep"];
    assert IndexOf(es, Default) == -1;
    UnresolvedFallsBack(es, ["dep"]);
  }

  lemma DeployStillCalls()
    ensures Call(DeployAndDep(), ["deploy"]) == Returned(true, Some(Invocation(1, [])))
  {
    var es := DeployAndDep();
    assert !("deploy" <= "dep");
    assert Matches(es, "deploy") == ["deploy"];
    assert GetItem(es, S("deploy")) == Act(Bind(1, []));
    ResolvedTokenDecides(es, "deploy", []);
    assert ["deploy"] + [] == ["deploy"];
    assert Strs([]) == [];
    assert Invoke(Bind(1, []), Strs([])) == Invocation(1, []);
  }

  /** With only "deploy" defined, extending the abbreviation "dep" with an
      action adds a second key "dep" instead of replacing the "deploy"
      action; after that, "dep" is ambiguous and is no longer understood,
      while "deploy" still calls the old action (core.py:186, 203-204). */
  lemma AbbreviatedWriteAddsKey()
    ensures var r := ExtendKv([Entry(S("deploy"), Act(Bind(1, [])))], Str("dep"), [Func(2)]);
      && r.err.None?
      && Keys(r.es) == {S("deploy"), S("dep")}
      && Call(r.es, ["dep"]) == Returned(false, None)
      && Call(r.es, ["deploy"]) == Returned(true, Some(Invocation(1, [])))
  {
    DepWrite();
    var es := DeployAndDep();
    DepIsAmbiguous();
    DeployStillCalls();
    assert Keys(es) == {S("deploy"), S("dep")} by {
      assert es[0].k == S("deploy") && es[1].k == S("dep");
    }
  }

  // ---------------------------------------------------------------------
  // The placeholder
  // ---------------------------------------------------------------------

  /** A bare `("reserved",)` stores nothing, so calling "reserved" is a soft
      miss; `("reserved", None)` stores the placeholder, and calling it, with
      or without further words, raises NotImplementedError (core.py:175,
      182-183, 217-218). */
  lemma ReservedSlot()
    ensures FromArgs([Str("reserved")]) == Outcome([], None)
    ensures Call([], ["reserved"]) == Returned(false, None)
    ensures FromArgs([Str("reserved"), NoneVal]) == Outcome([Entry(S("reserved"), Unset)], None)
    ensures Call([Entry(S("reserved"), Unset)], ["reserved"]) == NotImplementedRaised
    ensures Call([Entry(S("reserved"), Unset)], ["res", "x"]) == NotImplementedRaised
  {
    assert [Str("reserved")][1..] == [];
    assert [Str("reserved"), NoneVal][1..] == [NoneVal];
    assert ExtendKv([], Str("reserved"), [NoneVal]) == ExtendAbsent([], Str("reserved"), [NoneVal]);
    var es := [Entry(S("reserved"), Unset)];
    assert Matches(es, "reserved") == ["reserved"];
    assert Matches(es, "res") == ["reserved"];
    assert GetItem(es, S("res")) == Unset && GetItem(es, S("reserved")) == Unset;
    ResolvedTokenDecides(es, "reserved", []);
    ResolvedTokenDecides(es, "res", ["x"]);
    assert ["reserved"] + [] == ["reserved"];
    assert ["res"] + ["x"] == ["res", "x"];
  }

  // ---------------------------------------------------------------------
  // `update` commits item by item
  // ---------------------------------------------------------------------

  /** `update` is not all or nothing: when its second item has a bad key,
      the first item has already been written (core.py:147-149, 171-173). */
  lemma UpdateKeepsEarlierItems()
    ensures Update([], Tuple([Tuple([Str("a"), Func(1)]), Tuple([Num(5), Func(2)])]))
      == Outcome([Entry(S("a"), Act(Bind(1, [])))], Some(ValueError))
  {
    var first := Tuple([Str("a"), Func(1)]);
    var second := Tuple([Num(5), Func(2)]);
    var xs := [first, second];
    assert [Func(1)][1..] == [];
    assert ExtendKv([], Str("a"), [Func(1)]) == ExtendAbsent([], Str("a"), [Func(1)]);
    assert ExtendKv([], Str("a"), [Func(1)]) == Outcome([Entry(S("a"), Act(Bind(1, [])))], None);
    assert Extend([], first) == Outcome([Entry(S("a"), Act(Bind(1, [])))], None);
    assert Extend([Entry(S("a"), Act(Bind(1, [])))], second) == Outcome([Entry(S("a"), Act(Bind(1, [])))], Some(ValueError));
    assert xs[1..] == [second];
    assert UpdateItems([Entry(S("a"), Act(Bind(1, [])))], [second]) == Outcome([Entry(S("a"), Act(Bind(1, [])))], Some(ValueError));
  }

  lemma PlaceholderThenAction()
    ensures Extend([], Tuple([Str("x"), NoneVal])) == Outcome([Entry(S("x"), Unset)], None)
    ensures Extend([Entry(S("x"), Unset)], Tuple([Str("x"), Func(1)])) == Outcome([Entry(S("x"), Unset)], None)
  {
    var es := [Entry(S("x"), Unset)];
    assert [Str("x"), NoneVal][1..] == [NoneVal];
    assert ExtendKv([], Str("x"), [NoneVal]) == ExtendAbsent([], Str("x"), [NoneVal]);
    assert Matches(es, "x") == ["x"];
    assert GetItem(es, S("x")) == Unset;
    assert [Str("x"), Func(1)][1..] == [Func(1)];
    assert ExtendKv(es, Str("x"), [Func(1)]) == ExtendPresent(es, Str("x"), [Func(1)]);
  }

  lemma PlaceholderFirst()
    ensures Update([], Tuple([Tuple([Str("x"), NoneVal]), Tuple([Str("x"), Func(1)])])) == Outcome([Entry(S("x"), Unset)], None)
  {
    var first := Tuple([Str("x"), NoneVal]);
    var second := Tuple([Str("x"), Func(1)]);
    var es := [Entry(S("x"), Unset)];
    PlaceholderThenAction();
    assert [first, second][1..] == [second];
    assert [second][1..] == [];
    assert UpdateItems(es, [second]) == Outcome(es, None);
  }

  lemma ActionFirst()
    ensures Update([], Tuple([Tuple([Str("x"), Func(1)]), Tuple([Str("x"), NoneVal])])) == Outcome([Entry(S("x"), Act(Bind(1, [])))], None)
  {
    var first := Tuple([Str("x"), Func(1)]);
    var second := Tuple([Str("x"), NoneVal]);
    var es := [Entry(S("x"), Act(Bind(1, [])))];
    assert [Func(1)][1..] == [];
    assert ExtendKv([], Str("x"), [Func(1)]) == ExtendAbsent([], Str("x"), [Func(1)]);
    assert Extend([], first) == Outcome(es, None);
    assert Matches(es, "x") == ["x"];
    assert GetItem(es, S("x")) == Act(Bind(1, []));
    assert ExtendKv(es, Str("x"), [NoneVal]) == ExtendPresent(es, Str("x"), [NoneVal]);
    assert Extend(es, second) == Outcome(es, None);
    assert [first, second][1..] == [second];
    assert [second][1..] == [];
    assert UpdateItems(es, [second]) == Outcome(es, None);
  }

  /** The order of the items given to `update` decides the result: the
      placeholder followed by an action leaves the placeholder, so the call
      raises; the action followed by the placeholder keeps the action
      (core.py:145-149, 182-183, 196-206). */
  lemma UpdateOrderMatters()
    ensures var placeholderFirst := Update([], Tuple([Tuple([Str("x"), NoneVal]), Tuple([Str("x"), Func(1)])]));
      Call(placeholderFirst.es, ["x"]) == NotImplementedRaised
    ensures var actionFirst := Update([], Tuple([Tuple([Str("x"), Func(1)]), Tuple([Str("x"), NoneVal])]));
      Call(actionFirst.es, ["x"]) == Returned(true, Some(Invocation(1, [])))
  {
    PlaceholderFirst();
    ActionFirst();
    var es1 := [Entry(S("x"), Unset)];
    var es2 := [Entry(S("x"), Act(Bind(1, [])))];
    assert Matches(es1, "x") == ["x"] && Matches(es2, "x") == ["x"];
    assert GetItem(es1, S("x")) == Unset && GetItem(es2, S("x")) == Act(Bind(1, []));
    ResolvedTokenDecides(es1, "x", []);
    ResolvedTokenDecides(es2, "x", []);
    assert ["x"] + [] == ["x"];
    assert Invoke(Bind(1, []), Strs([])) == Invocation(1, []);
  }

  // ---------------------------------------------------------------------
  // A key that is a prefix of another key
  // ---------------------------------------------------------------------

  /** With the keys "start" and "starts", extending "start" with an action
      does not reach the "start" subcommand: "start" is not contained, so it
      counts as absent and its subcommand is overwritten by the action
      (core.py:119, 177-181). With "start" alone the subcommand would be kept
      (ExtensionFacts.ExtendOntoSubcommand). */
  lemma PrefixKeyIsOverwritten()
    ensures ExtendKv([Entry(S("start"), Sub([])), Entry(S("starts"), Unset)], Str("start"), [Func(1)])
      == Outcome([Entry(S("start"), Act(Bind(1, []))), Entry(S("starts"), Unset)], None)
  {
    var es := [Entry(S("start"), Sub([])), Entry(S("starts"), Unset)];
    assert Matches(es, "start") == ["start", "starts"];
    assert ExtendKv(es, Str("start"), [Func(1)]) == ExtendAbsent(es, Str("start"), [Func(1)]);
    assert [Func(1)][1..] == [];
    assert IndexOf(es, S("start")) == 0;
  }

  // ---------------------------------------------------------------------
  // Extending twice with the same item
  // ---------------------------------------------------------------------

  /** The payload `{None: f2, "a": f3}`. */
  function DefaultAndA(): Item {
    Dict([Pair(NoneVal, Func(2)), Pair(Str("a"), Func(3))])
  }

  /** The level that `cmdict({None: f2, "a": f3})` builds. */
  function DefaultAndALevel(): seq<Entry> {
    [Entry(Default, Act(Bind(2, []))), Entry(S("a"), Act(Bind(3, [])))]
  }

  lemma DefaultAndACopy()
    ensures Construct(DefaultAndA()) == Outcome(DefaultAndALevel(), None)
  {
    var ps := DefaultAndA().pairs;
    var d := [Entry(Default, Act(Bind(2, [])))];
    assert [Func(2)][1..] == [] && [Func(3)][1..] == [];
    assert ExtendKv([], NoneVal, [Func(2)]) == ExtendAbsent([], NoneVal, [Func(2)]);
    assert ExtendKv([], NoneVal, [Func(2)]) == Outcome(d, None);
    assert Matches(d, "a") == [];
    assert ExtendKv(d, Str("a"), [Func(3)]) == ExtendAbsent(d, Str("a"), [Func(3)]);
    assert IndexOf(d, S("a")) == -1;
    assert ExtendKv(d, Str("a"), [Func(3)]) == Outcome(DefaultAndALevel(), None);
    assert ps[1..] == [Pair(Str("a"), Func(3))] && ps[1..][1..] == [];
    assert UpdatePairs(d, ps[1..]) == Outcome(DefaultAndALevel(), None);
  }

  /** Merging `DefaultAndALevel` into a level with the same keys writes its
      values over the old ones (core.py:190-204). */
  lemma MergeDefaultAndA(b0: Bind, b1: Bind)
    ensures MergeFrom([Entry(Default, Act(b0)), Entry(S("a"), Act(b1))], DefaultAndALevel(), 0)
      == DefaultAndALevel()
  {
    var c := [Entry(Default, Act(b0)), Entry(S("a"), Act(b1))];
    var src := DefaultAndALevel();
    assert IndexOf(c, Default) == 0;
    var c1 := [Entry(Default, Act(Bind(2, []))), Entry(S("a"), Act(b1))];
    assert ExtendEntry(c, Default, Act(Bind(2, []))) == c1;
    assert c1[1..] == [Entry(S("a"), Act(b1))] && c1[1..][1..] == [];
    assert Matches(c1[1..][1..], "a") == [];
    assert Matches(c1[1..], "a") == ["a"];
    assert Matches(c1, "a") == ["a"];
    assert IndexOf(c1, S("a")) == 1;
    assert ExtendEntry(c1, S("a"), Act(Bind(3, []))) == src;
  }

  /** Extending the same item twice is not idempotent when the key already
      holds an action `f1`: `("k", {None: f2, "a": f3})` makes "k" a
      subcommand whose default keeps `f1`, and the same item again merges the
      payload's default `f2` over it (core.py:187-204). */
  lemma ExtendTwiceChangesDefault()
    ensures var es0 := [Entry(S("k"), Act(Bind(1, [])))];
      var r1 := ExtendKv(es0, Str("k"), [DefaultAndA()]);
      var r2 := ExtendKv(r1.es, Str("k"), [DefaultAndA()]);
      && r1.err.None? && r2.err.None?
      && Call(r1.es, ["k"]) == Returned(true, Some(Invocation(1, [])))
      && Call(r2.es, ["k"]) == Returned(true, Some(Invocation(2, [])))
  {
    var es0 := [Entry(S("k"), Act(Bind(1, [])))];
    var v := DefaultAndA();
    DefaultAndACopy();
    assert Matches(es0, "k") == ["k"];
    assert ExtendKv(es0, Str("k"), [v]) == ExtendPresent(es0, Str("k"), [v]);
    assert GetItem(es0, S("k")) == Act(Bind(1, []));
    assert !DictHas(v.pairs, Str("k"));
    var sub1 := [Entry(Default, Act(Bind(1, []))), Entry(S("a"), Act(Bind(3, [])))];
    assert IndexOf(DefaultAndALevel(), Default) == 0;
    assert Put(DefaultAndALevel(), Default, Act(Bind(1, []))) == sub1;
    assert IndexOf(es0, S("k")) == 0;
    var es1 := [Entry(S("k"), Sub(sub1))];
    assert ExtendKv(es0, Str("k"), [v]) == Outcome(es1, None);

    assert Matches(es1, "k") == ["k"];
    assert ExtendKv(es1, Str("k"), [v]) == ExtendPresent(es1, Str("k"), [v]);
    assert GetItem(es1, S("k")) == Sub(sub1);
    MergeDefaultAndA(Bind(1, []), Bind(3, []));
    assert IndexOf(es1, S("k")) == 0;
    var es2 := [Entry(S("k"), Sub(DefaultAndALevel()))];
    assert ExtendKv(es1, Str("k"), [v]) == Outcome(es2, None);

    CallsDefault(es1, sub1, Bind(1, []));
    CallsDefault(es2, DefaultAndALevel(), Bind(2, []));
  }

  /** "k" alone enters the subcommand at "k" and calls its default. */
  lemma CallsDefault(es: seq<Entry>, sub: seq<Entry>, b: Bind)
    requires es == [Entry(S("k"), Sub(sub))]
    requires sub == [Entry(Default, Act(b)), Entry(S("a"), Act(Bind(3, [])))]
    ensures Call(es, ["k"]) == Returned(true, Some(Invocation(b.f, b.args)))
  {
    assert Matches(es, "k") == ["k"];
    assert GetItem(es, S("k")) == Sub(sub);
    ResolvedTokenDecides(es, "k", []);
    assert ["k"] + [] == ["k"];
    assert IndexOf(sub, Default) == 0;
    assert GetItem(sub, Default) == Act(b);
    UnresolvedFallsBack(sub, []);
    assert Strs([]) == [];
    assert Invoke(b, []) == Invocation(b.f, b.args);
  }

  /** When the key starts out absent, extending the same item a second time
      changes nothing (core.py:177-179, 190-193). */
  lemma ExtendTwiceFromAbsent()
    ensures var r1 := ExtendKv([], Str("k"), [DefaultAndA()]);
      && r1.err.None?
      && ExtendKv(r1.es, Str("k"), [DefaultAndA()]) == r1
  {
    var v := DefaultAndA();
    DefaultAndACopy();
    assert ExtendKv([], Str("k"), [v]) == ExtendAbsent([], Str("k"), [v]);
    var es1 := [Entry(S("k"), Sub(DefaultAndALevel()))];
    assert ExtendKv([], Str("k"), [v]) == Outcome(es1, None);
    assert Matches(es1, "k") == ["k"];
    assert ExtendKv(es1, Str("k"), [v]) == ExtendPresent(es1, Str("k"), [v]);
    assert GetItem(es1, S("k")) == Sub(DefaultAndALevel());
    MergeDefaultAndA(Bind(2, []), Bind(3, []));
    assert IndexOf(es1, S("k")) == 0;
  }

  // ---------------------------------------------------------------------
  // Dispatch
  // ---------------------------------------------------------------------

  /** An empty first word never selects a command, even though it is a
      prefix of every key: it goes to the default action together with the
      other words (core.py:212, 220-222). */
  lemma EmptyWordGoesToDefault()
    ensures var es := [Entry(S("run"), Act(Bind(1, []))), Entry(Default, Act(Bind(9, [])))];
      Call(es, ["", "x"]) == Returned(true, Some(Invocation(9, [Str(""), Str("x")])))
  {
    var es := [Entry(S("run"), Act(Bind(1, []))), Entry(Default, Act(Bind(9, [])))];
    assert IndexOf(es, Default) == 1;
    assert GetItem(es, Default) == Act(Bind(9, []));
    UnresolvedFallsBack(es, ["", "x"]);
    assert Strs(["", "x"]) == [Str(""), Str("x")];
    assert Invoke(Bind(9, []), Strs(["", "x"])) == Invocation(9, [Str(""), Str("x")]);
  }

  lemma GitPushTree()
    ensures FromArgs([Str("git"), Str("push"), Func(3), Str("-f")])
      == Outcome([Entry(S("git"), Sub([Entry(S("push"), Act(Bind(3, [Str("-f")])))]))], None)
  {
    var args := [Str("git"), Str("push"), Func(3), Str("-f")];
    assert args[1..] == [Str("push"), Func(3), Str("-f")];
    assert args[1..][1..] == [Func(3), Str("-f")];
    assert [Func(3), Str("-f")][1..] == [Str("-f")];
    assert ExtendKv([], Str("push"), [Func(3), Str("-f")]) == ExtendAbsent([], Str("push"), [Func(3), Str("-f")]);
    assert ExtendKv([], Str("push"), [Func(3), Str("-f")]) == Outcome([Entry(S("push"), Act(Bind(3, [Str("-f")])))], None);
    assert ExtendKv([], Str("git"), args[1..]) == ExtendAbsent([], Str("git"), args[1..]);
  }

  lemma GitPushCall()
    ensures Call([Entry(S("git"), Sub([Entry(S("push"), Act(Bind(3, [Str("-f")])))]))], ["g", "p", "origin"])
      == Returned(true, Some(Invocation(3, [Str("-f"), Str("origin")])))
  {
    var sub := [Entry(S("push"), Act(Bind(3, [Str("-f")])))];
    var es := [Entry(S("git"), Sub(sub))];
    assert Matches(es, "g") == ["git"];
    assert GetItem(es, S("g")) == Sub(sub);
    ResolvedTokenDecides(es, "g", ["p", "origin"]);
    assert ["g"] + ["p", "origin"] == ["g", "p", "origin"];
    PushCall();
  }

  lemma PushCall()
    ensures Call([Entry(S("push"), Act(Bind(3, [Str("-f")])))], ["p", "origin"])
      == Returned(true, Some(Invocation(3, [Str("-f"), Str("origin")])))
  {
    var sub := [Entry(S("push"), Act(Bind(3, [Str("-f")])))];
    assert Matches(sub, "p") == ["push"];
    assert GetItem(sub, S("p")) == Act(Bind(3, [Str("-f")]));
    ResolvedTokenDecides(sub, "p", ["origin"]);
    assert ["p"] + ["origin"] == ["p", "origin"];
    assert Strs(["origin"]) == [Str("origin")];
    assert Invoke(Bind(3, [Str("-f")]), Strs(["origin"])) == Invocation(3, [Str("-f"), Str("origin")]);
  }

  /** `fromargs("git", "push", f, "-f")` spells a path: "g p origin", the
      abbreviation of "git push origin", calls `f("-f", "origin")`
      (core.py:154-158, 184-185, 213-216). */
  lemma FromArgsPath()
    ensures Call(FromArgs([Str("git"), Str("push"), Func(3), Str("-f")]).es, ["g", "p", "origin"])
      == Returned(true, Some(Invocation(3, [Str("-f"), Str("origin")])))
  {
    GitPushTree();
    GitPushCall();
  }

  // ---------------------------------------------------------------------
  // Copying a dictionary resolves its keys again
  // ---------------------------------------------------------------------

  /** The "starts" subcommand of `ShadowTree`: "a" calls 2, the default calls 1. */
  function ShadowSub(): seq<Entry> {
    [Entry(S("a"), Act(Bind(2, []))), Entry(Default, Act(Bind(1, [])))]
  }

  /** A level where the key "start" comes after the longer key "starts". */
  function ShadowTree(): seq<Entry> {
    [Entry(S("starts"), Sub(ShadowSub())), Entry(S("start"), Act(Bind(3, [])))]
  }

  lemma ShadowStep2()
    ensures ExtendKv([Entry(S("starts"), Act(Bind(1, [])))], Str("start"), [Func(3)])
      == Outcome([Entry(S("starts"), Act(Bind(1, []))), Entry(S("start"), Act(Bind(3, [])))], None)
  {
    var es := [Entry(S("starts"), Act(Bind(1, [])))];
    assert Matches(es, "start") == ["starts"];
    assert ExtendKv(es, Str("start"), [Func(3)]) == ExtendPresent(es, Str("start"), [Func(3)]);
    assert GetItem(es, S("start")) == Act(Bind(1, []));
    assert [Func(3)][1..] == [];
    assert IndexOf(es, S("start")) == -1;
  }

  lemma ShadowStep3()
    ensures ExtendKv([Entry(S("starts"), Act(Bind(1, []))), Entry(S("start"), Act(Bind(3, [])))],
                     Str("starts"), [Dict([Pair(Str("a"), Func(2))])])
      == Outcome(ShadowTree(), None)
  {
    var es := [Entry(S("starts"), Act(Bind(1, []))), Entry(S("start"), Act(Bind(3, [])))];
    var v := Dict([Pair(Str("a"), Func(2))]);
    assert !("starts" <= "start");
    assert Matches(es, "starts") == ["starts"];
    assert ExtendKv(es, Str("starts"), [v]) == ExtendPresent(es, Str("starts"), [v]);
    assert GetItem(es, S("starts")) == Act(Bind(1, []));
    assert !DictHas(v.pairs, Str("starts"));
    var c := [Entry(S("a"), Act(Bind(2, [])))];
    assert [Func(2)][1..] == [];
    ActionIntoEmpty("a", 2);
    assert [Pair(Str("a"), Func(2))][1..] == [];
    assert Construct(v) == Outcome(c, None);
    assert IndexOf(c, Default) == -1;
    assert Put(c, Default, Act(Bind(1, []))) == ShadowSub();
    assert IndexOf(es, S("starts")) == 0;
  }

  /** `update` with `("starts", f1)`, `("start", f3)` and
      `("starts", {"a": f2})`, in that order, builds `ShadowTree`: "start" is
      written beside "starts" as given, and "starts" is then promoted in
      place (core.py:145-149, 196-204). */
  lemma ShadowTreeIsBuilt()
    ensures Update([], Tuple([Tuple([Str("starts"), Func(1)]), Tuple([Str("start"), Func(3)]),
                              Tuple([Str("starts"), Dict([Pair(Str("a"), Func(2))])])]))
      == Outcome(ShadowTree(), None)
  {
    var x1 := Tuple([Str("starts"), Func(1)]);
    var x2 := Tuple([Str("start"), Func(3)]);
    var x3 := Tuple([Str("starts"), Dict([Pair(Str("a"), Func(2))])]);
    var es1 := [Entry(S("starts"), Act(Bind(1, [])))];
    var es2 := [Entry(S("starts"), Act(Bind(1, []))), Entry(S("start"), Act(Bind(3, [])))];
    ActionIntoEmpty("starts", 1);
    ShadowStep2();
    ShadowStep3();
    assert x1.elems[1..] == [Func(1)] && x2.elems[1..] == [Func(3)];
    assert x3.elems[1..] == [Dict([Pair(Str("a"), Func(2))])];
    assert Extend([], x1) == Outcome(es1, None);
    assert Extend(es1, x2) == Outcome(es2, None);
    assert Extend(es2, x3) == Outcome(ShadowTree(), None);
    assert [x1, x2, x3][1..] == [x2, x3];
    assert [x2, x3][1..] == [x3];
    assert [x3][1..] == [];
  }

  lemma ShadowSubCopied()
    ensures Copy(ShadowSub()) == ShadowSub()
  {
    var src := ShadowSub();
    var a := [Entry(S("a"), Act(Bind(2, [])))];
    assert ExtendEntry([], S("a"), Act(Bind(2, []))) == a;
    assert IndexOf(a, Default) == -1;
    assert ExtendEntry(a, Default, Act(Bind(1, []))) == src;
    assert MergeFrom(src, src, 2) == src;
    assert MergeFrom(a, src, 1) == src;
  }

  /** What `cmdict(ShadowTree())` holds. */
  function ShadowCopy(): seq<Entry> {
    [Entry(S("starts"), Sub([Entry(S("a"), Act(Bind(2, []))), Entry(Default, Act(Bind(3, [])))]))]
  }

  lemma ShadowTreeCopied()
    ensures Copy(ShadowTree()) == ShadowCopy()
  {
    var src := ShadowTree();
    var first := [Entry(S("starts"), Sub(ShadowSub()))];
    ShadowSubCopied();
    assert ExtendEntry([], S("starts"), Sub(ShadowSub())) == first;
    assert Matches(first, "start") == ["starts"];
    assert GetItem(first, S("start")) == Sub(ShadowSub());
    assert Resolve(first, S("start")) == S("starts");
    assert IndexOf(ShadowSub(), Default) == 1;
    assert Put(ShadowSub(), Default, Act(Bind(3, []))) == ShadowCopy()[0].v.es;
    assert IndexOf(first, S("starts")) == 0;
    assert ExtendEntry(first, S("start"), Act(Bind(3, []))) == ShadowCopy();
    assert MergeFrom(ShadowCopy(), src, 2) == ShadowCopy();
    assert MergeFrom(first, src, 1) == ShadowCopy();
  }

  lemma ShadowCalls()
    ensures Call(ShadowTree(), ["starts"]) == Returned(true, Some(Invocation(1, [])))
    ensures Call(ShadowCopy(), ["starts"]) == Returned(true, Some(Invocation(3, [])))
  {
    var t, c := ShadowTree(), ShadowCopy();
    assert !("starts" <= "start");
    assert Matches(t, "starts") == ["starts"];
    assert Matches(c, "starts") == ["starts"];
    assert GetItem(t, S("starts")) == Sub(ShadowSub());
    assert GetItem(c, S("starts")) == c[0].v;
    ResolvedTokenDecides(t, "starts", []);
    ResolvedTokenDecides(c, "starts", []);
    assert ["starts"] + [] == ["starts"];
    var sub := c[0].v.es;
    assert IndexOf(ShadowSub(), Default) == 1 && IndexOf(sub, Default) == 1;
    UnresolvedFallsBack(ShadowSub(), []);
    UnresolvedFallsBack(sub, []);
    assert GetItem(ShadowSub(), Default) == Act(Bind(1, []));
    assert GetItem(sub, Default) == Act(Bind(3, []));
    assert Strs([]) == [];
    assert Invoke(Bind(1, []), []) == Invocation(1, []);
    assert Invoke(Bind(3, []), []) == Invocation(3, []);
  }

  lemma ShadowTreeWellFormed()
    ensures WellFormed(ShadowTree())
  {
    var inner := ShadowSub();
    assert Distinct(inner);
    assert forall i :: 0 <= i < |inner| ==> !inner[i].v.Sub?;
    assert WellFormed(inner);
    var t := ShadowTree();
    assert Distinct(t);
    assert forall i :: 0 <= i < |t| ==> (t[i].v.Sub? ==> t[i].v.es == inner);
  }

  /** `cmdict(d)` is not always a copy of `d`. It re-extends the items of
      `d` one by one, so a key is resolved again against the keys copied
      before it. In `ShadowTree`, which `update` can build, "start" comes
      after "starts", and the copy reads "start" as an abbreviation of
      "starts". The action of "start" then becomes the default of the
      "starts" subcommand. The copy loses the key "start", and calling
      "starts" in the copy fires another action than in the original
      (core.py:111-114, 145-149, 177-195). */
  lemma CopyResolvesKeysAgain()
    ensures WellFormed(ShadowTree())
    ensures Copy(ShadowTree()) != ShadowTree()
    ensures S("start") in Keys(ShadowTree()) && S("start") !in Keys(Copy(ShadowTree()))
    ensures Call(ShadowTree(), ["starts"]) != Call(Copy(ShadowTree()), ["starts"])
  {
    ShadowTreeWellFormed();
    ShadowTreeCopied();
    ShadowCalls();
    assert ShadowTree()[1].k == S("start");
    assert |ShadowCopy()| == 1 && ShadowCopy()[0].k == S("starts");
  }
}
