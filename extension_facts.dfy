/** What `extend`, `update` and `fromargs` promise: the errors they raise,
    what they leave untouched, and the rule for each kind of slot the payload
    lands on (core.py:141-207). */
module ExtensionFacts {
  import opened Wrappers
  import opened Values
  import opened Entries
  import opened Resolution
  import opened Extension

  /** An error that an `extend` or `update` can raise: a `__setitem__`
      KeyError never escapes, because the head key is checked first. */
  predicate ExtendError(err: Option<Error>) {
    err == None || err == Some(TypeError) || err == Some(ValueError)
  }

  /** A contained key resolves to a key of the level. */
  lemma ResolveInKeys(es: seq<Entry>, k: Key)
    requires Contains(es, k)
    ensures Resolve(es, k) in Keys(es)
  {
    if k.S? {
      var m := Matches(es, k.s);
      assert m[0] in m;
    } else {
      assert IndexOf(es, Default) >= 0;
    }
  }

  // ---------------------------------------------------------------------
  // Errors
  // ---------------------------------------------------------------------

  /** The immediate errors of `extend` (core.py:168-173): anything but a list,
      tuple or dict is a TypeError, a head key other than a string or None is
      a ValueError, and either leaves the level as it was. An empty sequence
      and a bare `(k,)` change nothing. */
  lemma ExtendRejects(es: seq<Entry>, x: Item)
    ensures !x.Dict? && !x.Tuple? ==> Extend(es, x) == Outcome(es, Some(TypeError))
    ensures x.Tuple? && x.elems != [] && !IsKey(x.elems[0]) ==>
      Extend(es, x) == Outcome(es, Some(ValueError))
    ensures x == Tuple([]) ==> Extend(es, x) == Outcome(es, None)
    ensures x.Tuple? && |x.elems| == 1 && IsKey(x.elems[0]) ==> Extend(es, x) == Outcome(es, None)
  {
  }

  /** `update` of anything but a list, tuple or dict raises TypeError and
      writes nothing (core.py:142-143). */
  lemma UpdateRejects(es: seq<Entry>, x: Item)
    ensures !x.Dict? && !x.Tuple? ==> Update(es, x) == Outcome(es, Some(TypeError))
  {
  }

  lemma ExtendAbsentAtomic(es: seq<Entry>, k: Item, kvlist: seq<Item>)
    requires IsKey(k) && kvlist != []
    ensures ExtendAbsent(es, k, kvlist).err.Some? ==> ExtendAbsent(es, k, kvlist).es == es
  {
  }

  lemma ExtendPresentAtomic(es: seq<Entry>, k: Item, kvlist: seq<Item>)
    requires IsKey(k) && kvlist != []
    ensures ExtendPresent(es, k, kvlist).err.Some? ==> ExtendPresent(es, k, kvlist).es == es
  {
  }

  /** One path is all or nothing: when extending one key raises, that level
      is exactly as before (core.py:171-207). */
  lemma ExtendKvAtomic(es: seq<Entry>, k: Item, kvlist: seq<Item>)
    ensures ExtendKv(es, k, kvlist).err.Some? ==> ExtendKv(es, k, kvlist).es == es
  {
    if IsKey(k) && kvlist != [] {
      if Contains(es, KeyOf(k)) {
        ExtendPresentAtomic(es, k, kvlist);
      } else {
        ExtendAbsentAtomic(es, k, kvlist);
      }
    }
  }

  lemma {:induction false} ConstructErrors(x: Item)
    ensures ExtendError(Construct(x).err)
    decreases Size(x), 2
  {
    if Truthy(x) {
      UpdateErrors([], x);
    }
  }

  lemma {:induction false} UpdateErrors(es: seq<Entry>, other: Item)
    ensures ExtendError(Update(es, other).err)
    decreases Size(other), 1
  {
    match other
    case Dict(ps) => UpdatePairsErrors(es, ps);
    case Tuple(xs) => UpdateItemsErrors(es, xs);
    case _ =>
  }

  lemma {:induction false} UpdatePairsErrors(es: seq<Entry>, ps: seq<Pair>)
    ensures ExtendError(UpdatePairs(es, ps).err)
    decreases Size(Dict(ps)), 0
  {
    if ps != [] {
      DictSize(ps);
      SingletonSize(ps[0].value);
      ExtendKvErrors(es, ps[0].key, [ps[0].value]);
      var o := ExtendKv(es, ps[0].key, [ps[0].value]);
      if o.err.None? {
        UpdatePairsErrors(o.es, ps[1..]);
      }
    }
  }

  lemma {:induction false} UpdateItemsErrors(es: seq<Entry>, xs: seq<Item>)
    ensures ExtendError(UpdateItems(es, xs).err)
    decreases Size(Tuple(xs)), 0
  {
    if xs != [] {
      TupleSize(xs);
      if !Truthy(xs[0]) {
        UpdateItemsErrors(es, xs[1..]);
      } else {
        ExtendErrors(es, xs[0]);
        var o := Extend(es, xs[0]);
        if o.err.None? {
          UpdateItemsErrors(o.es, xs[1..]);
        }
      }
    }
  }

  lemma {:induction false} ExtendErrors(es: seq<Entry>, x: Item)
    ensures ExtendError(Extend(es, x).err)
    decreases Size(x), 3
  {
    match x
    case Dict(_) => UpdateErrors(es, x);
    case Tuple(xs) =>
      if xs != [] {
        TupleSize(xs);
        ExtendKvErrors(es, xs[0], xs[1..]);
      }
    case _ =>
  }

  lemma {:induction false} ExtendKvErrors(es: seq<Entry>, k: Item, kvlist: seq<Item>)
    ensures ExtendError(ExtendKv(es, k, kvlist).err)
    decreases Size(k) + Size(Tuple(kvlist)), 1
  {
    if IsKey(k) && kvlist != [] {
      if !Contains(es, KeyOf(k)) {
        ExtendAbsentErrors(es, k, kvlist);
      } else {
        ExtendPresentErrors(es, k, kvlist);
      }
    }
  }

  lemma {:induction false} ExtendAbsentErrors(es: seq<Entry>, k: Item, kvlist: seq<Item>)
    requires IsKey(k) && kvlist != []
    ensures ExtendError(ExtendAbsent(es, k, kvlist).err)
    decreases Size(k) + Size(Tuple(kvlist)), 0
  {
    TupleSize(kvlist);
    var v := kvlist[0];
    if v.Dict? {
      ConstructErrors(v);
    } else if !Callable(v) && !v.NoneVal? && |kvlist| > 1 {
      ExtendKvErrors([], kvlist[0], kvlist[1..]);
    }
  }

  lemma {:induction false} ExtendPresentErrors(es: seq<Entry>, k: Item, kvlist: seq<Item>)
    requires IsKey(k) && kvlist != []
    ensures ExtendError(ExtendPresent(es, k, kvlist).err)
    decreases Size(k) + Size(Tuple(kvlist)), 0
  {
    TupleSize(kvlist);
    var v := kvlist[0];
    if v.Dict? {
      ConstructErrors(v);
    } else if |kvlist| > 1 {
      ExtendKvErrors([], kvlist[0], kvlist[1..]);
    }
  }

  /** `fromargs` raises only what `extend` raises (core.py:154-158). */
  lemma FromArgsErrors(args: seq<Item>)
    ensures ExtendError(FromArgs(args).err)
  {
    ExtendErrors([], Tuple(args));
  }

  // ---------------------------------------------------------------------
  // What is left untouched
  // ---------------------------------------------------------------------

  /** `es'` differs from `es` at most in the slot `a`, and has all its keys. */
  ghost predicate WritesOnly(es: seq<Entry>, es': seq<Entry>, a: Key) {
    && Keys(es) <= Keys(es') <= Keys(es) + {a}
    && forall k' :: k' != a ==> Lookup(es', k') == Lookup(es, k')
  }

  lemma ExtendAbsentFrame(es: seq<Entry>, k: Item, kvlist: seq<Item>)
    requires IsKey(k) && kvlist != []
    ensures WritesOnly(es, ExtendAbsent(es, k, kvlist).es, KeyOf(k))
  {
  }

  lemma ExtendPresentFrame(es: seq<Entry>, k: Item, kvlist: seq<Item>)
    requires IsKey(k) && kvlist != [] && Contains(es, KeyOf(k))
    ensures WritesOnly(es, ExtendPresent(es, k, kvlist).es, Resolve(es, KeyOf(k)))
      || WritesOnly(es, ExtendPresent(es, k, kvlist).es, KeyOf(k))
  {
    ResolveInKeys(es, KeyOf(k));
    match GetItem(es, KeyOf(k))
    case Sub(_) => PresentSubFrame(es, k, kvlist);
    case Act(_) => PresentOtherFrame(es, k, kvlist);
    case Unset => PresentOtherFrame(es, k, kvlist);
  }

  lemma PresentSubFrame(es: seq<Entry>, k: Item, kvlist: seq<Item>)
    requires IsKey(k) && kvlist != [] && Contains(es, KeyOf(k)) && GetItem(es, KeyOf(k)).Sub?
    requires Resolve(es, KeyOf(k)) in Keys(es)
    ensures WritesOnly(es, ExtendPresent(es, k, kvlist).es, Resolve(es, KeyOf(k)))
  {
  }

  lemma PresentOtherFrame(es: seq<Entry>, k: Item, kvlist: seq<Item>)
    requires IsKey(k) && kvlist != [] && Contains(es, KeyOf(k)) && !GetItem(es, KeyOf(k)).Sub?
    ensures WritesOnly(es, ExtendPresent(es, k, kvlist).es, KeyOf(k))
  {
    var key := KeyOf(k);
    var v := kvlist[0];
    match GetItem(es, key)
    case Sub(_) =>
    case Act(b) =>
      if v.Dict? {
        var w := Construct(v);
        if w.err.None? {
          if !DictHas(v.pairs, k) || DictGet(v.pairs, k) == NoneVal {
            PutWritesOnly(es, key, Sub(Put(w.es, Default, Act(b))));
          } else {
            PutWritesOnly(es, key, Sub(w.es));
          }
        }
      } else if Callable(v) {
        PutWritesOnly(es, key, Act(Rebind(v, kvlist[1..])));
      }
    case Unset =>
      if |kvlist| > 1 {
        var n := ExtendKv([], kvlist[0], kvlist[1..]);
        if n.err.None? {
          PutWritesOnly(es, key, Sub(n.es));
        }
      }
  }

  lemma PutWritesOnly(es: seq<Entry>, k: Key, v: Val)
    ensures WritesOnly(es, Put(es, k, v), k)
  {
  }

  /** Extending one key writes at most one slot of the level: the key as
      given, or the key it resolves to; and no key goes away. */
  lemma ExtendKvFrame(es: seq<Entry>, k: Item, kvlist: seq<Item>)
    requires IsKey(k)
    ensures var r := ExtendKv(es, k, kvlist);
      forall k' :: k' != KeyOf(k) && k' != Resolve(es, KeyOf(k)) ==> Lookup(r.es, k') == Lookup(es, k')
    ensures Keys(es) <= Keys(ExtendKv(es, k, kvlist).es) <= Keys(es) + {KeyOf(k)}
    ensures WritesOnly(es, ExtendKv(es, k, kvlist).es, KeyOf(k))
      || WritesOnly(es, ExtendKv(es, k, kvlist).es, Resolve(es, KeyOf(k)))
  {
    var key := KeyOf(k);
    if kvlist != [] {
      if Contains(es, key) {
        ResolveInKeys(es, key);
        ExtendPresentFrame(es, k, kvlist);
      } else {
        ExtendAbsentFrame(es, k, kvlist);
      }
    }
  }

  /** `cmdict(v).extend((k, w))` for an entry taken out of a command
      dictionary: likewise at most one slot is written, and no key goes away. */
  lemma ExtendEntryKeys(es: seq<Entry>, k: Key, v: Val)
    ensures Keys(es) <= Keys(ExtendEntry(es, k, v)) <= Keys(es) + {k}
  {
    if Contains(es, k) {
      ResolveInKeys(es, k);
    }
  }

  /** Merging a command dictionary into a level keeps every key of the level
      and adds only keys of the merged dictionary. */
  lemma {:induction false} MergeFromKeys(es: seq<Entry>, src: seq<Entry>, i: nat)
    requires i <= |src|
    ensures Keys(es) <= Keys(MergeFrom(es, src, i)) <= Keys(es) + Keys(src)
    decreases |src| - i
  {
    if i < |src| {
      var es' := ExtendEntry(es, src[i].k, src[i].v);
      ExtendEntryKeys(es, src[i].k, src[i].v);
      MergeFromKeys(es', src, i + 1);
    }
  }

  lemma {:induction false} UpdateKeysGrow(es: seq<Entry>, other: Item)
    ensures Keys(es) <= Keys(Update(es, other).es)
    decreases Size(other), 1
  {
    match other
    case Dict(ps) => UpdatePairsKeysGrow(es, ps);
    case Tuple(xs) => UpdateItemsKeysGrow(es, xs);
    case _ =>
  }

  lemma {:induction false} UpdatePairsKeysGrow(es: seq<Entry>, ps: seq<Pair>)
    ensures Keys(es) <= Keys(UpdatePairs(es, ps).es)
    decreases Size(Dict(ps)), 0
  {
    if ps != [] {
      DictSize(ps);
      SingletonSize(ps[0].value);
      var o := ExtendKv(es, ps[0].key, [ps[0].value]);
      if IsKey(ps[0].key) {
        ExtendKvFrame(es, ps[0].key, [ps[0].value]);
      }
      if o.err.None? {
        UpdatePairsKeysGrow(o.es, ps[1..]);
      }
    }
  }

  lemma {:induction false} UpdateItemsKeysGrow(es: seq<Entry>, xs: seq<Item>)
    ensures Keys(es) <= Keys(UpdateItems(es, xs).es)
    decreases Size(Tuple(xs)), 0
  {
    if xs != [] {
      TupleSize(xs);
      if !Truthy(xs[0]) {
        UpdateItemsKeysGrow(es, xs[1..]);
      } else {
        var o := Extend(es, xs[0]);
        ExtendKeysGrow(es, xs[0]);
        if o.err.None? {
          UpdateItemsKeysGrow(o.es, xs[1..]);
        }
      }
    }
  }

  /** No `extend` or `update` removes a key, even one that raised half way. */
  lemma {:induction false} ExtendKeysGrow(es: seq<Entry>, x: Item)
    ensures Keys(es) <= Keys(Extend(es, x).es)
    decreases Size(x), 3
  {
    match x
    case Dict(_) => UpdateKeysGrow(es, x);
    case Tuple(xs) =>
      if xs != [] && IsKey(xs[0]) {
        TupleSize(xs);
        ExtendKvFrame(es, xs[0], xs[1..]);
      }
    case _ =>
  }

  // ---------------------------------------------------------------------
  // The slot rules of `extend((k, v, rest...))`
  // ---------------------------------------------------------------------

  /** Onto a key that is not contained (core.py:177-185): None stores the
      placeholder, a dict stores its `cmdict` copy, a callable stores
      `bind(v, *rest)`, any other value followed by more items stores the
      nested path they spell, and a single other value stores nothing. The
      key is written as given. */
  lemma ExtendOntoAbsent(es: seq<Entry>, k: Item, v: Item, rest: seq<Item>)
    requires IsKey(k) && !Contains(es, KeyOf(k))
    ensures var r := ExtendKv(es, k, [v] + rest);
      && (v.NoneVal? ==> r.err == None && Lookup(r.es, KeyOf(k)) == Some(Unset))
      && (v.Dict? ==> (r.err == Construct(v).err &&
            (r.err.None? ==> Lookup(r.es, KeyOf(k)) == Some(Sub(Construct(v).es)))))
      && (Callable(v) ==> r.err == None && Lookup(r.es, KeyOf(k)) == Some(Act(Rebind(v, rest))))
      && (!v.NoneVal? && !v.Dict? && !Callable(v) && rest != [] ==>
            (r.err == ExtendKv([], v, rest).err &&
            (r.err.None? ==> Lookup(r.es, KeyOf(k)) == Some(Sub(ExtendKv([], v, rest).es)))))
      && (!v.NoneVal? && !v.Dict? && !Callable(v) && rest == [] ==> r == Outcome(es, None))
  {
    assert ([v] + rest)[1..] == rest;
  }

  /** Onto a contained key that holds a subcommand (core.py:187-195): a dict
      payload is merged into it, a callable becomes its default action, and
      anything else (None, a nested path) changes nothing. The subcommand is
      updated at the key the probe resolves to; it stays a subcommand and
      keeps all its keys. */
  lemma ExtendOntoSubcommand(es: seq<Entry>, k: Item, v: Item, rest: seq<Item>)
    requires IsKey(k) && Contains(es, KeyOf(k)) && GetItem(es, KeyOf(k)).Sub?
    ensures var r := ExtendKv(es, k, [v] + rest);
      var at := Resolve(es, KeyOf(k));
      var c := GetItem(es, KeyOf(k)).es;
      && (v.Dict? ==> (r.err == Construct(v).err &&
            (r.err.None? ==> Lookup(r.es, at) == Some(Sub(MergeFrom(c, Construct(v).es, 0))))))
      && (Callable(v) ==> r.err == None && Lookup(r.es, at) == Some(Sub(Put(c, Default, Act(Rebind(v, rest))))))
      && (!v.Dict? && !Callable(v) ==> r == Outcome(es, None))
      && (r.err.None? ==> (Lookup(r.es, at).Some? && Lookup(r.es, at).value.Sub? &&
            Keys(c) <= Keys(Lookup(r.es, at).value.es)))
  {
    assert ([v] + rest)[1..] == rest;
    if v.Dict? {
      MergeFromKeys(GetItem(es, KeyOf(k)).es, Construct(v).es, 0);
    }
  }

  /** Onto a contained key that holds an action (core.py:196-204). A dict
      that has no entry for `k`, or maps it to None, becomes the slot's
      subcommand with the old action as its default; a dict that defines `k`
      replaces the action outright; a callable overwrites it; anything else
      changes nothing. The slot is written at `k` as given. */
  lemma ExtendOntoAction(es: seq<Entry>, k: Item, v: Item, rest: seq<Item>)
    requires IsKey(k) && Contains(es, KeyOf(k)) && GetItem(es, KeyOf(k)).Act?
    ensures var r := ExtendKv(es, k, [v] + rest);
      var old_action := GetItem(es, KeyOf(k)).b;
      && (v.Dict? ==> r.err == Construct(v).err)
      && (v.Dict? && r.err.None? && (!DictHas(v.pairs, k) || DictGet(v.pairs, k) == NoneVal) ==>
            Lookup(r.es, KeyOf(k)) == Some(Sub(Put(Construct(v).es, Default, Act(old_action)))))
      && (v.Dict? && r.err.None? && DictHas(v.pairs, k) && DictGet(v.pairs, k) != NoneVal ==>
            Lookup(r.es, KeyOf(k)) == Some(Sub(Construct(v).es)))
      && (Callable(v) ==> r.err == None && Lookup(r.es, KeyOf(k)) == Some(Act(Rebind(v, rest))))
      && (!v.Dict? && !Callable(v) ==> r == Outcome(es, None))
  {
    assert ([v] + rest)[1..] == rest;
  }

  /** Onto a contained key that holds the placeholder (core.py:205-206): only
      a payload of two or more items, a nested path, replaces it, and is
      written at `k` as given; a single dict or callable leaves it alone. */
  lemma ExtendOntoPlaceholder(es: seq<Entry>, k: Item, v: Item, rest: seq<Item>)
    requires IsKey(k) && Contains(es, KeyOf(k)) && GetItem(es, KeyOf(k)).Unset?
    ensures var r := ExtendKv(es, k, [v] + rest);
      && (rest == [] ==> r == Outcome(es, None))
      && (rest != [] ==> (r.err == ExtendKv([], v, rest).err &&
            (r.err.None? ==> Lookup(r.es, KeyOf(k)) == Some(Sub(ExtendKv([], v, rest).es)))))
  {
    assert ([v] + rest)[1..] == rest;
  }
}
