/** Building the command tree: `extend`, `update`, `fromargs` and the
    `cmdict(other)` constructor (core.py:111-114, 141-207), as functions from
    the old level to the new one. A level reached below the top is a value
    here: `self[k].update(v)` and `self[k][None] = ...` rebuild the nested
    level and put it back at the same key. */
module Extension {
  import opened Wrappers
  import opened Values
  import opened Entries
  import opened Resolution

  // ---------------------------------------------------------------------
  // Termination measure for the payloads: every nested item counts.
  // ---------------------------------------------------------------------

  function Size(x: Item): nat
    decreases x
  {
    match x
    case Tuple(_) => 1 + ElemsSize(x, 0)
    case Dict(_) => 1 + PairsSize(x, 0)
    case _ => 1
  }

  function ElemsSize(x: Item, i: nat): nat
    requires x.Tuple? && i <= |x.elems|
    decreases x, |x.elems| - i
  {
    if i == |x.elems| then 0 else 1 + Size(x.elems[i]) + ElemsSize(x, i + 1)
  }

  function PairsSize(x: Item, i: nat): nat
    requires x.Dict? && i <= |x.pairs|
    decreases x, |x.pairs| - i
  {
    if i == |x.pairs| then 0
    else 3 + Size(x.pairs[i].key) + Size(x.pairs[i].value) + PairsSize(x, i + 1)
  }

  lemma {:induction false} ElemsShift(xs: seq<Item>, i: nat)
    requires 1 <= i <= |xs|
    ensures ElemsSize(Tuple(xs), i) == ElemsSize(Tuple(xs[1..]), i - 1)
    decreases |xs| - i
  {
    if i < |xs| {
      assert xs[1..][i - 1] == xs[i];
      ElemsShift(xs, i + 1);
    }
  }

  lemma {:induction false} PairsShift(ps: seq<Pair>, i: nat)
    requires 1 <= i <= |ps|
    ensures PairsSize(Dict(ps), i) == PairsSize(Dict(ps[1..]), i - 1)
    decreases |ps| - i
  {
    if i < |ps| {
      assert ps[1..][i - 1] == ps[i];
      PairsShift(ps, i + 1);
    }
  }

  lemma TupleSize(xs: seq<Item>)
    requires xs != []
    ensures Size(Tuple(xs)) == 1 + Size(xs[0]) + Size(Tuple(xs[1..]))
  {
    ElemsShift(xs, 1);
  }

  lemma DictSize(ps: seq<Pair>)
    requires ps != []
    ensures Size(Dict(ps)) == 3 + Size(ps[0].key) + Size(ps[0].value) + Size(Dict(ps[1..]))
  {
    PairsShift(ps, 1);
  }

  lemma SingletonSize(x: Item)
    ensures Size(Tuple([x])) == 2 + Size(x)
  {
    TupleSize([x]);
  }

  // ---------------------------------------------------------------------
  // Plain dicts given as payloads: exact key lookup (core.py:198).
  // ---------------------------------------------------------------------

  /** `k in v` for a plain dict `v`. */
  predicate DictHas(ps: seq<Pair>, k: Item) {
    exists i :: 0 <= i < |ps| && ps[i].key == k
  }

  /** `v[k]` for a plain dict `v` that has the key. */
  function DictGet(ps: seq<Pair>, k: Item): Item
    requires DictHas(ps, k)
  {
    if ps[0].key == k then ps[0].value else DictGet(ps[1..], k)
  }

  // ---------------------------------------------------------------------
  // Merging one command dictionary into another (`update` given a cmdict):
  // each item (k, v) is extended in dict order. Nothing here can raise.
  // ---------------------------------------------------------------------

  /** `extend((k, v))` where `v` is a value taken out of a command dictionary. */
  function ExtendEntry(es: seq<Entry>, k: Key, v: Val): seq<Entry>
    decreases v, 2
  {
    if !Contains(es, k) then
      match v
      case Sub(s) => Put(es, k, Sub(Copy(s)))
      case Act(b) => Put(es, k, Act(b))
      case Unset => Put(es, k, Unset)
    else
      var r := Resolve(es, k);
      match GetItem(es, k)
      case Sub(c) =>
        (match v
         case Sub(s) => Put(es, r, Sub(MergeFrom(c, s, 0)))
         case Act(b) => Put(es, r, Sub(Put(c, Default, Act(b))))
         case Unset => es)
      case Act(b0) =>
        (match v
         case Sub(s) =>
           if !Contains(s, k) || GetItem(s, k).Unset? then
             Put(es, k, Sub(Put(Copy(s), Default, Act(b0))))
           else
             Put(es, k, Sub(Copy(s)))
         case Act(b) => Put(es, k, Act(b))
         case Unset => es)
      case Unset => es
  }

  /** The items of `src` from the `i`-th on, extended into `es` in order. */
  function MergeFrom(es: seq<Entry>, src: seq<Entry>, i: nat): seq<Entry>
    requires i <= |src|
    decreases Sub(src), 0, |src| - i
  {
    if i == |src| then es else MergeFrom(ExtendEntry(es, src[i].k, src[i].v), src, i + 1)
  }

  /** `cmdict(s)` for a command dictionary `s`. */
  function Copy(s: seq<Entry>): seq<Entry>
    decreases Sub(s), 1
  {
    MergeFrom([], s, 0)
  }

  // ---------------------------------------------------------------------
  // Payloads given by the caller. An exception leaves behind whatever the
  // loop of `update` had already done.
  // ---------------------------------------------------------------------

  /** `cmdict(x)` (core.py:111-114). */
  function Construct(x: Item): Outcome
    decreases Size(x), 2
  {
    if Truthy(x) then Update([], x) else Outcome([], None)
  }

  /** `d.update(other)` (core.py:141-152). */
  function Update(es: seq<Entry>, other: Item): Outcome
    decreases Size(other), 1
  {
    match other
    case Dict(ps) => UpdatePairs(es, ps)
    case Tuple(xs) => UpdateItems(es, xs)
    case _ => Outcome(es, Some(TypeError))
  }

  /** The loop of `update` over the items of a dict: each item is extended as
      the two-element tuple (key, value). */
  function UpdatePairs(es: seq<Entry>, ps: seq<Pair>): Outcome
    decreases Size(Dict(ps)), 0
  {
    if ps == [] then Outcome(es, None)
    else
      DictSize(ps);
      SingletonSize(ps[0].value);
      var o := ExtendKv(es, ps[0].key, [ps[0].value]);
      if o.err.Some? then o else UpdatePairs(o.es, ps[1..])
  }

  /** The loop of `update` over a list or tuple: false items are skipped. */
  function UpdateItems(es: seq<Entry>, xs: seq<Item>): Outcome
    decreases Size(Tuple(xs)), 0
  {
    if xs == [] then Outcome(es, None)
    else
      TupleSize(xs);
      if !Truthy(xs[0]) then UpdateItems(es, xs[1..])
      else
        var o := Extend(es, xs[0]);
        if o.err.Some? then o else UpdateItems(o.es, xs[1..])
  }

  /** `d.extend(x)` (core.py:163-207). An empty sequence unpacks as `(None,)`,
      which changes nothing. */
  function Extend(es: seq<Entry>, x: Item): Outcome
    decreases Size(x), 3
  {
    match x
    case Dict(_) => Update(es, x)
    case Tuple(xs) =>
      if xs == [] then Outcome(es, None)
      else
        TupleSize(xs);
        ExtendKv(es, xs[0], xs[1..])
    case _ => Outcome(es, Some(TypeError))
  }

  /** The body of `extend` once the sequence is split into its head `k` and
      the payload `kvlist` (core.py:171-207). */
  function ExtendKv(es: seq<Entry>, k: Item, kvlist: seq<Item>): Outcome
    decreases Size(k) + Size(Tuple(kvlist)), 1
  {
    if !IsKey(k) then Outcome(es, Some(ValueError))
    else if kvlist == [] then Outcome(es, None)
    else if !Contains(es, KeyOf(k)) then ExtendAbsent(es, k, kvlist)
    else ExtendPresent(es, k, kvlist)
  }

  /** `extend` onto a key that `k not in self` calls absent (core.py:177-185).
      Note that a key which is itself present but is a prefix of another key
      counts as absent, and is then overwritten. */
  function ExtendAbsent(es: seq<Entry>, k: Item, kvlist: seq<Item>): Outcome
    requires IsKey(k) && kvlist != []
    decreases Size(k) + Size(Tuple(kvlist)), 0
  {
    TupleSize(kvlist);
    var key := KeyOf(k);
    var v := kvlist[0];
    if v.Dict? then
      var w := Construct(v);
      if w.err.Some? then Outcome(es, w.err) else Outcome(Put(es, key, Sub(w.es)), None)
    else if Callable(v) then
      Outcome(Put(es, key, Act(Rebind(v, kvlist[1..]))), None)
    else if v.NoneVal? then
      Outcome(Put(es, key, Unset), None)
    else if |kvlist| > 1 then
      var n := ExtendKv([], kvlist[0], kvlist[1..]);
      if n.err.Some? then Outcome(es, n.err) else Outcome(Put(es, key, Sub(n.es)), None)
    else
      Outcome(es, None)
  }

  /** `extend` onto a key that `k in self` finds (core.py:186-206). Reads of
      `self[k]` resolve `k`, so an update of the nested level or of its
      default slot lands at the resolved key; assignments `self[k] = ...` use
      `k` as given. */
  function ExtendPresent(es: seq<Entry>, k: Item, kvlist: seq<Item>): Outcome
    requires IsKey(k) && kvlist != []
    decreases Size(k) + Size(Tuple(kvlist)), 0
  {
    TupleSize(kvlist);
    var key := KeyOf(k);
    var v := kvlist[0];
    var r := Resolve(es, key);
    match GetItem(es, key)
    case Sub(c) =>
      if v.Dict? then
        var w := Construct(v);
        if w.err.Some? then Outcome(es, w.err)
        else Outcome(Put(es, r, Sub(MergeFrom(c, w.es, 0))), None)
      else if Callable(v) then
        Outcome(Put(es, r, Sub(Put(c, Default, Act(Rebind(v, kvlist[1..]))))), None)
      else
        Outcome(es, None)
    case Act(b) =>
      if v.Dict? then
        if !DictHas(v.pairs, k) || DictGet(v.pairs, k) == NoneVal then
          var w := Construct(v);
          if w.err.Some? then Outcome(es, w.err)
          else Outcome(Put(es, key, Sub(Put(w.es, Default, Act(b)))), None)
        else
          var w := Construct(v);
          if w.err.Some? then Outcome(es, w.err) else Outcome(Put(es, key, Sub(w.es)), None)
      else if Callable(v) then
        Outcome(Put(es, key, Act(Rebind(v, kvlist[1..]))), None)
      else
        Outcome(es, None)
    case Unset =>
      if |kvlist| > 1 then
        var n := ExtendKv([], kvlist[0], kvlist[1..]);
        if n.err.Some? then Outcome(es, n.err) else Outcome(Put(es, key, Sub(n.es)), None)
      else
        Outcome(es, None)
  }

  /** `cmdict.fromargs(*args)` (core.py:154-158). */
  function FromArgs(args: seq<Item>): Outcome {
    Extend([], Tuple(args))
  }
}
