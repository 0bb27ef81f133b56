/** Abbreviation-tolerant key resolution of the command dictionary:
    `__contains__`, `__getitem__`, `__missing__`, `__delitem__` and
    `__setitem__` (core.py:116-139). A string probe stands for the one string
    key that starts with it, if there is exactly one; otherwise for itself. */
module Resolution {
  import opened Wrappers
  import opened Values
  import opened Entries

  /** The string keys that start with `p`, in dict order (core.py:119, 129). */
  function Matches(es: seq<Entry>, p: string): (m: seq<string>)
    ensures forall c :: c in m <==> S(c) in Keys(es) && p <= c
    ensures Distinct(es) ==> forall i, j :: 0 <= i < j < |m| ==> m[i] != m[j]
  {
    if es == [] then []
    else
      var rest := Matches(es[1..], p);
      KeysCons(es);
      if es[0].k.S? && p <= es[0].k.s then
        assert Distinct(es) ==> es[0].k !in Keys(es[1..]);
        [es[0].k.s] + rest
      else rest
  }

  /** `p in d`: a string probe must match exactly one string key; None is
      looked up exactly (core.py:116-119). */
  predicate Contains(es: seq<Entry>, k: Key) {
    match k
    case S(p) => |Matches(es, p)| == 1
    case Default => HasKey(es, Default)
  }

  /** The key a probe stands for: the unique match, or else the probe itself
      (core.py:129-130, 135-136). */
  function Resolve(es: seq<Entry>, k: Key): Key {
    match k
    case S(p) => var m := Matches(es, p); if |m| == 1 then S(m[0]) else k
    case Default => Default
  }

  /** `d[p]`: the value at the resolved key; a missing key gives None through
      `__missing__` and never raises (core.py:126-130, 138-139). */
  function GetItem(es: seq<Entry>, k: Key): Val {
    match Lookup(es, Resolve(es, k))
    case Some(v) => v
    case None => Unset
  }

  /** `del d[p]`: removes the entry at the resolved key, or raises KeyError
      (core.py:132-136). */
  function DelItem(es: seq<Entry>, k: Key): (r: Outcome)
    requires Distinct(es)
    ensures r.err.None? <==> HasKey(es, Resolve(es, k))
    ensures r.err.Some? ==> r == Outcome(es, Some(KeyError))
    ensures r.err.None? ==> Lookup(r.es, Resolve(es, k)) == None && Distinct(r.es)
    ensures forall k' :: k' != Resolve(es, k) ==> Lookup(r.es, k') == Lookup(es, k')
  {
    var key := Resolve(es, k);
    if HasKey(es, key) then Outcome(Remove(es, key), None) else Outcome(es, Some(KeyError))
  }

  /** `d[k] = v`: only a string or None is accepted as a key, and the key is
      used as given, never resolved (core.py:121-124). */
  function SetItem(es: seq<Entry>, k: Item, v: Val): (r: Outcome)
    ensures r.err.Some? <==> !IsKey(k)
    ensures r.err.Some? ==> r == Outcome(es, Some(KeyError))
    ensures r.err.None? ==> Lookup(r.es, KeyOf(k)) == Some(v)
    ensures r.err.None? ==> forall k' :: k' != KeyOf(k) ==> Lookup(r.es, k') == Lookup(es, k')
  {
    if IsKey(k) then Outcome(Put(es, KeyOf(k), v), None) else Outcome(es, Some(KeyError))
  }

  /** `c` is the one string key of the level that starts with `p`. */
  ghost predicate UniquePrefixKey(es: seq<Entry>, p: string, c: string) {
    && S(c) in Keys(es) && p <= c
    && forall c' :: S(c') in Keys(es) && p <= c' ==> c' == c
  }

  /** A string probe is contained exactly when one string key starts with it,
      and it then resolves to that key; otherwise it resolves to itself. */
  lemma {:induction false} ResolveMeaning(es: seq<Entry>, p: string)
    requires Distinct(es)
    ensures Contains(es, S(p)) <==> exists c :: UniquePrefixKey(es, p, c)
    ensures forall c :: UniquePrefixKey(es, p, c) ==> Resolve(es, S(p)) == S(c)
    ensures !Contains(es, S(p)) ==> Resolve(es, S(p)) == S(p)
  {
    var m := Matches(es, p);
    if |m| == 1 {
      assert m[0] in m;
      assert UniquePrefixKey(es, p, m[0]);
    }
    forall c | UniquePrefixKey(es, p, c) ensures m == [c] {
      UniqueMatch(es, p, c);
    }
  }

  lemma {:induction false} NoMatch(es: seq<Entry>, p: string)
    requires forall c :: S(c) in Keys(es) ==> !(p <= c)
    ensures Matches(es, p) == []
  {
    if es != [] {
      KeysCons(es);
      NoMatch(es[1..], p);
    }
  }

  /** The one key that starts with `p` is the whole match list. */
  lemma {:induction false} UniqueMatch(es: seq<Entry>, p: string, c: string)
    requires Distinct(es) && UniquePrefixKey(es, p, c)
    ensures Matches(es, p) == [c]
  {
    KeysCons(es);
    var rest := es[1..];
    if es[0].k == S(c) {
      assert S(c) !in Keys(rest);
      NoMatch(rest, p);
    } else {
      UniqueMatch(rest, p, c);
    }
  }

  /** The default slot and exact non-prefix keys need no resolution. */
  lemma {:induction false} ExactKeyResolves(es: seq<Entry>, c: string)
    requires Distinct(es) && S(c) in Keys(es)
    requires forall c' :: S(c') in Keys(es) && c <= c' ==> c' == c
    ensures Contains(es, S(c)) && Resolve(es, S(c)) == S(c)
    ensures GetItem(es, S(c)) == Lookup(es, S(c)).value
  {
    assert UniquePrefixKey(es, c, c);
    ResolveMeaning(es, c);
  }

  /** When no key or more than one key starts with the probe, `d[p]` reads the
      literal key, which gives None unless the probe is itself a key. */
  lemma {:induction false} AmbiguousProbeReadsLiterally(es: seq<Entry>, p: string)
    requires Distinct(es) && !Contains(es, S(p))
    ensures GetItem(es, S(p)) == if S(p) in Keys(es) then Lookup(es, S(p)).value else Unset
  {
    ResolveMeaning(es, p);
  }
}
