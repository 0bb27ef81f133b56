/** The storage of one level of the command dictionary: a Python dict whose
    keys are strings or None and whose values are sub-dictionaries, bind
    objects or None (core.py:110-124). Python dicts keep insertion order, and
    that order decides how a dictionary is copied, so a level is a sequence of
    entries, assigned and deleted the way a dict is. */
module Entries {
  import opened Wrappers
  import opened Values

  /** A key: a string, or None (the default slot). */
  datatype Key = S(s: string) | Default

  /** What `extend` stores: a nested dictionary, a bind object, or None. */
  datatype Val = Sub(es: seq<Entry>) | Act(b: Bind) | Unset

  datatype Entry = Entry(k: Key, v: Val)

  /** What a mutating operation leaves behind, and the exception it raised. */
  datatype Outcome = Outcome(es: seq<Entry>, err: Option<Error>)

  function KeyOf(x: Item): Key
    requires IsKey(x)
  {
    if x.Str? then S(x.s) else Default
  }

  ghost function Keys(es: seq<Entry>): set<Key> {
    set i | 0 <= i < |es| :: es[i].k
  }

  /** No key occurs twice (true of every Python dict). */
  ghost predicate Distinct(es: seq<Entry>) {
    forall i, j :: 0 <= i < j < |es| ==> es[i].k != es[j].k
  }

  /** Distinct keys at this level and at every nested level. */
  ghost predicate WellFormed(es: seq<Entry>)
    decreases Sub(es)
  {
    && Distinct(es)
    && forall i :: 0 <= i < |es| ==> (es[i].v.Sub? ==> WellFormed(es[i].v.es))
  }

  /** Position of the entry with key `k`, or -1. */
  function IndexOf(es: seq<Entry>, k: Key): (i: int)
    ensures -1 <= i < |es|
    ensures i >= 0 ==> es[i].k == k && forall j :: 0 <= j < i ==> es[j].k != k
    ensures i < 0 <==> k !in Keys(es)
  {
    if es == [] then -1
    else if es[0].k == k then 0
    else var j := IndexOf(es[1..], k);
      KeysCons(es);
      if j < 0 then -1 else j + 1
  }

  predicate HasKey(es: seq<Entry>, k: Key) {
    IndexOf(es, k) >= 0
  }

  /** Plain dict lookup by the exact key. */
  function Lookup(es: seq<Entry>, k: Key): Option<Val> {
    var i := IndexOf(es, k);
    if i >= 0 then Some(es[i].v) else None
  }

  /** Dict assignment `d[k] = v`: an existing key keeps its place, a new key
      goes last. */
  function Put(es: seq<Entry>, k: Key, v: Val): (r: seq<Entry>)
    ensures Lookup(r, k) == Some(v)
    ensures forall k' :: k' != k ==> Lookup(r, k') == Lookup(es, k')
    ensures Keys(r) == Keys(es) + {k}
    ensures |r| == if HasKey(es, k) then |es| else |es| + 1
    ensures forall j :: 0 <= j < |es| ==> r[j].k == es[j].k
    ensures Distinct(es) ==> Distinct(r)
  {
    var i := IndexOf(es, k);
    if i >= 0 then
      ReplaceFacts(es, i, v);
      es[i := Entry(k, v)]
    else
      AppendFacts(es, k, v);
      es + [Entry(k, v)]
  }

  lemma ReplaceFacts(es: seq<Entry>, i: int, v: Val)
    requires 0 <= i < |es| && IndexOf(es, es[i].k) == i
    ensures var r := es[i := Entry(es[i].k, v)];
      && Keys(r) == Keys(es)
      && Lookup(r, es[i].k) == Some(v)
      && forall k' :: k' != es[i].k ==> Lookup(r, k') == Lookup(es, k')
  {
    var r := es[i := Entry(es[i].k, v)];
    assert forall j :: 0 <= j < |es| ==> r[j].k == es[j].k;
    assert Keys(r) == Keys(es);
  }

  lemma AppendFacts(es: seq<Entry>, k: Key, v: Val)
    requires k !in Keys(es)
    ensures var r := es + [Entry(k, v)];
      && Keys(r) == Keys(es) + {k}
      && Lookup(r, k) == Some(v)
      && forall k' :: k' != k ==> Lookup(r, k') == Lookup(es, k')
  {
    var r := es + [Entry(k, v)];
    forall key | key in Keys(r) ensures key in Keys(es) + {k} {
      var j :| 0 <= j < |r| && r[j].k == key;
      if j < |es| { assert es[j].k == key; }
    }
    forall key | key in Keys(es) ensures key in Keys(r) {
      var j :| 0 <= j < |es| && es[j].k == key;
      assert r[j].k == key;
    }
    assert r[|es|].k == k;
    forall k' | k' != k ensures Lookup(r, k') == Lookup(es, k') {
      var b := IndexOf(es, k');
      if b >= 0 {
        assert r[b].k == k' && forall j :: 0 <= j < b ==> r[j].k != k';
      } else {
        assert forall j :: 0 <= j < |r| ==> r[j].k != k';
      }
    }
  }

  /** Dict deletion `del d[k]` of a key that is present. */
  function Remove(es: seq<Entry>, k: Key): (r: seq<Entry>)
    requires Distinct(es) && HasKey(es, k)
    ensures Lookup(r, k) == None
    ensures forall k' :: k' != k ==> Lookup(r, k') == Lookup(es, k')
    ensures Keys(r) == Keys(es) - {k}
    ensures |r| == |es| - 1
    ensures Distinct(r)
  {
    var i := IndexOf(es, k);
    DropKeys(es, i);
    DropLookup(es, i);
    es[..i] + es[i + 1..]
  }

  lemma DropKeys(es: seq<Entry>, i: int)
    requires Distinct(es) && 0 <= i < |es|
    ensures Keys(es[..i] + es[i + 1..]) == Keys(es) - {es[i].k}
    ensures Distinct(es[..i] + es[i + 1..])
  {
    var r := es[..i] + es[i + 1..];
    assert forall j :: 0 <= j < |r| ==> r[j] == if j < i then es[j] else es[j + 1];
    forall key | key in Keys(r) ensures key in Keys(es) - {es[i].k} {
      var j :| 0 <= j < |r| && r[j].k == key;
      if j < i { assert es[j].k == key; } else { assert es[j + 1].k == key; }
    }
    forall key | key in Keys(es) - {es[i].k} ensures key in Keys(r) {
      var j :| 0 <= j < |es| && es[j].k == key;
      if j < i { assert r[j].k == key; } else { assert r[j - 1].k == key; }
    }
  }

  lemma DropLookup(es: seq<Entry>, i: int)
    requires Distinct(es) && 0 <= i < |es|
    ensures forall k' :: k' != es[i].k ==> Lookup(es[..i] + es[i + 1..], k') == Lookup(es, k')
  {
    var r := es[..i] + es[i + 1..];
    assert forall j :: 0 <= j < |r| ==> r[j] == if j < i then es[j] else es[j + 1];
    forall k' | k' != es[i].k ensures Lookup(r, k') == Lookup(es, k') {
      var b := IndexOf(es, k');
      if b >= 0 {
        var a' := if b < i then b else b - 1;
        assert r[a'].k == k';
        assert forall j :: 0 <= j < a' ==> r[j].k != k';
      }
    }
  }

  /** The keys of a non-empty level are its first key and the rest's. */
  lemma KeysCons(es: seq<Entry>)
    requires es != []
    ensures Keys(es) == {es[0].k} + Keys(es[1..])
  {
    forall key | key in Keys(es) ensures key in {es[0].k} + Keys(es[1..]) {
      var i :| 0 <= i < |es| && es[i].k == key;
      if i > 0 { assert es[1..][i - 1].k == key; }
    }
  }

  /** A level with one entry added whose value is well formed stays well formed. */
  lemma PutWellFormed(es: seq<Entry>, k: Key, v: Val)
    requires WellFormed(es)
    requires v.Sub? ==> WellFormed(v.es)
    ensures WellFormed(Put(es, k, v))
  {
    var r := Put(es, k, v);
    forall j | 0 <= j < |r| && r[j].v.Sub? ensures WellFormed(r[j].v.es) {
      if r[j].k != k {
        assert Lookup(r, r[j].k) == Lookup(es, r[j].k);
        var i := IndexOf(es, r[j].k);
        assert IndexOf(r, r[j].k) == j by { DistinctIndex(r, j); }
      } else {
        DistinctIndex(r, j);
      }
    }
  }

  /** A well-formed level with one entry deleted stays well formed. */
  lemma RemoveWellFormed(es: seq<Entry>, k: Key)
    requires WellFormed(es) && HasKey(es, k)
    ensures WellFormed(Remove(es, k))
  {
    var r := Remove(es, k);
    forall j | 0 <= j < |r| && r[j].v.Sub? ensures WellFormed(r[j].v.es) {
      assert r[j].k in Keys(r);
      assert Lookup(r, r[j].k) == Lookup(es, r[j].k);
      DistinctIndex(r, j);
    }
  }

  /** A nested level found in a well-formed level is well formed. */
  lemma LookupWellFormed(es: seq<Entry>, k: Key)
    requires WellFormed(es) && Lookup(es, k).Some? && Lookup(es, k).value.Sub?
    ensures WellFormed(Lookup(es, k).value.es)
  {
  }

  /** In a level without repeated keys an entry is found at its own place. */
  lemma DistinctIndex(es: seq<Entry>, j: int)
    requires Distinct(es) && 0 <= j < |es|
    ensures IndexOf(es, es[j].k) == j
  {
  }
}
