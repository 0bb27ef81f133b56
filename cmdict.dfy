/** The command dictionary as an object whose top level is changed in place
    by `__setitem__`, `__delitem__`, `extend`, `__add__` and `update`
    (core.py:110-207). Each method changes `entries` exactly as the
    corresponding function of the model changes a level, and every method
    keeps keys unique at every level. */
module CommandDict {
  import opened Wrappers
  import opened Values
  import opened Entries
  import Resolution
  import Ext = Extension
  import opened ExtensionWellFormed

  /** Every item of a tuple is smaller than the tuple. */
  lemma ElemBelowTuple(xs: seq<Item>, i: nat)
    requires i < |xs|
    ensures Ext.Size(xs[i]) < Ext.Size(Tuple(xs))
  {
    ElemBelow(Tuple(xs), 0, i);
  }

  lemma {:induction false} ElemBelow(x: Item, j: nat, i: nat)
    requires x.Tuple? && j <= i < |x.elems|
    ensures Ext.Size(x.elems[i]) < Ext.ElemsSize(x, j) + 1
    decreases i - j
  {
    if j < i {
      ElemBelow(x, j + 1, i);
    }
  }

  /** The pair `(k, v)` of a dict item is smaller than the dict. */
  lemma PairBelowDict(ps: seq<Pair>, i: nat)
    requires i < |ps|
    ensures Ext.Size(Tuple([ps[i].key, ps[i].value])) < Ext.Size(Dict(ps))
  {
    PairBelow(Dict(ps), 0, i);
    PairTupleSize(ps[i].key, ps[i].value);
  }

  lemma {:induction false} PairBelow(x: Item, j: nat, i: nat)
    requires x.Dict? && j <= i < |x.pairs|
    ensures 3 + Ext.Size(x.pairs[i].key) + Ext.Size(x.pairs[i].value) <= Ext.PairsSize(x, j)
    decreases i - j
  {
    if j < i {
      PairBelow(x, j + 1, i);
    }
  }

  lemma PairTupleSize(a: Item, b: Item)
    ensures Ext.Size(Tuple([a, b])) == 3 + Ext.Size(a) + Ext.Size(b)
  {
    Ext.TupleSize([a, b]);
    assert [a, b][1..] == [b];
    Ext.SingletonSize(b);
  }

  class CmDict {
    /** The items of the top level, in insertion order. */
    var entries: seq<Entry>

    ghost predicate Valid()
      reads this
    {
      WellFormed(entries)
    }

    /** `cmdict()`. */
    constructor ()
      ensures entries == [] && Valid()
    {
      entries := [];
    }

    /** `cmdict(other)` (core.py:111-114): an empty or false `other` gives an
        empty dictionary; otherwise `other` is given to `update`. */
    static method New(other: Item) returns (d: CmDict, err: Option<Error>)
      ensures fresh(d) && d.Valid()
      ensures d.entries == Ext.Construct(other).es && err == Ext.Construct(other).err
    {
      d := new CmDict();
      if Truthy(other) {
        err := d.Update(other);
      } else {
        err := None;
      }
    }

    /** `d[k] = v` (core.py:121-124). */
    method SetItem(k: Item, v: Val) returns (err: Option<Error>)
      requires Valid() && (v.Sub? ==> WellFormed(v.es))
      modifies this
      ensures Valid()
      ensures entries == Resolution.SetItem(old(entries), k, v).es
      ensures err == Resolution.SetItem(old(entries), k, v).err
    {
      var o := Resolution.SetItem(entries, k, v);
      if IsKey(k) {
        PutWellFormed(entries, KeyOf(k), v);
      }
      entries := o.es;
      err := o.err;
    }

    /** `del d[k]` (core.py:132-136). */
    method DelItem(k: Key) returns (err: Option<Error>)
      requires Valid()
      modifies this
      ensures Valid()
      ensures entries == Resolution.DelItem(old(entries), k).es
      ensures err == Resolution.DelItem(old(entries), k).err
    {
      var key := Resolution.Resolve(entries, k);
      if HasKey(entries, key) {
        RemoveWellFormed(entries, key);
        entries := Remove(entries, key);
        err := None;
      } else {
        err := Some(KeyError);
      }
    }

    /** `d.extend(x)` (core.py:163-207): a dict goes to `update`; a sequence
        `(k, v, ...)` writes one slot of the top level. */
    method Extend(x: Item) returns (err: Option<Error>)
      requires Valid()
      modifies this
      ensures Valid()
      ensures entries == Ext.Extend(old(entries), x).es && err == Ext.Extend(old(entries), x).err
      decreases Ext.Size(x), 1
    {
      match x
      case Dict(_) =>
        err := Update(x);
      case Tuple(xs) =>
        if xs == [] {
          err := None;
        } else {
          var o := Ext.ExtendKv(entries, xs[0], xs[1..]);
          ExtendKvWellFormed(entries, xs[0], xs[1..]);
          entries := o.es;
          err := o.err;
        }
      case _ =>
        err := Some(TypeError);
    }

    /** `d + x` (core.py:160-161) is `d.extend(x)`. */
    method Add(x: Item) returns (err: Option<Error>)
      requires Valid()
      modifies this
      ensures Valid()
      ensures entries == Ext.Extend(old(entries), x).es && err == Ext.Extend(old(entries), x).err
    {
      err := Extend(x);
    }

    /** `d.update(other)` (core.py:141-152): the items are extended one at a
        time, and the first exception ends the loop with the earlier items
        already written. */
    method Update(other: Item) returns (err: Option<Error>)
      requires Valid()
      modifies this
      ensures Valid()
      ensures entries == Ext.Update(old(entries), other).es && err == Ext.Update(old(entries), other).err
      decreases Ext.Size(other), 0
    {
      match other
      case Dict(ps) =>
        var i := 0;
        while i < |ps|
          invariant 0 <= i <= |ps|
          invariant Valid()
          invariant Ext.UpdatePairs(old(entries), ps) == Ext.UpdatePairs(entries, ps[i..])
        {
          PairBelowDict(ps, i);
          var item := Tuple([ps[i].key, ps[i].value]);
          assert item.elems[1..] == [ps[i].value];
          assert ps[i..][1..] == ps[i + 1..];
          var e := Extend(item);
          if e.Some? {
            return e;
          }
          i := i + 1;
        }
        err := None;
      case Tuple(xs) =>
        var i := 0;
        while i < |xs|
          invariant 0 <= i <= |xs|
          invariant Valid()
          invariant Ext.UpdateItems(old(entries), xs) == Ext.UpdateItems(entries, xs[i..])
        {
          assert xs[i..][1..] == xs[i + 1..];
          if Truthy(xs[i]) {
            ElemBelowTuple(xs, i);
            var e := Extend(xs[i]);
            if e.Some? {
              return e;
            }
          }
          i := i + 1;
        }
        err := None;
      case _ =>
        err := Some(TypeError);
    }

    /** `cmdict.fromargs(*args)` (core.py:154-158): a new dictionary extended
        with the whole argument tuple. */
    static method FromArgs(args: seq<Item>) returns (d: CmDict, err: Option<Error>)
      ensures fresh(d) && d.Valid()
      ensures d.entries == Ext.FromArgs(args).es && err == Ext.FromArgs(args).err
    {
      d := new CmDict();
      err := d.Extend(Tuple(args));
    }
  }
}
