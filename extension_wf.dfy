/** Key uniqueness (every Python dict has it) holds at every level of a
    tree that `extend`, `update` and `cmdict(...)` build or change, whatever
    the payload, and also when they raise part way through. */
module ExtensionWellFormed {
  import opened Wrappers
  import opened Values
  import opened Entries
  import opened Resolution
  import opened Extension

  lemma GetItemWellFormed(es: seq<Entry>, k: Key)
    requires WellFormed(es) && GetItem(es, k).Sub?
    ensures WellFormed(GetItem(es, k).es)
  {
    LookupWellFormed(es, Resolve(es, k));
  }

  lemma {:induction false} ExtendEntryWellFormed(es: seq<Entry>, k: Key, v: Val)
    requires WellFormed(es)
    ensures WellFormed(ExtendEntry(es, k, v))
    decreases v, 2
  {
    if !Contains(es, k) {
      match v
      case Sub(s) => CopyWellFormed(s); PutWellFormed(es, k, Sub(Copy(s)));
      case Act(b) => PutWellFormed(es, k, v);
      case Unset => PutWellFormed(es, k, v);
    } else {
      var r := Resolve(es, k);
      match GetItem(es, k)
      case Sub(c) =>
        GetItemWellFormed(es, k);
        match v {
          case Sub(s) =>
            MergeFromWellFormed(c, s, 0);
            PutWellFormed(es, r, Sub(MergeFrom(c, s, 0)));
          case Act(b) =>
            PutWellFormed(c, Default, Act(b));
            PutWellFormed(es, r, Sub(Put(c, Default, Act(b))));
          case Unset =>
        }
      case Act(b0) =>
        match v {
          case Sub(s) =>
            CopyWellFormed(s);
            PutWellFormed(Copy(s), Default, Act(b0));
            PutWellFormed(es, k, Sub(Put(Copy(s), Default, Act(b0))));
            PutWellFormed(es, k, Sub(Copy(s)));
          case Act(b) => PutWellFormed(es, k, v);
          case Unset =>
        }
      case Unset =>
    }
  }

  lemma {:induction false} MergeFromWellFormed(es: seq<Entry>, src: seq<Entry>, i: nat)
    requires WellFormed(es) && i <= |src|
    ensures WellFormed(MergeFrom(es, src, i))
    decreases Sub(src), 0, |src| - i
  {
    if i < |src| {
      ExtendEntryWellFormed(es, src[i].k, src[i].v);
      MergeFromWellFormed(ExtendEntry(es, src[i].k, src[i].v), src, i + 1);
    }
  }

  lemma {:induction false} CopyWellFormed(s: seq<Entry>)
    ensures WellFormed(Copy(s))
    decreases Sub(s), 1
  {
    MergeFromWellFormed([], s, 0);
  }

  lemma {:induction false} ConstructWellFormed(x: Item)
    ensures WellFormed(Construct(x).es)
    decreases Size(x), 2
  {
    if Truthy(x) { UpdateWellFormed([], x); }
  }

  lemma {:induction false} UpdateWellFormed(es: seq<Entry>, other: Item)
    requires WellFormed(es)
    ensures WellFormed(Update(es, other).es)
    decreases Size(other), 1
  {
    match other
    case Dict(ps) => UpdatePairsWellFormed(es, ps);
    case Tuple(xs) => UpdateItemsWellFormed(es, xs);
    case _ =>
  }

  lemma {:induction false} UpdatePairsWellFormed(es: seq<Entry>, ps: seq<Pair>)
    requires WellFormed(es)
    ensures WellFormed(UpdatePairs(es, ps).es)
    decreases Size(Dict(ps)), 0
  {
    if ps != [] {
      DictSize(ps);
      SingletonSize(ps[0].value);
      var o := ExtendKv(es, ps[0].key, [ps[0].value]);
      ExtendKvWellFormed(es, ps[0].key, [ps[0].value]);
      if o.err.None? { UpdatePairsWellFormed(o.es, ps[1..]); }
    }
  }

  lemma {:induction false} UpdateItemsWellFormed(es: seq<Entry>, xs: seq<Item>)
    requires WellFormed(es)
    ensures WellFormed(UpdateItems(es, xs).es)
    decreases Size(Tuple(xs)), 0
  {
    if xs != [] {
      TupleSize(xs);
      if !Truthy(xs[0]) {
        UpdateItemsWellFormed(es, xs[1..]);
      } else {
        var o := Extend(es, xs[0]);
        ExtendWellFormed(es, xs[0]);
        if o.err.None? { UpdateItemsWellFormed(o.es, xs[1..]); }
      }
    }
  }

  lemma {:induction false} ExtendWellFormed(es: seq<Entry>, x: Item)
    requires WellFormed(es)
    ensures WellFormed(Extend(es, x).es)
    decreases Size(x), 3
  {
    match x
    case Dict(_) => UpdateWellFormed(es, x);
    case Tuple(xs) =>
      if xs != [] {
        TupleSize(xs);
        ExtendKvWellFormed(es, xs[0], xs[1..]);
      }
    case _ =>
  }

  lemma {:induction false} ExtendKvWellFormed(es: seq<Entry>, k: Item, kvlist: seq<Item>)
    requires WellFormed(es)
    ensures WellFormed(ExtendKv(es, k, kvlist).es)
    decreases Size(k) + Size(Tuple(kvlist)), 2
  {
    if IsKey(k) && kvlist != [] {
      if !Contains(es, KeyOf(k)) {
        ExtendAbsentWellFormed(es, k, kvlist);
      } else {
        ExtendPresentWellFormed(es, k, kvlist);
      }
    }
  }

  lemma {:induction false} ExtendAbsentWellFormed(es: seq<Entry>, k: Item, kvlist: seq<Item>)
    requires WellFormed(es) && IsKey(k) && kvlist != []
    ensures WellFormed(ExtendAbsent(es, k, kvlist).es)
    decreases Size(k) + Size(Tuple(kvlist)), 0
  {
    TupleSize(kvlist);
    var key := KeyOf(k);
    var v := kvlist[0];
    if v.Dict? {
      ConstructWellFormed(v);
      PutWellFormed(es, key, Sub(Construct(v).es));
    } else if Callable(v) {
      PutWellFormed(es, key, Act(Rebind(v, kvlist[1..])));
    } else if v.NoneVal? {
      PutWellFormed(es, key, Unset);
    } else if |kvlist| > 1 {
      ExtendKvWellFormed([], kvlist[0], kvlist[1..]);
      PutWellFormed(es, key, Sub(ExtendKv([], kvlist[0], kvlist[1..]).es));
    }
  }

  lemma {:induction false} ExtendPresentWellFormed(es: seq<Entry>, k: Item, kvlist: seq<Item>)
    requires WellFormed(es) && IsKey(k) && kvlist != []
    ensures WellFormed(ExtendPresent(es, k, kvlist).es)
    decreases Size(k) + Size(Tuple(kvlist)), 1
  {
    match GetItem(es, KeyOf(k))
    case Sub(_) => PresentSubWellFormed(es, k, kvlist);
    case Act(_) => PresentActWellFormed(es, k, kvlist);
    case Unset => PresentUnsetWellFormed(es, k, kvlist);
  }

  lemma {:induction false} PresentSubWellFormed(es: seq<Entry>, k: Item, kvlist: seq<Item>)
    requires WellFormed(es) && IsKey(k) && kvlist != [] && GetItem(es, KeyOf(k)).Sub?
    ensures WellFormed(ExtendPresent(es, k, kvlist).es)
    decreases Size(k) + Size(Tuple(kvlist)), 0
  {
    TupleSize(kvlist);
    var key := KeyOf(k);
    var v := kvlist[0];
    var r := Resolve(es, key);
    var c := GetItem(es, key).es;
    GetItemWellFormed(es, key);
    if v.Dict? {
      var w := Construct(v);
      MergeFromWellFormed(c, w.es, 0);
      PutWellFormed(es, r, Sub(MergeFrom(c, w.es, 0)));
    } else if Callable(v) {
      var a := Act(Rebind(v, kvlist[1..]));
      PutWellFormed(c, Default, a);
      PutWellFormed(es, r, Sub(Put(c, Default, a)));
    }
  }

  lemma {:induction false} PresentActWellFormed(es: seq<Entry>, k: Item, kvlist: seq<Item>)
    requires WellFormed(es) && IsKey(k) && kvlist != [] && GetItem(es, KeyOf(k)).Act?
    ensures WellFormed(ExtendPresent(es, k, kvlist).es)
    decreases Size(k) + Size(Tuple(kvlist)), 0
  {
    TupleSize(kvlist);
    var key := KeyOf(k);
    var v := kvlist[0];
    var b := GetItem(es, key).b;
    if v.Dict? {
      ConstructWellFormed(v);
      PromotedWellFormed(es, key, Construct(v).es, b);
    } else if Callable(v) {
      PutWellFormed(es, key, Act(Rebind(v, kvlist[1..])));
    }
  }

  /** Both ways an action slot can become a subcommand keep the level well
      formed. */
  lemma PromotedWellFormed(es: seq<Entry>, key: Key, ws: seq<Entry>, b: Bind)
    requires WellFormed(es) && WellFormed(ws)
    ensures WellFormed(Put(es, key, Sub(Put(ws, Default, Act(b)))))
    ensures WellFormed(Put(es, key, Sub(ws)))
  {
    PutWellFormed(ws, Default, Act(b));
    PutWellFormed(es, key, Sub(Put(ws, Default, Act(b))));
    PutWellFormed(es, key, Sub(ws));
  }

  lemma {:induction false} PresentUnsetWellFormed(es: seq<Entry>, k: Item, kvlist: seq<Item>)
    requires WellFormed(es) && IsKey(k) && kvlist != [] && GetItem(es, KeyOf(k)).Unset?
    ensures WellFormed(ExtendPresent(es, k, kvlist).es)
    decreases Size(k) + Size(Tuple(kvlist)), 0
  {
    TupleSize(kvlist);
    var key := KeyOf(k);
    if |kvlist| > 1 {
      ExtendKvWellFormed([], kvlist[0], kvlist[1..]);
      PutWellFormed(es, key, Sub(ExtendKv([], kvlist[0], kvlist[1..]).es));
    }
  }

  /** What `fromargs` returns is well formed. */
  lemma FromArgsWellFormed(args: seq<Item>)
    ensures WellFormed(FromArgs(args).es)
  {
    ExtendWellFormed([], Tuple(args));
  }
}
