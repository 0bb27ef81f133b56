/** The Python values that the command dictionary receives as keys, payloads
    and pre-bound arguments, the exceptions it raises, and the deferred call
    `bind` of core.py:75 (a `functools.partial`). */
module Values {

  /** A callable the dictionary never looks into, identified by a number. */
  type FuncId = nat

  /** The kinds of value the dictionary tells apart. */
  datatype Item =
    | Str(s: string)           // a str: a key or a path token
    | NoneVal                  // None: the default key, or the "reserved" placeholder
    | Num(n: int)              // any other plain value (an int, a bool, ...)
    | Func(f: FuncId)          // a plain callable
    | Bound(b: Bind)           // a bind object, itself callable
    | Dict(pairs: seq<Pair>)   // a plain dict, its items in insertion order
    | Tuple(elems: seq<Item>)  // a list or a tuple

  datatype Pair = Pair(key: Item, value: Item)

  /** `bind(f, *args)`: the callable `f` with the leading arguments `args`. */
  datatype Bind = Bind(f: FuncId, args: seq<Item>)

  /** What running an action amounts to: which callable gets which arguments. */
  datatype Invocation = Invocation(f: FuncId, args: seq<Item>)

  /** The exceptions the dictionary raises. */
  datatype Error = TypeError | ValueError | KeyError

  /** Python's `callable(x)` on the values above (a plain dict is not callable). */
  predicate Callable(x: Item) {
    x.Func? || x.Bound?
  }

  /** Python's truth value: empty strings, containers, zero and None are false. */
  predicate Truthy(x: Item) {
    match x
    case Str(s) => s != ""
    case NoneVal => false
    case Num(n) => n != 0
    case Func(_) => true
    case Bound(_) => true
    case Dict(ps) => ps != []
    case Tuple(xs) => xs != []
  }

  /** The two kinds of item `__setitem__` and `extend` accept as a key. */
  predicate IsKey(x: Item) {
    x.Str? || x.NoneVal?
  }

  /** Calling a bind object appends the call's arguments to the bound ones. */
  function Invoke(b: Bind, extra: seq<Item>): Invocation {
    Invocation(b.f, b.args + extra)
  }

  /** Calling a callable item with `args`. */
  function Apply(x: Item, args: seq<Item>): Invocation
    requires Callable(x)
  {
    match x
    case Func(f) => Invocation(f, args)
    case Bound(b) => Invoke(b, args)
  }

  /** `bind(x, *rest)`: a bind of a bind is flattened into one argument list,
      as `functools.partial` does. */
  function Rebind(x: Item, rest: seq<Item>): (b: Bind)
    requires Callable(x)
    ensures forall extra {:trigger Invoke(b, extra)} :: Invoke(b, extra) == Apply(x, rest + extra)
  {
    match x
    case Func(f) => Bind(f, rest)
    case Bound(b0) => Bind(b0.f, b0.args + rest)
  }

  /** Path tokens passed on as call arguments. */
  function Strs(tokens: seq<string>): (r: seq<Item>)
    ensures |r| == |tokens|
    ensures forall i :: 0 <= i < |tokens| ==> r[i] == Str(tokens[i])
  {
    if tokens == [] then [] else [Str(tokens[0])] + Strs(tokens[1..])
  }
}
