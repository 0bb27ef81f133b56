# pytoo command dictionary and string/loopback helpers, in Dafny

This project models two files of the `pytoo` Python utility library.

**`cmdict` (core.py).** This is an abbreviation-tolerant command dispatcher. It is a dict whose keys are
strings or `None`. Each value is one of three kinds:
- a nested `cmdict` (a subcommand);
- a `bind` object (a `functools.partial`: a callable with pre-bound leading arguments);
- `None` (a command that is reserved but not implemented).

A string probe stands for the one key that starts with it. Calling the dictionary with a sequence of words
walks down the tree and calls at most one action.

**`trim`, `take` and `TextIOLoopback` (encore.py).** `trim` and `take` are word-splitting helpers.
`TextIOLoopback` keeps a queue of pending lines: `lwrite` appends to it and `readline` reads from it.

Modules:
- `Values`: the Python values the dictionary receives (keys, payloads, callables, `bind` objects, exceptions).
  Calling a `bind` is modelled as an `Invocation` record: which callable receives which arguments.
- `Entries`: one level of the dictionary, as a sequence of entries in dict insertion order, with dict
  assignment, deletion and lookup.
- `Resolution`: `__contains__`, `__getitem__`/`__missing__`, `__delitem__` and `__setitem__`.
- `Extension`: `extend`, `update`, `fromargs` and `cmdict(other)`, as functions from the old level to the new
  one.
- `ExtensionWellFormed`: every level built or changed this way keeps its keys unique.
- `ExtensionFacts`: the errors these operations raise, what they leave untouched, and the rule for each kind
  of slot a payload lands on.
- `CommandDict`: the class `CmDict`, whose methods change the top level in place.
- `Dispatch` and `DispatchFacts`: `__call__`, and how calls behave after a promotion.
- `Scenarios`: worked examples proved on concrete trees.
- `Text`: `trim` and `take`.
- `Loopback`: the class `TextIOLoopback` with its line queue.

Behaviour of the code that the model keeps, although a reader might expect otherwise:
- A bare `(k,)` writes nothing (core.py:175). Only `(k, None)` reserves `k` as a placeholder.
- A placeholder is not treated as an absent key. Only a nested path of two or more items replaces it (core.py:205-206).
- The order of the items given to `update` matters. A placeholder followed by an action keeps the placeholder, and an action followed by a placeholder keeps the action (`Scenarios.UpdateOrderMatters`).
- An action extended with a dict that maps the same key to something other than None is discarded, not moved under the default key (core.py:198, 201-202). A dict that maps the key to None, or lacks it, keeps the action as its default (core.py:198-200).
- `cmdict(d)` re-extends the items of `d`, so it is not always a copy of `d` (`Scenarios.CopyResolvesKeysAgain`).
- Extending the same item twice is not always idempotent. With an action `f1` at "k", `("k", {None: f2, "a": f3})` makes "k" a subcommand whose default is `f1`; the same item again merges `f2` over that default (`Scenarios.ExtendTwiceChangesDefault`). When "k" starts out absent, the second extension changes nothing (`Scenarios.ExtendTwiceFromAbsent`).
- A subcommand can go back to being an action. With keys "start" and "starts", extending "start" with an action overwrites the "start" subcommand, because "start" is not contained (`Scenarios.PrefixKeyIsOverwritten`).

## Model

| member | source | states |
|---|---|---|
| `Values.Rebind` | core.py:75 | `bind(x, *rest)` of a callable or of another `bind`, called with `extra`, calls the underlying callable with `rest + extra` after any arguments bound earlier: re-binding concatenates arguments |
| `Resolution.Matches` | core.py:129 | the string keys of the level that start with the probe, each once |
| `Resolution.Contains` | core.py:116-119 | `k in d`; its meaning is stated by `Resolution.ResolveMeaning` (a string probe is contained iff exactly one string key starts with it) and `Resolution.ExactKeyResolves` |
| `Resolution.Resolve` | core.py:126-130 | the key that `d[k]` and `del d[k]` actually use; stated by `Resolution.ResolveMeaning`: the one string key that starts with the probe, and otherwise the probe itself |
| `Resolution.GetItem` | core.py:126-139 | `d[k]`, with `__missing__` giving None; stated by `Resolution.ExactKeyResolves` and `Resolution.AmbiguousProbeReadsLiterally` |
| `Resolution.ResolveMeaning` | core.py:116-130 | a string probe is contained iff exactly one string key starts with it; it then resolves to that key, and otherwise to itself |
| `Resolution.ExactKeyResolves` | core.py:116-130 | a key that no other key extends is contained, resolves to itself, and reads its own value |
| `Resolution.AmbiguousProbeReadsLiterally` | core.py:126-139 | an ambiguous or unmatched probe reads the literal key, and reads None (never raises) when that key is absent |
| `Resolution.DelItem` | core.py:132-136 | deletion removes the resolved key and changes no other entry; when the resolved key is absent it raises KeyError and leaves the level unchanged |
| `Resolution.SetItem` | core.py:121-124 | assignment writes the key as given, never resolved, and changes no other key; a key that is neither a string nor None raises KeyError and writes nothing |
| `Values.Invoke` | core.py:75 | calling a `bind` object: the bound arguments come first, then the call's own; `Values.Rebind` states it for every `bind` the dictionary builds, and `Dispatch.FiredActionIsStored` for every call |
| `Values.Apply` | core.py:75 | calling a plain callable or a `bind` object with arguments; `Values.Rebind` relates it to `Values.Invoke` |
| `Extension.Construct` | core.py:111-114 | `cmdict(other)`; stated by `CommandDict.CmDict.New`, `ExtensionWellFormed.ConstructWellFormed` and `ExtensionFacts.ExtendOntoAbsent` (a dict payload is stored as its copy) |
| `Extension.Update` | core.py:141-152 | `d.update(other)`; stated by `ExtensionFacts.UpdateRejects`, `ExtensionWellFormed.UpdateWellFormed`, `ExtensionFacts.ExtendKeysGrow` and `Scenarios.UpdateKeepsEarlierItems` |
| `Extension.UpdatePairs` | core.py:145-149 | the loop of `update` over the items of a dict, in order, stopping at the first exception; stated by the same lemmas as `Extension.Update` |
| `Extension.UpdateItems` | core.py:147-149 | the loop of `update` over a list or tuple, skipping false items; stated by `Scenarios.UpdateOrderMatters` and the lemmas of `Extension.Update` |
| `Extension.FromArgs` | core.py:154-158 | `cmdict.fromargs(*args)`; stated by `ExtensionFacts.FromArgsErrors`, `ExtensionWellFormed.FromArgsWellFormed` and `Scenarios.FromArgsPath` |
| `Extension.Extend` | core.py:163-207 | `d.extend(x)`; stated by `ExtensionFacts.ExtendRejects`, `ExtensionFacts.ExtendErrors`, `ExtensionFacts.ExtendKeysGrow` and `ExtensionWellFormed.ExtendWellFormed` |
| `Extension.ExtendKv` | core.py:171-207 | the body of `extend` for a head key and its payload; stated by `ExtensionFacts.ExtendKvAtomic` and `ExtensionFacts.ExtendKvFrame` |
| `Extension.ExtendAbsent` | core.py:177-185 | `extend` onto a key that is not contained; stated by `ExtensionFacts.ExtendOntoAbsent` |
| `Extension.ExtendPresent` | core.py:186-206 | `extend` onto a contained key; stated by `ExtensionFacts.ExtendOntoSubcommand`, `ExtensionFacts.ExtendOntoAction` and `ExtensionFacts.ExtendOntoPlaceholder` |
| `Extension.ExtendEntry` | core.py:190-193 | extending one item of a command dictionary being merged; stated by `ExtensionFacts.MergeFromKeys` and `Scenarios.ExtendTwiceChangesDefault` |
| `Extension.MergeFrom` | core.py:190-193 | `self[k].update(v)` for a command dictionary `v`: its items extended in order; stated by `ExtensionFacts.MergeFromKeys` |
| `Extension.Copy` | core.py:111-114 | `cmdict(d)` for a command dictionary `d`; stated by `Scenarios.CopyResolvesKeysAgain`, which shows that it is not always a copy |
| `ExtensionFacts.ExtendRejects` | core.py:163-175 | extending with a value that is neither a list, a tuple nor a dict raises TypeError; a head key that is neither a string nor None raises ValueError; both leave the level unchanged; an empty sequence and a bare `(k,)` change nothing |
| `ExtensionFacts.UpdateRejects` | core.py:141-143 | `update` of a value that is neither a list, a tuple nor a dict raises TypeError and writes nothing |
| `ExtensionFacts.ExtendKvAtomic` | core.py:171-207 | extending one path is all or nothing at its level: when it raises, the level is exactly as before |
| `ExtensionFacts.ExtendErrors` | core.py:163-207 | `extend` raises only TypeError or ValueError; the KeyError of `__setitem__` never escapes |
| `ExtensionFacts.FromArgsErrors` | core.py:154-158 | `fromargs` raises only what `extend` raises |
| `ExtensionFacts.ExtendKvFrame` | core.py:171-207 | extending a path writes at most one slot of the level, either the key as given or the key it resolves to, and removes no key |
| `ExtensionFacts.ExtendKeysGrow` | core.py:141-207 | no `extend` or `update` removes a key, even one that raises part way through |
| `ExtensionFacts.MergeFromKeys` | core.py:190-193 | merging a command dictionary into a level keeps every key of the level and adds only keys of the merged dictionary |
| `ExtensionFacts.ExtendOntoAbsent` | core.py:177-185 | onto a key that is not contained: None stores the placeholder; a dict stores its `cmdict` copy; a callable stores `bind(v, *rest)`; any other value followed by more items stores the nested path they spell; a single other value stores nothing |
| `ExtensionFacts.ExtendOntoSubcommand` | core.py:187-195 | onto a subcommand: a dict payload is merged into it; a callable becomes its default action; anything else changes nothing; the subcommand stays a subcommand at the resolved key and keeps all its keys |
| `ExtensionFacts.ExtendOntoAction` | core.py:196-204 | onto an action: a dict without an entry for `k` (or mapping `k` to None) becomes the slot's subcommand with the old action as its default; a dict that defines `k` replaces the action; a callable overwrites it; anything else changes nothing |
| `ExtensionFacts.ExtendOntoPlaceholder` | core.py:205-206 | onto the placeholder: only a payload of two or more items (a nested path) replaces it; a single dict or callable leaves it unchanged |
| `ExtensionWellFormed.ExtendWellFormed` | core.py:163-207 | `extend` keeps keys unique at every level of the tree, whatever the payload |
| `ExtensionWellFormed.UpdateWellFormed` | core.py:141-152 | `update` keeps keys unique at every level, also when it raises part way through |
| `ExtensionWellFormed.ConstructWellFormed` | core.py:111-114 | `cmdict(other)` builds a tree with unique keys at every level |
| `ExtensionWellFormed.FromArgsWellFormed` | core.py:154-158 | `fromargs` builds a tree with unique keys at every level |
| `CommandDict.CmDict.constructor` | core.py:111-112 | `cmdict()` is empty |
| `CommandDict.CmDict.New` | core.py:111-114 | `cmdict(other)` is empty for a false `other`, and is otherwise `update(other)` applied to an empty dictionary, with its exception |
| `CommandDict.CmDict.SetItem` | core.py:121-124 | `d[k] = v` changes the top level as `Resolution.SetItem` says and keeps it well formed |
| `CommandDict.CmDict.DelItem` | core.py:132-136 | `del d[k]` changes the top level as `Resolution.DelItem` says and keeps it well formed |
| `CommandDict.CmDict.Extend` | core.py:163-207 | `d.extend(x)` changes the top level as `Extension.Extend` says and keeps it well formed |
| `CommandDict.CmDict.Add` | core.py:160-161 | `d + x` is `d.extend(x)` |
| `CommandDict.CmDict.Update` | core.py:141-152 | `d.update(other)` extends the items one at a time, in order; the first exception stops the loop and keeps the earlier writes |
| `CommandDict.CmDict.FromArgs` | core.py:154-158 | `cmdict.fromargs(*args)` is a new dictionary extended with the whole argument tuple |
| `Dispatch.Call` | core.py:209-223 | a call that fires an action returns True |
| `Dispatch.ResolvedTokenDecides` | core.py:209-219 | a non-empty first word that is contained decides the call alone: a subcommand gets the remaining words, an action is called with them and True is returned, a placeholder raises NotImplementedError; there is no fallback to the default |
| `Dispatch.UnresolvedFallsBack` | core.py:220-223 | otherwise a default action is called with all the words and True is returned; a missing default is a soft miss (False), never an exception |
| `Dispatch.FiredActionIsStored` | core.py:209-223 | an action that a call fires is stored somewhere in the tree, and is called with its bound arguments followed by a suffix of the words |
| `Dispatch.OnlyDefaultAction` | core.py:220-222 | a level whose only entry is a default action `h` sends every word sequence, the empty one included, to `h` |
| `DispatchFacts.EntersSubcommand` | core.py:212-214 | a word that selects a subcommand passes the remaining words to that subcommand |
| `DispatchFacts.PromotionKeepsAction` | core.py:196-200 | after an action at `c` is extended with a dict that does not define `c`, the word `c` leads to the dict's commands, and `c` alone still calls the old action |
| `DispatchFacts.CallableBecomesDefault` | core.py:194-195 | after a subcommand at `c` is extended with a callable `f` and arguments `a`, `c` alone calls `f(*a)` and the subcommand's other commands are unchanged |
| `Scenarios.StartStatusProbes` | core.py:116-119 | with keys "start" and "status", "sta" is ambiguous and "star" resolves to "start" |
| `Scenarios.StartStartsProbes` | core.py:116-139 | with keys "start" and "starts", "start" is not contained but reads its literal value, and "sta" reads None |
| `Scenarios.EmptyProbe` | core.py:116-119 | the empty probe is contained in a level whose only key is "run", and not in one with "run" and "rest" |
| `Scenarios.DeployCanary` | core.py:196-223 | after `("deploy", f)` and then `("deploy", {"canary": g})`: "deploy" calls `f`, "deploy canary" and "dep can" call `g`, and "deploy x" calls `f("x")` |
| `Scenarios.AbbreviatedWriteAddsKey` | core.py:186-204 | extending the abbreviation "dep" of an existing "deploy" action writes a second key "dep", after which "dep" is ambiguous |
| `Scenarios.ReservedSlot` | core.py:175-219 | a bare `("reserved",)` stores nothing; `("reserved", None)` stores the placeholder, and calling it raises NotImplementedError |
| `Scenarios.UpdateKeepsEarlierItems` | core.py:145-173 | when the second item of an `update` has a bad key, the first item has already been written |
| `Scenarios.UpdateOrderMatters` | core.py:145-206 | the order of the items given to `update` decides whether the placeholder or the action survives |
| `Scenarios.PrefixKeyIsOverwritten` | core.py:177-181 | with keys "start" and "starts", extending "start" with an action overwrites the "start" subcommand, because "start" is not contained |
| `Scenarios.ExtendTwiceChangesDefault` | core.py:187-204 | with an action `f1` at "k", extending `("k", {None: f2, "a": f3})` once makes "k" call `f1`, and extending it a second time makes "k" call `f2` |
| `Scenarios.ExtendTwiceFromAbsent` | core.py:177-193 | when "k" starts out absent, extending the same item a second time leaves the dictionary as the first extension left it |
| `Scenarios.EmptyWordGoesToDefault` | core.py:209-222 | an empty first word never selects a command; all the words go to the default action |
| `Scenarios.FromArgsPath` | core.py:154-216 | `fromargs("git", "push", f, "-f")` builds a path, and "g p origin" calls `f("-f", "origin")` |
| `Scenarios.ShadowTreeIsBuilt` | core.py:145-204 | `update` with `("starts", f1)`, `("start", f3)` and `("starts", {"a": f2})` builds a level where "start" follows "starts" and "starts" is a subcommand with default `f1` |
| `Scenarios.CopyResolvesKeysAgain` | core.py:111-195 | copying that level with `cmdict(d)` loses the key "start" and makes its action the default of "starts", so calling "starts" fires `f3` instead of `f1` |
| `Text.Words` | encore.py:33 | `str.split()` returns only non-empty words without whitespace; what it returns for every string is stated by `Text.WordsOfSpaced` and `Text.WordsCover` |
| `Text.WordsOfSpaced` | encore.py:32-38 | words separated by non-empty runs of any whitespace, with optional whitespace at either end, split back into exactly those words |
| `Text.WordsCover` | encore.py:32-38 | every string is its own words separated in that way, so together with `Text.WordsOfSpaced` this fixes `str.split()` on every input |
| `Text.WordsOfJoin` | encore.py:32-38 | words joined by single spaces split back into the same words |
| `Text.Trim` | encore.py:32-33 | `trim(s)`; stated by `Text.TrimSpec` and `Text.TrimIdempotent` |
| `Text.Take` | encore.py:36-38 | `take(s, count)` with Python's slice clamping; stated by `Text.TakeSpec` |
| `Text.TrimSpec` | encore.py:32-33 | `trim(s)` has the words of `s` in order, with no leading, trailing or doubled spaces and no other whitespace; it is empty exactly when `s` has no words |
| `Text.TrimIdempotent` | encore.py:32-33 | `trim(trim(s)) == trim(s)` |
| `Text.TakeSpec` | encore.py:36-38 | `take(s, count)`: the words taken, followed by the words of the remainder, are the words of `s`; for `count >= 0` it takes the first `min(count, #words)` words; a negative `count` leaves that many words (or all of them) for the remainder; the remainder is trimmed |
| `Loopback.SplitLines` | encore.py:101 | the pieces of `splitlines()` contain no line break; what it returns for every string is stated by `Loopback.SplitLinesOfJoined` and `Loopback.SplitLinesCover` |
| `Loopback.SplitLinesOfJoined` | encore.py:101 | lines each ended by any line-break character or by "\r\n", with an optional last line without a break, split back into exactly those lines (an empty last line adds nothing) |
| `Loopback.SplitLinesCover` | encore.py:101 | every string is laid out as such lines and breaks, so together with `Loopback.SplitLinesOfJoined` this fixes `splitlines()` on every input |
| `Loopback.TextIOLoopback.constructor` | encore.py:78-83 | a new wrapper starts with an empty queue |
| `Loopback.TextIOLoopback.Readline` | encore.py:90-97 | with lines queued: a non-positive size, or one not smaller than the head line, pops and returns the head; otherwise it returns `head[:size]` and leaves `head[size:]` as the new head; later lines are unchanged, and the returned text followed by the queue is the old queue; an empty queue is left to the wrapped file |
| `Loopback.TextIOLoopback.LWrite` | encore.py:99-102 | `lwrite(*lines)` appends the `splitlines()` pieces of each argument in order after the existing queue, and returns the total length of the arguments |

## Left out

- Interrupt guards, signal forwarding and the timed `input` (core.py:10-69) are left out: they are signal handling and blocking terminal input.
- `bindmap` (core.py:83-90, encore.py:19-26) is left out: it only zips argument packs into `bind` objects.
- `bind.__repr__` (core.py:76-80, encore.py:12-16) is left out: it only formats strings.
- `missdict` (core.py:96-104) is left out: it is a dict with a default value and is not used by `cmdict`.
- The actions are not run. Their return values are discarded by `__call__`, so a call is modelled by the `Invocation` it would make.
- The `**kwargs` path of `update` (core.py:150-151) is left out: it hands key names to `extend`, which rejects them as strings that are not sequences.
- `take_match`, `File.Popen`, `File.Ptee` and `TextIOLoopback.fileno` (encore.py) are left out: they are a regular-expression engine and stream wrappers.
- The empty-queue branch of `readline`, which reads from the wrapped file, is left out: it is foreign I/O, so `Readline` returns `None` there.
- `str.split()` and `str.splitlines()` are modelled over explicit sets of whitespace and line-break characters. These are the characters Python's `str.isspace` and `splitlines` accept. There is no Unicode database.
- A nested level is a value, not a shared object. `self[k].update(v)` and `self[k][None] = ...` are modelled as rebuilding the nested level and storing it back at the same key, so aliasing between nested dictionaries is not modelled.
- `Resolution.Contains`, `Resolution.GetItem` and `Resolution.DelItem` take a key that is a string or None only. A probe of any other type is a plain dict lookup in the source (core.py:117-118, 127-128, 133-134): it is never contained, reads None through `__missing__`, and raises KeyError on deletion. No such key can be stored, so these probes are not modelled.
- Values stored through `__setitem__` are limited to the three kinds `extend` produces: subcommand, `bind` object or None. Python would accept any value there.
- A payload dict is an ordered list of pairs. Duplicate keys can be written in this form, although a Python dict never has them.
- Call arguments are strings. `__call__` is modelled on the word sequences it receives from a command line.
- A payload item is never itself a `cmdict`: `Item` has a case for a plain dict only. So the `isinstance(v, cmdict)` test that skips the copy (core.py:191-192) always takes the copying branch here, and `k not in v` (core.py:198) is always the exact lookup of a plain dict, never the prefix lookup that a `cmdict` payload given to `update`, `extend` or `cmdict(other)` would use.
- The `isinstance(self[k], dict)` promotion of a plain dict already stored in a slot (core.py:188-189) is left out: every nested level in this model is a command dictionary.
- `Dispatch.Call`: its own contract only says that a fired action means True; what a call does is stated by `Dispatch.ResolvedTokenDecides`, `Dispatch.UnresolvedFallsBack` and `Dispatch.FiredActionIsStored`.
