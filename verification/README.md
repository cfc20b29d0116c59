# Kalamar items and site registry, in Dafny

This project models two parts of Kalamar, a storage-agnostic data-access
layer:

- **The item property store** (`ItemProperties` in `src/kalamar/item.py`).
  It is a lazy, memoizing dictionary. A lookup first checks the item's
  *forced values* under the key exactly as requested. It then checks the
  cache under the key's one-step *alias*. On a miss it asks the item's raw
  reader for the aliased name and caches the answer, even when that answer
  is `None`.
- **The item helpers around it** (`BaseItem`, `AtomItem`). These are
  `_open` (open the data stream once), `matches` (compare a property through
  an operator table), the default conversion hook, and the atom's
  `read`/`write` shortcuts for the reserved `_content` property.
- **The site registry** (`Site`). It binds collection names to access
  points. Its behaviour is stated by `kalamar/tests/test_site.py`: one name
  per access point, one access point per name, and `RuntimeError` on any
  conflict.

Everything is a pure function over immutable values:

- A store is a record of three maps (`Properties.Store`).
- A lookup returns the value together with the store afterwards.
- The item's raw reader is a function parameter `readRaw`.
- Operators are abstract predicates in a `map<string, Operator<V>>`.
- The conversion hook is a function parameter.
- The stream opener is a function `nat -> T`: its k-th invocation yields
  `opener(k)`. A call counter makes "opened at most once" observable.
- Access points are opaque identifiers (`ApId`), because the source compares
  them by instance.

Files:

- `wrappers.dfy`: `Option` (Python `None`) and `Result` (raised exceptions).
- `properties.dfy`: the property store.
- `items.dfy`: the item helpers.
- `site.dfy`: the registry.

Points where the code's behaviour is easy to misread:

- Forced values are looked up with the key as requested, before any
  de-aliasing (`item.py:188-189`). An alias of a forced name therefore reads
  from the data (`Properties.GetForcedUsesRequestedKey`).
- `AtomItem.write` is a plain dictionary store under the raw key `_content`
  (`item.py:140-142`). The write goes into the cache: it is not aliased, and
  a forced `_content` shadows it. A read after a write answers the written
  value only when `_content` is neither forced nor aliased
  (`Items.WriteThenRead`, `Items.WriteShadowedByForced`,
  `Items.WriteInvisibleThroughAlias`, `Items.AtomScenario`).
- The `Site` class is not modelled; the registry follows
  `kalamar/tests/test_site.py`. When both the name and the access point are
  taken, the model reports the name first. The tests cannot tell the two
  apart, since both raise `RuntimeError`.

## Model

| member | source | states |
|---|---|---|
| Properties.NewStore | src/kalamar/item.py:182-184 | a new store holds the given forced values and alias table, and an empty cache |
| Properties.Get | src/kalamar/item.py:186-197 | a lookup never changes forced values or aliases; it only adds, never alters, cache entries, and adds at most the key's aliased name; a non-forced key ends up cached under its aliased name with the answered value; when the reader is not reached the store is unchanged |
| Properties.GetForcedHit | src/kalamar/item.py:186-189 | a forced key answers its forced value whatever the reader says, and leaves the store unchanged |
| Properties.GetCacheHit | src/kalamar/item.py:190-192 | a non-forced key whose alias is cached answers the cached value, independent of the reader, with the store unchanged |
| Properties.GetMiss | src/kalamar/item.py:193-196 | on a miss the answer is the reader's value for the aliased name, `None` included, stored as the one new cache entry |
| Properties.GetIdempotent | src/kalamar/item.py:186-197 | a second lookup of a key answers the same value and the same store as the first, and does not reach the reader |
| Properties.Alias | src/kalamar/item.py:199-200 | one-step resolution: the alias target when present, else the name itself |
| Properties.AliasOneStep | src/kalamar/item.py:199-200 | alias resolution takes exactly one step: with `a -> b -> c`, `a` resolves to `b`, not `c` |
| Properties.GetAliasShared | src/kalamar/item.py:186-200 | an alias and its canonical name answer the same value through one shared cache entry, in either lookup order |
| Properties.GetForcedUsesRequestedKey | src/kalamar/item.py:187-189 | a forced value is found only under the requested key: an alias of a forced name reads from the data instead |
| Properties.GetAgreesWithView | src/kalamar/item.py:186-197 | on a cache filled only by reads, the memoized lookup answers the unmemoized value (forced value, else the reader's value for the alias) and keeps the cache faithful |
| Properties.GetManyReadsEachNameOnce | src/kalamar/item.py:186-197 | over any run of lookups the reader is called at most once per name, only for names not cached at the start, and each such name ends up cached; forced values and aliases never change |
| Properties.GetManyAgreesWithView | src/kalamar/item.py:186-197 | over any run of lookups on a faithful cache, every answer equals the key's unmemoized value in the initial store |
| Properties.GetDocumentedExample | src/kalamar/item.py:159-178 | the class documentation's example: a read-through property, a forced property, a missing property answering `None`, and an alias resolving to its canonical value |
| Items.IdentityConversion | src/kalamar/item.py:93-95 | the default conversion hook returns the comparison value unchanged |
| Items.Matches | src/kalamar/item.py:58-87 | matching fails exactly when the operator symbol is missing, and then with `OperatorNotAvailable(symbol)`; the property lookup's cache effect happens whether or not it fails |
| Items.MatchesUnknownOperatorFails | src/kalamar/item.py:84-87 | an unknown symbol always raises `OperatorNotAvailable`, never answers false |
| Items.MatchesAppliesOperator | src/kalamar/item.py:80-95 | with the identity hook, a known operator answers the operator applied to the property's value and the comparison value |
| Items.MatchesEqualityIff | src/kalamar/item.py:64-66 | with `=` as equality, matching is true iff the property equals the converted value and false iff it differs; with `!=` as inequality, `!=` answers the negation of `=` |
| Items.MatchesAsWritten | src/kalamar/item.py:81-82 | the code as written performs the property lookup, with its cache effect, before it fails |
| Items.MatchesAsWrittenRaises | src/kalamar/item.py:82 | as written, every call raises `NameError`, including one that should answer true |
| Items.MatchesDiscardingAnswer | src/kalamar/item.py:81-87 | with only the conversion call of line 82 repaired, the code performs the lookup with its cache effect before answering or failing |
| Items.MatchesDiscardsAnswer | src/kalamar/item.py:85 | with the conversion call repaired, a known operator makes the code return `None`, including when the intended answer is true |
| Items.MatchesUnknownOperatorRaisesNameError | src/kalamar/item.py:84-87 | with line 82 repaired, an unknown symbol raises `NameError` for the unbound `OperatorNotAvailable`, where the intended code raises `OperatorNotAvailable(symbol)` |
| Items.NewStreamState | src/kalamar/item.py:53-54 | a new item has no stream and has not called its opener |
| Items.Open | src/kalamar/item.py:124-127 | after opening there is a stream; an open stream is left untouched and the opener is not called; an unopened item gets the opener's next stream; the opener is called at most once per call |
| Items.OpenRepeatedlyOpensOnce | src/kalamar/item.py:124-127 | any positive number of opens has the effect of one: one opener call at most, and the first stream is kept |
| Items.Read | src/kalamar/item.py:136-138 | reading never changes forced values or aliases; a forced `_content` is answered with the store unchanged; otherwise the answer is memoized under the aliased name, so reading again answers the same with the store unchanged |
| Items.Write | src/kalamar/item.py:140-142 | writing sets the cache entry `_content` and adds no other key; forced values, aliases and other entries are unchanged |
| Items.WriteThenRead | src/kalamar/item.py:136-142 | when `_content` is neither forced nor aliased, a read after a write answers the written value and leaves the store as the write left it |
| Items.WriteShadowedByForced | src/kalamar/item.py:136-142 | a forced `_content` is what a read answers after any write |
| Items.WriteInvisibleThroughAlias | src/kalamar/item.py:136-142 | when `_content` is aliased elsewhere, a read after a write answers what a read before it would |
| Items.AtomScenario | src/kalamar/item.py:136-142 | forced content `hello` reads as `hello`, also after `write("world")`; cached content `hello` then `write("world")` reads as `world` |
| SiteRegistry.NewSite | kalamar/tests/test_site.py:35-40 | a new site has no bindings |
| SiteRegistry.Register | kalamar/tests/test_site.py:35-55 | registration succeeds iff the name is unbound and the access point is unbound; success adds exactly that binding and keeps the registry injective; a taken name fails with `NameTaken`; an unbound name with a taken access point fails with `AccessPointTaken` |
| SiteRegistry.SimpleSetup | kalamar/tests/test_site.py:35-40 | registering one access point as `things` on a new site yields exactly `{"things": ap}` |
| SiteRegistry.DoubleRegister | kalamar/tests/test_site.py:42-48 | registering the same access point again as `stuff` fails |
| SiteRegistry.NameConflict | kalamar/tests/test_site.py:50-55 | registering a second, distinct access point as `things` fails |
| SiteRegistry.ReRegisterFails | kalamar/tests/test_site.py:42-55 | on any site, once `ap` is bound under `n1`, binding anything under `n1` fails, and so does binding `ap` under another name |
| SiteRegistry.RegisterAllSucceedsIff | kalamar/tests/test_site.py:42-55 | a run of registrations succeeds iff its names and access points are new to the site and pairwise distinct |
| SiteRegistry.RegisterAllBindsEach | kalamar/tests/test_site.py:35-55 | a successful run keeps earlier bindings, binds each name to its access point, adds one binding per registration, and keeps the registry injective |

## Left out

- `CapsuleItem`: it only inherits `list` and adds no behaviour of its own.
- `BaseItem.encoding` and `BaseItem.properties_aliases`: both read the unbound name `access_point`, so they have no behaviour to state.
- `BaseItem.serialize` and `BaseItem._read_property_from_data`: both are abstract and raise `NotImplementedError`. The reader is the parameter `readRaw`.
- `ItemProperties._alias` reads `self._item._properties_aliases`, which `BaseItem` never defines (it defines only `properties_aliases`, which reads an unbound name). The model gives the store its own alias table instead.
- Items.Matches: predicates and the conversion hook are total functions that never raise. The code's `try` (`item.py:84-87`) also wraps the predicate call, so a predicate that itself raises `KeyError` would be reported as `OperatorNotAvailable(symbol)`, and any other exception from the predicate or the hook would propagate. Neither path is modelled, so "fails exactly when the symbol is missing" holds only under this abstraction.
- The `ItemProperties` back-reference to its item: the store carries the item's alias table, and the reader is a parameter.
- Open: only a missing stream counts as unopened. Python's `not(self._stream)` would also reopen a stream object that is falsy. The opener's I/O is an opaque token.
- The regular-expression operators `~=` and `~!=`, and the concrete global operator table `kalamar.operators`: operators are abstract predicates.
- Type conversion by subclasses: the hook is an arbitrary function parameter, and only the identity default is given.
- The `Site` implementation itself is not part of this model. The registry is modelled from its tests, including which error comes first when both apply. Locking and thread safety are not modelled.

## Findings

| source | as written | input that shows it | evidently intended | confidence | as-written member | corrected member |
|---|---|---|---|---|---|---|
| src/kalamar/item.py:82 | `_convert_value_type(prop_name, value)` is called without `self.`, so the name is unbound at module scope and raises `NameError` | any call, e.g. `matches("x", "=", "a")` on an item whose `x` is `"a"` | `self._convert_value_type(prop_name, value)`, the per-item hook | high (not executed) | Items.MatchesAsWritten, Items.MatchesAsWrittenRaises | Items.Matches, Items.MatchesEqualityIff |
| src/kalamar/item.py:85 | the operator's result is computed and discarded, so `matches` returns `None` | with line 82 repaired, `matches("x", "=", "a")` on an item whose `x` is `"a"` returns `None`, not `True` | `return kalamar.operators[operator](prop_val, value)`, as the docstring "Return boolean" says | high (not executed) | Items.MatchesDiscardingAnswer, Items.MatchesDiscardsAnswer | Items.Matches, Items.MatchesAppliesOperator |
| src/kalamar/item.py:87 | `raise OperatorNotAvailable(operator)` uses a name the module never binds (it imports only `kalamar`), so with line 82 repaired an unknown symbol raises `NameError` | with line 82 repaired, `matches("x", "?=", "a")` on any item | raise the operator-not-available error for the symbol from a name the module actually binds | high (not executed) | Items.MatchesDiscardingAnswer, Items.MatchesUnknownOperatorRaisesNameError | Items.Matches, Items.MatchesUnknownOperatorFails |
