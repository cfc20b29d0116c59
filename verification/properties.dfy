/** The lazy, memoizing property store of an item (`ItemProperties`).

    A store holds three tables:
    - `forced`: values fixed when the item is built; looked up with the key
      exactly as the caller wrote it;
    - `cache`: values already read from the item's data, keyed by the
      de-aliased (canonical) name; an entry may hold `None` when the data had
      no such property;
    - `aliases`: the item's alias table, applied once to a requested name.

    The item's raw reader (`_read_property_from_data`) is a pure function
    parameter `readRaw`; it receives the de-aliased name. */
module Properties {
  import opened Wrappers

  datatype Store<V> = Store(
    forced: map<string, Option<V>>,
    cache: map<string, Option<V>>,
    aliases: map<string, string>)

  /** A freshly built store: the forced values given by the accessor and an
      empty cache. */
  function NewStore<V>(forced: map<string, Option<V>>, aliases: map<string, string>): (s: Store<V>)
    ensures s.forced == forced && s.aliases == aliases
    ensures |s.cache| == 0
  {
    Store(forced, map[], aliases)
  }

  /** One step of alias resolution: the alias target when there is one, the
      name itself otherwise. */
  function Alias(aliases: map<string, string>, name: string): (r: string)
    ensures name in aliases ==> r == aliases[name]
    ensures name !in aliases ==> r == name
  {
    if name in aliases then aliases[name] else name
  }

  /** Whether looking `key` up in `s` reaches the item's raw reader. */
  predicate ReaderCalled<V>(s: Store<V>, key: string)
  {
    key !in s.forced && Alias(s.aliases, key) !in s.cache
  }

  /** `__getitem__`: returns the property value and the store afterwards.
      Forced values win; then the cache under the de-aliased name; on a miss
      the reader's answer (even `None`) is stored under the de-aliased name. */
  function Get<V>(s: Store<V>, key: string, readRaw: string -> Option<V>): (r: (Option<V>, Store<V>))
    ensures r.1.forced == s.forced && r.1.aliases == s.aliases
    ensures s.cache.Keys <= r.1.cache.Keys <= s.cache.Keys + {Alias(s.aliases, key)}
    ensures forall k :: k in s.cache ==> r.1.cache[k] == s.cache[k]
    ensures key !in s.forced ==>
              Alias(s.aliases, key) in r.1.cache && r.1.cache[Alias(s.aliases, key)] == r.0
    ensures !ReaderCalled(s, key) ==> r.1 == s
  {
    if key in s.forced then
      (s.forced[key], s)
    else
      var canonical := Alias(s.aliases, key);
      if canonical in s.cache then
        (s.cache[canonical], s)
      else
        var v := readRaw(canonical);
        (v, s.(cache := s.cache[canonical := v]))
  }

  /** The value a lookup denotes, without any memoization: the forced value
      for the requested key, otherwise whatever the data holds under the
      de-aliased name. */
  function View<V>(s: Store<V>, key: string, readRaw: string -> Option<V>): (v: Option<V>)
  {
    if key in s.forced then s.forced[key] else readRaw(Alias(s.aliases, key))
  }

  /** Every cache entry is what the reader returns for its name: true of a
      store whose cache was filled only by read-through misses. */
  ghost predicate CacheFaithful<V>(s: Store<V>, readRaw: string -> Option<V>)
  {
    forall k :: k in s.cache ==> s.cache[k] == readRaw(k)
  }

  /** A forced key answers its forced value, whatever the reader would say,
      and leaves the store unchanged. */
  lemma GetForcedHit<V>(s: Store<V>, key: string, readRaw: string -> Option<V>, otherRead: string -> Option<V>)
    requires key in s.forced
    ensures Get(s, key, readRaw) == (s.forced[key], s)
    ensures Get(s, key, readRaw) == Get(s, key, otherRead)
  {
  }

  /** A cached (and not forced) key answers the cached value, does not
      consult the reader, and leaves the store unchanged. */
  lemma GetCacheHit<V>(s: Store<V>, key: string, readRaw: string -> Option<V>, otherRead: string -> Option<V>)
    requires key !in s.forced && Alias(s.aliases, key) in s.cache
    ensures Get(s, key, readRaw) == (s.cache[Alias(s.aliases, key)], s)
    ensures Get(s, key, readRaw) == Get(s, key, otherRead)
  {
  }

  /** On a miss the reader is asked for the de-aliased name and its answer,
      `None` included, becomes the one new cache entry. */
  lemma GetMiss<V>(s: Store<V>, key: string, readRaw: string -> Option<V>)
    requires key !in s.forced && Alias(s.aliases, key) !in s.cache
    ensures Get(s, key, readRaw).0 == readRaw(Alias(s.aliases, key))
    ensures Get(s, key, readRaw).1.cache.Keys == s.cache.Keys + {Alias(s.aliases, key)}
    ensures Get(s, key, readRaw).1.cache[Alias(s.aliases, key)] == readRaw(Alias(s.aliases, key))
  {
  }

  /** Memoization: a second lookup of the same key returns the same value,
      leaves the store as the first lookup left it, and does not depend on
      the reader any more (an absent property stays `None`). */
  lemma GetIdempotent<V>(s: Store<V>, key: string, readRaw: string -> Option<V>, otherRead: string -> Option<V>)
    ensures !ReaderCalled(Get(s, key, readRaw).1, key)
    ensures Get(Get(s, key, readRaw).1, key, otherRead) == Get(s, key, readRaw)
  {
  }

  /** Alias resolution is one step, not transitive: with `a -> b -> c` the
      name `a` resolves to `b`. */
  lemma AliasOneStep(aliases: map<string, string>, a: string, b: string, c: string)
    requires a in aliases && aliases[a] == b && b in aliases && aliases[b] == c
    ensures Alias(aliases, a) == b
    ensures Alias(aliases, Alias(aliases, a)) == c
  {
  }

  /** An alias and its canonical name share one cache entry: whichever is
      looked up first, the other then answers the same value without
      consulting the reader. */
  lemma GetAliasShared<V>(s: Store<V>, a: string, c: string,
                          readRaw: string -> Option<V>, otherRead: string -> Option<V>)
    requires a in s.aliases && s.aliases[a] == c && c !in s.aliases
    requires a !in s.forced && c !in s.forced
    ensures Get(Get(s, a, readRaw).1, c, otherRead) == Get(s, a, readRaw)
    ensures Get(Get(s, c, readRaw).1, a, otherRead) == Get(s, c, readRaw)
    ensures Get(s, a, readRaw).0 == Get(s, c, readRaw).0
  {
  }

  /** Forced values are matched on the requested key only: when `a` aliases
      a forced canonical name `c`, looking up `a` bypasses the forced value
      and goes to the cache or the reader. */
  lemma GetForcedUsesRequestedKey<V>(s: Store<V>, a: string, c: string, readRaw: string -> Option<V>)
    requires a in s.aliases && s.aliases[a] == c && a !in s.forced && c in s.forced
    requires c !in s.cache
    ensures Get(s, a, readRaw).0 == readRaw(c)
    ensures Get(s, c, readRaw).0 == s.forced[c]
  {
  }

  /** The memoized lookup agrees with the unmemoized denotation, and keeps
      the cache faithful to the reader. */
  lemma GetAgreesWithView<V>(s: Store<V>, key: string, readRaw: string -> Option<V>)
    requires CacheFaithful(s, readRaw)
    ensures Get(s, key, readRaw).0 == View(s, key, readRaw)
    ensures CacheFaithful(Get(s, key, readRaw).1, readRaw)
  {
  }

  /** A run of lookups in order: the values answered, the final store, and
      the log of names the reader was called with. */
  function GetMany<V>(s: Store<V>, keys: seq<string>, readRaw: string -> Option<V>)
    : (r: (seq<Option<V>>, Store<V>, seq<string>))
    ensures |r.0| == |keys|
    decreases |keys|
  {
    if |keys| == 0 then
      ([], s, [])
    else
      var (v, s1) := Get(s, keys[0], readRaw);
      var called := if ReaderCalled(s, keys[0]) then [Alias(s.aliases, keys[0])] else [];
      var (vs, s2, log) := GetMany(s1, keys[1..], readRaw);
      ([v] + vs, s2, called + log)
  }

  /** The reader is called at most once per canonical name over any run of
      lookups, only for names not cached at the start, and every name it was
      called with ends up cached; the forced values and aliases never change. */
  lemma {:induction false} GetManyReadsEachNameOnce<V>(s: Store<V>, keys: seq<string>, readRaw: string -> Option<V>)
    ensures var (_, s2, log) := GetMany(s, keys, readRaw);
            && (forall i, j :: 0 <= i < j < |log| ==> log[i] != log[j])
            && (forall i :: 0 <= i < |log| ==> log[i] !in s.cache && log[i] in s2.cache)
            && s.cache.Keys <= s2.cache.Keys
            && s2.forced == s.forced && s2.aliases == s.aliases
    decreases |keys|
  {
    if |keys| > 0 {
      var (v, s1) := Get(s, keys[0], readRaw);
      GetManyReadsEachNameOnce(s1, keys[1..], readRaw);
    }
  }

  /** Over a run of lookups on a faithful store, every answer is the value
      the key denotes in the initial store, and the cache stays faithful. */
  lemma {:induction false} GetManyAgreesWithView<V>(s: Store<V>, keys: seq<string>, readRaw: string -> Option<V>)
    requires CacheFaithful(s, readRaw)
    ensures var (vs, s2, _) := GetMany(s, keys, readRaw);
            && (forall i :: 0 <= i < |keys| ==> vs[i] == View(s, keys[i], readRaw))
            && CacheFaithful(s2, readRaw)
    decreases |keys|
  {
    if |keys| > 0 {
      var (v, s1) := Get(s, keys[0], readRaw);
      GetAgreesWithView(s, keys[0], readRaw);
      GetManyAgreesWithView(s1, keys[1..], readRaw);
      var (vs, s2, _) := GetMany(s, keys, readRaw);
      forall i | 0 <= i < |keys|
        ensures vs[i] == View(s, keys[i], readRaw)
      {
        if i > 0 {
          assert keys[i] == keys[1..][i - 1];
        }
      }
    }
  }

  /** The reader of the class documentation's example item. */
  function CorkReader(k: string): (v: Option<string>)
  {
    if k == "cork_prop" then Some("I am a cork prop")
    else if k == "I am not aliased" then Some("I am not aliased")
    else None
  }

  /** The example of the class documentation: forced `{"a": "A", "b": "B"}`,
      a reader that knows `cork_prop` and `I am not aliased`, and the alias
      `I am aliased -> I am not aliased`. */
  lemma GetDocumentedExample()
    ensures var s0 := NewStore(map["a" := Some("A"), "b" := Some("B")],
                               map["I am aliased" := "I am not aliased"]);
            var (v1, s1) := Get(s0, "cork_prop", CorkReader);
            var (v2, s2) := Get(s1, "b", CorkReader);
            var (v3, s3) := Get(s2, "I do not exist", CorkReader);
            var (v4, s4) := Get(s3, "I am aliased", CorkReader);
            var (v5, s5) := Get(s4, "I am not aliased", CorkReader);
            && v1 == Some("I am a cork prop")
            && v2 == Some("B")
            && v3 == None
            && v4 == Some("I am not aliased")
            && v5 == Some("I am not aliased")
  {
    var s0 := NewStore(map["a" := Some("A"), "b" := Some("B")],
                       map["I am aliased" := "I am not aliased"]);
    assert "cork_prop" !in s0.forced && "cork_prop" !in s0.aliases;
    var (v1, s1) := Get(s0, "cork_prop", CorkReader);
    assert v1 == Some("I am a cork prop");
    var (v2, s2) := Get(s1, "b", CorkReader);
    assert v2 == Some("B");
    assert "I do not exist" !in s2.forced && "I do not exist" !in s2.aliases;
    assert "I do not exist" !in s2.cache.Keys;
    var (v3, s3) := Get(s2, "I do not exist", CorkReader);
    assert v3 == None;
    assert "I am aliased" !in s3.forced && Alias(s3.aliases, "I am aliased") == "I am not aliased";
    assert "I am not aliased" !in s3.cache.Keys;
    var (v4, s4) := Get(s3, "I am aliased", CorkReader);
    assert v4 == Some("I am not aliased");
    var (v5, s5) := Get(s4, "I am not aliased", CorkReader);
    assert v5 == Some("I am not aliased");
  }
}
