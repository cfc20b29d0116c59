/** Items (`BaseItem`, `AtomItem`): lazy stream opening, property matching
    through an operator table, and the atomic content shortcuts.

    An item's property state is a `Properties.Store`; an item's stream state
    is a `StreamState`. Operators are abstract binary predicates looked up by
    symbol; the conversion hook is a function parameter whose default is
    `IdentityConversion`. */
module Items {
  import opened Wrappers
  import opened Properties

  /** The errors `matches` can raise: the operator table has no entry for
      the symbol, or a name the code uses is not bound (Python `NameError`). */
  datatype MatchError = OperatorNotAvailable(operator: string) | NameError(name: string)

  /** A comparison predicate: property value on the left, converted
      comparison value on the right. */
  type Operator<!V> = (Option<V>, Option<V>) -> bool

  /** A conversion hook: property name and raw comparison value to the value
      actually compared. */
  type Converter<!V> = (string, Option<V>) -> Option<V>

  /** The default conversion hook `_convert_value_type`: no conversion. */
  function IdentityConversion<V>(propName: string, value: Option<V>): (r: Option<V>)
    ensures r == value
  {
    value
  }

  /** `matches` as documented: looks the property up (which may fill the
      cache), converts the comparison value with the item's hook, then applies
      the operator found under the symbol; a symbol missing from the table
      raises `OperatorNotAvailable`. The cache effect of the lookup stays
      even when the operator is missing. */
  function Matches<V>(s: Store<V>, readRaw: string -> Option<V>, operators: map<string, Operator<V>>,
                      convert: Converter<V>, propName: string, operator: string, value: Option<V>)
    : (r: (Result<bool, MatchError>, Store<V>))
    ensures r.0.Failure? <==> operator !in operators
    ensures r.0.Failure? ==> r.0.error == OperatorNotAvailable(operator)
    ensures r.1.forced == s.forced && r.1.aliases == s.aliases
    ensures r.1 == Get(s, propName, readRaw).1
  {
    var (propVal, s1) := Get(s, propName, readRaw);
    var converted := convert(propName, value);
    if operator in operators then
      (Success(operators[operator](propVal, converted)), s1)
    else
      (Failure(OperatorNotAvailable(operator)), s1)
  }

  /** Python equality, the predicate behind `=`. */
  ghost predicate Equal<V>(a: Option<V>, b: Option<V>)
  {
    a == b
  }

  /** Python inequality, the predicate behind `!=`. */
  ghost predicate NotEqual<V>(a: Option<V>, b: Option<V>)
  {
    a != b
  }

  /** A symbol absent from the operator table always raises
      `OperatorNotAvailable`, never answers `false`. */
  lemma MatchesUnknownOperatorFails<V>(s: Store<V>, readRaw: string -> Option<V>,
                                       operators: map<string, Operator<V>>, convert: Converter<V>,
                                       propName: string, operator: string, value: Option<V>)
    requires operator !in operators
    ensures Matches(s, readRaw, operators, convert, propName, operator, value).0
            == Failure(OperatorNotAvailable(operator))
  {
  }

  /** With the identity hook and a present operator, `matches` answers the
      operator applied to the property's value and the comparison value. */
  lemma MatchesAppliesOperator<V>(s: Store<V>, readRaw: string -> Option<V>,
                                  operators: map<string, Operator<V>>,
                                  propName: string, operator: string, value: Option<V>)
    requires operator in operators
    ensures Matches(s, readRaw, operators, IdentityConversion, propName, operator, value).0
            == Success(operators[operator](Get(s, propName, readRaw).0, value))
  {
  }

  /** With `=` bound to equality, `matches(p, "=", v)` is true exactly when
      the property's value equals the converted `v`; with `!=` bound to
      inequality, `matches(p, "!=", v)` is its negation. */
  lemma MatchesEqualityIff<V>(s: Store<V>, readRaw: string -> Option<V>,
                                  operators: map<string, Operator<V>>, convert: Converter<V>,
                                  propName: string, value: Option<V>)
    requires "=" in operators && operators["="] == Equal
    requires "!=" in operators && operators["!="] == NotEqual
    ensures Matches(s, readRaw, operators, convert, propName, "=", value).0 == Success(true)
            <==> Get(s, propName, readRaw).0 == convert(propName, value)
    ensures Matches(s, readRaw, operators, convert, propName, "=", value).0 == Success(false)
            <==> Get(s, propName, readRaw).0 != convert(propName, value)
    ensures Matches(s, readRaw, operators, convert, propName, "!=", value).0
            == Success(!Matches(s, readRaw, operators, convert, propName, "=", value).0.value)
  {
  }

  /** `matches` exactly as written: the property is looked up, then the
      unqualified call to `_convert_value_type` (no `self.`) names nothing at
      module scope and raises `NameError`. The lookup's cache effect stays. */
  function MatchesAsWritten<V>(s: Store<V>, readRaw: string -> Option<V>, operators: map<string, Operator<V>>,
                               propName: string, operator: string, value: Option<V>)
    : (r: (Result<Option<bool>, MatchError>, Store<V>))
    ensures r.1 == Get(s, propName, readRaw).1
  {
    var (propVal, s1) := Get(s, propName, readRaw);
    (Failure(NameError("_convert_value_type")), s1)
  }

  /** `matches` with the conversion call of `item.py` line 82 repaired and
      the rest as written: a known operator makes it return `None`, because
      the predicate's answer is discarded (line 85); an unknown symbol reaches
      `raise OperatorNotAvailable(operator)` (line 87), a name the module
      never binds, and so raises `NameError`. */
  function MatchesDiscardingAnswer<V>(s: Store<V>, readRaw: string -> Option<V>,
                                      operators: map<string, Operator<V>>, convert: Converter<V>,
                                      propName: string, operator: string, value: Option<V>)
    : (r: (Result<Option<bool>, MatchError>, Store<V>))
    ensures r.1 == Get(s, propName, readRaw).1
  {
    var (propVal, s1) := Get(s, propName, readRaw);
    var converted := convert(propName, value);
    if operator in operators then
      var _ := operators[operator](propVal, converted);
      (Success(None), s1)
    else
      (Failure(NameError("OperatorNotAvailable")), s1)
  }

  /** The store with one cached property `x = "a"`, used by the
      counterexamples below. */
  function OneCachedProperty(): (s: Store<string>)
  {
    Store(map[], map["x" := Some("a")], map[])
  }

  /** The reader of an item whose data holds no property at all. */
  function EmptyReader(k: string): (v: Option<string>)
  {
    None
  }

  /** `item.py` line 82 as written: on an item whose `x` is `"a"`, `matches("x", "=",
      "a")` should be true, but the code raises `NameError` instead, and it
      does so for every input. */
  lemma MatchesAsWrittenRaises<V>(s: Store<V>, readRaw: string -> Option<V>,
                                  operators: map<string, Operator<V>>,
                                  propName: string, operator: string, value: Option<V>)
    ensures MatchesAsWritten(s, readRaw, operators, propName, operator, value).0
            == Failure(NameError("_convert_value_type"))
    ensures var ops := map["=" := Equal];
            && Matches(OneCachedProperty(), EmptyReader, ops, IdentityConversion, "x", "=", Some("a")).0
               == Success(true)
            && MatchesAsWritten(OneCachedProperty(), EmptyReader, ops, "x", "=", Some("a")).0.Failure?
  {
    var ops: map<string, Operator<string>> := map["=" := Equal];
    assert ops["="](Some("a"), Some("a"));
  }

  /** `item.py` line 85 as written: with the conversion call repaired, `matches("x",
      "=", "a")` on an item whose `x` is `"a"` returns `None` instead of
      `True`; for every known operator the answer is `None`, whatever the
      predicate says. */
  lemma MatchesDiscardsAnswer<V>(s: Store<V>, readRaw: string -> Option<V>,
                                 operators: map<string, Operator<V>>, convert: Converter<V>,
                                 propName: string, operator: string, value: Option<V>)
    requires operator in operators
    ensures MatchesDiscardingAnswer(s, readRaw, operators, convert, propName, operator, value).0
            == Success(None)
    ensures var ops := map["=" := Equal];
            && Matches(OneCachedProperty(), EmptyReader, ops, IdentityConversion, "x", "=", Some("a")).0
               == Success(true)
            && MatchesDiscardingAnswer(OneCachedProperty(), EmptyReader, ops, IdentityConversion,
                                       "x", "=", Some("a")).0 == Success(None)
  {
    var ops: map<string, Operator<string>> := map["=" := Equal];
    assert ops["="](Some("a"), Some("a"));
  }

  /** `item.py` line 87 as written: with line 82 repaired, an unknown symbol
      such as `"?="` raises `NameError` for the unbound `OperatorNotAvailable`
      instead of the intended `OperatorNotAvailable("?=")`. */
  lemma MatchesUnknownOperatorRaisesNameError<V>(s: Store<V>, readRaw: string -> Option<V>,
                                                 operators: map<string, Operator<V>>, convert: Converter<V>,
                                                 propName: string, operator: string, value: Option<V>)
    requires operator !in operators
    ensures MatchesDiscardingAnswer(s, readRaw, operators, convert, propName, operator, value).0
            == Failure(NameError("OperatorNotAvailable"))
    ensures Matches(s, readRaw, operators, convert, propName, operator, value).0
            == Failure(OperatorNotAvailable(operator))
    ensures var ops := map["=" := Equal];
            && MatchesDiscardingAnswer(OneCachedProperty(), EmptyReader, ops, IdentityConversion,
                                       "x", "?=", Some("a")).0 == Failure(NameError("OperatorNotAvailable"))
            && Matches(OneCachedProperty(), EmptyReader, ops, IdentityConversion, "x", "?=", Some("a")).0
               == Failure(OperatorNotAvailable("?="))
  {
  }

  /** The lazily opened stream of an item, with the number of times the
      opener has been invoked so far. */
  datatype StreamState<T> = StreamState(stream: Option<T>, openerCalls: nat)

  /** A freshly built item: no stream, opener never called. */
  function NewStreamState<T>(): (st: StreamState<T>)
    ensures st.stream.None? && st.openerCalls == 0
  {
    StreamState(None, 0)
  }

  /** `_open`: opens the stream when there is none yet. The opener's k-th
      invocation yields `opener(k)`. */
  function Open<T>(st: StreamState<T>, opener: nat -> T): (r: StreamState<T>)
    ensures r.stream.Some?
    ensures st.stream.Some? ==> r == st
    ensures st.stream.None? ==> r.stream == Some(opener(st.openerCalls))
    ensures r.openerCalls <= st.openerCalls + 1
  {
    if st.stream.None? then
      StreamState(Some(opener(st.openerCalls)), st.openerCalls + 1)
    else
      st
  }

  /** `n` successive calls of `_open`. */
  function OpenRepeatedly<T>(st: StreamState<T>, opener: nat -> T, n: nat): (r: StreamState<T>)
    decreases n
  {
    if n == 0 then st else OpenRepeatedly(Open(st, opener), opener, n - 1)
  }

  /** Any positive number of `_open` calls has the effect of one: the opener
      is invoked at most once, and the stream is the one it first produced. */
  lemma {:induction false} OpenRepeatedlyOpensOnce<T>(st: StreamState<T>, opener: nat -> T, n: nat)
    requires n >= 1
    ensures OpenRepeatedly(st, opener, n) == Open(st, opener)
    ensures OpenRepeatedly(st, opener, n).openerCalls <= st.openerCalls + 1
    decreases n
  {
    if n > 1 {
      OpenRepeatedlyOpensOnce(Open(st, opener), opener, n - 1);
    }
  }

  /** The reserved property that holds an atom's content. */
  const ContentKey: string := "_content"

  /** `AtomItem.read`: the lookup of the reserved content property. A forced
      content wins; otherwise the content is memoized under its aliased name,
      so reading again answers the same without touching the store. */
  function Read<V>(s: Store<V>, readRaw: string -> Option<V>): (r: (Option<V>, Store<V>))
    ensures r.1.forced == s.forced && r.1.aliases == s.aliases
    ensures ContentKey in s.forced ==> r == (s.forced[ContentKey], s)
    ensures ContentKey !in s.forced ==>
              Alias(s.aliases, ContentKey) in r.1.cache && r.1.cache[Alias(s.aliases, ContentKey)] == r.0
    ensures Get(r.1, ContentKey, readRaw) == r
  {
    Get(s, ContentKey, readRaw)
  }

  /** `AtomItem.write`: a plain dictionary store under the raw key
      `_content`, neither de-aliased nor forced. */
  function Write<V>(s: Store<V>, value: Option<V>): (r: Store<V>)
    ensures r.forced == s.forced && r.aliases == s.aliases
    ensures ContentKey in r.cache && r.cache[ContentKey] == value
    ensures r.cache.Keys == s.cache.Keys + {ContentKey}
    ensures forall k :: k in s.cache && k != ContentKey ==> r.cache[k] == s.cache[k]
  {
    s.(cache := s.cache[ContentKey := value])
  }

  /** A written content is read back, without consulting the reader, when
      `_content` is neither forced nor aliased. */
  lemma WriteThenRead<V>(s: Store<V>, value: Option<V>, readRaw: string -> Option<V>)
    requires ContentKey !in s.forced && ContentKey !in s.aliases
    ensures Read(Write(s, value), readRaw) == (value, Write(s, value))
  {
  }

  /** A forced `_content` shadows every write. */
  lemma WriteShadowedByForced<V>(s: Store<V>, value: Option<V>, readRaw: string -> Option<V>)
    requires ContentKey in s.forced
    ensures Read(Write(s, value), readRaw).0 == s.forced[ContentKey]
  {
  }

  /** When `_content` is aliased to another name, a write lands under the raw
      key that reads never consult: reading after a write answers what
      reading before it would have. */
  lemma WriteInvisibleThroughAlias<V>(s: Store<V>, value: Option<V>, readRaw: string -> Option<V>)
    requires ContentKey in s.aliases && s.aliases[ContentKey] != ContentKey
    ensures Read(Write(s, value), readRaw).0 == Read(s, readRaw).0
  {
  }

  /** The atom scenario: forced content `"hello"` reads as `"hello"` and
      keeps reading so after `write("world")`; with a non-forced content
      cached as `"hello"`, `write("world")` then `read()` answers `"world"`. */
  lemma AtomScenario(readRaw: string -> Option<string>)
    ensures var forced := Store(map[ContentKey := Some("hello")], map[], map[]);
            && Read(forced, readRaw).0 == Some("hello")
            && Read(Write(forced, Some("world")), readRaw).0 == Some("hello")
    ensures var s := Store(map[], map[ContentKey := Some("hello")], map[]);
            && Read(s, readRaw).0 == Some("hello")
            && Read(Write(s, Some("world")), readRaw).0 == Some("world")
  {
  }
}
