/**
 * `serialize`: the registered custom elements, then the native elements,
 * folded into a name -> value dictionary. A name seen again turns its
 * entry into an array of values.
 */
module Serialization {
  import opened JsValues
  import opened FormFields

  /** A dictionary entry: a single value, or the array duplicate names produce. */
  datatype Entry = Single(value: Value) | Many(values: seq<Value>)

  type Json = map<string, Entry>

  /** The values an entry holds, in order. */
  function Values(e: Entry): seq<Value> {
    match e
    case Single(v) => [v]
    case Many(vs) => vs
  }

  /** `json[name]` is truthy: present, and an array or a truthy value. */
  predicate Present(json: Json, name: string) {
    name in json && (json[name].Many? || !Falsy(json[name].value))
  }

  /** `addSerializedElement`: store a first value, or append to the entry. */
  function Add(json: Json, name: string, v: Value): (r: Json)
    ensures r.Keys == json.Keys + {name}
    ensures forall k :: k in json && k != name ==> r[k] == json[k]
    ensures Values(r[name]) == if Present(json, name) then Values(json[name]) + [v] else [v]
    ensures r[name].Single? <==> !Present(json, name)
  {
    if !Present(json, name) then json[name := Single(v)]
    else match json[name]
      case Single(w) => json[name := Many([w, v])]
      case Many(vs) => json[name := Many(vs + [v])]
  }

  /** The loop over the registered custom elements, from a given dictionary. */
  function AddCustomElements(json: Json, cs: seq<ControlState>): (r: Json)
    ensures r.Keys == json.Keys + Names(cs)
  {
    if cs == [] then json
    else
      NamesSnoc(cs);
      var j := AddCustomElements(json, cs[..|cs| - 1]);
      var c := cs[|cs| - 1];
      if UseValue(c) then Add(j, c.attrs.name, c.value) else j
  }

  /** A native element the second loop passes over. */
  predicate SkipsNative(json: Json, n: ControlState) {
    !UseValue(n) || (n.attrs.hasIsAttr && Present(json, n.attrs.name))
  }

  /** The loop over the form's native elements, from a given dictionary. */
  function AddNativeElements(json: Json, ns: seq<ControlState>): (r: Json)
    ensures r.Keys == json.Keys + Names(ns)
  {
    if ns == [] then json
    else
      NamesSnoc(ns);
      var j := AddNativeElements(json, ns[..|ns| - 1]);
      var n := ns[|ns| - 1];
      if SkipsNative(j, n) then j else Add(j, n.attrs.name, n.value)
  }

  /** What `serialize` returns for these custom and native controls. */
  function Serialized(cs: seq<ControlState>, ns: seq<ControlState>): Json {
    AddNativeElements(AddCustomElements(map[], cs), ns)
  }

  /** The names of the controls that contribute a value. */
  function Names(ss: seq<ControlState>): set<string> {
    set s | s in ss && UseValue(s) :: s.attrs.name
  }

  /** The values contributed under `name`, in encounter order. */
  function ValuesNamed(ss: seq<ControlState>, name: string): seq<Value> {
    if ss == [] then []
    else
      var s := ss[|ss| - 1];
      ValuesNamed(ss[..|ss| - 1], name) + if UseValue(s) && s.attrs.name == name then [s.value] else []
  }

  /** The native elements without an `is` attribute. */
  function PlainNatives(ns: seq<ControlState>): seq<ControlState> {
    if ns == [] then []
    else
      var n := ns[|ns| - 1];
      PlainNatives(ns[..|ns| - 1]) + if n.attrs.hasIsAttr then [] else [n]
  }

  /**
   * Every usable native element with an `is` attribute is backed by a usable
   * custom element of the same name with a truthy value (typically itself,
   * registered as a custom element).
   */
  predicate Covered(cs: seq<ControlState>, ns: seq<ControlState>) {
    forall n :: n in ns && n.attrs.hasIsAttr && UseValue(n) ==>
      exists c :: c in cs && UseValue(c) && !Falsy(c.value) && c.attrs.name == n.attrs.name
  }

  // ---------------------------------------------------------------------------
  // Keys: which names appear in the output.

  lemma NamesSnoc(ss: seq<ControlState>)
    requires ss != []
    ensures Names(ss) == Names(ss[..|ss| - 1]) + if UseValue(ss[|ss| - 1]) then {ss[|ss| - 1].attrs.name} else {}
  {
    assert ss == ss[..|ss| - 1] + [ss[|ss| - 1]];
  }

  /**
   * Filtering: a name is a key of the output exactly when some control that
   * is enabled, named, and (when checkbox/radio-like) checked carries it.
   */
  lemma SerializedKeys(cs: seq<ControlState>, ns: seq<ControlState>)
    ensures Serialized(cs, ns).Keys == Names(cs + ns)
  {
    assert Names(cs + ns) == Names(cs) + Names(ns);
  }

  // ---------------------------------------------------------------------------
  // A truthy entry stays truthy.

  lemma {:induction false} PresentStays(json: Json, cs: seq<ControlState>, name: string)
    requires Present(json, name)
    ensures Present(AddCustomElements(json, cs), name)
  {
    if cs != [] {
      PresentStays(json, cs[..|cs| - 1], name);
    }
  }

  lemma {:induction false} PresentAfterTruthy(json: Json, cs: seq<ControlState>, c: ControlState)
    requires c in cs && UseValue(c) && !Falsy(c.value)
    ensures Present(AddCustomElements(json, cs), c.attrs.name)
  {
    var init := cs[..|cs| - 1];
    if c in init {
      PresentAfterTruthy(json, init, c);
      PresentStays(AddCustomElements(json, init), [cs[|cs| - 1]], c.attrs.name);
      assert [cs[|cs| - 1]][..0] == [];
    } else {
      assert cs == init + [cs[|cs| - 1]];
    }
  }

  // ---------------------------------------------------------------------------
  // No double counting of customised native elements.

  lemma {:induction false} PlainNativesSnoc(ns: seq<ControlState>)
    requires ns != [] && !ns[|ns| - 1].attrs.hasIsAttr
    ensures PlainNatives(ns)[..|PlainNatives(ns)| - 1] == PlainNatives(ns[..|ns| - 1])
    ensures PlainNatives(ns) != [] && PlainNatives(ns)[|PlainNatives(ns)| - 1] == ns[|ns| - 1]
  {
  }

  lemma {:induction false} NativePassOverCovered(json: Json, ns: seq<ControlState>)
    requires forall n :: n in ns && n.attrs.hasIsAttr && UseValue(n) ==> Present(json, n.attrs.name)
    ensures AddNativeElements(json, ns) == AddCustomElements(json, PlainNatives(ns))
  {
    if ns != [] {
      var init := ns[..|ns| - 1];
      var n := ns[|ns| - 1];
      NativePassOverCovered(json, init);
      var j := AddNativeElements(json, init);
      if n.attrs.hasIsAttr {
        if UseValue(n) {
          assert n in ns;
          PresentStays(json, PlainNatives(init), n.attrs.name);
        }
        assert SkipsNative(j, n);
        assert AddNativeElements(json, ns) == j;
        assert PlainNatives(ns) == PlainNatives(init);
      } else {
        PlainNativesSnoc(ns);
      }
    }
  }

  /**
   * No double counting: when every customised native element is backed by a
   * truthy custom value of its name, the native pass adds exactly the plain
   * native elements, after all the custom ones.
   */
  lemma NoDoubleCounting(cs: seq<ControlState>, ns: seq<ControlState>)
    requires Covered(cs, ns)
    ensures Serialized(cs, ns) == AddCustomElements(map[], cs + PlainNatives(ns))
  {
    var json := AddCustomElements(map[], cs);
    forall n | n in ns && n.attrs.hasIsAttr && UseValue(n)
      ensures Present(json, n.attrs.name)
    {
      var c :| c in cs && UseValue(c) && !Falsy(c.value) && c.attrs.name == n.attrs.name;
      PresentAfterTruthy(map[], cs, c);
    }
    NativePassOverCovered(json, ns);
    CustomConcat(map[], cs, PlainNatives(ns));
  }

  lemma {:induction false} CustomConcat(json: Json, a: seq<ControlState>, b: seq<ControlState>)
    ensures AddCustomElements(AddCustomElements(json, a), b) == AddCustomElements(json, a + b)
  {
    if b == [] {
      assert a + b == a;
    } else {
      CustomConcat(json, a, b[..|b| - 1]);
      assert (a + b)[..|a + b| - 1] == a + b[..|b| - 1];
    }
  }

  // ---------------------------------------------------------------------------
  // Aggregation of duplicate names.

  lemma {:induction false} ValuesNamedConcat(a: seq<ControlState>, b: seq<ControlState>, name: string)
    ensures ValuesNamed(a + b, name) == ValuesNamed(a, name) + ValuesNamed(b, name)
  {
    if b == [] {
      assert a + b == a;
    } else {
      ValuesNamedConcat(a, b[..|b| - 1], name);
      assert (a + b)[..|a + b| - 1] == a + b[..|b| - 1];
    }
  }

  lemma {:induction false} UntouchedName(json: Json, cs: seq<ControlState>, name: string)
    requires ValuesNamed(cs, name) == []
    ensures name in AddCustomElements(json, cs) <==> name in json
    ensures name in json ==> AddCustomElements(json, cs)[name] == json[name]
  {
    if cs != [] {
      UntouchedName(json, cs[..|cs| - 1], name);
    }
  }

  /**
   * From an entry that is absent or falsy, the values contributed under a
   * name are collected in order, provided the first of them is truthy; the
   * entry is a single value exactly when there is one.
   */
  lemma {:induction false} CollectsInOrder(json: Json, cs: seq<ControlState>, name: string)
    requires !Present(json, name)
    requires ValuesNamed(cs, name) != [] && !Falsy(ValuesNamed(cs, name)[0])
    ensures Present(AddCustomElements(json, cs), name)
    ensures Values(AddCustomElements(json, cs)[name]) == ValuesNamed(cs, name)
    ensures AddCustomElements(json, cs)[name].Single? <==> |ValuesNamed(cs, name)| == 1
  {
    var init := cs[..|cs| - 1];
    var c := cs[|cs| - 1];
    if ValuesNamed(init, name) == [] {
      UntouchedName(json, init, name);
    } else {
      CollectsInOrder(json, init, name);
    }
  }

  /**
   * Duplicate names: under the `Covered` condition, a name whose first value
   * is truthy gets all its values, the custom elements' before the native
   * ones, each in encounter order; a single value stays a scalar.
   */
  lemma AggregatesInOrder(cs: seq<ControlState>, ns: seq<ControlState>, name: string)
    requires Covered(cs, ns)
    requires ValuesNamed(cs, name) + ValuesNamed(PlainNatives(ns), name) != []
    requires !Falsy((ValuesNamed(cs, name) + ValuesNamed(PlainNatives(ns), name))[0])
    ensures name in Serialized(cs, ns)
    ensures Values(Serialized(cs, ns)[name]) == ValuesNamed(cs, name) + ValuesNamed(PlainNatives(ns), name)
    ensures Serialized(cs, ns)[name].Single? <==> |ValuesNamed(cs, name) + ValuesNamed(PlainNatives(ns), name)| == 1
  {
    NoDoubleCounting(cs, ns);
    ValuesNamedConcat(cs, PlainNatives(ns), name);
    CollectsInOrder(map[], cs + PlainNatives(ns), name);
  }

  /**
   * The `!json[el.name]` test: a falsy first value is overwritten by the next
   * value of the same name instead of being aggregated with it.
   */
  lemma FalsyFirstValueOverwritten(json: Json, name: string, first: Value, next: Value)
    requires !Present(json, name) && Falsy(first)
    ensures Add(Add(json, name, first), name, next) == json[name := Single(next)]
  {
  }

  /** For instance, an empty field followed by "b" under one name serialises to "b" alone. */
  lemma EmptyThenNonEmpty(a: Attributes)
    requires a.name == "n" && !a.disabled && !UsesChecked(a)
    ensures Serialized([ControlState(a, Str(""), false), ControlState(a, Str("b"), false)], []) == map["n" := Single(Str("b"))]
  {
    var cs := [ControlState(a, Str(""), false), ControlState(a, Str("b"), false)];
    assert cs[..1][..0] == [] && cs[..1][0] == cs[0];
    assert UseValue(cs[0]) && UseValue(cs[1]);
    var first := AddCustomElements(map[], cs[..1]);
    assert first == Add(AddCustomElements(map[], []), "n", Str(""));
    assert AddCustomElements(map[], cs) == first["n" := Single(Str("b"))];
    assert first["n" := Single(Str("b"))] == map["n" := Single(Str("b"))];
  }
}
