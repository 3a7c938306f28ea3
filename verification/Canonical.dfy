/** The canonical serializer: what two values have to share to be printed alike. */
module Canonical {
  import opened Texts
  import Digits
  import J = Json
  import Utf8

  type SafeInt = n: int | -0x1F_FFFF_FFFF_FFFF <= n <= 0x1F_FFFF_FFFF_FFFF

  /** A JavaScript value. `Unserializable` is a function or a symbol, `Custom` an object
      with a `toJSON` method (such as Money) that returns `replaced`. */
  datatype Value =
    | Undefined
    | Null
    | Boolean(b: bool)
    | Number(n: SafeInt)
    | NonFinite
    | BigInt(big: int)
    | Str(s: Text)
    | Unserializable
    | Date(iso: Text)
    | Array(items: seq<Value>)
    | Custom(replaced: Value)
    | Object(props: seq<J.Entry<Value>>)

  /** A value, or the TypeError the call throws instead. */
  datatype Result<+T> = Ok(value: T) | TypeError

  predicate UniqueKeys<V>(es: seq<J.Entry<V>>) {
    forall i, j | 0 <= i < j < |es| :: es[i].key != es[j].key
  }

  /** No object has two properties of one name. */
  predicate Valid(v: Value) {
    match v
    case Array(items) => forall x | x in items :: Valid(x)
    case Custom(x) => Valid(x)
    case Object(props) => UniqueKeys(props) && forall p | p in props :: Valid(p.value)
    case _ => true
  }

  // ----- Sorting by key -----

  predicate Sorted<V>(es: seq<J.Entry<V>>) {
    forall i, j | 0 <= i < j < |es| :: Less(es[i].key, es[j].key)
  }

  function Insert<V>(e: J.Entry<V>, es: seq<J.Entry<V>>): seq<J.Entry<V>> {
    if es == [] || Less(e.key, es[0].key) then [e] + es else [es[0]] + Insert(e, es[1..])
  }

  /** `Object.keys(obj).sort()`, with the properties the keys belong to. */
  function Sort<V>(es: seq<J.Entry<V>>): seq<J.Entry<V>> {
    if es == [] then [] else Insert(es[0], Sort(es[1..]))
  }

  lemma {:induction false} InsertMember<V>(e: J.Entry<V>, es: seq<J.Entry<V>>, x: J.Entry<V>)
    ensures x in Insert(e, es) <==> x == e || x in es
  {
    if es != [] && !Less(e.key, es[0].key) {
      InsertMember(e, es[1..], x);
      assert es == [es[0]] + es[1..];
    }
  }

  lemma {:induction false} SortMember<V>(es: seq<J.Entry<V>>, x: J.Entry<V>)
    ensures x in Sort(es) <==> x in es
  {
    if es != [] {
      SortMember(es[1..], x);
      InsertMember(es[0], Sort(es[1..]), x);
      assert es == [es[0]] + es[1..];
    }
  }

  lemma {:induction false} InsertSorted<V>(e: J.Entry<V>, es: seq<J.Entry<V>>)
    requires Sorted(es) && forall x | x in es :: x.key != e.key
    ensures Sorted(Insert(e, es))
  {
    if es == [] {
    } else if Less(e.key, es[0].key) {
      forall j | 0 < j < |es| ensures Less(e.key, es[j].key) {
        LessTransitive(e.key, es[0].key, es[j].key);
      }
    } else {
      InsertSorted(e, es[1..]);
      assert es[0] in es;
      LessTotal(e.key, es[0].key);
      var rest := Insert(e, es[1..]);
      forall x | x in rest ensures Less(es[0].key, x.key) {
        InsertMember(e, es[1..], x);
        if x != e {
          TailMember(es, x);
          HeadLeast(es, x);
        }
      }
    }
  }

  lemma {:induction false} SortSorted<V>(es: seq<J.Entry<V>>)
    requires UniqueKeys(es)
    ensures Sorted(Sort(es))
  {
    if es != [] {
      SortSorted(es[1..]);
      forall x | x in Sort(es[1..]) ensures x.key != es[0].key {
        SortMember(es[1..], x);
      }
      InsertSorted(es[0], Sort(es[1..]));
    }
  }

  /** A sorted list is determined by its members. */
  lemma {:induction false} SortedUnique<V>(a: seq<J.Entry<V>>, b: seq<J.Entry<V>>)
    requires Sorted(a) && Sorted(b)
    requires forall x :: x in a <==> x in b
    ensures a == b
  {
    assert a != [] ==> a[0] in a;
    assert b != [] ==> b[0] in b;
    if a != [] {
      HeadLeast(a, b[0]);
      HeadLeast(b, a[0]);
      LessIrreflexive(a[0].key);
      if a[0] != b[0] {
        LessTransitive(a[0].key, b[0].key, a[0].key);
      }
      forall x ensures x in a[1..] <==> x in b[1..] {
        TailMember(a, x);
        TailMember(b, x);
      }
      SortedUnique(a[1..], b[1..]);
      assert a == [a[0]] + a[1..] && b == [b[0]] + b[1..];
    }
  }

  lemma HeadLeast<V>(a: seq<J.Entry<V>>, x: J.Entry<V>)
    requires Sorted(a) && x in a
    ensures x == a[0] || Less(a[0].key, x.key)
  {
  }

  lemma TailMember<V>(a: seq<J.Entry<V>>, x: J.Entry<V>)
    requires Sorted(a) && a != []
    ensures x in a[1..] <==> x in a && x != a[0]
  {
    LessIrreflexive(a[0].key);
    assert a == [a[0]] + a[1..];
  }

  // ----- Normal form -----

  function NormalizeAll(items: seq<Value>): Result<seq<J.Json>>
    decreases items, 0
  {
    if items == [] then Ok([])
    else
      var x, rest := Normalize(items[0]), NormalizeAll(items[1..]);
      if x.Ok? && rest.Ok? then Ok([x.value] + rest.value) else TypeError
  }

  /** The defined properties, in the given order. */
  function NormalizeProps(props: seq<J.Entry<Value>>): Result<seq<J.Entry<J.Json>>>
    decreases props, 0
  {
    if props == [] then Ok([])
    else
      var rest := NormalizeProps(props[1..]);
      if props[0].value.Undefined? then rest
      else
        var x := Normalize(props[0].value);
        if x.Ok? && rest.Ok? then Ok([J.Entry(props[0].key, x.value)] + rest.value) else TypeError
  }

  /** The JSON value printed for `v`. */
  function Normalize(v: Value): Result<J.Json>
    decreases v, 1
  {
    match v
    case Undefined => Ok(J.JNull)
    case Null => Ok(J.JNull)
    case Boolean(b) => Ok(J.JBool(b))
    case Number(n) => Ok(J.JNumber(n))
    case NonFinite => TypeError
    case BigInt(n) => Ok(J.JString(Digits.PrintInt(n)))
    case Str(s) => Ok(J.JString(s))
    case Unserializable => TypeError
    case Date(iso) => Ok(J.JString(iso))
    case Array(items) =>
      var r := NormalizeAll(items);
      if r.Ok? then Ok(J.JArray(r.value)) else TypeError
    case Custom(x) => Normalize(x)
    case Object(props) =>
      var r := NormalizeProps(props);
      if r.Ok? then Ok(J.JObject(Sort(r.value))) else TypeError
  }

  /** What `canonicalize(v)` returns. */
  function Canon(v: Value): Result<Text> {
    var r := Normalize(v);
    if r.Ok? then Ok(J.Print(r.value)) else TypeError
  }

  // ----- The serializer -----

  lemma {:induction false} NormalizeAllAppend(items: seq<Value>, x: Value)
    ensures NormalizeAll(items + [x]) ==
            if NormalizeAll(items).Ok? && Normalize(x).Ok?
            then Ok(NormalizeAll(items).value + [Normalize(x).value]) else TypeError
  {
    if items == [] {
      assert items + [x] == [x];
      assert NormalizeAll([x][1..]) == Ok([]);
      assert Normalize(x).Ok? ==> [] + [Normalize(x).value] == [Normalize(x).value] + [];
    } else {
      NormalizeAllAppend(items[1..], x);
      assert (items + [x])[1..] == items[1..] + [x];
      if NormalizeAll(items).Ok? && Normalize(x).Ok? {
        Assoc([Normalize(items[0]).value], NormalizeAll(items[1..]).value, [Normalize(x).value]);
      }
    }
  }

  lemma {:induction false} NormalizePropsAppend(props: seq<J.Entry<Value>>, p: J.Entry<Value>)
    ensures NormalizeProps(props + [p]) ==
            if p.value.Undefined? then NormalizeProps(props)
            else if NormalizeProps(props).Ok? && Normalize(p.value).Ok?
            then Ok(NormalizeProps(props).value + [J.Entry(p.key, Normalize(p.value).value)]) else TypeError
  {
    if props == [] {
      assert props + [p] == [p];
      assert NormalizeProps([p][1..]) == Ok([]);
      if !p.value.Undefined? && Normalize(p.value).Ok? {
        var f := J.Entry(p.key, Normalize(p.value).value);
        assert [] + [f] == [f] + [];
      }
    } else {
      NormalizePropsAppend(props[1..], p);
      assert (props + [p])[1..] == props[1..] + [p];
      if !props[0].value.Undefined? && !p.value.Undefined? && NormalizeProps(props).Ok? && Normalize(p.value).Ok? {
        Assoc([J.Entry(props[0].key, Normalize(props[0].value).value)], NormalizeProps(props[1..]).value,
              [J.Entry(p.key, Normalize(p.value).value)]);
      }
    }
  }

  lemma {:induction false} NormalizeFailsEarly(items: seq<Value>, i: nat)
    requires i < |items| && Normalize(items[i]).TypeError?
    ensures NormalizeAll(items).TypeError?
  {
    if i > 0 {
      NormalizeFailsEarly(items[1..], i - 1);
    }
  }

  lemma {:induction false} NormalizePropsFailsEarly(props: seq<J.Entry<Value>>, i: nat)
    requires i < |props| && Normalize(props[i].value).TypeError?
    ensures NormalizeProps(props).TypeError?
  {
    if i > 0 {
      NormalizePropsFailsEarly(props[1..], i - 1);
    }
  }

  lemma {:induction false} PrintAllAppend(items: seq<J.Json>, x: J.Json)
    ensures J.PrintAll(items + [x]) == J.PrintAll(items) + [J.Print(x)]
  {
    if items != [] {
      PrintAllAppend(items[1..], x);
      assert (items + [x])[1..] == items[1..] + [x];
    }
  }

  lemma {:induction false} PrintFieldsAppend(fields: seq<J.Entry<J.Json>>, f: J.Entry<J.Json>)
    ensures J.PrintFields(fields + [f]) == J.PrintFields(fields) + [J.Quote(f.key) + [COLON] + J.Print(f.value)]
  {
    if fields != [] {
      PrintFieldsAppend(fields[1..], f);
      assert (fields + [f])[1..] == fields[1..] + [f];
    }
  }

  /** The keys of normalized properties are keys of the properties. */
  lemma {:induction false} NormalizedKeys(props: seq<J.Entry<Value>>, f: J.Entry<J.Json>)
    requires NormalizeProps(props).Ok?
    ensures f in NormalizeProps(props).value <==>
            exists p :: p in props && !p.value.Undefined? && p.key == f.key && Normalize(p.value) == Ok(f.value)
  {
    if props != [] {
      NormalizedKeys(props[1..], f);
      assert props == [props[0]] + props[1..];
    }
  }

  lemma {:induction false} NormalizeInsert(e: J.Entry<Value>, es: seq<J.Entry<Value>>)
    requires Sorted(es)
    ensures NormalizeProps(Insert(e, es)) ==
            if e.value.Undefined? then NormalizeProps(es)
            else if Normalize(e.value).Ok? && NormalizeProps(es).Ok?
            then Ok(Insert(J.Entry(e.key, Normalize(e.value).value), NormalizeProps(es).value)) else TypeError
  {
    if es == [] || Less(e.key, es[0].key) {
      assert ([e] + es)[1..] == es;
      if NormalizeProps(es).Ok? && NormalizeProps(es).value != [] {
        var f := NormalizeProps(es).value[0];
        NormalizedKeys(es, f);
        var p :| p in es && p.key == f.key;
        HeadLeast(es, p);
        if p != es[0] {
          LessTransitive(e.key, es[0].key, p.key);
        }
      }
    } else {
      NormalizeInsert(e, es[1..]);
      assert ([es[0]] + Insert(e, es[1..]))[1..] == Insert(e, es[1..]);
    }
  }

  /** Sorting the properties first, as the serializer does, gives the normal form's fields. */
  lemma {:induction false} NormalizeSort(props: seq<J.Entry<Value>>)
    requires UniqueKeys(props)
    ensures NormalizeProps(Sort(props)) ==
            if NormalizeProps(props).Ok? then Ok(Sort(NormalizeProps(props).value)) else TypeError
  {
    if props != [] {
      NormalizeSort(props[1..]);
      SortSorted(props[1..]);
      NormalizeInsert(props[0], Sort(props[1..]));
    }
  }

  method Canonicalize(v: Value) returns (r: Result<Text>)
    requires Valid(v)
    ensures r == Canon(v)
    decreases v
  {
    match v
    case Undefined => r := Ok(J.NULL);
    case Null => r := Ok(J.NULL);
    case Boolean(b) => r := Ok(if b then J.TRUE else J.FALSE);
    case Number(n) => r := Ok(Digits.PrintInt(n));
    case NonFinite => r := TypeError;
    case BigInt(n) => r := Ok(J.Quote(Digits.PrintInt(n)));
    case Str(s) => r := Ok(J.Quote(s));
    case Unserializable => r := TypeError;
    case Date(iso) => r := Ok(J.Quote(iso));
    case Array(items) => r := CanonicalizeArray(items);
    case Custom(x) => r := Canonicalize(x);
    case Object(props) => r := CanonicalizeObject(props);
  }

  method CanonicalizeArray(items: seq<Value>) returns (r: Result<Text>)
    requires Valid(Array(items))
    ensures r == Canon(Array(items))
    decreases items
  {
    var parts: seq<Text> := [];
    for i := 0 to |items|
      invariant NormalizeAll(items[..i]).Ok?
      invariant parts == J.PrintAll(NormalizeAll(items[..i]).value)
    {
      var part := Canonicalize(items[i]);
      if part.TypeError? {
        NormalizeFailsEarly(items, i);
        return TypeError;
      }
      NormalizeAllAppend(items[..i], items[i]);
      PrintAllAppend(NormalizeAll(items[..i]).value, Normalize(items[i]).value);
      assert items[..i + 1] == items[..i] + [items[i]];
      parts := parts + [part.value];
    }
    assert items[..|items|] == items;
    return Ok([LEFT_BRACKET] + J.Join(parts) + [RIGHT_BRACKET]);
  }

  method CanonicalizeObject(props: seq<J.Entry<Value>>) returns (r: Result<Text>)
    requires Valid(Object(props))
    ensures r == Canon(Object(props))
    decreases props
  {
    var sorted := Sort(props);
    NormalizeSort(props);
    var parts: seq<Text> := [];
    for i := 0 to |sorted|
      invariant NormalizeProps(sorted[..i]).Ok?
      invariant parts == J.PrintFields(NormalizeProps(sorted[..i]).value)
    {
      var p := sorted[i];
      NormalizePropsAppend(sorted[..i], p);
      assert sorted[..i + 1] == sorted[..i] + [p];
      if p.value.Undefined? {
        continue;
      }
      SortMember(props, p);
      var part := Canonicalize(p.value);
      if part.TypeError? {
        NormalizePropsFailsEarly(sorted, i);
        return TypeError;
      }
      PrintFieldsAppend(NormalizeProps(sorted[..i]).value, J.Entry(p.key, Normalize(p.value).value));
      parts := parts + [J.Quote(p.key) + [COLON] + part.value];
    }
    assert sorted[..|sorted|] == sorted;
    return Ok([LEFT_BRACE] + J.Join(parts) + [RIGHT_BRACE]);
  }

  // ----- When two values print alike -----

  /** The text a value is printed as, if it is printed as a JSON string. */
  function AsText(v: Value): (t: seq<Text>)
    ensures |t| <= 1
  {
    match v
    case BigInt(n) => [Digits.PrintInt(n)]
    case Str(s) => [s]
    case Date(iso) => [iso]
    case _ => []
  }

  predicate IsDefined(p: J.Entry<Value>) {
    !p.value.Undefined?
  }

  /** Equality by value, as the serializer's comment lists it: order of properties does not
      matter, undefined properties are absent, undefined elements are null, dates and big
      integers are their strings, and a `toJSON` object is what it returns. */
  ghost predicate Same(v: Value, w: Value)
    decreases v, w
  {
    if v.Custom? then Same(v.replaced, w)
    else if w.Custom? then Same(v, w.replaced)
    else
      match v
      case Undefined => w.Undefined? || w.Null?
      case Null => w.Undefined? || w.Null?
      case Array(items) =>
        w.Array? && |items| == |w.items| && forall i | 0 <= i < |items| :: Same(items[i], w.items[i])
      case Object(props) =>
        && w.Object?
        && (forall p {:trigger HasSame(w.props, p)} | p in props && IsDefined(p) :: HasSame(w.props, p))
        && (forall q {:trigger HasKey(props, q.key)} | q in w.props && IsDefined(q) :: HasKey(props, q.key))
      case _ => if AsText(v) != [] then AsText(w) == AsText(v) else w == v
  }

  ghost predicate HasSame(qs: seq<J.Entry<Value>>, p: J.Entry<Value>)
    decreases p.value, Object(qs)
  {
    exists q | q in qs :: IsDefined(q) && q.key == p.key && Same(p.value, q.value)
  }

  ghost predicate HasKey(ps: seq<J.Entry<Value>>, key: Text) {
    exists p | p in ps :: IsDefined(p) && p.key == key
  }

  /** Nothing in the value makes the serializer throw. */
  predicate Serializable(v: Value) {
    match v
    case NonFinite => false
    case Unserializable => false
    case Array(items) => forall x | x in items :: Serializable(x)
    case Custom(x) => Serializable(x)
    case Object(props) => forall p | p in props :: Serializable(p.value)
    case _ => true
  }

  lemma {:induction false} NormalizeTotal(v: Value)
    ensures Normalize(v).Ok? <==> Serializable(v)
    decreases v, 1
  {
    match v
    case Array(items) => NormalizeAllTotal(items);
    case Custom(x) => NormalizeTotal(x);
    case Object(props) => NormalizePropsTotal(props);
    case _ =>
  }

  lemma {:induction false} NormalizeAllTotal(items: seq<Value>)
    ensures NormalizeAll(items).Ok? <==> forall x | x in items :: Serializable(x)
    decreases items, 0
  {
    if items != [] {
      NormalizeTotal(items[0]);
      NormalizeAllTotal(items[1..]);
      assert items == [items[0]] + items[1..];
    }
  }

  lemma {:induction false} NormalizePropsTotal(props: seq<J.Entry<Value>>)
    ensures NormalizeProps(props).Ok? <==> forall p | p in props :: Serializable(p.value)
    decreases props, 0
  {
    if props != [] {
      NormalizeTotal(props[0].value);
      NormalizePropsTotal(props[1..]);
      assert props == [props[0]] + props[1..];
    }
  }

  lemma {:induction false} NormalizeAllLength(items: seq<Value>)
    requires NormalizeAll(items).Ok?
    ensures |NormalizeAll(items).value| == |items|
  {
    if items != [] {
      NormalizeAllLength(items[1..]);
    }
  }

  lemma {:induction false} NormalizeAllAt(items: seq<Value>, i: nat)
    requires NormalizeAll(items).Ok? && i < |items|
    ensures |NormalizeAll(items).value| == |items|
    ensures Normalize(items[i]) == Ok(NormalizeAll(items).value[i])
  {
    NormalizeAllLength(items);
    if i > 0 {
      NormalizeAllAt(items[1..], i - 1);
    }
  }

  lemma {:induction false} NormalizedUnique(props: seq<J.Entry<Value>>)
    requires UniqueKeys(props) && NormalizeProps(props).Ok?
    ensures UniqueKeys(NormalizeProps(props).value)
  {
    if props != [] {
      var rest := NormalizeProps(props[1..]).value;
      NormalizedUnique(props[1..]);
      forall i | 0 <= i < |rest| ensures rest[i].key != props[0].key {
        NormalizedKeys(props[1..], rest[i]);
      }
    }
  }

  /** Normal forms agree exactly on values that are equal by value. */
  lemma {:induction false} NormalizeSame(v: Value, w: Value)
    requires Valid(v) && Valid(w) && Serializable(v) && Serializable(w)
    ensures Normalize(v).Ok? && Normalize(w).Ok?
    ensures Normalize(v) == Normalize(w) <==> Same(v, w)
    decreases v, w
  {
    NormalizeTotal(v);
    NormalizeTotal(w);
    if v.Custom? {
      NormalizeSame(v.replaced, w);
    } else if w.Custom? {
      NormalizeSame(v, w.replaced);
    } else if v.Array? && w.Array? {
      ArraysSame(v.items, w.items);
    } else if v.Object? && w.Object? {
      ObjectsSame(v.props, w.props);
    }
  }

  lemma {:induction false} ArraysSame(xs: seq<Value>, ys: seq<Value>)
    requires Valid(Array(xs)) && Valid(Array(ys)) && Serializable(Array(xs)) && Serializable(Array(ys))
    ensures Normalize(Array(xs)) == Normalize(Array(ys)) <==> Same(Array(xs), Array(ys))
    decreases Array(xs), Array(ys), 0
  {
    NormalizeAllTotal(xs);
    NormalizeAllTotal(ys);
    var a, b := NormalizeAll(xs).value, NormalizeAll(ys).value;
    NormalizeAllLength(xs);
    NormalizeAllLength(ys);
    if |xs| == |ys| {
      forall i | 0 <= i < |xs| ensures a[i] == b[i] <==> Same(xs[i], ys[i]) {
        NormalizeAllAt(xs, i);
        NormalizeAllAt(ys, i);
        NormalizeSame(xs[i], ys[i]);
      }
      assert a == b <==> forall i | 0 <= i < |xs| :: a[i] == b[i];
      assert Same(Array(xs), Array(ys)) <==> forall i | 0 <= i < |xs| :: Same(xs[i], ys[i]);
    }
  }

  /** Every defined property of `ps` has one of `qs` with its name and normal form, and no
      defined property of `qs` is left over. */
  ghost predicate Matched(ps: seq<J.Entry<Value>>, qs: seq<J.Entry<Value>>) {
    && (forall p {:trigger HasEqual(qs, p)} | p in ps && IsDefined(p) :: HasEqual(qs, p))
    && (forall q {:trigger HasKey(ps, q.key)} | q in qs && IsDefined(q) :: HasKey(ps, q.key))
  }

  ghost predicate HasEqual(qs: seq<J.Entry<Value>>, p: J.Entry<Value>) {
    exists q | q in qs :: IsDefined(q) && q.key == p.key && Normalize(q.value) == Normalize(p.value)
  }

  lemma {:induction false} ObjectsSame(ps: seq<J.Entry<Value>>, qs: seq<J.Entry<Value>>)
    requires Valid(Object(ps)) && Valid(Object(qs)) && Serializable(Object(ps)) && Serializable(Object(qs))
    ensures Normalize(Object(ps)) == Normalize(Object(qs)) <==> Same(Object(ps), Object(qs))
    decreases Object(ps), Object(qs), 0
  {
    forall p | p in ps && IsDefined(p) ensures HasEqual(qs, p) <==> HasSame(qs, p) {
      forall q | q in qs ensures Normalize(p.value) == Normalize(q.value) <==> Same(p.value, q.value) {
        NormalizeSame(p.value, q.value);
      }
    }
    assert Matched(ps, qs) <==> Same(Object(ps), Object(qs));
    NormalizePropsTotal(ps);
    NormalizePropsTotal(qs);
    if Normalize(Object(ps)) == Normalize(Object(qs)) {
      EqualFieldsMatch(ps, qs);
    }
    if Matched(ps, qs) {
      MatchedEqualFields(ps, qs);
    }
  }

  lemma EqualFieldsMatch(ps: seq<J.Entry<Value>>, qs: seq<J.Entry<Value>>)
    requires NormalizeProps(ps).Ok? && NormalizeProps(qs).Ok?
    requires Serializable(Object(ps)) && Serializable(Object(qs))
    requires Sort(NormalizeProps(ps).value) == Sort(NormalizeProps(qs).value)
    ensures Matched(ps, qs)
  {
    forall p | p in ps && IsDefined(p) ensures HasEqual(qs, p) {
      NormalizeTotal(p.value);
      FieldFound(ps, qs, p);
    }
    forall q | q in qs && IsDefined(q) ensures HasKey(ps, q.key) {
      NormalizeTotal(q.value);
      FieldFound(qs, ps, q);
    }
  }

  lemma MatchedEqualFields(ps: seq<J.Entry<Value>>, qs: seq<J.Entry<Value>>)
    requires UniqueKeys(ps) && UniqueKeys(qs) && NormalizeProps(ps).Ok? && NormalizeProps(qs).Ok?
    requires Matched(ps, qs)
    ensures Sort(NormalizeProps(ps).value) == Sort(NormalizeProps(qs).value)
  {
    var a, b := NormalizeProps(ps).value, NormalizeProps(qs).value;
    forall f ensures f in Sort(a) <==> f in Sort(b) {
      SortMember(a, f);
      SortMember(b, f);
      if f in a { FieldForth(ps, qs, f); }
      if f in b { FieldBack(ps, qs, f); }
    }
    NormalizedUnique(ps);
    NormalizedUnique(qs);
    SortSorted(a);
    SortSorted(b);
    SortedUnique(Sort(a), Sort(b));
  }

  lemma FieldForth(ps: seq<J.Entry<Value>>, qs: seq<J.Entry<Value>>, f: J.Entry<J.Json>)
    requires NormalizeProps(ps).Ok? && NormalizeProps(qs).Ok? && Matched(ps, qs) && f in NormalizeProps(ps).value
    ensures f in NormalizeProps(qs).value
  {
    NormalizedKeys(ps, f);
    var p :| p in ps && IsDefined(p) && p.key == f.key && Normalize(p.value) == Ok(f.value);
    assert HasEqual(qs, p);
    NormalizedKeys(qs, f);
  }

  lemma FieldBack(ps: seq<J.Entry<Value>>, qs: seq<J.Entry<Value>>, f: J.Entry<J.Json>)
    requires UniqueKeys(qs) && NormalizeProps(ps).Ok? && NormalizeProps(qs).Ok?
    requires Matched(ps, qs) && f in NormalizeProps(qs).value
    ensures f in NormalizeProps(ps).value
  {
    NormalizedKeys(qs, f);
    var q :| q in qs && IsDefined(q) && q.key == f.key && Normalize(q.value) == Ok(f.value);
    assert HasKey(ps, q.key);
    var p :| p in ps && IsDefined(p) && p.key == q.key;
    assert HasEqual(qs, p);
    var q' :| q' in qs && q'.key == p.key && Normalize(q'.value) == Normalize(p.value);
    assert q' == q;
    NormalizedKeys(ps, f);
  }

  lemma FieldFound(ps: seq<J.Entry<Value>>, qs: seq<J.Entry<Value>>, p: J.Entry<Value>)
    requires NormalizeProps(ps).Ok? && NormalizeProps(qs).Ok? && p in ps && IsDefined(p) && Normalize(p.value).Ok?
    requires Sort(NormalizeProps(ps).value) == Sort(NormalizeProps(qs).value)
    ensures HasEqual(qs, p)
  {
    var f := J.Entry(p.key, Normalize(p.value).value);
    NormalizedKeys(ps, f);
    SortMember(NormalizeProps(ps).value, f);
    SortMember(NormalizeProps(qs).value, f);
    NormalizedKeys(qs, f);
  }

  /** The serializer is injective up to equality by value, and throws on nothing else than
      non-finite numbers, functions and symbols. */
  lemma CanonInjective(v: Value, w: Value)
    requires Valid(v) && Valid(w) && Serializable(v) && Serializable(w)
    ensures Canon(v).Ok? && Canon(w).Ok?
    ensures Canon(v) == Canon(w) <==> Same(v, w)
  {
    NormalizeSame(v, w);
    var a, b := Normalize(v).value, Normalize(w).value;
    if J.Print(a) == J.Print(b) {
      assert J.Print(a) + [] == J.Print(b) + [];
      J.PrintUnique(a, b, [], []);
    }
  }

  lemma CanonTotal(v: Value)
    ensures Canon(v).Ok? <==> Serializable(v)
  {
    NormalizeTotal(v);
  }

  /** Canonical text survives UTF-8 encoding, whatever strings the value holds. */
  lemma CanonWellFormed(v: Value)
    requires Canon(v).Ok?
    ensures Utf8.WellFormed(Canon(v).value)
  {
    Utf8.PrintWellFormed(Normalize(v).value);
  }

  /** Listing an object's properties in another order does not change its text. */
  lemma CanonIgnoresOrder(ps: seq<J.Entry<Value>>, qs: seq<J.Entry<Value>>)
    requires Valid(Object(ps)) && Valid(Object(qs)) && Serializable(Object(ps))
    requires forall p :: p in ps <==> p in qs
    ensures Canon(Object(ps)) == Canon(Object(qs))
  {
    NormalizeTotal(Object(ps));
    NormalizeTotal(Object(qs));
    forall p | p in ps ensures Same(p.value, p.value) {
      NormalizeSame(p.value, p.value);
    }
    CanonInjective(Object(ps), Object(qs));
  }
}
