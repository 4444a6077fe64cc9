/** Canonical JSON: keys sorted at every depth, three names dropped, then `JSON.stringify`.
    (packages/protocol/src/schema.ts) */
module CanonicalJson {
  import opened Prelude
  import opened JsonText
  import opened JsonReader

  /** A JavaScript value as data. A finite number is given by its own text; NaN and the infinities print as null. */
  datatype Value =
    | VNull
    | VUndefined
    | VNonFinite
    | VBool(b: bool)
    | VNum(text: JsString)
    | VStr(s: JsString)
    | VArr(items: seq<Value>)
    | VObj(fields: seq<Field>)

  datatype Field = Field(key: JsString, value: Value)

  /** Numbers have number text, and an object has each key once. */
  ghost predicate WellFormed(v: Value) {
    match v
    case VNum(text) => NumberText(text)
    case VArr(items) => forall i :: 0 <= i < |items| ==> WellFormed(items[i])
    case VObj(fields) =>
      && (forall i, j :: 0 <= i < j < |fields| ==> fields[i].key != fields[j].key)
      && forall i :: 0 <= i < |fields| ==> WellFormed(fields[i].value)
    case _ => true
  }

  // "__proto__", "constructor" and "prototype"
  const PROTO: JsString := [95, 95, 112, 114, 111, 116, 111, 95, 95]
  const CONSTRUCTOR: JsString := [99, 111, 110, 115, 116, 114, 117, 99, 116, 111, 114]
  const PROTOTYPE: JsString := [112, 114, 111, 116, 111, 116, 121, 112, 101]

  predicate Dropped(key: JsString) { key == PROTO || key == CONSTRUCTOR || key == PROTOTYPE }

  function UnitsOf(word: string): JsString {
    seq(|word|, i requires 0 <= i < |word| => if word[i] as int < 0x1_0000 then word[i] as int else 0)
  }

  /** The names that are left out, letter by letter. */
  lemma DroppedNames(key: JsString)
    ensures Dropped(key) <==> key == UnitsOf("__proto__") || key == UnitsOf("constructor") || key == UnitsOf("prototype")
  {
    assert PROTO == UnitsOf("__proto__");
    assert CONSTRUCTOR == UnitsOf("constructor");
    assert PROTOTYPE == UnitsOf("prototype");
  }

  // ---- Key orders ----

  /** The order of `Array.prototype.sort`: by code unit. */
  predicate TextLess(s: JsString, t: JsString) {
    t != [] && (s == [] || s[0] < t[0] || (s[0] == t[0] && TextLess(s[1..], t[1..])))
  }

  predicate Digit(u: Unit) { 48 <= u <= 57 }

  function IndexValue(s: JsString): nat
    requires forall i :: 0 <= i < |s| ==> Digit(s[i])
  {
    if s == [] then 0 else assert Digit(s[|s| - 1]); 10 * IndexValue(s[..|s| - 1]) + (s[|s| - 1] as int - 48)
  }

  /** An array index in canonical form; objects enumerate these first, in numeric order. */
  predicate IsIndex(s: JsString) {
    && s != [] && (forall i :: 0 <= i < |s| ==> Digit(s[i]))
    && (s[0] == 48 ==> |s| == 1)
    && IndexValue(s) <= 0xFFFF_FFFE
  }

  /** The order in which an object filled in text order enumerates its keys. */
  predicate KeyBefore(a: JsString, b: JsString) {
    if IsIndex(a) then (IsIndex(b) ==> IndexValue(a) < IndexValue(b))
    else !IsIndex(b) && TextLess(a, b)
  }

  lemma {:induction false} TextTotal(s: JsString, t: JsString)
    ensures s == t || TextLess(s, t) || TextLess(t, s)
    ensures !(TextLess(s, t) && TextLess(t, s)) && !TextLess(s, s)
    decreases |s|
  {
    if s != [] && t != [] && s[0] == t[0] {
      TextTotal(s[1..], t[1..]);
      assert s == [s[0]] + s[1..] && t == [t[0]] + t[1..];
    }
    if s != [] { TextTotal(s[1..], s[1..]); }
  }

  lemma {:induction false} TextTransitive(s: JsString, t: JsString, u: JsString)
    requires TextLess(s, t) && TextLess(t, u)
    ensures TextLess(s, u)
    decreases |s|
  {
    if s != [] && s[0] == t[0] == u[0] { TextTransitive(s[1..], t[1..], u[1..]); }
  }

  lemma {:induction false} IndexIsPositive(s: JsString)
    requires s != [] && (forall i :: 0 <= i < |s| ==> Digit(s[i])) && s[0] != 48
    ensures IndexValue(s) > 0
  {
    if |s| > 1 { IndexIsPositive(s[..|s| - 1]); } else { assert s[..0] == []; }
  }

  lemma {:induction false} IndexValueIsInjective(s: JsString, t: JsString)
    requires (forall i :: 0 <= i < |s| ==> Digit(s[i])) && (s != [] && s[0] == 48 ==> |s| == 1)
    requires (forall i :: 0 <= i < |t| ==> Digit(t[i])) && (t != [] && t[0] == 48 ==> |t| == 1)
    requires s != [] && t != [] && IndexValue(s) == IndexValue(t)
    ensures s == t
    decreases |s|
  {
    var f, g := s[..|s| - 1], t[..|t| - 1];
    assert s == f + [s[|s| - 1]] && t == g + [t[|t| - 1]];
    assert IndexValue(f) == IndexValue(g) && s[|s| - 1] == t[|t| - 1];
    if f != [] { IndexIsPositive(f); }
    if g != [] { IndexIsPositive(g); }
    assert IndexValue([]) == 0;
    if f != [] && g != [] { IndexValueIsInjective(f, g); }
  }

  /** `String(n)`. */
  function DecimalUnits(n: nat): (s: JsString)
    ensures s != []
  {
    if n < 10 then [48 + n] else DecimalUnits(n / 10) + [48 + n % 10]
  }

  lemma {:induction false} DecimalIsCanonical(n: nat)
    ensures var s := DecimalUnits(n);
      (forall i :: 0 <= i < |s| ==> Digit(s[i])) && (s[0] == 48 ==> |s| == 1 && n == 0) && IndexValue(s) == n
  {
    var s := DecimalUnits(n);
    if n < 10 {
      assert s[..0] == [] && IndexValue([]) == 0;
    } else {
      DecimalIsCanonical(n / 10);
      assert s[..|s| - 1] == DecimalUnits(n / 10);
    }
  }

  /** The index-like keys are exactly the decimal texts of 0 to 2^32 - 2, and their order is that of the numbers. */
  lemma IndexIffNumber(s: JsString)
    ensures IsIndex(s) <==> exists n: nat :: n <= 4_294_967_294 && s == DecimalUnits(n)
    ensures forall n: nat :: s == DecimalUnits(n) ==> (forall i :: 0 <= i < |s| ==> Digit(s[i])) && IndexValue(s) == n
  {
    hide DecimalUnits, IndexValue;
    forall n: nat | s == DecimalUnits(n)
      ensures (forall i :: 0 <= i < |s| ==> Digit(s[i])) && IndexValue(s) == n && (s[0] == 48 ==> |s| == 1)
    {
      DecimalIsCanonical(n);
    }
    if IsIndex(s) {
      var n := IndexValue(s);
      DecimalIsCanonical(n);
      IndexValueIsInjective(s, DecimalUnits(n));
    }
  }

  /** The first difference decides, and otherwise the shorter one comes first. */
  lemma {:induction false} TextLessIffFirstDifference(s: JsString, t: JsString)
    ensures TextLess(s, t) <==> exists k :: DiffersAt(s, t, k)
    decreases |s|
  {
    if s != [] && t != [] && s[0] == t[0] {
      TextLessIffFirstDifference(s[1..], t[1..]);
      assert s == [s[0]] + s[1..] && t == [t[0]] + t[1..];
      if TextLess(s, t) {
        var k :| DiffersAt(s[1..], t[1..], k);
        assert DiffersAt(s, t, k + 1);
      }
      forall k | DiffersAt(s, t, k) ensures DiffersAt(s[1..], t[1..], k - 1) {}
    } else {
      if TextLess(s, t) { assert DiffersAt(s, t, 0); }
      forall k | DiffersAt(s, t, k) ensures k == 0 {}
    }
  }

  predicate DiffersAt(s: JsString, t: JsString, k: int) {
    && 0 <= k < |t| && k <= |s| && (forall i :: 0 <= i < k ==> s[i] == t[i])
    && (k < |s| ==> s[k] < t[k])
  }

  lemma KeyOrderIsTotal(a: JsString, b: JsString)
    ensures a == b || KeyBefore(a, b) || KeyBefore(b, a)
    ensures !(KeyBefore(a, b) && KeyBefore(b, a)) && !KeyBefore(a, a)
  {
    hide TextLess;
    TextTotal(a, b);
    TextTotal(a, a);
    if IsIndex(a) && IsIndex(b) && IndexValue(a) == IndexValue(b) { IndexValueIsInjective(a, b); }
  }

  lemma KeyOrderIsTransitive(a: JsString, b: JsString, c: JsString)
    requires KeyBefore(a, b) && KeyBefore(b, c)
    ensures KeyBefore(a, c)
  {
    hide TextLess, IndexValue;
    if !IsIndex(a) { TextTransitive(a, b, c); }
  }

  // ---- Lists in key order ----

  ghost predicate InKeyOrder<T(!new)>(s: seq<T>, key: T -> JsString) {
    forall i, j :: 0 <= i < j < |s| ==> KeyBefore(key(s[i]), key(s[j]))
  }

  /** A list in key order is determined by what it contains. */
  lemma {:induction false} OrderIsUnique<T(!new)>(a: seq<T>, b: seq<T>, key: T -> JsString)
    requires InKeyOrder(a, key) && InKeyOrder(b, key) && forall x :: x in a <==> x in b
    ensures a == b
    decreases |a|
  {
    hide KeyBefore;
    assert a != [] ==> a[0] in a;
    assert b != [] ==> b[0] in b;
    if a != [] && b != [] {
      SameFirst(a, b, key);
      assert a == [a[0]] + a[1..] && b == [b[0]] + b[1..];
      NotRepeated(a, key);
      NotRepeated(b, key);
      assert forall x :: x in a[1..] <==> x in a && x != a[0];
      assert forall x :: x in b[1..] <==> x in b && x != b[0];
      OrderIsUnique(a[1..], b[1..], key);
    }
  }

  lemma NotRepeated<T(!new)>(a: seq<T>, key: T -> JsString)
    requires a != [] && InKeyOrder(a, key)
    ensures a[0] !in a[1..]
  {
    hide KeyBefore;
    if a[0] in a[1..] {
      var i :| 0 <= i < |a[1..]| && a[1..][i] == a[0];
      KeyOrderIsTotal(key(a[0]), key(a[i + 1]));
    }
  }

  lemma SameFirst<T(!new)>(a: seq<T>, b: seq<T>, key: T -> JsString)
    requires a != [] && b != [] && InKeyOrder(a, key) && InKeyOrder(b, key) && forall x :: x in a <==> x in b
    ensures a[0] == b[0]
  {
    hide KeyBefore;
    assert a[0] in b && b[0] in a;
    var i :| 0 <= i < |b| && b[i] == a[0];
    var k :| 0 <= k < |a| && a[k] == b[0];
    if i > 0 && k > 0 { KeyOrderIsTotal(key(a[0]), key(b[0])); }
  }

  // ---- The canonical value ----

  function FieldKey(f: Field): JsString { f.key }

  function InsertField(fields: seq<Field>, f: Field): seq<Field> {
    if fields == [] || KeyBefore(fields[|fields| - 1].key, f.key) then fields + [f]
    else InsertField(fields[..|fields| - 1], f) + [fields[|fields| - 1]]
  }

  /** Fields in enumeration order, without the dropped names, canonical themselves. */
  function SortedDeep(v: Value): Value {
    match v
    case VArr(items) => VArr(seq(|items|, i requires 0 <= i < |items| => SortedDeep(items[i])))
    case VObj(fields) => VObj(SortedFields(fields, |fields|))
    case _ => v
  }

  function SortedFields(fields: seq<Field>, n: nat): seq<Field>
    requires n <= |fields|
    decreases fields, n
  {
    if n == 0 then []
    else if Dropped(fields[n - 1].key) then SortedFields(fields, n - 1)
    else InsertField(SortedFields(fields, n - 1), Field(fields[n - 1].key, SortedDeep(fields[n - 1].value)))
  }

  lemma FrontBeforeLast(fields: seq<Field>)
    requires InKeyOrder(fields, FieldKey) && fields != []
    ensures InKeyOrder(fields[..|fields| - 1], FieldKey)
    ensures forall g :: g in fields[..|fields| - 1] ==> KeyBefore(g.key, fields[|fields| - 1].key)
  {
    hide KeyBefore;
    var front, last := fields[..|fields| - 1], fields[|fields| - 1];
    forall i | 0 <= i < |front| ensures KeyBefore(front[i].key, last.key) {
      assert KeyBefore(FieldKey(fields[i]), FieldKey(last));
    }
  }

  lemma AppendKeepsOrder(fields: seq<Field>, f: Field)
    requires InKeyOrder(fields, FieldKey) && forall g :: g in fields ==> KeyBefore(g.key, f.key)
    ensures InKeyOrder(fields + [f], FieldKey)
  {
    hide KeyBefore;
  }

  lemma {:induction false} InsertKeepsOrder(fields: seq<Field>, f: Field)
    requires InKeyOrder(fields, FieldKey) && forall g :: g in fields ==> g.key != f.key
    ensures InKeyOrder(InsertField(fields, f), FieldKey)
    ensures forall g :: g in InsertField(fields, f) <==> g in fields || g == f
    decreases |fields|
  {
    hide KeyBefore, InKeyOrder;
    if fields == [] {
      AppendKeepsOrder(fields, f);
    } else {
      var front, last := fields[..|fields| - 1], fields[|fields| - 1];
      assert fields == front + [last] && last in fields;
      KeyOrderIsTotal(last.key, f.key);
      FrontBeforeLast(fields);
      if KeyBefore(last.key, f.key) {
        forall g | g in front ensures KeyBefore(g.key, f.key) { KeyOrderIsTransitive(g.key, last.key, f.key); }
        AppendKeepsOrder(fields, f);
      } else {
        InsertKeepsOrder(front, f);
        AppendKeepsOrder(InsertField(front, f), last);
      }
    }
  }

  ghost predicate KeptAt(fields: seq<Field>, i: int) { 0 <= i < |fields| && !Dropped(fields[i].key) }

  ghost predicate DistinctKeys(fields: seq<Field>) {
    forall i, j :: 0 <= i < j < |fields| ==> fields[i].key != fields[j].key
  }

  lemma {:induction false} SortedFieldsFacts(fields: seq<Field>, n: nat)
    requires n <= |fields| && DistinctKeys(fields)
    ensures InKeyOrder(SortedFields(fields, n), FieldKey)
    ensures forall g :: g in SortedFields(fields, n) <==>
      exists i :: i < n && KeptAt(fields, i) && g == Field(fields[i].key, SortedDeep(fields[i].value))
    decreases n
  {
    hide SortedDeep, InsertField, KeyBefore, Dropped;
    if n > 0 {
      SortedFieldsFacts(fields, n - 1);
      var before := SortedFields(fields, n - 1);
      if KeptAt(fields, n - 1) {
        var f := Field(fields[n - 1].key, SortedDeep(fields[n - 1].value));
        InsertKeepsOrder(before, f);
      }
    }
  }

  // ---- Sorting as the loop does it ----

  /** Assignment to a property: an index key goes to its place among the index keys, any other to the end. */
  function SetField(fields: seq<Field>, f: Field): seq<Field> {
    if IsIndex(f.key) then InsertField(fields, f) else fields + [f]
  }

  function InsertText(keys: seq<JsString>, k: JsString): seq<JsString> {
    if keys == [] || TextLess(keys[|keys| - 1], k) then keys + [k]
    else InsertText(keys[..|keys| - 1], k) + [keys[|keys| - 1]]
  }

  /** `Object.keys(record).sort()`. */
  function SortedKeys(fields: seq<Field>): seq<JsString> {
    if fields == [] then [] else InsertText(SortedKeys(fields[..|fields| - 1]), fields[|fields| - 1].key)
  }

  ghost predicate InTextOrder(keys: seq<JsString>) {
    forall i, j :: 0 <= i < j < |keys| ==> TextLess(keys[i], keys[j])
  }

  lemma {:induction false} InsertTextKeepsOrder(keys: seq<JsString>, k: JsString)
    requires InTextOrder(keys) && k !in keys
    ensures InTextOrder(InsertText(keys, k))
    ensures forall x :: x in InsertText(keys, k) <==> x in keys || x == k
    decreases |keys|
  {
    hide TextLess;
    if keys != [] {
      var front, last := keys[..|keys| - 1], keys[|keys| - 1];
      assert keys == front + [last] && last in keys;
      TextTotal(last, k);
      if TextLess(last, k) {
        forall i | 0 <= i < |front| ensures TextLess(keys[i], k) { TextTransitive(keys[i], last, k); }
      } else {
        InsertTextKeepsOrder(front, k);
        var r := InsertText(front, k);
        forall i | 0 <= i < |r| ensures TextLess(r[i], last) { assert r[i] in r; }
      }
    }
  }

  lemma {:induction false} SortedKeysFacts(fields: seq<Field>)
    requires DistinctKeys(fields)
    ensures InTextOrder(SortedKeys(fields))
    ensures forall k :: k in SortedKeys(fields) <==> exists i :: 0 <= i < |fields| && fields[i].key == k
  {
    hide TextLess, InsertText;
    if fields != [] {
      var front := fields[..|fields| - 1];
      SortedKeysFacts(front);
      InsertTextKeepsOrder(SortedKeys(front), fields[|fields| - 1].key);
    }
  }

  function FieldAt(fields: seq<Field>, k: JsString): (f: Field)
    requires exists i :: 0 <= i < |fields| && fields[i].key == k
    ensures f in fields && f.key == k
  {
    if fields[|fields| - 1].key == k then fields[|fields| - 1] else FieldAt(fields[..|fields| - 1], k)
  }

  /** The fields assigned after the first `n` of the sorted keys. */
  ghost predicate FilledThrough(done: seq<Field>, fields: seq<Field>, keys: seq<JsString>, n: nat)
    requires n <= |keys| && forall k :: k in keys ==> exists i :: 0 <= i < |fields| && fields[i].key == k
  {
    InKeyOrder(done, FieldKey) && forall g :: g in done <==> AssignedBefore(fields, keys, n, g)
  }

  ghost predicate AssignedBefore(fields: seq<Field>, keys: seq<JsString>, n: nat, g: Field)
    requires n <= |keys| && forall k :: k in keys ==> exists i :: 0 <= i < |fields| && fields[i].key == k
  {
    exists i :: 0 <= i < n && keys[i] in keys && !Dropped(keys[i]) && g == Field(keys[i], SortedDeep(FieldAt(fields, keys[i]).value))
  }

  lemma AssignedOneMore(fields: seq<Field>, keys: seq<JsString>, n: nat, g: Field)
    requires n < |keys| && forall k :: k in keys ==> exists i :: 0 <= i < |fields| && fields[i].key == k
    requires !Dropped(keys[n]) && keys[n] in keys
    ensures AssignedBefore(fields, keys, n + 1, g) <==>
      AssignedBefore(fields, keys, n, g) || g == Field(keys[n], SortedDeep(FieldAt(fields, keys[n]).value))
  {
    hide SortedDeep, FieldAt, Dropped;
  }

  /** Assigning in text order keeps enumeration order, because a later key that is no index comes last. */
  lemma FillOne(done: seq<Field>, fields: seq<Field>, keys: seq<JsString>, n: nat)
    requires n < |keys| && InTextOrder(keys)
    requires forall k :: k in keys ==> exists i :: 0 <= i < |fields| && fields[i].key == k
    requires FilledThrough(done, fields, keys, n) && !Dropped(keys[n])
    ensures keys[n] in keys
    ensures FilledThrough(SetField(done, Field(keys[n], SortedDeep(FieldAt(fields, keys[n]).value))), fields, keys, n + 1)
  {
    hide SortedDeep, FieldAt, TextLess, KeyBefore, Dropped, IsIndex, AssignedBefore, InTextOrder, SetField, InKeyOrder;
    var k := keys[n];
    assert k in keys;
    var f := Field(k, SortedDeep(FieldAt(fields, k).value));
    forall g | g in done ensures g.key != k && TextLess(g.key, k) { AssignedEarlier(fields, keys, n, g); }
    forall g ensures AssignedBefore(fields, keys, n + 1, g) <==> AssignedBefore(fields, keys, n, g) || g == f {
      AssignedOneMore(fields, keys, n, g);
    }
    SetKeepsOrder(done, f);
  }

  lemma NothingFilled(fields: seq<Field>, keys: seq<JsString>)
    requires forall k :: k in keys ==> exists i :: 0 <= i < |fields| && fields[i].key == k
    ensures FilledThrough([], fields, keys, 0)
  {}

  /** A dropped key is passed over. */
  lemma FillNone(done: seq<Field>, fields: seq<Field>, keys: seq<JsString>, n: nat)
    requires n < |keys| && forall k :: k in keys ==> exists i :: 0 <= i < |fields| && fields[i].key == k
    requires FilledThrough(done, fields, keys, n)
    ensures Dropped(keys[n]) ==> FilledThrough(done, fields, keys, n + 1)
  {
    hide SortedDeep, FieldAt, Dropped, InKeyOrder;
    if Dropped(keys[n]) {
      forall g ensures AssignedBefore(fields, keys, n + 1, g) <==> AssignedBefore(fields, keys, n, g) {}
    }
  }

  /** Assigning a key that comes later in text order than all before it keeps enumeration order. */
  lemma SetKeepsOrder(done: seq<Field>, f: Field)
    requires InKeyOrder(done, FieldKey) && forall g :: g in done ==> g.key != f.key && TextLess(g.key, f.key)
    ensures InKeyOrder(SetField(done, f), FieldKey)
    ensures forall g :: g in SetField(done, f) <==> g in done || g == f
  {
    hide TextLess, KeyBefore, IsIndex, InsertField;
    if IsIndex(f.key) {
      InsertKeepsOrder(done, f);
    } else {
      forall i | 0 <= i < |done| ensures KeyBefore(done[i].key, f.key) {
        assert done[i] in done;
        TextThenKeyOrder(done[i].key, f.key);
      }
    }
  }

  lemma AssignedEarlier(fields: seq<Field>, keys: seq<JsString>, n: nat, g: Field)
    requires n < |keys| && forall k :: k in keys ==> exists i :: 0 <= i < |fields| && fields[i].key == k
    requires InTextOrder(keys) && AssignedBefore(fields, keys, n, g)
    ensures g.key != keys[n] && TextLess(g.key, keys[n])
  {
    hide SortedDeep, FieldAt, TextLess, Dropped;
    TextTotal(keys[n], keys[n]);
  }

  lemma TextThenKeyOrder(a: JsString, b: JsString)
    requires TextLess(a, b) && !IsIndex(b)
    ensures KeyBefore(a, b)
  {}

  lemma FilledIsSorted(done: seq<Field>, fields: seq<Field>, keys: seq<JsString>)
    requires DistinctKeys(fields) && keys == SortedKeys(fields)
    requires forall k :: k in keys <==> exists i :: 0 <= i < |fields| && fields[i].key == k
    requires FilledThrough(done, fields, keys, |keys|)
    ensures done == SortedFields(fields, |fields|)
  {
    hide SortedDeep, KeyBefore, Dropped, SortedKeys, SortedFields, FieldAt;
    SortedFieldsFacts(fields, |fields|);
    var sorted := SortedFields(fields, |fields|);
    forall g | g in done ensures g in sorted {
      var i :| 0 <= i < |keys| && keys[i] in keys && !Dropped(keys[i]) && g == Field(keys[i], SortedDeep(FieldAt(fields, keys[i]).value));
      AtItsPlace(fields, keys[i]);
    }
    forall g | g in sorted ensures g in done {
      var i :| i < |fields| && KeptAt(fields, i) && g == Field(fields[i].key, SortedDeep(fields[i].value));
      assert fields[i].key in keys;
      var j :| 0 <= j < |keys| && keys[j] == fields[i].key;
      AtItsPlace(fields, keys[j]);
    }
    OrderIsUnique(done, sorted, FieldKey);
  }

  lemma AtItsPlace(fields: seq<Field>, k: JsString)
    requires DistinctKeys(fields) && exists i :: 0 <= i < |fields| && fields[i].key == k
    ensures forall i :: 0 <= i < |fields| && fields[i].key == k ==> FieldAt(fields, k) == fields[i]
  {
    hide FieldAt;
    var f := FieldAt(fields, k);
    var j :| 0 <= j < |fields| && fields[j] == f;
  }

  /** The recursion of the source, with the loop that fills a fresh object. */
  method SortKeysDeep(v: Value) returns (r: Value)
    requires WellFormed(v)
    ensures r == SortedDeep(v)
    decreases v
  {
    hide KeyBefore, TextLess, InsertField, SortedFields, FilledThrough, SetField, IsIndex, Dropped, SortedKeys;
    match v {
      case VArr(items) =>
        var done: seq<Value> := [];
        for i := 0 to |items|
          invariant done == seq(i, k requires 0 <= k < i => SortedDeep(items[k]))
        {
          var item := SortKeysDeep(items[i]);
          done := done + [item];
        }
        return VArr(done);
      case VObj(fields) =>
        var keys := SortedKeys(fields);
        SortedKeysFacts(fields);
        NothingFilled(fields, keys);
        var done: seq<Field> := [];
        for i := 0 to |keys|
          invariant FilledThrough(done, fields, keys, i)
        {
          var key := keys[i];
          assert key in keys;
          FillNone(done, fields, keys, i);
          if Dropped(key) { continue; }
          var field := FieldAt(fields, key);
          var value := SortKeysDeep(field.value);
          FillOne(done, fields, keys, i);
          done := SetField(done, Field(key, value));
        }
        FilledIsSorted(done, fields, keys);
        return VObj(done);
      case _ => return v;
    }
  }

  // ---- Printing ----

  /** What `JSON.stringify` sees: undefined properties are skipped, undefined items print as null. */
  function Visible(v: Value): Json {
    match v
    case VNull => JNull
    case VUndefined => JNull
    case VNonFinite => JNull
    case VBool(b) => JBool(b)
    case VNum(text) => JNum(text)
    case VStr(s) => JStr(s)
    case VArr(items) => JArr(seq(|items|, i requires 0 <= i < |items| => Visible(items[i])))
    case VObj(fields) => JObj(VisibleFields(fields, |fields|))
  }

  function VisibleFields(fields: seq<Field>, n: nat): seq<Member>
    requires n <= |fields|
    decreases fields, n
  {
    if n == 0 then []
    else
      VisibleFields(fields, n - 1)
      + if fields[n - 1].value.VUndefined? then [] else [Member(fields[n - 1].key, Visible(fields[n - 1].value))]
  }

  function Tree(v: Value): Json { Visible(SortedDeep(v)) }

  function Canonical(v: Value): JsString { Text(Tree(v)) }

  method CanonicalText(v: Value) returns (text: JsString)
    requires WellFormed(v)
    ensures text == Canonical(v)
  {
    var sorted := SortKeysDeep(v);
    text := Text(Visible(sorted));
  }

  function MemberKey(m: Member): JsString { m.key }

  ghost predicate ShownAt(fields: seq<Field>, i: int) { KeptAt(fields, i) && !fields[i].value.VUndefined? }

  lemma {:induction false} VisibleFieldsFacts(fields: seq<Field>, n: nat)
    requires n <= |fields| && InKeyOrder(fields, FieldKey)
    ensures InKeyOrder(VisibleFields(fields, n), MemberKey)
    ensures forall m :: m in VisibleFields(fields, n) <==>
      exists i :: 0 <= i < n && !fields[i].value.VUndefined? && m == Member(fields[i].key, Visible(fields[i].value))
    decreases n
  {
    hide Visible, KeyBefore;
    if n > 0 {
      VisibleFieldsFacts(fields, n - 1);
      var before := VisibleFields(fields, n - 1);
      forall i | 0 <= i < |before| ensures KeyBefore(before[i].key, fields[n - 1].key) {
        assert before[i] in before;
        var k :| 0 <= k < n - 1 && !fields[k].value.VUndefined? && before[i] == Member(fields[k].key, Visible(fields[k].value));
        assert KeyBefore(FieldKey(fields[k]), FieldKey(fields[n - 1]));
      }
    }
  }

  /** The printed members of an object are its shown fields, in enumeration order. */
  ghost predicate MembersOf(members: seq<Member>, fields: seq<Field>) {
    && InKeyOrder(members, MemberKey)
    && forall m :: m in members <==> exists i :: ShownAt(fields, i) && m == Member(fields[i].key, Tree(fields[i].value))
  }

  lemma TreeOfObject(fields: seq<Field>)
    requires DistinctKeys(fields)
    ensures Tree(VObj(fields)).JObj? && MembersOf(Tree(VObj(fields)).members, fields)
  {
    hide KeyBefore, Dropped, SortedFields, VisibleFields;
    var sorted := SortedFields(fields, |fields|);
    SortedFieldsFacts(fields, |fields|);
    VisibleFieldsFacts(sorted, |sorted|);
    var members := VisibleFields(sorted, |sorted|);
    assert Tree(VObj(fields)) == JObj(members);
    forall m | m in members ensures exists i :: ShownAt(fields, i) && m == Member(fields[i].key, Tree(fields[i].value)) {
      var j :| 0 <= j < |sorted| && !sorted[j].value.VUndefined? && m == Member(sorted[j].key, Visible(sorted[j].value));
      assert sorted[j] in sorted;
      var i :| i < |fields| && KeptAt(fields, i) && sorted[j] == Field(fields[i].key, SortedDeep(fields[i].value));
      assert ShownAt(fields, i);
    }
    forall i | ShownAt(fields, i) ensures Member(fields[i].key, Tree(fields[i].value)) in members {
      var g := Field(fields[i].key, SortedDeep(fields[i].value));
      assert g in sorted;
      var j :| 0 <= j < |sorted| && sorted[j] == g;
      assert !sorted[j].value.VUndefined? by { UndefinedStays(fields[i].value); }
    }
  }

  lemma UndefinedStays(v: Value)
    ensures SortedDeep(v).VUndefined? <==> v.VUndefined?
  {}

  // ---- Sameness ----

  predicate PrintsNull(v: Value) { v.VNull? || v.VUndefined? || v.VNonFinite? }

  /** Equal up to the order of keys, the dropped names and what JSON cannot show. */
  ghost predicate Alike(a: Value, b: Value) {
    if PrintsNull(a) || PrintsNull(b) then PrintsNull(a) && PrintsNull(b)
    else if a.VArr? && b.VArr? then
      |a.items| == |b.items| && forall i :: 0 <= i < |a.items| ==> Alike(a.items[i], b.items[i])
    else if a.VObj? && b.VObj? then
      && ShowsKeysOf(a.fields, b.fields) && ShowsKeysOf(b.fields, a.fields)
      && forall i, k :: 0 <= i < |a.fields| && 0 <= k < |b.fields| ==>
           PartnerAt(a.fields, i, b.fields, k) ==> Alike(a.fields[i].value, b.fields[k].value)
    else a == b
  }

  /** Every shown key of `a` is a shown key of `b`. */
  ghost predicate ShowsKeysOf(a: seq<Field>, b: seq<Field>) {
    forall i :: ShownAt(a, i) ==> exists k :: ShownAt(b, k) && b[k].key == a[i].key
  }

  ghost predicate PartnerAt(a: seq<Field>, i: int, b: seq<Field>, k: int) {
    ShownAt(a, i) && ShownAt(b, k) && a[i].key == b[k].key
  }

  lemma {:induction false} TreesEqualIffAlike(a: Value, b: Value)
    requires WellFormed(a) && WellFormed(b)
    ensures Tree(a) == Tree(b) <==> Alike(a, b)
    decreases a
  {
    hide SortedFields, VisibleFields, NumberText, Dropped;
    if a.VArr? && b.VArr? {
      ArraysEqualIffAlike(a.items, b.items);
    } else if a.VObj? && b.VObj? {
      ObjectsEqualIffAlike(a.fields, b.fields);
    }
  }

  lemma TreeOfArray(items: seq<Value>)
    ensures Tree(VArr(items)) == JArr(seq(|items|, i requires 0 <= i < |items| => Tree(items[i])))
  {}

  lemma {:induction false} ArraysEqualIffAlike(a: seq<Value>, b: seq<Value>)
    requires WellFormed(VArr(a)) && WellFormed(VArr(b))
    ensures Tree(VArr(a)) == Tree(VArr(b)) <==> Alike(VArr(a), VArr(b))
    decreases VArr(a), 0
  {
    hide Tree;
    TreeOfArray(a);
    TreeOfArray(b);
    var s := seq(|a|, i requires 0 <= i < |a| => Tree(a[i]));
    var t := seq(|b|, i requires 0 <= i < |b| => Tree(b[i]));
    if |a| == |b| {
      forall i | 0 <= i < |a| ensures s[i] == t[i] <==> Alike(a[i], b[i]) { TreesEqualIffAlike(a[i], b[i]); }
      assert s == t <==> forall i :: 0 <= i < |a| ==> s[i] == t[i];
    }
  }

  lemma {:induction false} ObjectsEqualIffAlike(a: seq<Field>, b: seq<Field>)
    requires WellFormed(VObj(a)) && WellFormed(VObj(b))
    ensures Tree(VObj(a)) == Tree(VObj(b)) <==> Alike(VObj(a), VObj(b))
    decreases VObj(a), 0
  {
    hide Tree, KeyBefore, Dropped;
    TreeOfObject(a);
    TreeOfObject(b);
    var s, t := Tree(VObj(a)).members, Tree(VObj(b)).members;
    forall i, k | ShownAt(a, i) && ShownAt(b, k)
      ensures Tree(a[i].value) == Tree(b[k].value) <==> Alike(a[i].value, b[k].value)
    {
      TreesEqualIffAlike(a[i].value, b[k].value);
    }
    if Alike(VObj(a), VObj(b)) {
      forall i, k | ShownAt(a, i) && ShownAt(b, k) && a[i].key == b[k].key ensures Tree(a[i].value) == Tree(b[k].value) {
        assert PartnerAt(a, i, b, k);
      }
      forall m ensures m in s <==> m in t {
        if m in s { AlikeHasMember(a, b, s, t, m); }
        if m in t { AlikeHasMember(b, a, t, s, m); }
      }
      OrderIsUnique(s, t, MemberKey);
    }
    if s == t {
      EqualMembersAlike(a, b, s);
    }
  }

  /** A member of one object is one of the other when every shown field has an equal partner. */
  lemma AlikeHasMember(a: seq<Field>, b: seq<Field>, s: seq<Member>, t: seq<Member>, m: Member)
    requires MembersOf(s, a) && MembersOf(t, b) && m in s && ShowsKeysOf(a, b)
    requires forall i, k :: ShownAt(a, i) && ShownAt(b, k) && a[i].key == b[k].key ==> Tree(a[i].value) == Tree(b[k].value)
    ensures m in t
  {
    hide Tree, InKeyOrder, Dropped;
    var i :| ShownAt(a, i) && m == Member(a[i].key, Tree(a[i].value));
    var k :| ShownAt(b, k) && b[k].key == a[i].key;
    assert m == Member(b[k].key, Tree(b[k].value));
  }

  lemma SharedMembersShowKeys(a: seq<Field>, b: seq<Field>, s: seq<Member>)
    requires MembersOf(s, a) && MembersOf(s, b)
    ensures ShowsKeysOf(a, b)
  {
    hide Tree, InKeyOrder, Dropped;
    forall i | ShownAt(a, i) ensures exists k :: ShownAt(b, k) && b[k].key == a[i].key {
      assert Member(a[i].key, Tree(a[i].value)) in s;
    }
  }

  lemma EqualMembersAlike(a: seq<Field>, b: seq<Field>, s: seq<Member>)
    requires DistinctKeys(a) && DistinctKeys(b) && MembersOf(s, a) && MembersOf(s, b)
    requires forall i, k :: ShownAt(a, i) && ShownAt(b, k) ==>
      (Tree(a[i].value) == Tree(b[k].value) <==> Alike(a[i].value, b[k].value))
    ensures Alike(VObj(a), VObj(b))
  {
    hide Tree, InKeyOrder, Dropped;
    SharedMembersShowKeys(a, b, s);
    SharedMembersShowKeys(b, a, s);
    forall i, k | PartnerAt(a, i, b, k) ensures Alike(a[i].value, b[k].value) {
      var m := Member(a[i].key, Tree(a[i].value));
      assert m in s;
      var j :| ShownAt(b, j) && m == Member(b[j].key, Tree(b[j].value));
      assert j == k;
    }
  }

  lemma {:induction false} TreeIsPrintable(v: Value)
    requires WellFormed(v)
    ensures Printable(Tree(v))
    decreases v
  {
    hide NumberText, SortedFields, VisibleFields;
    match v {
      case VArr(items) =>
        TreeOfArray(items);
        forall i | 0 <= i < |items| ensures Printable(Tree(items[i])) { TreeIsPrintable(items[i]); }
      case VObj(fields) =>
        TreeOfObject(fields);
        var members := Tree(v).members;
        forall j | 0 <= j < |members| ensures Printable(members[j].value) {
          assert members[j] in members;
          var i :| ShownAt(fields, i) && members[j] == Member(fields[i].key, Tree(fields[i].value));
          TreeIsPrintable(fields[i].value);
        }
      case _ =>
    }
  }

  /** The canonical text is canonical: two values have the same one exactly when they are equal up to key
      order, the dropped names and what JSON cannot show. */
  lemma SameTextIffAlike(a: Value, b: Value)
    requires WellFormed(a) && WellFormed(b)
    ensures Canonical(a) == Canonical(b) <==> Alike(a, b)
  {
    hide Tree, Text, Printable;
    TreesEqualIffAlike(a, b);
    TreeIsPrintable(a);
    TreeIsPrintable(b);
    if Canonical(a) == Canonical(b) {
      assert Text(Tree(a)) + [] == Text(Tree(b)) + [];
      TextIsReadable(Tree(a), Tree(b), [], []);
    }
  }

  /** Read back as JSON, the canonical text is the value's tree. */
  lemma CanonicalIsReadBack(v: Value)
    requires WellFormed(v)
    ensures ReadText(Canonical(v)) == Some(Tree(v))
  {
    hide Tree, Text, Printable, ReadText;
    TreeIsPrintable(v);
    PrintedIsReadBack(Tree(v));
  }

  /** The tree shows the value: everything JSON cannot show as null, other leaves as they are, arrays item by
      item, and of an object exactly the shown fields, each once, in enumeration order. */
  ghost predicate Shows(v: Value, j: Json) {
    match v
    case VNull => j == JNull
    case VUndefined => j == JNull
    case VNonFinite => j == JNull
    case VBool(b) => j == JBool(b)
    case VNum(text) => j == JNum(text)
    case VStr(s) => j == JStr(s)
    case VArr(items) => j.JArr? && |j.items| == |items| && forall i :: 0 <= i < |items| ==> Shows(items[i], j.items[i])
    case VObj(fields) =>
      && j.JObj? && InKeyOrder(j.members, MemberKey) && SameKeys(j.members, fields)
      && forall i, k :: 0 <= i < |fields| && 0 <= k < |j.members| && ShownAt(fields, i) && j.members[k].key == fields[i].key ==>
           Shows(fields[i].value, j.members[k].value)
  }

  ghost predicate ShowsKey(fields: seq<Field>, key: JsString) {
    exists i :: ShownAt(fields, i) && fields[i].key == key
  }

  ghost predicate HasKey(members: seq<Member>, key: JsString) {
    exists k :: 0 <= k < |members| && members[k].key == key
  }

  ghost predicate SameKeys(members: seq<Member>, fields: seq<Field>) {
    forall key :: HasKey(members, key) <==> ShowsKey(fields, key)
  }

  lemma {:induction false} TreeShowsValue(v: Value)
    requires WellFormed(v)
    ensures Shows(v, Tree(v))
    decreases v
  {
    hide NumberText, SortedFields, VisibleFields, Dropped, InKeyOrder, SameKeys;
    match v {
      case VArr(items) =>
        TreeOfArray(items);
        forall i | 0 <= i < |items| ensures Shows(items[i], Tree(items[i])) { TreeShowsValue(items[i]); }
      case VObj(fields) =>
        ObjectTreeShows(fields);
        forall i | 0 <= i < |fields| ensures Shows(fields[i].value, Tree(fields[i].value)) {
          TreeShowsValue(fields[i].value);
        }
      case _ =>
    }
  }

  lemma MembersHaveSameKeys(members: seq<Member>, fields: seq<Field>)
    requires MembersOf(members, fields)
    ensures SameKeys(members, fields)
  {
    hide Tree, InKeyOrder, Dropped;
    forall key ensures HasKey(members, key) <==> ShowsKey(fields, key) {
      if HasKey(members, key) {
        var k :| 0 <= k < |members| && members[k].key == key;
        assert members[k] in members;
      }
      if ShowsKey(fields, key) {
        var i :| ShownAt(fields, i) && fields[i].key == key;
        assert Member(fields[i].key, Tree(fields[i].value)) in members;
      }
    }
  }

  lemma ObjectTreeShows(fields: seq<Field>)
    requires DistinctKeys(fields)
    ensures Tree(VObj(fields)).JObj?
    ensures var members := Tree(VObj(fields)).members;
      && InKeyOrder(members, MemberKey) && SameKeys(members, fields)
      && forall i, k :: 0 <= i < |fields| && 0 <= k < |members| && ShownAt(fields, i) && members[k].key == fields[i].key ==>
           members[k].value == Tree(fields[i].value)
  {
    hide Tree, InKeyOrder, Dropped, SameKeys;
    TreeOfObject(fields);
    var members := Tree(VObj(fields)).members;
    MembersHaveSameKeys(members, fields);
    forall i, k | 0 <= i < |fields| && 0 <= k < |members| && ShownAt(fields, i) && members[k].key == fields[i].key
      ensures members[k].value == Tree(fields[i].value)
    {
      assert members[k] in members;
    }
  }

  // ---- Sorting twice, and the order of RFC 8785 ----

  lemma {:induction false} InsertLast(fields: seq<Field>, f: Field)
    requires forall i :: 0 <= i < |fields| ==> KeyBefore(fields[i].key, f.key)
    ensures InsertField(fields, f) == fields + [f]
  {}

  lemma {:induction false} SortingSorted(fields: seq<Field>, n: nat)
    requires n <= |fields| && InKeyOrder(fields, FieldKey)
    requires forall i :: 0 <= i < |fields| ==> !Dropped(fields[i].key) && SortedDeep(fields[i].value) == fields[i].value
    ensures SortedFields(fields, n) == fields[..n]
    decreases n
  {
    hide KeyBefore, Dropped, InsertField, SortedDeep;
    if n > 0 {
      SortingSorted(fields, n - 1);
      forall i | 0 <= i < n - 1 ensures KeyBefore(fields[i].key, fields[n - 1].key) {
        assert KeyBefore(FieldKey(fields[i]), FieldKey(fields[n - 1]));
      }
      InsertLast(fields[..n - 1], fields[n - 1]);
    }
  }

  /** Sorting what is sorted changes nothing. */
  lemma {:induction false} SortingIsIdempotent(v: Value)
    requires WellFormed(v)
    ensures SortedDeep(SortedDeep(v)) == SortedDeep(v)
    decreases v
  {
    hide KeyBefore, Dropped, InsertField, SortedFields, NumberText;
    match v {
      case VArr(items) =>
        forall i | 0 <= i < |items| ensures SortedDeep(SortedDeep(items[i])) == SortedDeep(items[i]) {
          SortingIsIdempotent(items[i]);
        }
      case VObj(fields) =>
        SortedFieldsFacts(fields, |fields|);
        var sorted := SortedFields(fields, |fields|);
        forall j | 0 <= j < |sorted| ensures !Dropped(sorted[j].key) && SortedDeep(sorted[j].value) == sorted[j].value {
          assert sorted[j] in sorted;
          var i :| i < |fields| && KeptAt(fields, i) && sorted[j] == Field(fields[i].key, SortedDeep(fields[i].value));
          SortingIsIdempotent(fields[i].value);
        }
        SortingSorted(sorted, |sorted|);
        assert sorted[..|sorted|] == sorted;
      case _ =>
    }
  }

  /** Section 3.2.3 of RFC 8785 orders the members of an object by the code units of their keys. */
  ghost predicate MembersInRfcOrder(members: seq<Member>) {
    forall i, j :: 0 <= i < j < |members| ==> TextLess(members[i].key, members[j].key)
  }

  /** The same for every object in it. */
  ghost predicate InRfcOrder(j: Json) {
    match j
    case JArr(items) => forall i :: 0 <= i < |items| ==> InRfcOrder(items[i])
    case JObj(members) => MembersInRfcOrder(members) && forall i :: 0 <= i < |members| ==> InRfcOrder(members[i].value)
    case _ => true
  }

  /** The key comes before the other one because it is an index. */
  predicate IndexFirst(a: JsString, b: JsString) {
    a != b && IsIndex(a) && (IsIndex(b) ==> IndexValue(a) < IndexValue(b))
  }

  /** Where an object puts a key first because it is an index, it is also first as text. */
  ghost predicate IndexKeysSortAsText(fields: seq<Field>) {
    forall i, k :: ShownAt(fields, i) && ShownAt(fields, k) && IndexFirst(fields[i].key, fields[k].key) ==>
      TextLess(fields[i].key, fields[k].key)
  }

  /** The same for every object in it that is printed. */
  ghost predicate KeysSortAsText(v: Value) {
    match v
    case VArr(items) => forall i :: 0 <= i < |items| ==> KeysSortAsText(items[i])
    case VObj(fields) =>
      && IndexKeysSortAsText(fields)
      && forall i :: 0 <= i < |fields| && ShownAt(fields, i) ==> KeysSortAsText(fields[i].value)
    case _ => true
  }

  lemma EnumeratedFirst(a: JsString, b: JsString)
    requires KeyBefore(a, b)
    ensures IndexFirst(a, b) || TextLess(a, b)
  {
    hide TextLess, IsIndex, IndexValue;
    KeyOrderIsTotal(a, b);
  }

  lemma FirstIsEnumeratedFirst(a: JsString, b: JsString)
    requires IndexFirst(a, b)
    ensures KeyBefore(a, b)
  {}

  /** The members of one object are printed in the order of the RFC if and only if its index-like keys
      sort as text where they sort as numbers. */
  lemma MembersInRfcOrderIff(fields: seq<Field>)
    requires DistinctKeys(fields)
    ensures MembersInRfcOrder(Tree(VObj(fields)).members) <==> IndexKeysSortAsText(fields)
  {
    hide Tree, TextLess, KeyBefore, IndexFirst, Dropped;
    TreeOfObject(fields);
    var members := Tree(VObj(fields)).members;
    if IndexKeysSortAsText(fields) {
      forall i, j | 0 <= i < j < |members| ensures TextLess(members[i].key, members[j].key) {
        assert members[i] in members && members[j] in members;
        assert KeyBefore(MemberKey(members[i]), MemberKey(members[j]));
        EnumeratedFirst(members[i].key, members[j].key);
      }
    }
    if MembersInRfcOrder(members) {
      forall i, k | ShownAt(fields, i) && ShownAt(fields, k) && IndexFirst(fields[i].key, fields[k].key)
        ensures TextLess(fields[i].key, fields[k].key)
      {
        FirstIsEnumeratedFirst(fields[i].key, fields[k].key);
        PrintedInOrder(members, fields, i, k);
      }
    }
  }

  /** Of two shown fields, the one whose key enumerates first is printed first. */
  lemma PrintedInOrder(members: seq<Member>, fields: seq<Field>, i: nat, k: nat)
    requires MembersOf(members, fields) && ShownAt(fields, i) && ShownAt(fields, k)
    requires KeyBefore(fields[i].key, fields[k].key)
    ensures exists p, q :: 0 <= p < q < |members| && members[p].key == fields[i].key && members[q].key == fields[k].key
  {
    hide Tree, KeyBefore, InKeyOrder, Dropped;
    assert Member(fields[i].key, Tree(fields[i].value)) in members;
    assert Member(fields[k].key, Tree(fields[k].value)) in members;
    var p :| 0 <= p < |members| && members[p] == Member(fields[i].key, Tree(fields[i].value));
    var q :| 0 <= q < |members| && members[q] == Member(fields[k].key, Tree(fields[k].value));
    KeyOrderIsTotal(fields[i].key, fields[k].key);
    if p > q { EarlierMemberFirst(members, q, p); }
  }

  lemma EarlierMemberFirst(members: seq<Member>, i: nat, j: nat)
    requires InKeyOrder(members, MemberKey) && i < j < |members|
    ensures KeyBefore(members[i].key, members[j].key)
  {
    hide KeyBefore;
    assert KeyBefore(MemberKey(members[i]), MemberKey(members[j]));
  }

  /** The canonical text keeps to the key order of RFC 8785, in all of its objects, if and only if none of
      them has an index-like key that sorts elsewhere as text than where an object enumerates it. */
  lemma {:induction false} RfcOrderIffKeysSortAsText(v: Value)
    requires WellFormed(v)
    ensures InRfcOrder(Tree(v)) <==> KeysSortAsText(v)
    decreases v
  {
    hide MembersInRfcOrder, IndexKeysSortAsText, SortedFields, VisibleFields, NumberText, Dropped;
    match v {
      case VArr(items) =>
        TreeOfArray(items);
        forall i | 0 <= i < |items| ensures InRfcOrder(Tree(items[i])) <==> KeysSortAsText(items[i]) {
          RfcOrderIffKeysSortAsText(items[i]);
        }
        assert forall i :: 0 <= i < |items| ==> Tree(v).items[i] == Tree(items[i]);
      case VObj(fields) =>
        MembersInRfcOrderIff(fields);
        forall i | 0 <= i < |fields| ensures InRfcOrder(Tree(fields[i].value)) <==> KeysSortAsText(fields[i].value) {
          RfcOrderIffKeysSortAsText(fields[i].value);
        }
        MembersAreFields(fields);
      case _ =>
    }
  }

  lemma MembersAreFields(fields: seq<Field>)
    requires DistinctKeys(fields)
    ensures Tree(VObj(fields)).JObj?
    ensures var members := Tree(VObj(fields)).members;
      (forall j :: 0 <= j < |members| ==> InRfcOrder(members[j].value)) <==>
      (forall i :: 0 <= i < |fields| && ShownAt(fields, i) ==> InRfcOrder(Tree(fields[i].value)))
  {
    hide Tree, InRfcOrder, InKeyOrder, Dropped;
    TreeOfObject(fields);
    var members := Tree(VObj(fields)).members;
    forall j | 0 <= j < |members|
      ensures exists i :: ShownAt(fields, i) && members[j].value == Tree(fields[i].value)
    {
      assert members[j] in members;
    }
    forall i | ShownAt(fields, i) ensures exists j :: 0 <= j < |members| && members[j].value == Tree(fields[i].value) {
      assert Member(fields[i].key, Tree(fields[i].value)) in members;
    }
  }

  /** In particular without index-like keys. */
  lemma PlainKeysFollowTheRfc(fields: seq<Field>)
    requires DistinctKeys(fields) && forall i :: KeptAt(fields, i) ==> !IsIndex(fields[i].key)
    ensures MembersInRfcOrder(Tree(VObj(fields)).members)
  {
    hide Tree, TextLess, IsIndex, Dropped;
    TreeOfObject(fields);
    MembersInRfcOrderIff(fields);
  }

  /** With the keys 9 and 10 it does not: the text order puts 10 first, the object 9. */
  lemma IndexKeysDoNot(v: Value, w: Value)
    requires !v.VUndefined? && !w.VUndefined?
    ensures var nine, ten: JsString := [57], [49, 48];
      var members := Tree(VObj([Field(ten, v), Field(nine, w)])).members;
      TextLess(ten, nine) && |members| == 2 && members[0].key == nine && members[1].key == ten
  {
    var nine, ten: JsString := [57], [49, 48];
    NineAndTen(nine, ten);
    UndefinedStays(v);
    UndefinedStays(w);
    TwoIndexFields(ten, v, nine, w);
    TwoVisible(Field(nine, SortedDeep(w)), Field(ten, SortedDeep(v)));
  }

  lemma NineAndTen(nine: JsString, ten: JsString)
    requires nine == [57] && ten == [49, 48]
    ensures TextLess(ten, nine) && IsIndex(nine) && IsIndex(ten) && KeyBefore(nine, ten) && !KeyBefore(ten, nine)
    ensures !Dropped(nine) && !Dropped(ten)
  {
    assert DecimalUnits(9) == nine && DecimalUnits(10 / 10) == [49] && DecimalUnits(10) == ten;
    DecimalIsCanonical(9);
    DecimalIsCanonical(10);
  }

  /** Two fields given in the wrong order come out in the right one. */
  lemma TwoIndexFields(late: JsString, v: Value, early: JsString, w: Value)
    requires KeyBefore(early, late) && !KeyBefore(late, early) && !Dropped(early) && !Dropped(late)
    ensures SortedDeep(VObj([Field(late, v), Field(early, w)])) == VObj([Field(early, SortedDeep(w)), Field(late, SortedDeep(v))])
  {
    hide KeyBefore, Dropped, InsertField;
    var fields := [Field(late, v), Field(early, w)];
    var one, two := Field(late, SortedDeep(v)), Field(early, SortedDeep(w));
    InsertTwo(one, two);
    LastSorted(fields, 1);
    LastSorted(fields, 2);
    assert SortedFields(fields, 0) == [];
  }

  lemma InsertTwo(one: Field, two: Field)
    requires !KeyBefore(one.key, two.key)
    ensures InsertField([], one) == [one] && InsertField([one], two) == [two, one]
  {
    hide KeyBefore;
    assert [one][..0] == [] && InsertField([], two) == [two];
  }

  lemma LastSorted(fields: seq<Field>, n: nat)
    requires 0 < n <= |fields| && !Dropped(fields[n - 1].key)
    ensures SortedFields(fields, n) ==
      InsertField(SortedFields(fields, n - 1), Field(fields[n - 1].key, SortedDeep(fields[n - 1].value)))
  {
    hide SortedDeep, InsertField, Dropped;
  }

  lemma TwoVisible(f: Field, g: Field)
    requires !f.value.VUndefined? && !g.value.VUndefined?
    ensures Visible(VObj([f, g])) == JObj([Member(f.key, Visible(f.value)), Member(g.key, Visible(g.value))])
  {
    var fields := [f, g];
    assert VisibleFields(fields, 1) == [Member(f.key, Visible(f.value))] by { assert VisibleFields(fields, 0) == []; }
    assert VisibleFields(fields, 2) == VisibleFields(fields, 1) + [Member(g.key, Visible(g.value))];
  }
}
