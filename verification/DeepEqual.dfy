/**
 Equality of values.  A value that holds no object means a tree of leaves, lists and
 finite maps; deep equality decides whether two values mean the same.
 */
module DeepEqual {
  import opened Basics

  datatype Entry = Entry(key: string, value: Value)

  datatype Value =
    | Nil | Missing | Bool(b: bool) | Number(n: real) | Str(s: string) | Bytes(bytes: seq<bv8>)
    | Error(text: Option<string>)
    | Function(code: nat) | Task(task: nat) | Channel(channel: nat) | Resource(resource: nat)
    | Array(items: List<Value>)
    | Dict(entries: List<Entry>)
    | Object(id: nat, members: List<Entry>)

  /** The first entry with this key. */
  function Lookup(es: List<Entry>, key: string): Option<Value> {
    if es.End? then None else if es.head.key == key then Some(es.head.value) else Lookup(es.tail, key)
  }

  /** tya_has: only dictionaries have keys. */
  predicate Has(v: Value, key: string) {
    v.Dict? && Lookup(v.entries, key).Some?
  }

  /** tya_dict_get without a fallback. */
  function Get(v: Value, key: string): Value {
    if Has(v, key) then Lookup(v.entries, key).value else Nil
  }

  /** tya_deep_equal_bool */
  predicate DeepEqual(l: Value, r: Value)
    decreases l
  {
    match l
    case Array(items) => r.Array? && Length(items) == Length(r.items) && ItemsEqual(items, r.items)
    case Dict(entries) => r.Dict? && Length(entries) == Length(r.entries) && EntriesFound(entries, r)
    case Object(_, members) => r.Object? && Length(members) == Length(r.members) && EntriesFound(members, r)
    case _ => l == r
  }

  predicate ItemsEqual(a: List<Value>, b: List<Value>)
    requires Length(a) == Length(b)
    decreases a
  {
    a.Cons? ==> DeepEqual(a.head, b.head) && ItemsEqual(a.tail, b.tail)
  }

  /** Each entry's key is found in `r` with an equal value. */
  predicate EntriesFound(es: List<Entry>, r: Value)
    decreases es
  {
    es.Cons? ==> Has(r, es.head.key) && DeepEqual(es.head.value, Get(r, es.head.key)) && EntriesFound(es.tail, r)
  }

  // ----- what values mean -----

  datatype Meaning = Leaf(v: Value) | Items(items: List<Meaning>) | Entries(entries: map<string, Meaning>)

  ghost function Meant(v: Value): Meaning {
    match v
    case Array(items) => Items(ItemsMeant(items))
    case Dict(entries) => Entries(EntriesMeant(entries))
    case Object(_, members) => if members.End? then Leaf(Object(0, End)) else Leaf(v)
    case _ => Leaf(v)
  }

  ghost function ItemsMeant(l: List<Value>): List<Meaning> {
    if l.End? then End else Cons(Meant(l.head), ItemsMeant(l.tail))
  }

  ghost function EntriesMeant(es: List<Entry>): map<string, Meaning> {
    if es.End? then map[] else EntriesMeant(es.tail)[es.head.key := Meant(es.head.value)]
  }

  ghost predicate UniqueKeys(es: List<Entry>) {
    es.Cons? ==> Lookup(es.tail, es.head.key).None? && UniqueKeys(es.tail)
  }

  /** Dictionaries and objects have each key once, at every depth. */
  ghost predicate Proper(v: Value)
    decreases v
  {
    match v
    case Array(items) => ItemsProper(items)
    case Dict(entries) => UniqueKeys(entries) && EntriesProper(entries)
    case Object(_, members) => UniqueKeys(members) && EntriesProper(members)
    case _ => true
  }

  ghost predicate ItemsProper(l: List<Value>) {
    l.Cons? ==> Proper(l.head) && ItemsProper(l.tail)
  }

  ghost predicate EntriesProper(es: List<Entry>) {
    es.Cons? ==> Proper(es.head.value) && EntriesProper(es.tail)
  }

  /** No object with a member, at any depth. */
  ghost predicate Plain(v: Value)
    decreases v
  {
    match v
    case Array(items) => ItemsPlain(items)
    case Dict(entries) => EntriesPlain(entries)
    case Object(_, members) => members.End?
    case _ => true
  }

  ghost predicate ItemsPlain(l: List<Value>) {
    l.Cons? ==> Plain(l.head) && ItemsPlain(l.tail)
  }

  ghost predicate EntriesPlain(es: List<Entry>) {
    es.Cons? ==> Plain(es.head.value) && EntriesPlain(es.tail)
  }

  // ----- deep equality is equality of meanings -----

  lemma {:induction false} LookupMeant(es: List<Entry>, key: string)
    ensures Lookup(es, key).Some? <==> key in EntriesMeant(es)
    ensures Lookup(es, key).Some? ==> EntriesMeant(es)[key] == Meant(Lookup(es, key).value)
  {
    if es.Cons? {
      LookupMeant(es.tail, key);
    }
  }

  lemma {:induction false} LookupProper(es: List<Entry>, key: string)
    requires EntriesProper(es) && Lookup(es, key).Some?
    ensures Proper(Lookup(es, key).value)
  {
    if es.head.key != key {
      LookupProper(es.tail, key);
    }
  }

  /** With each key once, the map has as many keys as there are entries. */
  lemma {:induction false} MeantSize(es: List<Entry>)
    requires UniqueKeys(es)
    ensures |EntriesMeant(es).Keys| == Length(es)
  {
    if es.Cons? {
      MeantSize(es.tail);
      LookupMeant(es.tail, es.head.key);
      assert EntriesMeant(es).Keys == EntriesMeant(es.tail).Keys + {es.head.key};
    }
  }

  lemma SubsetOfSameSize<T>(a: set<T>, b: set<T>)
    requires a <= b && |a| == |b|
    ensures a == b
  {
    assert |b| == |a| + |b - a|;
  }

  ghost predicate Submap(a: map<string, Meaning>, b: map<string, Meaning>) {
    forall k :: k in a ==> k in b && a[k] == b[k]
  }

  lemma SubmapOfSameSize(a: map<string, Meaning>, b: map<string, Meaning>)
    requires |a.Keys| == |b.Keys|
    ensures Submap(a, b) <==> a == b
  {
    if Submap(a, b) {
      SubsetOfSameSize(a.Keys, b.Keys);
    }
  }

  lemma {:induction false} DeepEqualIsMeaning(l: Value, r: Value)
    requires Proper(l) && Proper(r) && Plain(l)
    ensures DeepEqual(l, r) <==> Meant(l) == Meant(r)
    decreases l
  {
    if l.Array? && r.Array? {
      ItemsEqualIsMeaning(l.items, r.items);
    } else if l.Dict? && r.Dict? {
      EntriesFoundIsMeaning(l.entries, r.entries);
      MeantSize(l.entries);
      MeantSize(r.entries);
      if Length(l.entries) == Length(r.entries) {
        SubmapOfSameSize(EntriesMeant(l.entries), EntriesMeant(r.entries));
      }
    }
  }

  lemma {:induction false} ItemsEqualIsMeaning(a: List<Value>, b: List<Value>)
    requires ItemsProper(a) && ItemsProper(b) && ItemsPlain(a)
    ensures Length(a) == Length(b) && ItemsEqual(a, b) <==> ItemsMeant(a) == ItemsMeant(b)
    decreases a
  {
    if a.Cons? && b.Cons? {
      DeepEqualIsMeaning(a.head, b.head);
      ItemsEqualIsMeaning(a.tail, b.tail);
    }
  }

  lemma {:induction false} EntriesFoundIsMeaning(es: List<Entry>, r: List<Entry>)
    requires UniqueKeys(es) && EntriesProper(es) && EntriesPlain(es) && EntriesProper(r)
    ensures EntriesFound(es, Dict(r)) <==> Submap(EntriesMeant(es), EntriesMeant(r))
    decreases es
  {
    if es.Cons? {
      var k := es.head.key;
      EntriesFoundIsMeaning(es.tail, r);
      LookupMeant(r, k);
      LookupMeant(es.tail, k);
      if Has(Dict(r), k) {
        LookupProper(r, k);
        DeepEqualIsMeaning(es.head.value, Lookup(r, k).value);
      }
      SubmapInsert(EntriesMeant(es.tail), k, Meant(es.head.value), EntriesMeant(r));
    }
  }

  lemma SubmapInsert(a: map<string, Meaning>, k: string, m: Meaning, b: map<string, Meaning>)
    requires k !in a
    ensures Submap(a[k := m], b) <==> Submap(a, b) && k in b && b[k] == m
  {
    if Submap(a[k := m], b) {
      assert k in a[k := m];
      forall j | j in a ensures j in b && a[j] == b[j] {
        assert j in a[k := m];
      }
    }
  }

  /** So on values without objects it is an equivalence. */
  lemma Equivalence(a: Value, b: Value, c: Value)
    requires Proper(a) && Proper(b) && Proper(c) && Plain(a) && Plain(b) && Plain(c)
    ensures DeepEqual(a, a)
    ensures DeepEqual(a, b) ==> DeepEqual(b, a)
    ensures DeepEqual(a, b) && DeepEqual(b, c) ==> DeepEqual(a, c)
  {
    DeepEqualIsMeaning(a, a);
    DeepEqualIsMeaning(a, b);
    DeepEqualIsMeaning(b, a);
    DeepEqualIsMeaning(b, c);
    DeepEqualIsMeaning(a, c);
  }

  /** The order of a dictionary's entries does not matter. */
  lemma OrderInsensitive(a: List<Entry>, b: List<Entry>)
    requires Proper(Dict(a)) && Proper(Dict(b)) && Plain(Dict(a))
    requires forall k :: Lookup(a, k) == Lookup(b, k)
    ensures DeepEqual(Dict(a), Dict(b))
  {
    var x, y := EntriesMeant(a), EntriesMeant(b);
    forall k ensures (k in x <==> k in y) && (k in x ==> x[k] == y[k]) {
      LookupMeant(a, k);
      LookupMeant(b, k);
    }
    assert x == y;
    DeepEqualIsMeaning(Dict(a), Dict(b));
  }

  // ----- by position and by key -----

  lemma {:induction false} ItemsExact(a: List<Value>, b: List<Value>)
    requires Length(a) == Length(b)
    ensures |ToSeq(a)| == |ToSeq(b)|
    ensures ItemsEqual(a, b) <==> forall i :: 0 <= i < |ToSeq(a)| ==> DeepEqual(ToSeq(a)[i], ToSeq(b)[i])
    decreases a
  {
    if a.Cons? {
      ItemsExact(a.tail, b.tail);
      var x, y := ToSeq(a.tail), ToSeq(b.tail);
      if forall i :: 0 <= i < |ToSeq(a)| ==> DeepEqual(ToSeq(a)[i], ToSeq(b)[i]) {
        forall i | 0 <= i < |x| ensures DeepEqual(x[i], y[i]) {
          assert x[i] == ToSeq(a)[i + 1] && y[i] == ToSeq(b)[i + 1];
        }
        assert ToSeq(a)[0] == a.head && ToSeq(b)[0] == b.head;
      }
    }
  }

  lemma {:induction false} SeqLength<T>(l: List<T>)
    ensures |ToSeq(l)| == Length(l)
  {
    if l.Cons? {
      SeqLength(l.tail);
    }
  }

  /** Arrays are equal exactly when they have the same length and equal items everywhere. */
  lemma ArraysExact(a: List<Value>, b: List<Value>)
    ensures DeepEqual(Array(a), Array(b)) <==>
            |ToSeq(a)| == |ToSeq(b)| && forall i :: 0 <= i < |ToSeq(a)| ==> DeepEqual(ToSeq(a)[i], ToSeq(b)[i])
  {
    SeqLength(a);
    SeqLength(b);
    if Length(a) == Length(b) {
      ItemsExact(a, b);
    }
  }

  lemma {:induction false} LookupPlain(es: List<Entry>, key: string)
    requires EntriesPlain(es) && Lookup(es, key).Some?
    ensures Plain(Lookup(es, key).value)
  {
    if es.head.key != key {
      LookupPlain(es.tail, key);
    }
  }

  /** Both lack the key, or both have it with equal values. */
  ghost predicate SameAt(a: List<Entry>, b: List<Entry>, key: string) {
    var x, y := Lookup(a, key), Lookup(b, key);
    if x.None? then y.None? else y.Some? && DeepEqual(x.value, y.value)
  }

  lemma SameAtMeans(a: List<Entry>, b: List<Entry>, key: string)
    requires EntriesProper(a) && EntriesPlain(a) && EntriesProper(b)
    ensures SameAt(a, b, key) <==>
            (key in EntriesMeant(a) <==> key in EntriesMeant(b)) &&
            (key in EntriesMeant(a) && key in EntriesMeant(b) ==> EntriesMeant(a)[key] == EntriesMeant(b)[key])
  {
    LookupMeant(a, key);
    LookupMeant(b, key);
    if Lookup(a, key).Some? && Lookup(b, key).Some? {
      LookupProper(a, key);
      LookupProper(b, key);
      LookupPlain(a, key);
      DeepEqualIsMeaning(Lookup(a, key).value, Lookup(b, key).value);
    }
  }

  /** Dictionaries without objects are equal exactly when they have the same keys with equal values. */
  lemma DictsExact(a: List<Entry>, b: List<Entry>)
    requires Proper(Dict(a)) && Proper(Dict(b)) && Plain(Dict(a))
    ensures DeepEqual(Dict(a), Dict(b)) <==> forall key :: SameAt(a, b, key)
  {
    var x, y := EntriesMeant(a), EntriesMeant(b);
    DeepEqualIsMeaning(Dict(a), Dict(b));
    forall key ensures SameAt(a, b, key) <==> (key in x <==> key in y) && (key in x && key in y ==> x[key] == y[key]) {
      SameAtMeans(a, b, key);
    }
    if forall key :: SameAt(a, b, key) {
      assert x == y by {
        forall key ensures (key in x <==> key in y) && (key in x && key in y ==> x[key] == y[key]) {
          assert SameAt(a, b, key);
        }
      }
    }
  }

  // ----- objects -----

  /** Nothing is found in an object, so with members it does not even equal itself. */
  lemma {:induction false} ReflexiveExact(v: Value)
    requires Proper(v)
    ensures DeepEqual(v, v) <==> Plain(v)
    decreases v
  {
    match v
    case Array(items) => ItemsReflexive(items);
    case Dict(entries) => EntriesReflexive(entries, entries);
    case _ =>
  }

  lemma {:induction false} ItemsReflexive(l: List<Value>)
    requires ItemsProper(l)
    ensures ItemsEqual(l, l) <==> ItemsPlain(l)
  {
    if l.Cons? {
      ReflexiveExact(l.head);
      ItemsReflexive(l.tail);
    }
  }

  lemma {:induction false} EntriesReflexive(es: List<Entry>, all: List<Entry>)
    requires UniqueKeys(es) && EntriesProper(es)
    requires forall k :: Lookup(es, k).Some? ==> Lookup(all, k) == Lookup(es, k)
    ensures EntriesFound(es, Dict(all)) <==> EntriesPlain(es)
    decreases es
  {
    if es.Cons? {
      ReflexiveExact(es.head.value);
      assert Lookup(es, es.head.key) == Some(es.head.value);
      forall k | Lookup(es.tail, k).Some? ensures Lookup(all, k) == Lookup(es.tail, k) {
        assert k != es.head.key;
        assert Lookup(es, k) == Lookup(es.tail, k);
      }
      EntriesReflexive(es.tail, all);
    }
  }

  lemma ObjectUnlikeItself(id: nat, key: string, v: Value)
    ensures !DeepEqual(Object(id, Cons(Entry(key, v), End)), Object(id, Cons(Entry(key, v), End)))
  {
    assert !Has(Object(id, Cons(Entry(key, v), End)), key);
  }

  // ----- the == operator -----

  /** Members that are not fields of a data object: those with two leading underscores, and `with`. */
  predicate Hidden(key: string) {
    (|key| >= 2 && key[0] == '_' && key[1] == '_') || key == "with"
  }

  const DATA_TYPE := "__data_type"

  predicate IsData(v: Value) {
    v.Object? && Lookup(v.members, DATA_TYPE).Some? && Lookup(v.members, DATA_TYPE).value.Str?
  }

  /** Every visible member of `es` is in `r`, with a deeply equal value. */
  predicate FieldsFound(es: List<Entry>, r: List<Entry>) {
    es.Cons? ==>
      (Hidden(es.head.key) ||
       (Lookup(r, es.head.key).Some? && DeepEqual(es.head.value, Lookup(r, es.head.key).value))) &&
      FieldsFound(es.tail, r)
  }

  predicate FieldsNamed(es: List<Entry>, r: List<Entry>) {
    es.Cons? ==> (Hidden(es.head.key) || Lookup(r, es.head.key).Some?) && FieldsNamed(es.tail, r)
  }

  /** tya_data_object_equal */
  predicate DataEqual(l: Value, r: Value) {
    IsData(l) && IsData(r) && Lookup(l.members, DATA_TYPE) == Lookup(r.members, DATA_TYPE) &&
    FieldsFound(l.members, r.members) && FieldsNamed(r.members, l.members)
  }

  /** tya_equal */
  predicate Equal(l: Value, r: Value) {
    match l
    case Array(_) => r.Array? && DeepEqual(l, r)
    case Dict(_) => r.Dict? && DeepEqual(l, r)
    case Object(id, _) => r.Object? && if IsData(l) || IsData(r) then DataEqual(l, r) else id == r.id
    case _ => l == r
  }

  lemma EqualIsDeep(l: Value, r: Value)
    requires !l.Object?
    ensures Equal(l, r) <==> DeepEqual(l, r)
  {
  }

  /** Outside objects the operator, too, decides whether two values mean the same. */
  lemma EqualIsMeaning(l: Value, r: Value)
    requires !l.Object? && Proper(l) && Proper(r) && Plain(l)
    ensures Equal(l, r) <==> Meant(l) == Meant(r)
  {
    EqualIsDeep(l, r);
    DeepEqualIsMeaning(l, r);
  }

  /** The fields of a data object, as a map. */
  ghost function FieldsMeant(es: List<Entry>): map<string, Meaning> {
    if es.End? then map[]
    else if Hidden(es.head.key) then FieldsMeant(es.tail)
    else FieldsMeant(es.tail)[es.head.key := Meant(es.head.value)]
  }

  lemma {:induction false} FieldMeant(es: List<Entry>, key: string)
    requires UniqueKeys(es)
    ensures key in FieldsMeant(es) <==> !Hidden(key) && Lookup(es, key).Some?
    ensures key in FieldsMeant(es) ==> FieldsMeant(es)[key] == Meant(Lookup(es, key).value)
  {
    if es.Cons? {
      FieldMeant(es.tail, key);
    }
  }

  lemma {:induction false} FieldsFoundIsMeaning(es: List<Entry>, r: List<Entry>)
    requires UniqueKeys(es) && EntriesProper(es) && EntriesPlain(es) && UniqueKeys(r) && EntriesProper(r)
    ensures FieldsFound(es, r) <==> Submap(FieldsMeant(es), FieldsMeant(r))
  {
    if es.Cons? {
      var k := es.head.key;
      FieldsFoundIsMeaning(es.tail, r);
      if !Hidden(k) {
        FieldMeant(r, k);
        FieldMeant(es.tail, k);
        if Lookup(r, k).Some? {
          LookupProper(r, k);
          DeepEqualIsMeaning(es.head.value, Lookup(r, k).value);
        }
        SubmapInsert(FieldsMeant(es.tail), k, Meant(es.head.value), FieldsMeant(r));
      }
    }
  }

  lemma {:induction false} FieldsNamedIsKeys(es: List<Entry>, r: List<Entry>)
    requires UniqueKeys(es) && UniqueKeys(r)
    ensures FieldsNamed(es, r) <==> FieldsMeant(es).Keys <= FieldsMeant(r).Keys
  {
    if es.Cons? {
      FieldsNamedIsKeys(es.tail, r);
      FieldMeant(r, es.head.key);
    }
  }

  /** Data objects without objects in their fields are equal exactly when type and fields mean the same. */
  lemma DataEqualIsMeaning(l: Value, r: Value)
    requires IsData(l) && IsData(r) && Proper(l) && Proper(r) && EntriesPlain(l.members)
    ensures DataEqual(l, r) <==>
            Lookup(l.members, DATA_TYPE) == Lookup(r.members, DATA_TYPE) &&
            FieldsMeant(l.members) == FieldsMeant(r.members)
  {
    FieldsFoundIsMeaning(l.members, r.members);
    FieldsNamedIsKeys(r.members, l.members);
  }
}
