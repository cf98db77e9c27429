/**
 The insertion-ordered dictionary: an entry list, and an open-addressing index
 with linear probing that is rebuilt on growth and on every deletion.  The hash
 is a parameter, so what is proved holds for every hash function.
 */
module Dictionary {
  import opened Arith
  import opened Basics

  datatype Entry<+V> = Entry(key: string, value: V)

  /** A slot of the index: unused, or a key and the position of its entry. */
  datatype Slot = Free | Used(key: string, at: nat)

  // ----- the dictionary as a list -----

  function Keys<V>(es: seq<Entry<V>>): (ks: seq<string>)
    ensures |ks| == |es| && forall i :: 0 <= i < |es| ==> ks[i] == es[i].key
  {
    seq(|es|, i requires 0 <= i < |es| => es[i].key)
  }

  ghost predicate Unique(ks: seq<string>) {
    forall i, j :: 0 <= i < j < |ks| ==> ks[i] != ks[j]
  }

  /** The linear scan: the position of the first entry with this key, or -1. */
  ghost function ScanFrom(ks: seq<string>, key: string, i: nat): (r: int)
    requires i <= |ks|
    ensures r == -1 || i <= r < |ks|
    decreases |ks| - i
  {
    if i == |ks| then -1 else if ks[i] == key then i else ScanFrom(ks, key, i + 1)
  }

  ghost function Scan(ks: seq<string>, key: string): int {
    ScanFrom(ks, key, 0)
  }

  lemma {:induction false} ScanFromMeaning(ks: seq<string>, key: string, i: nat)
    requires i <= |ks|
    ensures var r := ScanFrom(ks, key, i);
            if r == -1 then key !in ks[i..] else i <= r < |ks| && ks[r] == key && key !in ks[i..r]
    decreases |ks| - i
  {
    if i < |ks| {
      ScanFromMeaning(ks, key, i + 1);
      assert ks[i..] == [ks[i]] + ks[i+1..];
      var r := ScanFrom(ks, key, i);
      if r > i {
        assert ks[i..r] == [ks[i]] + ks[i+1..r];
      }
    }
  }

  lemma ScanMeaning(ks: seq<string>, key: string)
    ensures var r := Scan(ks, key);
            if r == -1 then key !in ks else 0 <= r < |ks| && ks[r] == key && key !in ks[..r]
  {
    ScanFromMeaning(ks, key, 0);
    assert ks[0..] == ks;
  }

  // ----- the index -----

  type Hash = string -> nat

  /** The slot looked at by the given probe, when probing starts at `home`. */
  function Step(home: nat, probe: nat, cap: nat): nat {
    if home + probe < cap then home + probe else home + probe - cap
  }

  function Home(h: nat, cap: nat): (r: nat)
    requires 0 < cap
    ensures r < cap
  {
    h % cap
  }

  /** The sum of hash and probe, masked with the table size less one. */
  method MaskedSlot(h: nat, probe: nat, cap: nat) returns (s: nat)
    requires probe < cap && PowerOfTwo(cap)
    ensures s < cap && s == Step(Home(h, cap), probe, cap)
  {
    MaskIsMod(h + probe, cap);
    ModAdd(h, probe, cap);
    s := BitAnd(h + probe, cap - 1);
  }

  /** The index: entry `i` sits at probe `at[i]` of its key, behind used slots only, and no
      other slot is used. */
  ghost predicate Indexed(slots: seq<Slot>, ks: seq<string>, hash: Hash, at: seq<nat>) {
    |at| == |ks| && 0 < |slots| &&
    (forall i :: 0 <= i < |ks| ==> at[i] < |slots| && slots[Place(slots, ks, hash, at, i)] == Used(ks[i], i)) &&
    (forall i, p :: 0 <= i < |ks| && 0 <= p < at[i] ==> slots[Step(Home(hash(ks[i]), |slots|), p, |slots|)].Used?) &&
    (forall s ::
      0 <= s < |slots| && slots[s].Used? ==> slots[s].at < |ks| && s == Place(slots, ks, hash, at, slots[s].at))
  }

  /** Where entry `i` sits. */
  ghost function Place(slots: seq<Slot>, ks: seq<string>, hash: Hash, at: seq<nat>, i: nat): (s: nat)
    requires |at| == |ks| && 0 < |slots| && i < |ks| && at[i] < |slots|
    ensures s < |slots|
  {
    Step(Home(hash(ks[i]), |slots|), at[i], |slots|)
  }

  /** tya_dict_map_slot from the given probe on: the first slot that is free or holds the key. */
  ghost function ProbeFrom(slots: seq<Slot>, home: nat, key: string, p: nat): int
    requires home < |slots|
    decreases |slots| - p
  {
    if p >= |slots| then -1 else
      var s := Step(home, p, |slots|);
      if slots[s].Free? || slots[s].key == key then s else ProbeFrom(slots, home, key, p + 1)
  }

  /** Probing for a stored key finds its slot. */
  lemma {:induction false} ProbePresent(slots: seq<Slot>, ks: seq<string>, hash: Hash, at: seq<nat>, i: nat, p: nat)
    requires Indexed(slots, ks, hash, at) && Unique(ks) && i < |ks| && p <= at[i]
    ensures ProbeFrom(slots, Home(hash(ks[i]), |slots|), ks[i], p) == Place(slots, ks, hash, at, i)
    decreases at[i] - p
  {
    var home := Home(hash(ks[i]), |slots|);
    if p < at[i] {
      var s := Step(home, p, |slots|);
      var j := slots[s].at;
      assert slots[s] == Used(ks[j], j);
      assert j != i;
      assert ks[j] != ks[i];
      ProbePresent(slots, ks, hash, at, i, p + 1);
    }
  }

  /** Half the slots at least are free, so probing for another key ends at a free slot. */
  lemma {:induction false} ProbeAbsent(slots: seq<Slot>, ks: seq<string>, hash: Hash, at: seq<nat>, key: string, p: nat)
    returns (q: nat)
    requires Indexed(slots, ks, hash, at) && key !in ks && |ks| < |slots| && p <= |slots|
    requires forall r :: 0 <= r < p ==> slots[Step(Home(hash(key), |slots|), r, |slots|)].Used?
    ensures p <= q < |slots| && slots[Step(Home(hash(key), |slots|), q, |slots|)].Free?
    ensures forall r :: 0 <= r < q ==> slots[Step(Home(hash(key), |slots|), r, |slots|)].Used?
    ensures ProbeFrom(slots, Home(hash(key), |slots|), key, p) == Step(Home(hash(key), |slots|), q, |slots|)
    decreases |slots| - p
  {
    var home := Home(hash(key), |slots|);
    if p == |slots| {
      forall s | 0 <= s < |slots| ensures slots[s].Used? {
        var r := if s >= home then s - home else s + |slots| - home;
        assert Step(home, r, |slots|) == s;
      }
      Pigeonhole(seq(|slots|, s requires 0 <= s < |slots| => slots[s].at), |ks|);
      assert false;
      q := p;
    } else {
      var s := Step(home, p, |slots|);
      if slots[s].Free? {
        q := p;
      } else {
        assert slots[s] == Used(ks[slots[s].at], slots[s].at);
        q := ProbeAbsent(slots, ks, hash, at, key, p + 1);
      }
    }
  }

  /** What the probing lookup answers is what the linear scan answers. */
  lemma FindIsScan(slots: seq<Slot>, ks: seq<string>, hash: Hash, at: seq<nat>, key: string)
    requires Indexed(slots, ks, hash, at) && Unique(ks) && |ks| < |slots|
    ensures var s := ProbeFrom(slots, Home(hash(key), |slots|), key, 0);
            0 <= s < |slots| && (if slots[s].Free? then -1 else slots[s].at) == Scan(ks, key)
  {
    ScanMeaning(ks, key);
    if key in ks {
      ProbePresent(slots, ks, hash, at, Scan(ks, key), 0);
    } else {
      var q := ProbeAbsent(slots, ks, hash, at, key, 0);
    }
  }

  /** Filling that free slot indexes the new entry. */
  lemma IndexInsert(slots: seq<Slot>, ks: seq<string>, hash: Hash, at: seq<nat>, key: string, q: nat)
    requires Indexed(slots, ks, hash, at) && key !in ks && q < |slots|
    requires slots[Step(Home(hash(key), |slots|), q, |slots|)].Free?
    requires forall r :: 0 <= r < q ==> slots[Step(Home(hash(key), |slots|), r, |slots|)].Used?
    ensures Indexed(slots[Step(Home(hash(key), |slots|), q, |slots|) := Used(key, |ks|)], ks + [key], hash, at + [q])
  {
    var s := Step(Home(hash(key), |slots|), q, |slots|);
    var slots', ks', at' := slots[s := Used(key, |ks|)], ks + [key], at + [q];
    forall i | 0 <= i < |ks'|
      ensures at'[i] < |slots'| && slots'[Place(slots', ks', hash, at', i)] == Used(ks'[i], i)
    {
      if i < |ks| {
        assert Place(slots', ks', hash, at', i) == Place(slots, ks, hash, at, i);
      }
    }
    forall t | 0 <= t < |slots'| && slots'[t].Used?
      ensures slots'[t].at < |ks'| && t == Place(slots', ks', hash, at', slots'[t].at)
    {
      if t != s {
        assert Place(slots', ks', hash, at', slots[t].at) == Place(slots, ks, hash, at, slots[t].at);
      }
    }
  }

  lemma Doubled(cap: nat)
    requires PowerOfTwo(cap)
    ensures PowerOfTwo(cap * 2) && cap * 2 / 2 == cap
  {
    DivUnique(cap * 2, cap, 0, 2);
  }

  /** tya_dict_map_cap: the first power of two from 8 on that is at least twice the count. */
  method MapCap(count: nat) returns (cap: nat)
    ensures 8 <= cap && 2 * count <= cap && PowerOfTwo(cap)
    ensures cap == 8 || cap / 2 < 2 * count
  {
    cap := 8;
    while cap < count * 2
      invariant 8 <= cap && PowerOfTwo(cap) && (cap == 8 || cap / 2 < 2 * count)
      decreases count * 2 - cap
    {
      Doubled(cap);
      cap := cap * 2;
    }
  }

  /** For a table of at most 2^64 slots, the wrap-around of hash + probe in 64 bits does not change the slot. */
  lemma WrapAround(h: nat, p: nat, cap: nat)
    requires p < cap <= WORDS && PowerOfTwo(cap)
    ensures BitAnd(Wrap(h + p), cap - 1) == BitAnd(h + p, cap - 1) == Step(Home(h, cap), p, cap)
  {
    WordsPower();
    var k := PowersDivide(cap, WORDS);
    MaskIsMod(Wrap(h + p), cap);
    MaskIsMod(h + p, cap);
    ModMod(h + p, k, cap);
    ModAdd(h, p, cap);
  }

  /** The inner loop of a rebuild: index a key that is not in the table yet. */
  method IndexKey(m: array<Slot>, hash: Hash, key: string, i: nat, ghost ks: seq<string>, ghost at: seq<nat>)
    returns (ghost q: nat)
    requires Indexed(m[..], ks, hash, at) && |ks| == i < m.Length && key !in ks && PowerOfTwo(m.Length)
    modifies m
    ensures Indexed(m[..], ks + [key], hash, at + [q])
  {
    var h, cap, probe := hash(key), m.Length, 0;
    ghost var before := m[..];
    q := ProbeAbsent(before, ks, hash, at, key, 0);
    while probe < cap
      invariant 0 <= probe <= q && m[..] == before
    {
      var s := MaskedSlot(h, probe, cap);
      if m[s].Free? {
        IndexInsert(before, ks, hash, at, key, q);
        m[s] := Used(key, i);
        assert m[..] == before[s := Used(key, i)];
        return;
      }
      if m[s].key == key {
        return;
      }
      probe := probe + 1;
    }
  }

  // ----- what the operations do to the list -----

  ghost function Put<V>(es: seq<Entry<V>>, key: string, value: V): seq<Entry<V>> {
    var i := Scan(Keys(es), key);
    if 0 <= i < |es| then es[i := Entry(es[i].key, value)] else es + [Entry(key, value)]
  }

  ghost function Drop<V>(es: seq<Entry<V>>, key: string): seq<Entry<V>> {
    var i := Scan(Keys(es), key);
    if 0 <= i < |es| then es[..i] + es[i+1..] else es
  }

  lemma KeysPut<V>(es: seq<Entry<V>>, key: string, value: V)
    requires Unique(Keys(es))
    ensures Keys(Put(es, key, value)) == if key in Keys(es) then Keys(es) else Keys(es) + [key]
    ensures Unique(Keys(Put(es, key, value)))
  {
    ScanMeaning(Keys(es), key);
  }

  /** `ks` without the key at `d`. */
  ghost function Cut(ks: seq<string>, d: nat): (r: seq<string>)
    requires d < |ks|
    ensures |r| == |ks| - 1 && forall t :: 0 <= t < |r| ==> r[t] == ks[if t < d then t else t + 1]
  {
    ks[..d] + ks[d+1..]
  }

  lemma CutUnique(ks: seq<string>, d: nat)
    requires Unique(ks) && d < |ks|
    ensures Unique(Cut(ks, d)) && ks[d] !in Cut(ks, d)
  {
  }

  /** Positions after a cut. */
  lemma ScanCut(ks: seq<string>, d: nat, k: string)
    requires Unique(ks) && d < |ks|
    ensures var j := Scan(ks, k);
            Scan(Cut(ks, d), k) == if k == ks[d] || j == -1 then -1 else if j < d then j else j - 1
  {
    var r := Cut(ks, d);
    CutUnique(ks, d);
    ScanMeaning(ks, k);
    ScanMeaning(r, k);
    var j := Scan(ks, k);
    if j != -1 && k != ks[d] {
      var i := if j < d then j else j - 1;
      assert r[i] == k;
      ScanIs(r, i);
    }
  }

  lemma KeysOfCut<V>(es: seq<Entry<V>>, d: nat)
    requires d < |es|
    ensures Keys(es[..d] + es[d+1..]) == Cut(Keys(es), d)
  {
  }

  lemma KeysDrop<V>(es: seq<Entry<V>>, key: string)
    requires Unique(Keys(es))
    ensures var i := Scan(Keys(es), key);
            Keys(Drop(es, key)) == if i == -1 then Keys(es) else Cut(Keys(es), i)
    ensures Unique(Keys(Drop(es, key))) && key !in Keys(Drop(es, key))
  {
    ScanMeaning(Keys(es), key);
    var i := Scan(Keys(es), key);
    if i != -1 {
      KeysOfCut(es, i);
      CutUnique(Keys(es), i);
    }
  }

  lemma DropIs<V>(es: seq<Entry<V>>, key: string, i: int)
    requires Unique(Keys(es)) && i == Scan(Keys(es), key)
    ensures -1 <= i < |es| && Unique(Keys(Drop(es, key)))
    ensures Drop(es, key) == if i >= 0 then es[..i] + es[i+1..] else es
  {
    KeysDrop(es, key);
  }

  ghost function ValueAt<V>(es: seq<Entry<V>>, key: string): Option<V> {
    var i := Scan(Keys(es), key);
    if 0 <= i < |es| then Some(es[i].value) else None
  }

  // ----- every run of sets and deletes -----

  datatype Op<+V> = SetOp(key: string, value: V) | DeleteOp(key: string)

  ghost function Apply<V>(es: seq<Entry<V>>, op: Op<V>): seq<Entry<V>> {
    match op
    case SetOp(k, v) => Put(es, k, v)
    case DeleteOp(k) => Drop(es, k)
  }

  ghost function Run<V>(ops: seq<Op<V>>): seq<Entry<V>> {
    if ops == [] then [] else Apply(Run(ops[..|ops|-1]), ops[|ops|-1])
  }

  /** The map a run of operations means. */
  ghost function Meaning<V>(ops: seq<Op<V>>): map<string, V> {
    if ops == [] then map[] else
      var m := Meaning(ops[..|ops|-1]);
      match ops[|ops|-1]
      case SetOp(k, v) => m[k := v]
      case DeleteOp(k) => m - {k}
  }

  lemma ScanIs(ks: seq<string>, i: nat)
    requires Unique(ks) && i < |ks|
    ensures Scan(ks, ks[i]) == i
  {
    ScanMeaning(ks, ks[i]);
  }

  lemma ValueAfterPut<V>(es: seq<Entry<V>>, key: string, value: V, k: string)
    requires Unique(Keys(es))
    ensures ValueAt(Put(es, key, value), k) == if k == key then Some(value) else ValueAt(es, k)
  {
    var ks, ks' := Keys(es), Keys(Put(es, key, value));
    KeysPut(es, key, value);
    ScanMeaning(ks, key);
    ScanMeaning(ks, k);
    ScanMeaning(ks', k);
    assert forall i :: 0 <= i < |ks| ==> ks'[i] == ks[i];
    if k in ks {
      ScanIs(ks', Scan(ks, k));
    } else if k == key {
      ScanIs(ks', |ks|);
    }
  }

  lemma CutAt<V>(es: seq<Entry<V>>, d: nat, j: nat)
    requires d < |es| && j < |es| && j != d
    ensures (es[..d] + es[d+1..])[if j < d then j else j - 1] == es[j]
  {
  }

  lemma ValueAfterDrop<V>(es: seq<Entry<V>>, key: string, k: string)
    requires Unique(Keys(es))
    ensures ValueAt(Drop(es, key), k) == if k == key then None else ValueAt(es, k)
  {
    var d, j := Scan(Keys(es), key), Scan(Keys(es), k);
    DropIs(es, key, d);
    ScanMeaning(Keys(es), k);
    if d != -1 {
      ScanMeaning(Keys(es), key);
      KeysOfCut(es, d);
      ScanCut(Keys(es), d, k);
      if j != -1 && j != d {
        CutAt(es, d, j);
      }
    }
  }

  /** One operation does to the entries what it does to the map they mean. */
  lemma ApplyMeans<V>(es: seq<Entry<V>>, op: Op<V>, k: string)
    requires Unique(Keys(es))
    ensures Unique(Keys(Apply(es, op)))
    ensures ValueAt(Apply(es, op), k) ==
            if k != op.key then ValueAt(es, k) else if op.SetOp? then Some(op.value) else None
  {
    match op {
      case SetOp(key, v) => KeysPut(es, key, v); ValueAfterPut(es, key, v, k);
      case DeleteOp(key) => KeysDrop(es, key); ValueAfterDrop(es, key, k);
    }
  }

  /** After any run the keys are unique and every lookup answers as in the map it means. */
  lemma {:induction false} RunIsMap<V>(ops: seq<Op<V>>, k: string)
    ensures Unique(Keys(Run(ops)))
    ensures ValueAt(Run(ops), k) == if k in Meaning(ops) then Some(Meaning(ops)[k]) else None
    decreases |ops|
  {
    if ops != [] {
      RunIsMap(ops[..|ops|-1], k);
      ApplyMeans(Run(ops[..|ops|-1]), ops[|ops|-1], k);
    }
  }

  lemma PositionAfterPut<V>(es: seq<Entry<V>>, key: string, value: V, a: string)
    requires Unique(Keys(es)) && a in Keys(es)
    ensures Scan(Keys(Put(es, key, value)), a) == Scan(Keys(es), a)
    ensures key !in Keys(es) ==> Scan(Keys(Put(es, key, value)), key) == |es|
  {
    var ks' := Keys(Put(es, key, value));
    KeysPut(es, key, value);
    ScanMeaning(Keys(es), a);
    ScanIs(ks', Scan(Keys(es), a));
    if key !in Keys(es) {
      ScanIs(ks', |es|);
    }
  }

  lemma PositionAfterDrop<V>(es: seq<Entry<V>>, key: string, a: string)
    requires Unique(Keys(es)) && a in Keys(es) && a != key
    ensures var d, i := Scan(Keys(es), key), Scan(Keys(es), a);
            i != d && Scan(Keys(Drop(es, key)), a) == if d != -1 && d < i then i - 1 else i
  {
    KeysDrop(es, key);
    ScanMeaning(Keys(es), a);
    ScanMeaning(Keys(es), key);
    if Scan(Keys(es), key) != -1 {
      ScanCut(Keys(es), Scan(Keys(es), key), a);
    }
  }

  /** An operation does not reorder the entries it leaves; a new key goes last. */
  lemma OrderKept<V>(es: seq<Entry<V>>, op: Op<V>, a: string, b: string)
    requires Unique(Keys(es)) && a in Keys(es) && b in Keys(es)
    requires a in Keys(Apply(es, op)) && b in Keys(Apply(es, op))
    ensures Scan(Keys(es), a) < Scan(Keys(es), b) <==> Scan(Keys(Apply(es, op)), a) < Scan(Keys(Apply(es, op)), b)
    ensures op.SetOp? && op.key !in Keys(es) ==> Scan(Keys(Apply(es, op)), a) < Scan(Keys(Apply(es, op)), op.key)
  {
    match op {
      case SetOp(key, v) =>
        PositionAfterPut(es, key, v, a);
        PositionAfterPut(es, key, v, b);
      case DeleteOp(key) =>
        KeysDrop(es, key);
        PositionAfterDrop(es, key, a);
        PositionAfterDrop(es, key, b);
    }
  }

  class HashDict<V> {
    const hash: Hash
    var entries: seq<Entry<V>>
    var slots: array?<Slot>
    /** The probe at which each entry sits in the index. */
    ghost var at: seq<nat>

    ghost predicate Valid()
      reads this, slots
    {
      Unique(Keys(entries)) &&
      (slots != null ==> 8 <= slots.Length && 2 * |entries| <= slots.Length && PowerOfTwo(slots.Length)) &&
      (slots != null ==> Indexed(slots[..], Keys(entries), hash, at))
    }

    constructor (hash: Hash)
      ensures Valid() && entries == [] && this.hash == hash && slots == null
    {
      this.hash := hash;
      entries, slots, at := [], null, [];
    }

    /** tya_dict_map_slot. */
    method MapSlot(key: string) returns (slot: int)
      requires slots != null && PowerOfTwo(slots.Length)
      ensures slot == ProbeFrom(slots[..], Home(hash(key), slots.Length), key, 0)
    {
      var h, cap, probe := hash(key), slots.Length, 0;
      while probe < cap
        invariant 0 <= probe <= cap
        invariant ProbeFrom(slots[..], Home(h, cap), key, 0) == ProbeFrom(slots[..], Home(h, cap), key, probe)
      {
        var s := MaskedSlot(h, probe, cap);
        if slots[s].Free? || slots[s].key == key {
          return s;
        }
        probe := probe + 1;
      }
      return -1;
    }

    /** tya_dict_rebuild_map. */
    method Rebuild()
      requires Unique(Keys(entries))
      modifies this`slots, this`at
      ensures Valid() && slots != null && fresh(slots)
    {
      var cap := MapCap(if |entries| > 0 then |entries| else 1);
      var m := new Slot[cap](_ => Free);
      ghost var ks, ps := Keys(entries), [];
      var i := 0;
      while i < |entries|
        invariant 0 <= i <= |entries| && fresh(m) && m.Length == cap
        invariant Indexed(m[..], ks[..i], hash, ps)
      {
        assert ks[..i] + [entries[i].key] == ks[..i+1];
        ghost var q := IndexKey(m, hash, entries[i].key, i, ks[..i], ps);
        ps := ps + [q];
        i := i + 1;
      }
      assert ks[..i] == ks;
      slots, at := m, ps;
    }

    /** tya_dict_find_entry: the position of the entry with this key, as the linear scan would
        find it; the index is built first if it does not exist. */
    method Find(key: string) returns (i: int)
      requires Valid()
      modifies this`slots, this`at
      ensures Valid() && (slots == old(slots) || fresh(slots))
      ensures i == Scan(Keys(entries), key)
      ensures |entries| > 0 ==> slots != null
    {
      ScanMeaning(Keys(entries), key);
      if |entries| == 0 {
        return -1;
      }
      if slots == null {
        Rebuild();
      }
      FindIsScan(slots[..], Keys(entries), hash, at, key);
      var slot := MapSlot(key);
      if slot < 0 || slots[slot].Free? {
        return -1;
      }
      return slots[slot].at;
    }

    /** tya_dict_set_entry. */
    method Set(key: string, value: V)
      requires Valid()
      modifies this`entries, this`slots, this`at, slots
      ensures Valid() && (slots == old(slots) || fresh(slots))
      ensures entries == Put(old(entries), key, value)
    {
      ScanMeaning(Keys(entries), key);
      KeysPut(entries, key, value);
      var i := Find(key);
      if i >= 0 {
        entries := entries[i := Entry(entries[i].key, value)];
      } else {
        Append(key, value);
      }
    }

    /** The second half of a set: a new entry, and its place in the index. */
    method Append(key: string, value: V)
      requires Valid() && key !in Keys(entries)
      modifies this`entries, this`slots, this`at, slots
      ensures Valid() && (slots == old(slots) || fresh(slots))
      ensures entries == old(entries) + [Entry(key, value)]
    {
      ghost var ks := Keys(entries);
      entries := entries + [Entry(key, value)];
      assert Keys(entries) == ks + [key];
      if slots == null || |entries| * 2 >= slots.Length {
        Rebuild();
      } else {
        ghost var q := ProbeAbsent(slots[..], ks, hash, at, key, 0);
        IndexInsert(slots[..], ks, hash, at, key, q);
        var slot := MapSlot(key);
        if slot >= 0 {
          ghost var before := slots[..];
          slots[slot] := Used(key, |entries| - 1);
          assert slots[..] == before[slot := Used(key, |ks|)];
        }
        at := at + [q];
      }
    }

    /** tya_dict_delete_entry. */
    method Delete(key: string)
      requires Valid()
      modifies this`entries, this`slots, this`at
      ensures Valid() && (slots == old(slots) || fresh(slots))
      ensures entries == Drop(old(entries), key)
    {
      var i := Find(key);
      DropIs(entries, key, i);
      if i >= 0 {
        entries := entries[..i] + entries[i+1..];
        Rebuild();
      }
    }

    /** The lookup of tya_index, which scans the entries instead of using the index. */
    method Lookup(key: string) returns (r: Option<V>)
      requires Valid()
      ensures r == ValueAt(entries, key)
    {
      ghost var ks := Keys(entries);
      var j := 0;
      while j < |entries|
        invariant 0 <= j <= |entries| && ScanFrom(ks, key, 0) == ScanFrom(ks, key, j)
      {
        if entries[j].key == key {
          return Some(entries[j].value);
        }
        j := j + 1;
      }
      return None;
    }
  }
}
