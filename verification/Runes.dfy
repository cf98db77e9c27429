/**
 Texts cut into runes, for any coding in which a rune's first byte tells its width
 and differs from every other byte of a rune.
 */
module Runes {
  import opened Basics

  datatype Head<C> = Bad | Rune(width: nat, code: C)

  /** How code points of type C are written in bytes of type B. */
  datatype Coding<!B, !C> = Coding(
    scalar: C -> bool,          // the code points that can be written
    write: C -> seq<B>,
    read: seq<B> -> Head<C>,    // the rune at the front of some bytes
    width: B -> nat,            // how far the text functions step at a byte
    isTail: B -> bool,          // bytes that only occur inside a rune
    isAscii: B -> bool          // bytes that are a rune by themselves
  )

  ghost predicate Lawful<B(!new), C(!new)>(u: Coding<B, C>) {
    (forall c, r {:trigger u.read(u.write(c) + r)} ::
      u.scalar(c) ==> u.read(u.write(c) + r) == Rune(|u.write(c)|, c)) &&
    (forall c {:trigger u.write(c)} :: u.scalar(c) ==> u.write(c) != []) &&
    (forall s {:trigger u.read(s)} :: u.read(s).Rune? ==> WellRead(u, s)) &&
    (forall b {:trigger u.isAscii(b)} :: u.isAscii(b) ==> u.width(b) == 1)
  }

  ghost predicate WellRead<B, C>(u: Coding<B, C>, s: seq<B>)
    requires u.read(s).Rune?
  {
    var h := u.read(s);
    1 <= h.width <= |s| && h.width == u.width(s[0]) &&
    u.scalar(h.code) && s[..h.width] == u.write(h.code) &&
    !u.isTail(s[0]) && forall j :: 1 <= j < h.width ==> u.isTail(s[j])
  }

  // ----- texts and their runes -----

  ghost function W<B, C>(u: Coding<B, C>, s: seq<B>): nat {
    if u.read(s).Rune? then u.read(s).width else 0
  }

  ghost predicate Valid<B, C>(u: Coding<B, C>, s: seq<B>)
    decreases |s|
  {
    s == [] || (1 <= W(u, s) <= |s| && Valid(u, s[W(u, s)..]))
  }

  ghost function RunesOf<B, C>(u: Coding<B, C>, s: seq<B>): List<C>
    requires Valid(u, s)
    decreases |s|
  {
    if s == [] then End else Cons(u.read(s).code, RunesOf(u, s[W(u, s)..]))
  }

  ghost function Count<B, C>(u: Coding<B, C>, s: seq<B>): nat
    requires Valid(u, s)
  {
    Length(RunesOf(u, s))
  }

  ghost predicate Scalars<B, C>(u: Coding<B, C>, cs: List<C>) {
    cs.Cons? ==> u.scalar(cs.head) && Scalars(u, cs.tail)
  }

  ghost function WriteAll<B, C>(u: Coding<B, C>, cs: List<C>): seq<B> {
    if cs.End? then [] else u.write(cs.head) + WriteAll(u, cs.tail)
  }

  lemma {:induction false} ReadAll<B(!new), C(!new)>(u: Coding<B, C>, cs: List<C>)
    requires Lawful(u) && Scalars(u, cs)
    ensures Valid(u, WriteAll(u, cs)) && RunesOf(u, WriteAll(u, cs)) == cs
  {
    if cs.Cons? {
      var rest := WriteAll(u, cs.tail);
      ReadAll(u, cs.tail);
      assert WriteAll(u, cs) == u.write(cs.head) + rest;
      assert u.read(u.write(cs.head) + rest) == Rune(|u.write(cs.head)|, cs.head);
      assert (u.write(cs.head) + rest)[|u.write(cs.head)|..] == rest;
    }
  }

  lemma {:induction false} Rewrite<B(!new), C(!new)>(u: Coding<B, C>, s: seq<B>)
    requires Lawful(u) && Valid(u, s)
    ensures Scalars(u, RunesOf(u, s)) && WriteAll(u, RunesOf(u, s)) == s
    decreases |s|
  {
    if s != [] {
      var w := W(u, s);
      assert WellRead(u, s);
      Rewrite(u, s[w..]);
      assert s == s[..w] + s[w..];
    }
  }

  ghost predicate Spells<B, C>(u: Coding<B, C>, cs: List<C>, s: seq<B>) {
    Scalars(u, cs) && WriteAll(u, cs) == s
  }

  /** Valid bytes are exactly the written code points, one after the other, each text in one way. */
  lemma ValidIsWritten<B(!new), C(!new)>(u: Coding<B, C>, s: seq<B>)
    requires Lawful(u)
    ensures Valid(u, s) <==> exists cs :: Spells(u, cs, s)
    ensures forall cs, ds :: Spells(u, cs, s) && Spells(u, ds, s) ==> cs == ds
  {
    if Valid(u, s) {
      Rewrite(u, s);
      assert Spells(u, RunesOf(u, s), s);
    }
    forall cs | Spells(u, cs, s) ensures Valid(u, s) && RunesOf(u, s) == cs {
      ReadAll(u, cs);
    }
  }

  lemma ValidNext<B, C>(u: Coding<B, C>, s: seq<B>, i: nat, w: nat)
    requires i < |s| && w == W(u, s[i..])
    ensures Valid(u, s[i..]) <==> 1 <= w <= |s| - i && Valid(u, s[i + w..])
  {
    if w <= |s| - i {
      assert s[i..][w..] == s[i + w..];
    }
  }

  // ----- runes and bytes -----

  /** The byte at which rune `k` begins; the end of the text for the rune behind the last. */
  ghost function Offset<B, C>(u: Coding<B, C>, s: seq<B>, k: nat): (i: nat)
    requires Valid(u, s) && k <= Count(u, s)
    ensures i <= |s|
    decreases |s|
  {
    if k == 0 then 0 else W(u, s) + Offset(u, s[W(u, s)..], k - 1)
  }

  /** How many runes begin before byte `b`. */
  ghost function Index<B, C>(u: Coding<B, C>, s: seq<B>, b: nat): nat
    requires Valid(u, s)
    decreases |s|
  {
    if s == [] || b == 0 then 0 else 1 + Index(u, s[W(u, s)..], if b < W(u, s) then 0 else b - W(u, s))
  }

  /** Byte `i` is where rune `k` begins. */
  ghost predicate Stands<B, C>(u: Coding<B, C>, s: seq<B>, i: nat, k: nat) {
    Valid(u, s) && k <= Count(u, s) && Offset(u, s, k) == i
  }

  /** The text from there on is valid and has the remaining runes. */
  ghost predicate Remains<B, C>(u: Coding<B, C>, s: seq<B>, i: nat, k: nat) {
    Valid(u, s) && i <= |s| && Valid(u, s[i..]) && k + Count(u, s[i..]) == Count(u, s)
  }

  lemma {:induction false} OffsetRemains<B, C>(u: Coding<B, C>, s: seq<B>, k: nat)
    requires Valid(u, s) && k <= Count(u, s)
    ensures Remains(u, s, Offset(u, s, k), k)
    decreases |s|
  {
    if k == 0 {
      assert s[0..] == s;
    } else {
      var w := W(u, s);
      OffsetRemains(u, s[w..], k - 1);
      var i := Offset(u, s[w..], k - 1);
      assert s[w..][i..] == s[w + i..];
    }
  }

  lemma {:induction false} OffsetNext<B, C>(u: Coding<B, C>, s: seq<B>, k: nat)
    requires Valid(u, s) && k < Count(u, s)
    ensures Offset(u, s, k) < |s| && Offset(u, s, k + 1) == Offset(u, s, k) + W(u, s[Offset(u, s, k)..])
    decreases |s|
  {
    var w := W(u, s);
    if k == 0 {
      assert s[0..] == s;
      assert Offset(u, s[w..], 0) == 0;
    } else {
      OffsetNext(u, s[w..], k - 1);
      var i := Offset(u, s[w..], k - 1);
      assert s[w..][i..] == s[w + i..];
    }
  }

  /** One step of the text functions, from one rune to the next. */
  lemma Step<B(!new), C(!new)>(u: Coding<B, C>, s: seq<B>, i: nat, k: nat)
    requires Lawful(u) && Stands(u, s, i, k) && i < |s|
    ensures k < Count(u, s) && 1 <= u.width(s[i]) && i + u.width(s[i]) <= |s| && !u.isTail(s[i])
    ensures Stands(u, s, i + u.width(s[i]), k + 1)
  {
    OffsetRemains(u, s, k);
    OffsetNext(u, s, k);
    assert WellRead(u, s[i..]);
  }

  /** The bytes of one rune. */
  ghost function RuneAt<B, C>(u: Coding<B, C>, s: seq<B>, k: nat): seq<B>
    requires Valid(u, s) && k < Count(u, s)
  {
    OffsetNext(u, s, k);
    s[Offset(u, s, k)..Offset(u, s, k + 1)]
  }

  lemma StandsAtEnds<B, C>(u: Coding<B, C>, s: seq<B>)
    requires Valid(u, s)
    ensures Stands(u, s, 0, 0) && Stands(u, s, |s|, Count(u, s))
  {
    OffsetRemains(u, s, Count(u, s));
  }

  /** Only the end of the text has all runes before it. */
  lemma StandsLast<B, C>(u: Coding<B, C>, s: seq<B>, i: nat, k: nat)
    requires Stands(u, s, i, k)
    ensures i <= |s| && (i == |s| <==> k == Count(u, s))
  {
    OffsetRemains(u, s, k);
  }

  lemma {:induction false} IndexOfOffset<B, C>(u: Coding<B, C>, s: seq<B>, k: nat)
    requires Valid(u, s) && k <= Count(u, s)
    ensures Index(u, s, Offset(u, s, k)) == k
    decreases |s|
  {
    if k > 0 {
      IndexOfOffset(u, s[W(u, s)..], k - 1);
    }
  }

  /** A rune begins at every byte that is not a tail. */
  lemma {:induction false} OffsetOfIndex<B(!new), C(!new)>(u: Coding<B, C>, s: seq<B>, p: nat)
    requires Lawful(u) && Valid(u, s) && (p == |s| || (p < |s| && !u.isTail(s[p])))
    ensures Index(u, s, p) <= Count(u, s) && Offset(u, s, Index(u, s, p)) == p
    decreases |s|
  {
    if s != [] && p > 0 {
      var w := W(u, s);
      assert WellRead(u, s);
      assert p >= w;
      var rest := s[w..];
      OffsetOfIndex(u, rest, p - w);
      assert Index(u, s, p) == 1 + Index(u, rest, p - w);
      assert Offset(u, s, 1 + Index(u, rest, p - w)) == w + Offset(u, rest, Index(u, rest, p - w));
    }
  }

  lemma {:induction false} IndexBounds<B, C>(u: Coding<B, C>, s: seq<B>, b: nat)
    requires Valid(u, s)
    ensures Index(u, s, b) <= Count(u, s)
    ensures Index(u, s, b) < Count(u, s) ==> b <= Offset(u, s, Index(u, s, b))
    ensures Index(u, s, b) > 0 ==> Offset(u, s, Index(u, s, b) - 1) < b
    decreases |s|
  {
    if s != [] && b > 0 {
      IndexBounds(u, s[W(u, s)..], if b < W(u, s) then 0 else b - W(u, s));
    }
  }

  /** Rune `k` begins before byte `b` exactly when it is one of the first Index(b). */
  lemma IndexCounts<B, C>(u: Coding<B, C>, s: seq<B>, b: nat, k: nat)
    requires Valid(u, s) && k < Count(u, s)
    ensures Index(u, s, b) <= Count(u, s) && (Offset(u, s, k) < b <==> k < Index(u, s, b))
  {
    IndexBounds(u, s, b);
    var i := Index(u, s, b);
    if k < i {
      OffsetMonotone(u, s, k, i - 1);
    } else {
      OffsetMonotone(u, s, i, k);
    }
  }

  // ----- what the bytes between two runes spell -----

  ghost function Front<T>(l: List<T>, k: nat): List<T> {
    if l.End? || k == 0 then End else Cons(l.head, Front(l.tail, k - 1))
  }

  ghost function Behind<T>(l: List<T>, k: nat): List<T> {
    if l.End? || k == 0 then l else Behind(l.tail, k - 1)
  }

  /** The code points from number `j` up to number `k`. */
  ghost function Between<T>(l: List<T>, j: nat, k: nat): List<T>
    requires j <= k
  {
    Front(Behind(l, j), k - j)
  }

  lemma {:induction false} WriteCut<B, C>(u: Coding<B, C>, cs: List<C>, k: nat)
    ensures WriteAll(u, cs) == WriteAll(u, Front(cs, k)) + WriteAll(u, Behind(cs, k))
    ensures Scalars(u, cs) ==> Scalars(u, Front(cs, k)) && Scalars(u, Behind(cs, k))
    decreases cs
  {
    if cs.Cons? && k > 0 {
      WriteCut(u, cs.tail, k - 1);
    }
  }

  lemma {:induction false} WriteFront<B, C>(u: Coding<B, C>, cs: List<C>, j: nat, k: nat)
    requires j <= k
    ensures WriteAll(u, Front(cs, k)) == WriteAll(u, Front(cs, j)) + WriteAll(u, Between(cs, j, k))
    decreases cs
  {
    if cs.Cons? && j > 0 {
      WriteFront(u, cs.tail, j - 1, k - 1);
    }
  }

  lemma {:induction false} OffsetWritten<B(!new), C(!new)>(u: Coding<B, C>, cs: List<C>, k: nat)
    requires Lawful(u) && Scalars(u, cs) && k <= Length(cs)
    ensures Valid(u, WriteAll(u, cs)) && RunesOf(u, WriteAll(u, cs)) == cs
    ensures Offset(u, WriteAll(u, cs), k) == |WriteAll(u, Front(cs, k))|
    decreases cs
  {
    ReadAll(u, cs);
    if k > 0 {
      var w, rest := u.write(cs.head), WriteAll(u, cs.tail);
      OffsetWritten(u, cs.tail, k - 1);
      assert u.read(w + rest) == Rune(|w|, cs.head);
      assert (w + rest)[|w|..] == rest;
    }
  }

  lemma OffsetCuts<B(!new), C(!new)>(u: Coding<B, C>, s: seq<B>, k: nat)
    requires Lawful(u) && Valid(u, s) && k <= Count(u, s)
    ensures s[..Offset(u, s, k)] == WriteAll(u, Front(RunesOf(u, s), k))
  {
    Rewrite(u, s);
    OffsetWritten(u, RunesOf(u, s), k);
    WriteCut(u, RunesOf(u, s), k);
  }

  lemma BetweenCuts<B>(s: seq<B>, i: nat, j: nat, part: seq<B>)
    requires i <= |s| && j <= |s| && s[..j] == s[..i] + part
    ensures i <= j && s[i..j] == part
  {
    assert s[..j][i..] == part;
  }

  /** The bytes from rune `j` to rune `k` spell exactly the code points from `j` to `k`. */
  lemma SliceSpells<B(!new), C(!new)>(u: Coding<B, C>, s: seq<B>, j: nat, k: nat)
    requires Lawful(u) && Valid(u, s) && j <= k <= Count(u, s)
    ensures Offset(u, s, j) <= Offset(u, s, k)
    ensures Spells(u, Between(RunesOf(u, s), j, k), s[Offset(u, s, j)..Offset(u, s, k)])
  {
    OffsetCuts(u, s, j);
    OffsetCuts(u, s, k);
    WriteFront(u, RunesOf(u, s), j, k);
    BetweenCuts(s, Offset(u, s, j), Offset(u, s, k), WriteAll(u, Between(RunesOf(u, s), j, k)));
    Rewrite(u, s);
    ScalarsBetween(u, RunesOf(u, s), j, k);
  }

  lemma ScalarsBetween<B, C>(u: Coding<B, C>, cs: List<C>, j: nat, k: nat)
    requires Scalars(u, cs) && j <= k
    ensures Scalars(u, Between(cs, j, k))
  {
    WriteCut(u, cs, j);
    WriteCut(u, Behind(cs, j), k - j);
  }

  lemma RuneSpells<B(!new), C(!new)>(u: Coding<B, C>, s: seq<B>, k: nat)
    requires Lawful(u) && Valid(u, s) && k < Count(u, s)
    ensures Spells(u, Between(RunesOf(u, s), k, k + 1), RuneAt(u, s, k))
  {
    SliceSpells(u, s, k, k + 1);
  }

  /** Written code points are those that are read. */
  lemma SpellsOne<B(!new), C(!new)>(u: Coding<B, C>, cs: List<C>, s: seq<B>, t: seq<B>)
    requires Lawful(u) && Spells(u, cs, s) && Valid(u, t)
    ensures s == t <==> cs == RunesOf(u, t)
  {
    ReadAll(u, cs);
    Rewrite(u, t);
  }

  lemma SliceIs<B(!new), C(!new)>(u: Coding<B, C>, s: seq<B>, i: nat, j: nat, t: seq<B>, cs: List<C>)
    requires Lawful(u) && i <= j <= |s| && Valid(u, t) && Spells(u, cs, s[i..j])
    ensures s[i..j] == t <==> cs == RunesOf(u, t)
  {
    SpellsOne(u, cs, s[i..j], t);
  }

  /** A match is the same code points. */
  lemma MatchIsCodes<B(!new), C(!new)>(u: Coding<B, C>, s: seq<B>, k: nat, needle: seq<B>, e: nat)
    requires Lawful(u) && Valid(u, s) && Valid(u, needle) && e == k + Count(u, needle)
    ensures Matches(u, s, k, needle) <==>
            e <= Count(u, s) && Between(RunesOf(u, s), k, e) == RunesOf(u, needle)
  {
    if e <= Count(u, s) {
      SliceSpells(u, s, k, e);
      SliceIs(u, s, Offset(u, s, k), Offset(u, s, e), needle, Between(RunesOf(u, s), k, e));
    }
  }

  // ----- the text functions; the end of `text` is where the terminator stands -----

  /** tya_string_len */
  method StringLen<B(!new), C(!new)>(u: Coding<B, C>, text: seq<B>) returns (n: nat)
    requires Lawful(u) && Valid(u, text)
    ensures n == Count(u, text)
  {
    n := 0;
    var i := 0;
    StandsAtEnds(u, text);
    while i < |text|
      invariant Stands(u, text, i, n) && i <= |text|
      decreases |text| - i
    {
      Step(u, text, i, n);
      i := i + u.width(text[i]);
      n := n + 1;
    }
    StandsLast(u, text, i, n);
  }

  /** tya_ascii_only_bytes */
  method AsciiOnly<B, C>(u: Coding<B, C>, text: seq<B>) returns (ascii: bool)
    ensures ascii <==> forall i :: 0 <= i < |text| ==> u.isAscii(text[i])
  {
    for i := 0 to |text|
      invariant forall j :: 0 <= j < i ==> u.isAscii(text[j])
    {
      if !u.isAscii(text[i]) {
        return false;
      }
    }
    return true;
  }

  /** In a text of single bytes, bytes and runes have the same numbers. */
  lemma {:induction false} AsciiOffsets<B(!new), C(!new)>(u: Coding<B, C>, s: seq<B>)
    requires Lawful(u) && Valid(u, s) && forall i :: 0 <= i < |s| ==> u.isAscii(s[i])
    ensures Count(u, s) == |s|
    ensures forall k :: 0 <= k <= |s| ==> Offset(u, s, k) == k && Index(u, s, k) == k
    ensures forall b :: b > |s| ==> Index(u, s, b) == |s|
    decreases |s|
  {
    if s != [] {
      assert WellRead(u, s);
      AsciiOffsets(u, s[1..]);
    }
  }

  /** The count and the numbering, when every byte is a rune. */
  method AsciiLen<B(!new), C(!new)>(u: Coding<B, C>, text: seq<B>) returns (ascii: bool, len: nat)
    requires Lawful(u) && Valid(u, text)
    ensures ascii ==> len == Count(u, text) == |text|
    ensures ascii ==> forall k :: 0 <= k <= |text| ==> Offset(u, text, k) == k && Index(u, text, k) == k
    ensures ascii ==> forall b :: b > |text| ==> Index(u, text, b) == |text|
  {
    len := 0;
    ascii := AsciiOnly(u, text);
    if ascii {
      AsciiOffsets(u, text);
      len := StringLen(u, text);
    }
  }

  /** tya_utf8_byte_offset_at; both ways through it give the offset of the rune. */
  method ByteOffsetAt<B(!new), C(!new)>(u: Coding<B, C>, text: seq<B>, rune: int) returns (r: int)
    requires Lawful(u) && Valid(u, text)
    ensures r == if 0 <= rune <= Count(u, text) then Offset(u, text, rune) else -1
    ensures 0 <= r ==> r <= |text| && 0 <= rune && text[..r] == WriteAll(u, Front(RunesOf(u, text), rune))
  {
    if 0 <= rune <= Count(u, text) {
      OffsetCuts(u, text, rune);
    }
    if rune < 0 {
      return -1;
    }
    var ascii, len := AsciiLen(u, text);
    if ascii {
      return if rune <= len then rune else -1;
    }
    var i, current := 0, 0;
    StandsAtEnds(u, text);
    while i < |text|
      invariant Stands(u, text, i, current) && current <= rune
      decreases |text| - i
    {
      if current == rune {
        return i;
      }
      Step(u, text, i, current);
      i := i + u.width(text[i]);
      current := current + 1;
    }
    StandsLast(u, text, i, current);
    return if current == rune then |text| else -1;
  }

  /** tya_utf8_rune_index_at_byte */
  method RuneIndexAtByte<B(!new), C(!new)>(u: Coding<B, C>, text: seq<B>, byte: int) returns (r: int)
    requires Lawful(u) && Valid(u, text)
    ensures r == if byte < 0 then -1 else Index(u, text, byte)
  {
    if byte < 0 {
      return -1;
    }
    var ascii, len := AsciiLen(u, text);
    if ascii {
      return if byte <= len then byte else len;
    }
    var i, current := 0, 0;
    StandsAtEnds(u, text);
    while i < |text| && i < byte
      invariant Stands(u, text, i, current)
      invariant i < byte || Index(u, text, byte) == current
      invariant current > 0 ==> Offset(u, text, current - 1) < byte
      decreases |text| - i
    {
      Step(u, text, i, current);
      i := i + u.width(text[i]);
      current := current + 1;
      if byte <= i {
        IndexFound(u, text, byte, current);
      }
    }
    StandsLast(u, text, i, current);
    if i < byte {
      IndexAll(u, text, byte);
    }
    return current;
  }

  /** The index is the only number of runes whose last begins before `b` and whose next does not. */
  lemma {:induction false} IndexFound<B, C>(u: Coding<B, C>, s: seq<B>, b: nat, k: nat)
    requires Valid(u, s) && 0 < k <= Count(u, s) && Offset(u, s, k - 1) < b <= Offset(u, s, k)
    ensures Index(u, s, b) == k
    decreases |s|
  {
    var w := W(u, s);
    if k == 1 {
      assert Offset(u, s[w..], 0) == 0;
      assert Index(u, s[w..], 0) == 0;
    } else {
      IndexFound(u, s[w..], b - w, k - 1);
    }
  }

  lemma {:induction false} IndexAll<B, C>(u: Coding<B, C>, s: seq<B>, b: nat)
    requires Valid(u, s) && b > |s|
    ensures Index(u, s, b) == Count(u, s)
    decreases |s|
  {
    if s != [] {
      IndexAll(u, s[W(u, s)..], b - W(u, s));
    }
  }

  /** Numbering runes and numbering bytes invert each other. */
  lemma OffsetAndIndexInvert<B(!new), C(!new)>(u: Coding<B, C>, s: seq<B>, k: nat, p: nat)
    requires Lawful(u) && Valid(u, s) && k <= Count(u, s) && p <= |s|
    ensures Index(u, s, Offset(u, s, k)) == k
    ensures Index(u, s, p) <= Count(u, s) && (Offset(u, s, Index(u, s, p)) == p <==> p == |s| || !u.isTail(s[p]))
  {
    IndexOfOffset(u, s, k);
    OffsetOfIndex(u, s, |s|);
    IndexBounds(u, s, p);
    if p < |s| {
      if !u.isTail(s[p]) {
        OffsetOfIndex(u, s, p);
      }
      if Offset(u, s, Index(u, s, p)) == p {
        Step(u, s, p, Index(u, s, p));
      }
    }
  }

  /** tya_utf8_char_at: the bytes of one rune. */
  method CharAt<B(!new), C(!new)>(u: Coding<B, C>, text: seq<B>, rune: int) returns (r: Option<seq<B>>)
    requires Lawful(u) && Valid(u, text)
    ensures r == if 0 <= rune < Count(u, text) then Some(RuneAt(u, text, rune)) else None
    ensures r.Some? ==> 0 <= rune && Spells(u, Between(RunesOf(u, text), rune, rune + 1), r.value)
  {
    if 0 <= rune < Count(u, text) {
      RuneSpells(u, text, rune);
    }
    if rune < 0 {
      return None;
    }
    var ascii, len := AsciiLen(u, text);
    if ascii {
      if rune >= len {
        return None;
      }
      assert text[rune..rune + 1] == [text[rune]];
      return Some([text[rune]]);
    }
    var i, current := 0, 0;
    StandsAtEnds(u, text);
    while i < |text|
      invariant Stands(u, text, i, current) && current <= rune
      decreases |text| - i
    {
      Step(u, text, i, current);
      if current == rune {
        return Some(text[i..i + u.width(text[i])]);
      }
      i := i + u.width(text[i]);
      current := current + 1;
    }
    StandsLast(u, text, i, current);
    return None;
  }

  // ----- searching and slicing -----

  /** The runes from `k` on spell `needle`: slicing there gives it back. */
  ghost predicate Matches<B, C>(u: Coding<B, C>, s: seq<B>, k: nat, needle: seq<B>) {
    Valid(u, s) && Valid(u, needle) && k + Count(u, needle) <= Count(u, s) &&
    Offset(u, s, k) <= Offset(u, s, k + Count(u, needle)) &&
    s[Offset(u, s, k)..Offset(u, s, k + Count(u, needle))] == needle
  }

  ghost predicate FoundAt<B>(s: seq<B>, p: nat, needle: seq<B>) {
    p + |needle| <= |s| && s[p..p + |needle|] == needle
  }

  lemma FirstRune<B(!new), C(!new)>(u: Coding<B, C>, s: seq<B>)
    requires Lawful(u) && Valid(u, s) && s != []
    ensures var w := W(u, s);
            1 <= w <= |s| && w == u.width(s[0]) && Valid(u, s[w..]) && Count(u, s) == 1 + Count(u, s[w..])
  {
    assert WellRead(u, s);
  }

  lemma FoundRest<B>(s: seq<B>, i: nat, needle: seq<B>, w: nat)
    requires FoundAt(s, i, needle) && 1 <= w <= |needle|
    ensures i < |s| && s[i] == needle[0] && FoundAt(s, i + w, needle[w..])
  {
    assert s[i..i + |needle|][0] == s[i];
    assert s[i + w..i + |needle|] == s[i..i + |needle|][w..];
  }

  lemma BehindFirst<B(!new), C(!new)>(u: Coding<B, C>, s: seq<B>, i: nat, k: nat, needle: seq<B>, w: nat, rest: seq<B>)
    requires Lawful(u) && Stands(u, s, i, k) && Valid(u, needle) && needle != [] && FoundAt(s, i, needle)
    requires w == W(u, needle) && rest == needle[w..]
    ensures 1 <= w && |needle| == w + |rest| && Valid(u, rest) && Count(u, needle) == 1 + Count(u, rest)
    ensures Stands(u, s, i + w, k + 1) && FoundAt(s, i + w, rest)
  {
    FirstRune(u, needle);
    FoundRest(s, i, needle, w);
    Step(u, s, i, k);
  }

  /** Behind bytes that spell a valid text, found where a rune begins, a rune begins again. */
  lemma {:induction false} StandsBehind<B(!new), C(!new)>(u: Coding<B, C>, s: seq<B>, i: nat, k: nat,
                                          needle: seq<B>, j: nat, n: nat)
    requires Lawful(u) && Stands(u, s, i, k) && Valid(u, needle) && FoundAt(s, i, needle)
    requires j == i + |needle| && n == k + Count(u, needle)
    ensures Stands(u, s, j, n)
    decreases |needle|
  {
    if needle != [] {
      BehindFirst(u, s, i, k, needle, W(u, needle), needle[W(u, needle)..]);
      StandsBehind(u, s, i + W(u, needle), k + 1, needle[W(u, needle)..], j, n);
    }
  }

  /** At the start of a rune, finding the bytes is matching the runes. */
  lemma FoundIsMatch<B(!new), C(!new)>(u: Coding<B, C>, s: seq<B>, k: nat, needle: seq<B>)
    requires Lawful(u) && Valid(u, s) && Valid(u, needle) && k <= Count(u, s)
    ensures FoundAt(s, Offset(u, s, k), needle) <==> Matches(u, s, k, needle)
  {
    if FoundAt(s, Offset(u, s, k), needle) {
      FoundMatches(u, s, k, needle);
    }
  }

  lemma FoundMatches<B(!new), C(!new)>(u: Coding<B, C>, s: seq<B>, k: nat, needle: seq<B>)
    requires Lawful(u) && Valid(u, s) && Valid(u, needle) && k <= Count(u, s) && FoundAt(s, Offset(u, s, k), needle)
    ensures Matches(u, s, k, needle)
  {
    StandsBehind(u, s, Offset(u, s, k), k, needle, Offset(u, s, k) + |needle|, k + Count(u, needle));
  }

  /** Bytes that spell a valid text are only ever found at the start of a rune. */
  lemma FoundAtRune<B(!new), C(!new)>(u: Coding<B, C>, s: seq<B>, p: nat, needle: seq<B>)
    requires Lawful(u) && Valid(u, s) && Valid(u, needle) && needle != [] && FoundAt(s, p, needle)
    ensures Index(u, s, p) <= Count(u, s) && Offset(u, s, Index(u, s, p)) == p && Matches(u, s, Index(u, s, p), needle)
  {
    assert WellRead(u, needle);
    assert s[p] == needle[0];
    OffsetOfIndex(u, s, p);
    FoundIsMatch(u, s, Index(u, s, p), needle);
  }

  /** strstr from byte `from` on. */
  method Search<B(==)>(text: seq<B>, from: nat, needle: seq<B>) returns (p: Option<nat>)
    requires from <= |text|
    ensures p.Some? ==> from <= p.value && FoundAt(text, p.value, needle) && forall q ::
              from <= q < p.value ==> !FoundAt(text, q, needle)
    ensures p.None? ==> forall q :: from <= q ==> !FoundAt(text, q, needle)
  {
    var i := from;
    while i + |needle| <= |text|
      invariant from <= i <= |text| + 1
      invariant forall q :: from <= q < i ==> !FoundAt(text, q, needle)
    {
      if text[i..i + |needle|] == needle {
        return Some(i);
      }
      i := i + 1;
    }
    return None;
  }

  lemma {:induction false} OffsetMonotone<B, C>(u: Coding<B, C>, s: seq<B>, j: nat, k: nat)
    requires Valid(u, s) && j <= k <= Count(u, s)
    ensures Offset(u, s, j) <= Offset(u, s, k) && (j < k ==> Offset(u, s, j) < Offset(u, s, k))
    decreases k
  {
    if j < k {
      OffsetMonotone(u, s, j, k - 1);
      OffsetRemains(u, s, k - 1);
      OffsetNext(u, s, k - 1);
    }
  }

  /** The first rune from `start` on at which the needle matches, or -1. */
  ghost predicate FirstMatch<B, C>(u: Coding<B, C>, s: seq<B>, start: nat, needle: seq<B>, r: int) {
    (forall k: nat :: start <= k && (r == -1 || k < r) ==> !Matches(u, s, k, needle)) &&
    (r != -1 ==> start <= r && Matches(u, s, r, needle))
  }

  /** tya_string_index_of; None is the panic on a negative start. */
  method IndexOf<B(!new, ==), C(!new)>(u: Coding<B, C>, text: seq<B>, needle: seq<B>, start: int)
    returns (r: Option<int>)
    requires Lawful(u) && Valid(u, text) && Valid(u, needle)
    ensures r.None? <==> start < 0
    ensures r.Some? ==> FirstMatch(u, text, start, needle, r.value)
  {
    if start < 0 {
      return None;
    }
    var from := ByteOffsetAt(u, text, start);
    if from < 0 {
      return Some(-1);
    }
    var found := Search(text, from, needle);
    if found.None? {
      forall k: nat | start <= k ensures !Matches(u, text, k, needle) {
        NoMatch(u, text, start, k, needle);
      }
      return Some(-1);
    }
    var k := RuneIndexAtByte(u, text, found.value);
    FoundFirst(u, text, start, needle, found.value);
    return Some(k);
  }

  lemma NoMatch<B(!new), C(!new)>(u: Coding<B, C>, s: seq<B>, start: nat, k: nat, needle: seq<B>)
    requires Lawful(u) && Valid(u, s) && Valid(u, needle) && start <= k && start <= Count(u, s)
    ensures k <= Count(u, s) && Matches(u, s, k, needle) ==>
              Offset(u, s, start) <= Offset(u, s, k) && FoundAt(s, Offset(u, s, k), needle)
  {
    if k <= Count(u, s) {
      OffsetMonotone(u, s, start, k);
      FoundIsMatch(u, s, k, needle);
    }
  }

  lemma FoundFirst<B(!new), C(!new)>(u: Coding<B, C>, s: seq<B>, start: nat, needle: seq<B>, p: nat)
    requires Lawful(u) && Valid(u, s) && Valid(u, needle) && start <= Count(u, s)
    requires Offset(u, s, start) <= p && FoundAt(s, p, needle)
    requires forall q :: Offset(u, s, start) <= q < p ==> !FoundAt(s, q, needle)
    ensures FirstMatch(u, s, start, needle, Index(u, s, p))
  {
    if needle == [] {
      assert FoundAt(s, Offset(u, s, start), needle);
      IndexOfOffset(u, s, start);
      FoundIsMatch(u, s, start, needle);
    } else {
      FoundAtRune(u, s, p, needle);
      var r := Index(u, s, p);
      if r < start {
        OffsetMonotone(u, s, r, start);
      }
      forall k: nat | start <= k < r ensures !Matches(u, s, k, needle) {
        OffsetMonotone(u, s, k, r);
        NoMatch(u, s, start, k, needle);
      }
    }
  }

  /** tya_string_slice; None is the panic on indexes that are negative, crossed or too large. */
  method Slice<B(!new), C(!new)>(u: Coding<B, C>, text: seq<B>, s: int, e: int) returns (r: Option<seq<B>>)
    requires Lawful(u) && Valid(u, text)
    ensures r.Some? <==> 0 <= s <= e <= Count(u, text)
    ensures r.Some? ==>
              Offset(u, text, s) <= Offset(u, text, e) && r.value == text[Offset(u, text, s)..Offset(u, text, e)]
    ensures r.Some? ==> Spells(u, Between(RunesOf(u, text), s, e), r.value)
  {
    if s < 0 || e < 0 || s > e {
      return None;
    }
    var start := ByteOffsetAt(u, text, s);
    var end := ByteOffsetAt(u, text, e);
    if start < 0 || end < 0 {
      return None;
    }
    SliceSpells(u, text, s, e);
    return Some(text[start..end]);
  }

  /** Searching and then slicing as many runes as the needle has gives the needle back. */
  method FindAndSlice<B(!new, ==), C(!new)>(u: Coding<B, C>, text: seq<B>, needle: seq<B>, start: nat)
    returns (k: int, part: Option<seq<B>>)
    requires Lawful(u) && Valid(u, text) && Valid(u, needle)
    ensures FirstMatch(u, text, start, needle, k)
    ensures k >= 0 ==> part == Some(needle)
  {
    var found := IndexOf(u, text, needle, start);
    k, part := found.value, None;
    if k >= 0 {
      var n := StringLen(u, needle);
      part := Slice(u, text, k, k + n);
    }
  }
}
