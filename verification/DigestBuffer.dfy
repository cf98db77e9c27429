/**
 The buffering and padding around a block hash, for any block transform: sections
 5.1.1 and 5.1.2 of FIPS 180-4, sections 3.1 and 3.2 of RFC 1321.
 */
module DigestBuffer {
  import opened Arith
  import opened Buffers

  type Byte = x: int | 0 <= x < 256

  // ----- a message in blocks -----

  /** The state after every whole block of `m`, and the bytes behind the last one. */
  ghost function Blocks<S>(step: (S, seq<Byte>) -> S, n: nat, s: S, m: seq<Byte>): S
    requires n > 0
    decreases |m|
  {
    if |m| < n then s else Blocks(step, n, step(s, m[..n]), m[n..])
  }

  ghost function Rest(n: nat, m: seq<Byte>): seq<Byte>
    requires n > 0
    decreases |m|
  {
    if |m| < n then m else Rest(n, m[n..])
  }

  lemma {:induction false} RestLength(n: nat, m: seq<Byte>)
    requires n > 0
    ensures |Rest(n, m)| == |m| % n
    decreases |m|
  {
    if |m| < n {
      DivUnique(|m|, 0, |m|, n);
    } else {
      RestLength(n, m[n..]);
      AddWhole(|m| - n, n);
    }
  }

  /** Feeding a message in two pieces is feeding it whole. */
  lemma {:induction false} BlocksAppend<S>(step: (S, seq<Byte>) -> S, n: nat, s: S, a: seq<Byte>, b: seq<Byte>)
    requires n > 0
    ensures Blocks(step, n, s, a + b) == Blocks(step, n, Blocks(step, n, s, a), Rest(n, a) + b)
    ensures Rest(n, a + b) == Rest(n, Rest(n, a) + b)
    decreases |a|
  {
    if |a| >= n {
      BlocksAppend(step, n, step(s, a[..n]), a[n..], b);
      assert (a + b)[..n] == a[..n] && (a + b)[n..] == a[n..] + b;
    }
  }

  /** The state is the transform applied once to each block, in order. */
  lemma BlocksFold<S>(step: (S, seq<Byte>) -> S, n: nat, s: S, a: seq<Byte>, b: seq<Byte>)
    requires n > 0 && |a| % n == 0
    ensures |b| < n ==> Blocks(step, n, s, a + b) == Blocks(step, n, s, a)
    ensures |b| == n ==> Blocks(step, n, s, a + b) == step(Blocks(step, n, s, a), b)
    ensures Blocks(step, n, s, []) == s
  {
    BlocksAppend(step, n, s, a, b);
    RestLength(n, a);
    assert Rest(n, a) + b == b;
    if |b| == n {
      var t := Blocks(step, n, s, a);
      assert b[..n] == b && b[n..] == [];
      assert Blocks(step, n, step(t, b), []) == step(t, b);
    }
  }

  /** The update functions: top the buffer up, take whole blocks from the data, keep the rest. */
  method Absorb<S>(step: (S, seq<Byte>) -> S, buffer: array<Byte>, used: nat, s: S, data: seq<Byte>) returns (s': S)
    requires used < buffer.Length
    modifies buffer
    ensures s' == Blocks(step, buffer.Length, s, old(buffer[..used]) + data)
    ensures |Rest(buffer.Length, old(buffer[..used]) + data)| < buffer.Length
    ensures buffer[..|Rest(buffer.Length, old(buffer[..used]) + data)|] ==
            Rest(buffer.Length, old(buffer[..used]) + data)
  {
    var n := buffer.Length;
    var rest, at := data, used;
    s' := s;
    ghost var whole := buffer[..used] + data;
    RestLength(n, whole);
    var need := n - used;
    if |rest| >= need {
      at := Put(buffer, at, rest[..need]);
      assert buffer[..] == buffer[..at] == whole[..n];
      s' := step(s', buffer[..]);
      rest := rest[need..];
      assert rest == whole[n..];
      while |rest| >= n
        invariant Blocks(step, n, s', rest) == Blocks(step, n, s, whole) && Rest(n, rest) == Rest(n, whole)
        decreases |rest|
      {
        s' := step(s', rest[..n]);
        rest := rest[n..];
      }
      at := 0;
    }
    at := Put(buffer, at, rest);
  }

  // ----- padding -----

  function Zeros(k: nat): (z: seq<Byte>)
    ensures |z| == k
  {
    seq(k, _ => 0)
  }

  /** How many zeros bring `k` bytes, the 0x80 byte and a length field to a whole number of blocks. */
  function ZeroCount(n: nat, field: nat, k: nat): nat
    requires n > 0
  {
    -(k + 1 + field) % n
  }

  ghost function Padded(n: nat, m: seq<Byte>, length: seq<Byte>): seq<Byte>
    requires n > 0
  {
    m + [0x80] + Zeros(ZeroCount(n, |length|, |m|)) + length
  }

  /** The padding is the shortest that ends on a block. */
  lemma PaddedIsWhole(n: nat, m: seq<Byte>, length: seq<Byte>)
    requires n > 0
    ensures |Padded(n, m, length)| % n == 0 && |Padded(n, m, length)| < |m| + 1 + |length| + n
  {
    var x := -(|m| + 1 + |length|);
    assert x == (x / n) * n + x % n;
    assert |Padded(n, m, length)| == -(x / n) * n;
    DivUnique(|Padded(n, m, length)|, -(x / n), 0, n);
  }

  /** Byte by byte: the message, 0x80, zeros, the length. */
  lemma PaddedBytes(n: nat, m: seq<Byte>, length: seq<Byte>)
    requires n > 0
    ensures var p := Padded(n, m, length);
            var end := |p| - |length|;
            |m| < end && p[..|m|] == m && p[|m|] == 0x80 && p[end..] == length &&
            forall i :: |m| < i < end ==> p[i] == 0
  {
  }

  /** Only the bytes behind the last whole block matter for the padding. */
  lemma ZeroCountOfRest(n: nat, field: nat, k: nat)
    requires n > field
    ensures ZeroCount(n, field, k) == ZeroCount(n, field, k % n)
    ensures var u: int := k % n + 1;
              ZeroCount(n, field, k) as int == if u > n - field then n - u + (n - field) else n - field - u
  {
    var q: int, u: int := k / n, k % n;
    var z: int := if u + 1 > n - field then n - (u + 1) + (n - field) else n - field - (u + 1);
    var e := if u + 1 > n - field then -2 else -1;
    assert k == q * n + u;
    assert -(u + 1 + field) == e * n + z by {
      assert -2 * n == 0 - n - n;
    }
    DivUnique(-(u + 1 + field), e, z, n);
    assert (e - q) * n == e * n - q * n;
    DivUnique(-(k + 1 + field), e - q, z, n);
  }

  /** The final functions: the 0x80 byte, zeros, another block if the length no longer fits, the length. */
  method Finish<S>(step: (S, seq<Byte>) -> S, buffer: array<Byte>, used0: nat, s: S, length: seq<Byte>) returns (s': S)
    requires used0 < buffer.Length && |length| < buffer.Length
    modifies buffer
    ensures s' == Blocks(step, buffer.Length, s, Padded(buffer.Length, old(buffer[..used0]), length))
  {
    var n := buffer.Length;
    var room := n - |length|;
    ghost var p := buffer[..used0];
    ZeroCountOfRest(n, |length|, used0);
    DivUnique(used0, 0, used0, n);
    s' := s;
    var used := Put(buffer, used0, [0x80]);
    ghost var first: seq<Byte> := [];
    if used > room {
      used := Put(buffer, used, Zeros(n - used));
      first := p + [0x80] + Zeros(n - used0 - 1);
      assert buffer[..] == buffer[..used] == first;
      s' := step(s', buffer[..]);
      used := 0;
    }
    ghost var done := buffer[..used];
    used := Put(buffer, used, Zeros(room - used));
    used := Put(buffer, used, length);
    ghost var last := done + Zeros(room - |done|) + length;
    assert buffer[..] == buffer[..used] == last;
    PaddedInBlocks(n, p, length, first, done);
    OneOrTwoBlocks(step, n, s, first, last);
    s' := step(s', buffer[..]);
  }

  lemma PaddedInBlocks(n: nat, p: seq<Byte>, length: seq<Byte>, first: seq<Byte>, done: seq<Byte>)
    requires |p| < n && |length| < n
    requires var fits := |p| + 1 <= n - |length|;
             if fits then first == [] && done == p + [0x80] else first == p + [0x80] + Zeros(n - |p| - 1) && done == []
    ensures first + (done + Zeros(n - |length| - |done|) + length) == Padded(n, p, length)
  {
    ZeroCountOfRest(n, |length|, |p|);
    DivUnique(|p|, 0, |p|, n);
    if |p| + 1 > n - |length| {
      assert Zeros(n - |p| - 1) + Zeros(n - |length|) == Zeros(ZeroCount(n, |length|, |p|));
    }
  }

  lemma OneOrTwoBlocks<S>(step: (S, seq<Byte>) -> S, n: nat, s: S, first: seq<Byte>, last: seq<Byte>)
    requires n > 0 && |last| == n && (first == [] || |first| == n)
    ensures Blocks(step, n, s, first + last) == step(if first == [] then s else step(s, first), last)
  {
    var m := first + last;
    assert last[..n] == last && last[n..] == [];
    var s1 := if first == [] then s else step(s, first);
    assert Blocks(step, n, s1, last) == Blocks(step, n, step(s1, last), []) == step(s1, last);
    if first == [] {
      assert m == last;
    } else {
      assert m[..n] == first && m[n..] == last;
    }
  }

  ghost function Pad(zeros: nat, length: seq<Byte>): seq<Byte> {
    [0x80] + Zeros(zeros) + length
  }

  lemma PaddedIs(n: nat, m: seq<Byte>, length: seq<Byte>)
    requires n > 0
    ensures Padded(n, m, length) == m + Pad(ZeroCount(n, |length|, |m|), length)
  {
  }

  /** Padding what is left over pads the whole message. */
  lemma PaddedRest<S>(step: (S, seq<Byte>) -> S, n: nat, s: S, m: seq<Byte>, length: seq<Byte>)
    requires n > |length|
    ensures Blocks(step, n, Blocks(step, n, s, m), Padded(n, Rest(n, m), length)) ==
            Blocks(step, n, s, Padded(n, m, length))
  {
    RestLength(n, m);
    ZeroCountOfRest(n, |length|, |m|);
    var pad := Pad(ZeroCount(n, |length|, |m|), length);
    PaddedIs(n, m, length);
    PaddedIs(n, Rest(n, m), length);
    BlocksAppend(step, n, s, m, pad);
  }

  // ----- the length field -----

  /** x >> 8i */
  function Shift(x: nat, i: nat): nat {
    if i == 0 then x else Shift(x, i - 1) / 256
  }

  function LittleEndian(x: nat, k: nat): (b: seq<Byte>)
    ensures |b| == k
  {
    seq(k, i requires 0 <= i < k => Shift(x, i) % 256)
  }

  function BigEndian(x: nat, k: nat): (b: seq<Byte>)
    ensures |b| == k
  {
    seq(k, i requires 0 <= i < k => Shift(x, k - 1 - i) % 256)
  }

  /** The number some bytes spell, the least significant first. */
  ghost function Value(b: seq<Byte>): nat {
    if b == [] then 0 else b[0] + 256 * Value(b[1..])
  }

  ghost function Reversed<T>(b: seq<T>): seq<T> {
    seq(|b|, i requires 0 <= i < |b| => b[|b| - 1 - i])
  }

  ghost function Power256(k: nat): nat {
    if k == 0 then 1 else 256 * Power256(k - 1)
  }

  lemma {:induction false} ShiftDown(x: nat, i: nat)
    ensures Shift(x, i + 1) == Shift(x / 256, i)
  {
    if i > 0 {
      ShiftDown(x, i - 1);
    }
  }

  /** The length bytes spell the length as long as it fits. */
  lemma {:induction false} LittleEndianValue(x: nat, k: nat)
    requires x < Power256(k)
    ensures Value(LittleEndian(x, k)) == x
  {
    if k > 0 {
      LittleEndianValue(x / 256, k - 1);
      forall i | 0 <= i < k - 1 ensures LittleEndian(x, k)[1..][i] == LittleEndian(x / 256, k - 1)[i] {
        ShiftDown(x, i);
      }
      assert LittleEndian(x, k)[1..] == LittleEndian(x / 256, k - 1);
    }
  }

  lemma BigEndianValue(x: nat, k: nat)
    requires x < Power256(k)
    ensures Value(Reversed(BigEndian(x, k))) == x
  {
    assert Reversed(BigEndian(x, k)) == LittleEndian(x, k);
    LittleEndianValue(x, k);
  }

  // ----- the bit counters -----

  /** The bit count, kept modulo a word, still tells how many bytes are in the buffer. */
  lemma UsedFromCount(m: nat)
    ensures (8 * m % WORDS) / 8 % 64 == m % 64
  {
    var q, c := 8 * m / WORDS, 8 * m % WORDS;
    DivUnique(c, m - q * 0x2000_0000_0000_0000, 0, 8);
    DivUnique(c / 8, m / 64 - q * 0x80_0000_0000_0000, m % 64, 64);
  }

  lemma CountAdds(m: nat, len: nat)
    ensures (8 * m % WORDS + len * 8 % WORDS) % WORDS == 8 * (m + len) % WORDS
  {
    var a, b := 8 * m / WORDS, len * 8 / WORDS;
    var x := 8 * m % WORDS + len * 8 % WORDS;
    DivUnique(8 * (m + len), a + b + x / WORDS, x % WORDS, WORDS);
  }

  /** The two words of the 128-bit count. */
  ghost predicate Counts(hi: nat, lo: nat, m: nat) {
    hi < WORDS && lo < WORDS && hi * WORDS + lo == 8 * m % (WORDS * WORDS)
  }

  lemma UsedFromLow(hi: nat, lo: nat, m: nat)
    requires Counts(hi, lo, m)
    ensures lo / 8 % 128 == m % 128
  {
    var q := 8 * m / (WORDS * WORDS);
    DivUnique(lo, m - q * 0x2000_0000_0000_0000_0000_0000_0000_0000 - hi * 0x2000_0000_0000_0000, 0, 8);
    DivUnique(lo / 8, m / 128 - q * 0x40_0000_0000_0000_0000_0000_0000_0000 - hi * 0x40_0000_0000_0000, m % 128, 128);
  }

  /** Carrying into the high word when the low one wrapped, and adding the bits shifted out, is exact. */
  lemma CarryIsExact(hi: nat, lo: nat, m: nat, len: nat)
    requires Counts(hi, lo, m) && len < WORDS
    ensures var add := len * 8 % WORDS;
            var lo' := (lo + add) % WORDS;
            var hi' := if lo' < lo then (hi + 1) % WORDS else hi;
            Counts((hi' + len / 0x2000_0000_0000_0000) % WORDS, lo', m + len)
  {
    var add := len * 8 % WORDS;
    var top := len / 0x2000_0000_0000_0000;
    DivUnique(len * 8, top, 8 * (len % 0x2000_0000_0000_0000), WORDS);
    var lo' := (lo + add) % WORDS;
    var carry := if lo' < lo then 1 else 0;
    ModAdd(lo, add, WORDS);
    DivUnique(lo, 0, lo, WORDS);
    assert lo + add == carry * WORDS + lo';
    var h1 := (hi + carry) % WORDS;
    DivUnique(hi, 0, hi, WORDS);
    var k1 := (hi + carry) / WORDS;
    var h2 := (h1 + top) % WORDS;
    var k2 := (h1 + top) / WORDS;
    assert hi + carry + top == (k1 + k2) * WORDS + h2;
    var q := 8 * m / (WORDS * WORDS);
    DivUnique(8 * (m + len), q + k1 + k2, h2 * WORDS + lo', WORDS * WORDS);
  }

  /** The count after `len` more bytes. */
  method AddBits(hi: nat, lo: nat, ghost m: nat, len: nat) returns (hi': nat, lo': nat)
    requires Counts(hi, lo, m) && len < WORDS
    ensures Counts(hi', lo', m + len)
  {
    CarryIsExact(hi, lo, m, len);
    var add := len * 8 % WORDS;
    hi', lo' := hi, (lo + add) % WORDS;
    if lo' < lo {
      hi' := (hi' + 1) % WORDS;
    }
    hi' := (hi' + len / 0x2000_0000_0000_0000) % WORDS;
  }

  // ----- the contexts -----

  /** MD5, SHA-1 and SHA-256: blocks of 64 bytes and a 64-bit count. */
  class Digest64<S> {
    const step: (S, seq<Byte>) -> S
    const init: S
    const little: bool
    const buffer: array<Byte>
    var state: S
    var count: nat
    ghost var message: seq<Byte>

    ghost predicate Valid()
      reads this, buffer
    {
      buffer.Length == 64 && count == 8 * |message| % WORDS &&
      state == Blocks(step, 64, init, message) &&
      |Rest(64, message)| < 64 && buffer[..|Rest(64, message)|] == Rest(64, message)
    }

    constructor (step: (S, seq<Byte>) -> S, init: S, little: bool)
      ensures Valid() && fresh(buffer) && message == [] && this.step == step && this.init == init &&
              this.little == little
    {
      this.step, this.init, this.little := step, init, little;
      state, count, message := init, 0, [];
      buffer := new Byte[64](_ => 0);
    }

    method Update(data: seq<Byte>)
      requires Valid() && |data| < WORDS
      modifies this, buffer
      ensures Valid() && message == old(message) + data
    {
      UsedFromCount(|message|);
      RestLength(64, message);
      CountAdds(|message|, |data|);
      BlocksAppend(step, 64, init, message, data);
      var used := count / 8 % 64;
      count := (count + |data| * 8 % WORDS) % WORDS;
      state := Absorb(step, buffer, used, state, data);
      message := message + data;
    }

    /** The final state: the transform folded over the padded message. */
    method Final() returns (r: S)
      requires Valid()
      modifies buffer
      ensures var bits := 8 * |message| % WORDS;
              var length := if little then LittleEndian(bits, 8) else BigEndian(bits, 8);
              r == Blocks(step, 64, init, Padded(64, message, length))
    {
      UsedFromCount(|message|);
      RestLength(64, message);
      var length := if little then LittleEndian(count, 8) else BigEndian(count, 8);
      PaddedRest(step, 64, init, message, length);
      r := Finish(step, buffer, count / 8 % 64, state, length);
    }
  }

  /** SHA-512 and SHA-384: blocks of 128 bytes and a 128-bit count in two words. */
  class Digest128<S> {
    const step: (S, seq<Byte>) -> S
    const init: S
    const buffer: array<Byte>
    var state: S
    var hi: nat
    var lo: nat
    ghost var message: seq<Byte>

    ghost predicate Valid()
      reads this, buffer
    {
      buffer.Length == 128 && Counts(hi, lo, |message|) &&
      state == Blocks(step, 128, init, message) &&
      |Rest(128, message)| < 128 && buffer[..|Rest(128, message)|] == Rest(128, message)
    }

    constructor (step: (S, seq<Byte>) -> S, init: S)
      ensures Valid() && fresh(buffer) && message == [] && this.step == step && this.init == init
    {
      this.step, this.init := step, init;
      state, hi, lo, message := init, 0, 0, [];
      buffer := new Byte[128](_ => 0);
    }

    method Update(data: seq<Byte>)
      requires Valid() && |data| < WORDS
      modifies this, buffer
      ensures Valid() && message == old(message) + data
    {
      var used := lo / 8 % 128;
      var h, l := AddBits(hi, lo, |message|, |data|);
      UsedFromLow(hi, lo, |message|);
      RestLength(128, message);
      BlocksAppend(step, 128, init, message, data);
      hi, lo := h, l;
      state := Absorb(step, buffer, used, state, data);
      message := message + data;
    }

    method Final() returns (r: S)
      requires Valid()
      modifies buffer
      ensures var bits := 8 * |message| % (WORDS * WORDS);
              var length := BigEndian(bits / WORDS, 8) + BigEndian(bits % WORDS, 8);
              r == Blocks(step, 128, init, Padded(128, message, length))
    {
      UsedFromLow(hi, lo, |message|);
      RestLength(128, message);
      DivUnique(8 * |message| % (WORDS * WORDS), hi, lo, WORDS);
      var length := BigEndian(hi, 8) + BigEndian(lo, 8);
      PaddedRest(step, 128, init, message, length);
      r := Finish(step, buffer, lo / 8 % 128, state, length);
    }
  }
}
