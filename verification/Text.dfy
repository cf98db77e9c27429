/**
 Splitting, joining and replacing, byte by byte.  Texts carry no terminator here
 except in the buffers the functions fill.
 */
module Text {
  import opened Basics
  import opened Buffers
  import opened Arith
  import opened Runes
  import Utf8

  /** The first place where `s` occurs in `t`. */
  ghost predicate FirstAt<B>(t: seq<B>, s: seq<B>, p: nat) {
    FoundAt(t, p, s) && forall q :: 0 <= q < p ==> !FoundAt(t, q, s)
  }

  ghost predicate Contains<B>(t: seq<B>, s: seq<B>) {
    exists p :: FoundAt(t, p, s)
  }

  /** `from` is at or before the first occurrence, so the search may start there. */
  lemma FirstExists<B>(t: seq<B>, s: seq<B>, from: nat, p: nat)
    requires FoundAt(t, p, s) && from <= p && forall q :: 0 <= q < from ==> !FoundAt(t, q, s)
    ensures exists f :: FirstAt(t, s, f)
    decreases p - from
  {
    if FoundAt(t, from, s) {
      assert FirstAt(t, s, from);
    } else {
      FirstExists(t, s, from + 1, p);
    }
  }

  ghost function First<B>(t: seq<B>, s: seq<B>): (p: nat)
    requires Contains(t, s)
    ensures FirstAt(t, s, p)
  {
    var q :| FoundAt(t, q, s);
    FirstExists(t, s, 0, q);
    var f :| FirstAt(t, s, f);
    f
  }

  lemma FirstIs<B>(t: seq<B>, s: seq<B>, p: nat)
    requires FirstAt(t, s, p)
    ensures Contains(t, s) && First(t, s) == p
  {
    assert FirstAt(t, s, First(t, s));
  }

  /** Cut at the first occurrence, then go on behind it. */
  ghost function Parts<B>(t: seq<B>, s: seq<B>): List<seq<B>>
    requires s != []
    decreases |t|
  {
    if Contains(t, s) then
      var p := First(t, s);
      Cons(t[..p], Parts(t[p + |s|..], s))
    else Cons(t, End)
  }

  lemma PartsUnfold<B>(t: seq<B>, s: seq<B>, p: nat, a: seq<B>, r: seq<B>)
    requires s != [] && FirstAt(t, s, p) && a == t[..p] && r == t[p + |s|..]
    ensures Parts(t, s) == Cons(a, Parts(r, s))
  {
    FirstIs(t, s, p);
  }

  ghost function Join<B>(ps: List<seq<B>>, s: seq<B>): seq<B> {
    if ps.End? then [] else if ps.tail.End? then ps.head else ps.head + s + Join(ps.tail, s)
  }

  // ----- what splitting promises -----

  lemma {:induction false} JoinOfParts<B>(t: seq<B>, s: seq<B>)
    requires s != []
    ensures Join(Parts(t, s), s) == t
    decreases |t|
  {
    if Contains(t, s) {
      var p := First(t, s);
      JoinOfParts(t[p + |s|..], s);
      assert t == t[..p] + s + t[p + |s|..];
    }
  }

  lemma BeforeFirst<B>(t: seq<B>, s: seq<B>, p: nat)
    requires s != [] && FirstAt(t, s, p)
    ensures !Contains(t[..p], s)
  {
    forall q: nat ensures !FoundAt(t[..p], q, s) {
      if q + |s| <= p {
        assert t[..p][q..q + |s|] == t[q..q + |s|];
        assert !FoundAt(t, q, s);
      }
    }
  }

  lemma {:induction false} PartsAreFree<B>(t: seq<B>, s: seq<B>, part: seq<B>)
    requires s != [] && part in Members(Parts(t, s))
    ensures !Contains(part, s)
    decreases |t|
  {
    if Contains(t, s) {
      var p := First(t, s);
      if part == t[..p] {
        BeforeFirst(t, s, p);
      } else {
        PartsAreFree(t[p + |s|..], s, part);
      }
    }
  }

  /** Each part's end is the first place where the separator occurs once it follows the part. */
  ghost predicate Separable<B>(ps: List<seq<B>>, s: seq<B>) {
    ps.Cons? &&
    if ps.tail.End? then !Contains(ps.head, s) else FirstAt(ps.head + s, s, |ps.head|) && Separable(ps.tail, s)
  }

  /** Occurrences that begin inside the part do not depend on what follows the separator. */
  lemma FirstBehind<B>(a: seq<B>, s: seq<B>, r: seq<B>)
    ensures FirstAt(a + s, s, |a|) <==> FirstAt(a + s + r, s, |a|)
  {
    forall q | 0 <= q <= |a| ensures FoundAt(a + s, q, s) <==> FoundAt(a + s + r, q, s) {
      assert (a + s)[q..q + |s|] == (a + s + r)[q..q + |s|];
    }
  }

  /** Splitting gives the joined parts back exactly when they are separable. */
  lemma {:induction false} PartsOfJoin<B>(ps: List<seq<B>>, s: seq<B>)
    requires s != []
    ensures Parts(Join(ps, s), s) == ps <==> Separable(ps, s)
  {
    if ps.Cons? && ps.tail.Cons? {
      var r := Join(ps.tail, s);
      var t := ps.head + s + r;
      PartsOfJoin(ps.tail, s);
      FirstBehind(ps.head, s, r);
      assert t[..|ps.head|] == ps.head && t[|ps.head| + |s|..] == r;
      if FirstAt(t, s, |ps.head|) {
        FirstIs(t, s, |ps.head|);
      }
    }
  }

  // ----- split -----

  lemma FoundAgrees<B>(text: seq<B>, i: nat, sep: seq<B>, j: nat)
    requires j < |sep|
    ensures FoundAt(text, i, sep) ==> i + j < |text| && text[i + j] == sep[j]
  {
    if FoundAt(text, i, sep) {
      assert text[i..i + |sep|][j] == sep[j];
    }
  }

  /** Whether the separator stands at `i`: strncmp over its length, where the text's end never agrees. */
  method StandsAt<B(==)>(text: seq<B>, i: nat, sep: seq<B>) returns (yes: bool)
    requires i <= |text|
    ensures yes <==> FoundAt(text, i, sep)
  {
    for j := 0 to |sep|
      invariant i + j <= |text| && forall k :: 0 <= k < j ==> text[i + k] == sep[k]
    {
      if i + j == |text| || text[i + j] != sep[j] {
        FoundAgrees(text, i, sep, j);
        return false;
      }
    }
    assert text[i..i + |sep|] == sep;
    return true;
  }

  /** The scan behind the last cut: nothing found up to `i`. */
  ghost predicate Scanned<B>(text: seq<B>, start: nat, i: nat, sep: seq<B>) {
    start <= i <= |text| && forall q :: start <= q < i ==> !FoundAt(text, q, sep)
  }

  lemma ShiftFound<B>(text: seq<B>, start: nat, q: nat, sep: seq<B>)
    requires start <= |text|
    ensures FoundAt(text[start..], q, sep) <==> FoundAt(text, start + q, sep)
  {
    if start + q + |sep| <= |text| {
      assert text[start..][q..q + |sep|] == text[start + q..start + q + |sep|];
    }
  }

  lemma FirstHere<B>(text: seq<B>, start: nat, i: nat, sep: seq<B>)
    requires Scanned(text, start, i, sep) && FoundAt(text, i, sep)
    ensures FirstAt(text[start..], sep, i - start)
  {
    ShiftFound(text, start, i - start, sep);
    forall q: nat | q < i - start ensures !FoundAt(text[start..], q, sep) {
      ShiftFound(text, start, q, sep);
    }
  }

  lemma SliceOfTail<B>(s: seq<B>, a: nat, n: nat)
    requires a + n <= |s|
    ensures s[a..][..n] == s[a..a + n]
    ensures s[a..][n..] == s[a + n..]
  {
  }

  lemma CutHere<B>(text: seq<B>, start: nat, i: nat, sep: seq<B>, t: seq<B>, a: seq<B>, r: seq<B>)
    requires sep != [] && Scanned(text, start, i, sep) && FoundAt(text, i, sep)
    requires t == text[start..] && a == text[start..i] && r == text[i + |sep|..]
    ensures FirstAt(t, sep, i - start) && a == t[..i - start] && r == t[i - start + |sep|..]
  {
    FirstHere(text, start, i, sep);
    SliceOfTail(text, start, i - start);
    SliceOfTail(text, start, i - start + |sep|);
  }

  lemma NoMoreCuts<B>(text: seq<B>, start: nat, sep: seq<B>, t: seq<B>)
    requires sep != [] && Scanned(text, start, |text|, sep) && t == text[start..]
    ensures Parts(t, sep) == Cons(t, End) && t == text[start..|text|]
  {
    forall q: nat ensures !FoundAt(t, q, sep) {
      ShiftFound(text, start, q, sep);
    }
  }

  lemma AppendLast<T>(l: List<T>, x: T)
    ensures Append(l, Cons(x, End)) == Snoc(l, x)
  {
    AppendSnoc(l, x, End);
    AppendEnd(Snoc(l, x));
  }

  function Chars<B>(text: seq<B>): List<seq<B>> {
    if text == [] then End else Cons(text[..1], Chars(text[1..]))
  }

  // ----- an empty separator -----

  /** The runes of a text, each as its bytes. */
  ghost function RunePieces<B, C>(u: Coding<B, C>, s: seq<B>): List<seq<B>>
    requires Valid(u, s)
    decreases |s|
  {
    if s == [] then End else Cons(s[..W(u, s)], RunePieces(u, s[W(u, s)..]))
  }

  ghost predicate NoTails<B, C>(u: Coding<B, C>, s: seq<B>) {
    forall i :: 0 <= i < |s| ==> !u.isTail(s[i])
  }

  /** Splitting a valid text at nothing gives its runes exactly when every byte is a rune by itself. */
  lemma {:induction false} CharsAreRunes<B(!new), C(!new)>(u: Coding<B, C>, s: seq<B>)
    requires Lawful(u) && Valid(u, s)
    ensures Chars(s) == RunePieces(u, s) <==> NoTails(u, s)
    decreases |s|
  {
    if s != [] {
      var w := W(u, s);
      assert WellRead(u, s);
      if w == 1 {
        CharsAreRunes(u, s[1..]);
        assert NoTails(u, s[1..]) <==> NoTails(u, s) by {
          assert s == [s[0]] + s[1..];
        }
      } else {
        assert u.isTail(s[1]);
        assert |s[..w]| != |s[..1]|;
      }
    }
  }

  lemma JoinNothing<B>(a: seq<B>, ps: List<seq<B>>)
    ensures Join(Cons(a, ps), []) == a + Join(ps, [])
  {
  }

  /** Either way, joining at nothing restores the text. */
  lemma {:induction false} JoinOfChars<B>(s: seq<B>)
    ensures Join(Chars(s), []) == s
    decreases |s|
  {
    if s != [] {
      JoinOfChars(s[1..]);
      JoinNothing(s[..1], Chars(s[1..]));
    }
  }

  /** The two bytes of U+00E9 come out as two pieces. */
  lemma CharsCutRune()
    ensures var s: seq<Utf8.Byte> := [0xC3, 0xA9];
            Valid(Utf8.Utf8Coding(), s) && Chars(s) != RunePieces(Utf8.Utf8Coding(), s)
  {
    var s: seq<Utf8.Byte> := [0xC3, 0xA9];
    var u := Utf8.Utf8Coding();
    Utf8.First2(0xE9, s);
    assert s[2..] == [];
    assert Valid(u, s[2..]);
    Utf8.Utf8IsLawful();
    assert u.isTail(s[1]);
    CharsAreRunes(u, s);
  }

  lemma SplitStep<B>(t: seq<B>, s: seq<B>, p: nat, a: seq<B>, r: seq<B>, out: List<seq<B>>)
    requires s != [] && FirstAt(t, s, p) && a == t[..p] && r == t[p + |s|..]
    ensures Append(Snoc(out, a), Parts(r, s)) == Append(out, Parts(t, s))
  {
    PartsUnfold(t, s, p, a, r);
    AppendSnoc(out, a, Parts(r, s));
  }

  /** The parts cut so far, and those of the text from `start` on, are the parts of the text. */
  ghost predicate Cutting<B>(text: seq<B>, sep: seq<B>, out: List<seq<B>>, start: nat, i: nat)
    requires sep != []
  {
    Scanned(text, start, i, sep) && Append(out, Parts(text[start..], sep)) == Parts(text, sep)
  }

  lemma CutStep<B>(text: seq<B>, sep: seq<B>, out: List<seq<B>>, start: nat, i: nat)
    requires sep != [] && Cutting(text, sep, out, start, i) && FoundAt(text, i, sep)
    ensures Cutting(text, sep, Snoc(out, text[start..i]), i + |sep|, i + |sep|)
  {
    var t, a, r := text[start..], text[start..i], text[i + |sep|..];
    CutHere(text, start, i, sep, t, a, r);
    SplitStep(t, sep, i - start, a, r, out);
  }

  lemma CutEnd<B>(text: seq<B>, sep: seq<B>, out: List<seq<B>>, start: nat)
    requires sep != [] && Cutting(text, sep, out, start, |text|)
    ensures Snoc(out, text[start..|text|]) == Parts(text, sep)
  {
    NoMoreCuts(text, start, sep, text[start..]);
    AppendLast(out, text[start..]);
  }

  /** tya_split; an empty separator gives the single bytes. */
  method Split<B(==)>(text: seq<B>, sep: seq<B>) returns (out: List<seq<B>>)
    ensures out == if sep == [] then Chars(text) else Parts(text, sep)
  {
    if sep == [] {
      return Chars(text);
    }
    out := End;
    var start: nat, i: nat := 0, 0;
    assert text[0..] == text;
    while i < |text|
      invariant Cutting(text, sep, out, start, i)
      decreases |text| - i
    {
      var here := StandsAt(text, i, sep);
      if here {
        CutStep(text, sep, out, start, i);
        out := Snoc(out, text[start..i]);
        i := i + |sep|;
        start := i;
      } else {
        i := i + 1;
      }
    }
    CutEnd(text, sep, out, start);
    out := Snoc(out, text[start..i]);
  }

  // ----- sizes, in unsigned words that wrap -----

  lemma WrapSmall(x: int)
    ensures 0 <= x < WORDS ==> Wrap(x) == x
  {
  }

  lemma WrapSum(a: int, b: int)
    ensures Wrap(a + Wrap(b)) == Wrap(a + b)
  {
    var q, r := (a + b % WORDS) / WORDS, (a + b % WORDS) % WORDS;
    DivUnique(a + b, q + b / WORDS, r, WORDS);
  }

  lemma WrapProduct(c: nat, d: int)
    ensures Wrap(c * Wrap(d)) == Wrap(c * d)
  {
    var k := d / WORDS;
    var q, r := (c * Wrap(d)) / WORDS, Wrap(c * Wrap(d));
    assert c * d == c * k * WORDS + c * Wrap(d) by {
      assert d == k * WORDS + Wrap(d);
      Distribute(c, k * WORDS, Wrap(d));
      assert c * (k * WORDS) == c * k * WORDS;
    }
    DivUnique(c * d, c * k + q, r, WORDS);
  }

  lemma Distribute(c: int, a: int, b: int)
    ensures c * (a + b) == c * a + c * b
  {
  }

  /** The wrapping size computation is right whenever the true size fits, even if the text shrinks. */
  lemma SizeIsExact(text: nat, count: nat, replacement: nat, old_: nat)
    requires 0 <= text + count * (replacement - old_) < WORDS
    ensures Wrap(text + Wrap(count * Wrap(replacement - old_))) == text + count * (replacement - old_)
  {
    var d := replacement - old_;
    WrapProduct(count, d);
    WrapSum(text, count * d);
    WrapSum(text, count * Wrap(d));
    DivUnique(text + count * d, 0, text + count * d, WORDS);
  }

  lemma {:induction false} JoinLength<B>(ps: List<seq<B>>, s: seq<B>, r: seq<B>)
    requires ps.Cons?
    ensures |Join(ps, r)| == |Join(ps, s)| + (Length(ps) - 1) * (|r| - |s|)
  {
    if ps.tail.Cons? {
      JoinLength(ps.tail, s, r);
      Distribute(|r| - |s|, Length(ps.tail) - 1, 1);
    }
  }

  // ----- replace and join -----

  /** How often tya_replace finds `old_`: once less than there are parts. */
  method CountFound<B(==)>(text: seq<B>, old_: seq<B>) returns (count: nat)
    requires old_ != []
    ensures count + 1 == Length(Parts(text, old_))
  {
    count := 0;
    var cursor: nat := 0;
    assert text[0..] == text;
    var next := Search(text, cursor, old_);
    while next.Some?
      invariant cursor <= |text| && count + Length(Parts(text[cursor..], old_)) == Length(Parts(text, old_))
      invariant NextFound(text, cursor, old_, next)
      decreases |text| - cursor
    {
      var p := next.value;
      CutHere(text, cursor, p, old_, text[cursor..], text[cursor..p], text[p + |old_|..]);
      PartsUnfold(text[cursor..], old_, p - cursor, text[cursor..p], text[p + |old_|..]);
      count := count + 1;
      cursor := p + |old_|;
      next := Search(text, cursor, old_);
    }
    NoMoreCuts(text, cursor, old_, text[cursor..]);
  }

  ghost predicate NextFound<B>(text: seq<B>, cursor: nat, sep: seq<B>, next: Option<nat>) {
    cursor <= |text| &&
    if next.Some? then FoundAt(text, next.value, sep) && Scanned(text, cursor, next.value, sep)
    else Scanned(text, cursor, |text|, sep)
  }

  lemma JoinFirst<B>(t: seq<B>, s: seq<B>, a: seq<B>, r: seq<B>, replacement: seq<B>)
    requires s != [] && Parts(t, s) == Cons(a, Parts(r, s))
    ensures Join(Parts(t, s), replacement) == a + replacement + Join(Parts(r, s), replacement)
  {
    assert Parts(r, s).Cons?;
  }

  /** The buffer holds what comes before the part still to be written. */
  ghost predicate Filled<B>(done: seq<B>, rest: seq<B>, total: seq<B>) {
    done + rest == total
  }

  lemma FilledStep<B>(done: seq<B>, a: seq<B>, b: seq<B>, rest: seq<B>, total: seq<B>)
    requires Filled(done, a + b + rest, total)
    ensures Filled(done + a + b, rest, total) && |done| + |a| + |b| + |rest| == |total|
  {
    assert done + a + b + rest == done + (a + b + rest);
  }

  lemma FillStep<B>(t: seq<B>, s: seq<B>, p: nat, a: seq<B>, r: seq<B>, replacement: seq<B>, done: seq<B>,
                    total: seq<B>)
    requires s != [] && FirstAt(t, s, p) && a == t[..p] && r == t[p + |s|..]
    requires Filled(done, Join(Parts(t, s), replacement), total)
    ensures Filled(done + a + replacement, Join(Parts(r, s), replacement), total)
    ensures |done| + |a| + |replacement| <= |total|
  {
    PartsUnfold(t, s, p, a, r);
    JoinFirst(t, s, a, r, replacement);
    FilledStep(done, a, replacement, Join(Parts(r, s), replacement), total);
  }

  /** The loop of the second pass: everything up to the last occurrence, with the replacements. */
  method FillParts<B(==)>(out: array<B>, text: seq<B>, old_: seq<B>, replacement: seq<B>)
    returns (cursor: nat, dst: nat)
    requires old_ != [] && out.Length == |Join(Parts(text, old_), replacement)| + 1
    modifies out
    ensures cursor <= |text| && dst < out.Length
    ensures Filled(out[..dst], text[cursor..], Join(Parts(text, old_), replacement))
  {
    ghost var total := Join(Parts(text, old_), replacement);
    cursor, dst := 0, 0;
    ghost var t := text;
    var next := Search(text, cursor, old_);
    while next.Some?
      invariant NextFound(text, cursor, old_, next) && t == text[cursor..]
      invariant dst < out.Length && Filled(out[..dst], Join(Parts(t, old_), replacement), total)
      decreases |text| - cursor
    {
      var p := next.value;
      ghost var r := text[p + |old_|..];
      CutHere(text, cursor, p, old_, t, text[cursor..p], r);
      FillStep(t, old_, p - cursor, text[cursor..p], r, replacement, out[..dst], total);
      t := r;
      dst := PutBoth(out, dst, text[cursor..p], replacement);
      cursor := p + |old_|;
      next := Search(text, cursor, old_);
    }
    NoMoreCuts(text, cursor, old_, t);
  }

  /** The second pass of tya_replace: exactly the buffer's length is written, plus the terminator. */
  method Fill<B(==)>(out: array<B>, text: seq<B>, old_: seq<B>, replacement: seq<B>, nul: B)
    requires old_ != [] && out.Length == |Join(Parts(text, old_), replacement)| + 1
    modifies out
    ensures out[..] == Join(Parts(text, old_), replacement) + [nul]
  {
    var cursor, dst := FillParts(out, text, old_, replacement);
    assert |out[..dst]| + |text[cursor..]| == |Join(Parts(text, old_), replacement)|;
    dst := PutBoth(out, dst, text[cursor..], [nul]);
    assert out[..] == out[..dst];
  }

  lemma ReplacedSize<B>(text: seq<B>, old_: seq<B>, replacement: seq<B>, count: nat)
    requires old_ != [] && count + 1 == Length(Parts(text, old_)) && |Join(Parts(text, old_), replacement)| < WORDS
    ensures Wrap(|text| + Wrap(count * Wrap(|replacement| - |old_|))) == |Join(Parts(text, old_), replacement)|
  {
    JoinOfParts(text, old_);
    JoinLength(Parts(text, old_), old_, replacement);
    SizeIsExact(|text|, count, |replacement|, |old_|);
  }

  /** tya_replace; the size of the result is computed first, in wrapping words, and then filled. */
  method Replace<B(==)>(text: seq<B>, old_: seq<B>, replacement: seq<B>, nul: B) returns (r: seq<B>)
    requires old_ != [] ==> |Join(Parts(text, old_), replacement)| < WORDS
    ensures r == if old_ == [] then text else Join(Parts(text, old_), replacement)
  {
    if old_ == [] {
      return text;
    }
    var count := CountFound(text, old_);
    ReplacedSize(text, old_, replacement, count);
    var size := Wrap(|text| + Wrap(count * Wrap(|replacement| - |old_|)));
    var out := new B[size + 1](_ => nul);
    Fill(out, text, old_, replacement, nul);
    r := out[..size];
  }

  /** What is still to be written: a separator before every part but the first. */
  ghost function Rest<B>(first: bool, ps: List<seq<B>>, sep: seq<B>): seq<B>
    decreases ps
  {
    if ps.End? then [] else (if first then [] else sep) + ps.head + Rest(false, ps.tail, sep)
  }

  lemma {:induction false} RestIsJoin<B>(ps: List<seq<B>>, sep: seq<B>)
    ensures Rest(true, ps, sep) == Join(ps, sep)
    ensures ps.Cons? ==> Rest(false, ps, sep) == sep + Join(ps, sep)
  {
    if ps.Cons? {
      RestIsJoin(ps.tail, sep);
    }
  }

  /** tya_join of strings: a pass for the size, a pass to fill. */
  method JoinAll<B>(ps: List<seq<B>>, sep: seq<B>, nul: B) returns (r: seq<B>)
    requires |Join(ps, sep)| < WORDS
    ensures r == Join(ps, sep)
  {
    RestIsJoin(ps, sep);
    var size: nat := 0;
    var first, rest := true, ps;
    while rest.Cons?
      invariant size + |Rest(first, rest, sep)| == |Join(ps, sep)|
      decreases rest
    {
      ghost var gap := if first then 0 else |sep|;
      assert |Rest(first, rest, sep)| == gap + |rest.head| + |Rest(false, rest.tail, sep)|;
      WrapSmall(size + gap);
      WrapSmall(size + gap + |rest.head|);
      if !first {
        size := Wrap(size + |sep|);
      }
      size := Wrap(size + |rest.head|);
      first, rest := false, rest.tail;
    }
    var out := new B[size + 1](_ => nul);
    var dst: nat := 0;
    first, rest := true, ps;
    while rest.Cons?
      invariant dst <= size == out.Length - 1 && Filled(out[..dst], Rest(first, rest, sep), Join(ps, sep))
      decreases rest
    {
      var gap := if first then [] else sep;
      FilledStep(out[..dst], gap, rest.head, Rest(false, rest.tail, sep), Join(ps, sep));
      dst := PutBoth(out, dst, gap, rest.head);
      first, rest := false, rest.tail;
    }
    r := out[..dst];
  }
}
