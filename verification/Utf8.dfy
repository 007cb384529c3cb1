/** UTF-8 (section 3 of RFC 3629), as Rust stores strings: what a byte offset is, and why
    the other modules may index text by character although the server indexes it by byte. */
module Utf8 {
  import opened Text

  type Bytes = seq<int>

  function EncodeChar(c: char): (r: Bytes)
    ensures 1 <= |r| <= 4
    ensures !IsContinuation(r[0])
    ensures forall k :: 1 <= k < |r| ==> IsContinuation(r[k])
  {
    var n := c as int;
    if n < 0x80 then [n]
    else if n < 0x800 then [0xC0 + n / 64, 0x80 + n % 64]
    else if n < 0x10000 then [0xE0 + n / 4096, 0x80 + n / 64 % 64, 0x80 + n % 64]
    else [0xF0 + n / 262144, 0x80 + n / 4096 % 64, 0x80 + n / 64 % 64, 0x80 + n % 64]
  }

  predicate IsContinuation(b: int) { 0x80 <= b < 0xC0 }

  function Encode(s: string): (r: Bytes)
    ensures |s| <= |r| <= 4 * |s|
    ensures r != [] ==> !IsContinuation(r[0])
  {
    if s == [] then [] else EncodeChar(s[0]) + Encode(s[1..])
  }

  ghost predicate Valid(bs: Bytes) { exists s :: bs == Encode(s) }

  /** `str::is_char_boundary`. */
  predicate IsBoundary(bs: Bytes, i: nat) {
    i == 0 || i == |bs| || (i < |bs| && !IsContinuation(bs[i]))
  }

  /** The byte offset of the character index `k`. */
  function Offset(s: string, k: nat): (o: nat)
    requires k <= |s|
  {
    |Encode(s[..k])|
  }

  // ---- concatenation and slicing ----

  lemma {:induction false} EncodeConcat(a: string, b: string)
    ensures Encode(a + b) == Encode(a) + Encode(b)
  {
    if a == [] {
      assert a + b == b;
    } else {
      assert (a + b)[1..] == a[1..] + b;
      EncodeConcat(a[1..], b);
    }
  }

  lemma OffsetSplits(s: string, k: nat)
    requires k <= |s|
    ensures Encode(s) == Encode(s[..k]) + Encode(s[k..])
    ensures Offset(s, k) <= |Encode(s)|
    ensures Encode(s)[..Offset(s, k)] == Encode(s[..k]) && Encode(s)[Offset(s, k)..] == Encode(s[k..])
  {
    assert s == s[..k] + s[k..];
    EncodeConcat(s[..k], s[k..]);
  }

  lemma OffsetStep(s: string, k: nat)
    requires k < |s|
    ensures Offset(s, k + 1) == Offset(s, k) + |EncodeChar(s[k])|
    ensures Offset(s, k + 1) <= |Encode(s)|
    ensures Encode(s)[Offset(s, k)..Offset(s, k + 1)] == EncodeChar(s[k])
  {
    assert s[..k + 1] == s[..k] + [s[k]];
    EncodeConcat(s[..k], [s[k]]);
    assert Encode([s[k]]) == EncodeChar(s[k]) + Encode([]);
    OffsetSplits(s, k + 1);
  }

  lemma {:induction false} OffsetMonotone(s: string, j: nat, k: nat)
    requires j < k <= |s|
    ensures Offset(s, j) < Offset(s, k)
    decreases k - j
  {
    OffsetStep(s, k - 1);
    if j < k - 1 { OffsetMonotone(s, j, k - 1); }
  }

  // ---- boundaries ----

  /** Every byte index lies in exactly one character. */
  lemma {:induction false} CharAround(s: string, i: nat) returns (k: nat)
    requires i < |Encode(s)|
    ensures k < |s| && Offset(s, k) <= i < Offset(s, k + 1)
  {
    if i < |EncodeChar(s[0])| {
      k := 0;
      OffsetStep(s, 0);
    } else {
      var j := CharAround(s[1..], i - |EncodeChar(s[0])|);
      k := j + 1;
      OffsetTail(s, j);
      OffsetTail(s, j + 1);
    }
  }

  lemma OffsetTail(s: string, j: nat)
    requires s != [] && j <= |s| - 1
    ensures Offset(s, j + 1) == |EncodeChar(s[0])| + Offset(s[1..], j)
  {
    assert s[..j + 1][0] == s[0] && s[..j + 1][1..] == s[1..][..j];
  }

  lemma {:induction false} OffsetApart(s: string, j: nat, k: nat)
    requires j <= |s| && k < |s| && Offset(s, k) < Offset(s, j)
    ensures Offset(s, k + 1) <= Offset(s, j)
  {
    if j < k { OffsetMonotone(s, j, k); }
    if k + 1 < j { OffsetMonotone(s, k + 1, j); }
  }

  lemma EndOffsets(s: string)
    ensures Offset(s, 0) == 0 && Offset(s, |s|) == |Encode(s)|
  {
    assert s[..|s|] == s && s[..0] == [];
  }

  /** Only the first byte of a character is not a continuation byte. */
  lemma FirstByteOnly(s: string, i: nat, k: nat)
    requires k < |s| && Offset(s, k) <= i < Offset(s, k + 1)
    ensures i < |Encode(s)| && (IsContinuation(Encode(s)[i]) <==> i > Offset(s, k))
  {
    hide *;
    OffsetStep(s, k);
    assert Encode(s)[i] == Encode(s)[Offset(s, k)..Offset(s, k + 1)][i - Offset(s, k)];
  }

  lemma NoOffsetInside(s: string, i: nat, k: nat)
    requires k < |s| && Offset(s, k) < i < Offset(s, k + 1)
    ensures forall m: nat :: m <= |s| ==> Offset(s, m) != i
  {
    hide *;
    forall m: nat | m <= |s| ensures Offset(s, m) != i {
      if Offset(s, m) == i { OffsetApart(s, m, k); }
    }
  }

  /** The byte offsets Rust lets a program slice at are the offsets of characters. */
  lemma BoundaryIsOffset(s: string, i: nat)
    requires i <= |Encode(s)|
    ensures IsBoundary(Encode(s), i) <==> exists k: nat :: k <= |s| && Offset(s, k) == i
  {
    hide Encode;
    hide Offset;
    hide IsContinuation;
    EndOffsets(s);
    if i < |Encode(s)| {
      var k := CharAround(s, i);
      FirstByteOnly(s, i, k);
      if i > Offset(s, k) { NoOffsetInside(s, i, k); }
    }
  }

  /** Slicing valid text at two boundaries gives valid text. */
  lemma BoundarySlice(s: string, i: nat, j: nat) returns (a: nat, b: nat)
    requires i <= j <= |Encode(s)| && IsBoundary(Encode(s), i) && IsBoundary(Encode(s), j)
    ensures a <= b <= |s| && Offset(s, a) == i && Offset(s, b) == j
    ensures Encode(s)[i..j] == Encode(s[a..b])
  {
    BoundaryIsOffset(s, i);
    BoundaryIsOffset(s, j);
    a :| a <= |s| && Offset(s, a) == i;
    b :| b <= |s| && Offset(s, b) == j;
    if b < a { OffsetMonotone(s, b, a); }
    OffsetSplits(s, b);
    OffsetSplits(s[..b], a);
    assert s[..b][..a] == s[..a] && s[..b][a..] == s[a..b];
    assert Encode(s)[i..j] == Encode(s)[..j][i..];
  }

  // ---- self-synchronisation ----

  /** The first byte tells how many bytes a character has. */
  lemma LengthFromFirst(a: char, b: char)
    requires EncodeChar(a)[0] == EncodeChar(b)[0]
    ensures |EncodeChar(a)| == |EncodeChar(b)|
  {
  }

  lemma Base64(n: nat)
    ensures n / 64 / 64 == n / 4096 && n / 4096 / 64 == n / 262144
    ensures n == 4096 * (n / 4096) + 64 * (n / 64 % 64) + n % 64
    ensures n / 4096 == 64 * (n / 262144) + n / 4096 % 64
  {
  }

  lemma EncodeCharInjective(a: char, b: char)
    requires EncodeChar(a) == EncodeChar(b)
    ensures a == b
  {
    var p, q := EncodeChar(a), EncodeChar(b);
    Base64(a as int);
    Base64(b as int);
    assert p[0] == q[0] && p[|p| - 1] == q[|q| - 1];
    assert |p| > 2 ==> p[1] == q[1];
    assert |p| > 3 ==> p[2] == q[2];
  }

  lemma CharPrefix(a: char, x: Bytes, b: char, y: Bytes)
    requires EncodeChar(a) + x == EncodeChar(b) + y
    ensures a == b && x == y
  {
    var p, q := EncodeChar(a), EncodeChar(b);
    assert p[0] == (p + x)[0] == (q + y)[0] == q[0];
    LengthFromFirst(a, b);
    assert p == (p + x)[..|p|] && q == (q + y)[..|q|];
    assert x == (p + x)[|p|..] && y == (q + y)[|q|..];
    hide EncodeChar;
    EncodeCharInjective(a, b);
  }

  lemma EncodeHead(s: string)
    requires s != []
    ensures Encode(s) == EncodeChar(s[0]) + Encode(s[1..])
  {
  }

  lemma Regroup(a: Bytes, b: Bytes, c: Bytes)
    ensures a + b + c == a + (b + c)
  {
  }

  lemma PrefixCons(s: string, n: string)
    requires s != [] && n != [] && s[0] == n[0] && |n[1..]| <= |s[1..]| && s[1..][..|n[1..]|] == n[1..]
    ensures |n| <= |s| && s[..|n|] == n
  {
    assert n == [n[0]] + n[1..] && s == [s[0]] + s[1..];
  }

  /** Encoding is prefix-faithful: an encoded needle is a byte prefix of an encoded text
      only if the needle is a prefix of the text. */
  lemma {:induction false} PrefixReflects(s: string, n: string, rest: Bytes)
    requires Encode(s) == Encode(n) + rest
    ensures |n| <= |s| && s[..|n|] == n
  {
    hide *;
    if n != [] {
      EncodeHead(n);
      EncodeHead(s);
      var f, g := Encode(n[1..]), Encode(s[1..]);
      Regroup(EncodeChar(n[0]), f, rest);
      CharPrefix(n[0], f + rest, s[0], g);
      PrefixReflects(s[1..], n[1..], rest);
      PrefixCons(s, n);
    }
  }

  predicate BytesOccurAt(bs: Bytes, pat: Bytes, o: nat) {
    o + |pat| <= |bs| && bs[o..o + |pat|] == pat
  }

  lemma MatchStartsChar(bs: Bytes, n: string, o: nat)
    requires n != "" && BytesOccurAt(bs, Encode(n), o)
    ensures IsBoundary(bs, o) && o <= |bs|
  {
    hide Encode;
    assert bs[o] == bs[o..o + |Encode(n)|][0];
  }

  lemma ByteMatchIsMatch(s: string, n: string, o: nat) returns (k: nat)
    requires n != "" && BytesOccurAt(Encode(s), Encode(n), o)
    ensures k <= |s| && Offset(s, k) == o && OccursAt(s, n, k)
  {
    hide Encode;
    hide Offset;
    MatchStartsChar(Encode(s), n, o);
    BoundaryIsOffset(s, o);
    k :| k <= |s| && Offset(s, k) == o;
    OffsetSplits(s, k);
    var tail, pat := Encode(s[k..]), Encode(n);
    BytesSplit(Encode(s), pat, o);
    PrefixReflects(s[k..], n, Encode(s)[o..][|pat|..]);
    assert s[k..][..|n|] == s[k..k + |n|];
  }

  lemma BytesSplit(bs: Bytes, pat: Bytes, o: nat)
    requires o <= |bs|
    ensures BytesOccurAt(bs, pat, o) <==> |pat| <= |bs| - o && bs[o..] == pat + bs[o..][|pat|..]
  {
    if |pat| <= |bs| - o {
      assert bs[o..o + |pat|] == bs[o..][..|pat|];
      assert bs[o..] == bs[o..][..|pat|] + bs[o..][|pat|..];
    }
  }

  lemma MatchIsByteMatch(s: string, n: string, k: nat)
    requires OccursAt(s, n, k)
    ensures k <= |s| && BytesOccurAt(Encode(s), Encode(n), Offset(s, k))
  {
    hide Encode;
    hide Offset;
    OffsetSplits(s, k);
    assert s[k..] == n + s[k + |n|..];
    EncodeConcat(n, s[k + |n|..]);
    var tail := Encode(s[k..]);
    assert tail[|Encode(n)|..] == Encode(s[k + |n|..]);
    BytesSplit(Encode(s), Encode(n), Offset(s, k));
  }

  /** A byte search for encoded text finds it at character offsets only, and exactly where a
      character search does. */
  lemma SearchCommutesWithEncoding(s: string, n: string, o: nat)
    requires n != ""
    ensures BytesOccurAt(Encode(s), Encode(n), o) <==>
              exists k: nat :: k <= |s| && Offset(s, k) == o && OccursAt(s, n, k)
  {
    hide Encode;
    hide Offset;
    hide BytesOccurAt;
    hide OccursAt;
    if BytesOccurAt(Encode(s), Encode(n), o) {
      var k := ByteMatchIsMatch(s, n, o);
    }
    if k: nat :| k <= |s| && Offset(s, k) == o && OccursAt(s, n, k) {
      MatchIsByteMatch(s, n, k);
    }
  }

  /** A byte match is met by the character search, at its offset or before it. */
  lemma ByteMatchIsMet(s: string, n: string, o: nat)
    requires n != "" && BytesOccurAt(Encode(s), Encode(n), o)
    ensures Find(s, n, 0).Some? && Offset(s, Find(s, n, 0).value) <= o
  {
    hide *;
    FindLeast(s, n, 0);
    var p := Find(s, n, 0);
    var k := ByteMatchIsMatch(s, n, o);
    if p.Some? && p.value < k { OffsetMonotone(s, p.value, k); }
  }

  /** `str::find` over bytes returns the offset of what `Find` returns over characters. */
  lemma FindCommutesWithEncoding(s: string, n: string)
    requires n != ""
    ensures Find(s, n, 0).Some? ==>
              && BytesOccurAt(Encode(s), Encode(n), Offset(s, Find(s, n, 0).value))
              && forall o: nat :: o < Offset(s, Find(s, n, 0).value) ==> !BytesOccurAt(Encode(s), Encode(n), o)
    ensures Find(s, n, 0).None? ==> forall o: nat :: !BytesOccurAt(Encode(s), Encode(n), o)
  {
    hide *;
    FindLeast(s, n, 0);
    var found := Find(s, n, 0);
    if found.Some? { MatchIsByteMatch(s, n, found.value); }
    forall o: nat ensures BytesOccurAt(Encode(s), Encode(n), o) ==> found.Some? && Offset(s, found.value) <= o {
      if BytesOccurAt(Encode(s), Encode(n), o) { ByteMatchIsMet(s, n, o); }
    }
  }

  /** Text in ASCII is its own encoding, byte for character. */
  lemma {:induction false} AsciiLength(s: string)
    requires forall k :: 0 <= k < |s| ==> s[k] as int < 0x80
    ensures |Encode(s)| == |s|
  {
    if s != [] { AsciiLength(s[1..]); }
  }

  /** Characters of the examples in section 7 of RFC 3629, of one to four bytes. */
  lemma EncodedExamples()
    ensures EncodeChar('A') == [0x41] && EncodeChar('\U{0391}') == [0xCE, 0x91]
    ensures EncodeChar('\U{2262}') == [0xE2, 0x89, 0xA2] && EncodeChar('\U{65E5}') == [0xE6, 0x97, 0xA5]
    ensures EncodeChar('\U{233B4}') == [0xF0, 0xA3, 0x8E, 0xB4]
  {
  }
}
