/** Strings as the server's Rust code sees them: sequences of Unicode scalar values,
    with the standard-library searches and whitespace rules the other modules rely on.
    `Utf8.SearchCommutesWithEncoding` justifies indexing by character instead of by byte. */
module Text {

  datatype Option<+T> = None | Some(value: T)

  /** The Unicode White_Space characters, what `char::is_whitespace` accepts. */
  predicate IsSpace(c: char) {
    var n := c as int;
    || 0x09 <= n <= 0x0D || n == 0x20 || n == 0x85 || n == 0xA0 || n == 0x1680
    || 0x2000 <= n <= 0x200A || n == 0x2028 || n == 0x2029 || n == 0x202F || n == 0x205F
    || n == 0x3000
  }

  predicate IsAlpha(c: char) { 'a' <= c <= 'z' || 'A' <= c <= 'Z' }

  predicate IsAlnum(c: char) { '0' <= c <= '9' || IsAlpha(c) }

  /** The character classes the loops run over. */
  datatype Class = Alnum | NameChar | Blank | NonBlank | NonSpace | Authority

  predicate Is(c: char, k: Class) {
    match k
    case Alnum => IsAlnum(c)
    case NameChar => IsAlnum(c) || c == '-' || c == '_'
    case Blank => c == ' ' || c == '\n' || c == '\t'
    case NonBlank => !(c == ' ' || c == '\n' || c == '\t')
    case NonSpace => !IsSpace(c)
    case Authority => c != '/' && c != '?' && c != '#' && !IsSpace(c)
  }

  predicate AllSpace(s: string) {
    forall i :: 0 <= i < |s| ==> IsSpace(s[i])
  }

  // ---- ASCII lower-casing ----

  function LowerChar(c: char): char {
    if 'A' <= c <= 'Z' then (c as int + 32) as char else c
  }

  function Lower(s: string): (r: string)
    ensures |r| == |s|
    ensures forall i :: 0 <= i < |s| ==> r[i] == LowerChar(s[i])
  {
    seq(|s|, i requires 0 <= i < |s| => LowerChar(s[i]))
  }

  lemma LowerConcat(a: string, b: string)
    ensures Lower(a + b) == Lower(a) + Lower(b)
  {
  }

  lemma LowerTwice(s: string)
    ensures Lower(Lower(s)) == Lower(s)
  {
  }

  // ---- searching ----

  /** `pat` stands in `s` at index `k`. */
  predicate OccursAt(s: string, pat: string, k: nat) {
    k + |pat| <= |s| && s[k..k + |pat|] == pat
  }

  lemma SliceOfSlice(s: string, i: nat, j: nat, a: nat, b: nat)
    requires i <= j <= |s| && a <= b <= j - i
    ensures s[i..j][a..b] == s[i + a..i + b]
  {
    var t := s[i..j];
    assert forall k :: 0 <= k < b - a ==> t[a..b][k] == t[a + k];
  }

  predicate Contains(s: string, pat: string) {
    exists k: nat :: k <= |s| && OccursAt(s, pat, k)
  }

  lemma OccursAtConcat(s: string, a: string, b: string, k: nat)
    ensures OccursAt(s, a + b, k) <==> OccursAt(s, a, k) && OccursAt(s, b, k + |a|)
  {
    if k + |a| + |b| <= |s| {
      var t := s[k..k + |a| + |b|];
      assert t[..|a|] == s[k..k + |a|] && t[|a|..] == s[k + |a|..k + |a| + |b|];
      assert t == t[..|a|] + t[|a|..];
      assert (a + b)[..|a|] == a && (a + b)[|a|..] == b;
    }
  }

  lemma OccursAtChar(s: string, pat: string, k: nat, i: nat)
    requires OccursAt(s, pat, k) && i < |pat|
    ensures s[k + i] == pat[i]
  {
    assert s[k..k + |pat|][i] == s[k + i];
  }

  lemma OccursAtLower(s: string, pat: string, k: nat)
    requires OccursAt(s, pat, k)
    ensures OccursAt(Lower(s), Lower(pat), k)
  {
    assert Lower(s)[k..k + |pat|] == Lower(s[k..k + |pat|]);
  }

  /** `str::find` on the text from `i` on: the least index at or after `i` at which `pat` occurs. */
  function Find(s: string, pat: string, i: nat): (r: Option<nat>)
    requires i <= |s|
    ensures r.Some? ==> i <= r.value && r.value + |pat| <= |s|
    decreases |s| - i
  {
    if OccursAt(s, pat, i) then Some(i)
    else if i == |s| then None
    else Find(s, pat, i + 1)
  }

  lemma {:induction false} FindIs(s: string, pat: string, i: nat, p: nat)
    requires i <= p && OccursAt(s, pat, p)
    requires forall k: nat :: i <= k < p ==> !OccursAt(s, pat, k)
    ensures Find(s, pat, i) == Some(p)
    decreases p - i
  {
    if i < p { FindIs(s, pat, i + 1, p); }
  }

  /** The search returns the least occurrence, and fails only when there is none. */
  lemma {:induction false} FindLeast(s: string, pat: string, i: nat)
    requires i <= |s|
    ensures Find(s, pat, i).Some? ==> OccursAt(s, pat, Find(s, pat, i).value)
    ensures forall k: nat :: i <= k && (Find(s, pat, i).Some? ==> k < Find(s, pat, i).value) ==> !OccursAt(s, pat, k)
    decreases |s| - i
  {
    if !OccursAt(s, pat, i) && i < |s| { FindLeast(s, pat, i + 1); }
  }

  /** Where the run of class-`p` characters starting at `i` ends. */
  function RunEnd(s: string, i: nat, p: Class): (j: nat)
    requires i <= |s|
    ensures i <= j <= |s|
    ensures forall k :: i <= k < j ==> Is(s[k], p)
    ensures j < |s| ==> !Is(s[j], p)
    decreases |s| - i
  {
    if i == |s| || !Is(s[i], p) then i else RunEnd(s, i + 1, p)
  }

  lemma RunEndIs(s: string, i: nat, p: Class, j: nat)
    requires i <= j <= |s|
    requires forall k :: i <= k < j ==> Is(s[k], p)
    requires j < |s| ==> !Is(s[j], p)
    ensures RunEnd(s, i, p) == j
  {
  }

  /** The first `c` at or after `i`, or the end of the text. */
  function NextChar(s: string, i: nat, c: char): (k: nat)
    requires i <= |s|
    ensures i <= k <= |s|
    ensures forall m :: i <= m < k ==> s[m] != c
    ensures k < |s| ==> s[k] == c
    decreases |s| - i
  {
    if i == |s| || s[i] == c then i else NextChar(s, i + 1, c)
  }

  lemma NextCharIs(s: string, i: nat, c: char, k: nat)
    requires i <= k <= |s|
    requires forall m :: i <= m < k ==> s[m] != c
    requires k < |s| ==> s[k] == c
    ensures NextChar(s, i, c) == k
  {
  }

  // ---- trimming and splitting on whitespace ----

  function TrimStart(s: string): (r: string)
    ensures exists a :: AllSpace(a) && s == a + r
  {
    if s != [] && IsSpace(s[0]) then
      var r := TrimStart(s[1..]);
      assert exists a :: AllSpace(a) && s == a + r by {
        var a :| AllSpace(a) && s[1..] == a + r;
        assert AllSpace([s[0]] + a) && s == ([s[0]] + a) + r;
      }
      r
    else
      assert AllSpace([]) && s == [] + s;
      s
  }

  function TrimEnd(s: string): (r: string)
    ensures exists b :: AllSpace(b) && s == r + b
  {
    if s != [] && IsSpace(s[|s| - 1]) then
      var r := TrimEnd(s[..|s| - 1]);
      assert exists b :: AllSpace(b) && s == r + b by {
        var b :| AllSpace(b) && s[..|s| - 1] == r + b;
        assert AllSpace(b + [s[|s| - 1]]) && s == r + (b + [s[|s| - 1]]);
      }
      r
    else
      assert AllSpace([]) && s == s + [];
      s
  }

  /** `str::trim`. */
  function Trim(s: string): string {
    TrimEnd(TrimStart(s))
  }

  lemma TrimSplits(s: string) returns (a: string, b: string)
    ensures AllSpace(a) && AllSpace(b) && s == a + Trim(s) + b
  {
    a :| AllSpace(a) && s == a + TrimStart(s);
    b :| AllSpace(b) && TrimStart(s) == Trim(s) + b;
  }

  predicate Trimmed(s: string) {
    s == [] || (!IsSpace(s[0]) && !IsSpace(s[|s| - 1]))
  }

  lemma {:induction false} TrimStartTrimmed(s: string)
    ensures TrimStart(s) == [] || !IsSpace(TrimStart(s)[0])
  {
    if s != [] && IsSpace(s[0]) { TrimStartTrimmed(s[1..]); }
  }

  lemma {:induction false} TrimEndTrimmed(s: string)
    ensures TrimEnd(s) == [] || !IsSpace(TrimEnd(s)[|TrimEnd(s)| - 1])
  {
    if s != [] && IsSpace(s[|s| - 1]) { TrimEndTrimmed(s[..|s| - 1]); }
  }

  lemma TrimTrimmed(s: string)
    ensures Trimmed(Trim(s))
  {
    TrimStartTrimmed(s);
    TrimEndTrimmed(TrimStart(s));
    var t := TrimStart(s);
    var b :| AllSpace(b) && t == TrimEnd(t) + b;
  }

  /** Trimming is determined by what it leaves: any way to peel spaces off a trimmed,
      non-empty core is the trim. */
  lemma {:induction false} TrimIs(a: string, s: string, b: string)
    requires AllSpace(a) && AllSpace(b) && s != [] && Trimmed(s)
    ensures Trim(a + s + b) == s
  {
    TrimStartIs(a, s + b);
    assert a + s + b == a + (s + b);
    TrimEndIs(s, b);
  }

  lemma {:induction false} TrimStartIs(a: string, s: string)
    requires AllSpace(a) && (s == [] || !IsSpace(s[0]))
    ensures TrimStart(a + s) == s
  {
    if a == [] {
      assert a + s == s;
    } else {
      assert (a + s)[1..] == a[1..] + s;
      TrimStartIs(a[1..], s);
    }
  }

  lemma {:induction false} TrimEndIs(s: string, b: string)
    requires AllSpace(b) && (s == [] || !IsSpace(s[|s| - 1]))
    ensures TrimEnd(s + b) == s
  {
    if b == [] {
      assert s + b == s;
    } else {
      assert (s + b)[..|s + b| - 1] == s + b[..|b| - 1];
      TrimEndIs(s, b[..|b| - 1]);
    }
  }

  /** `str::split_whitespace`: the maximal runs of non-space characters, in order. */
  function Words(s: string): (ws: seq<string>)
    decreases |s|
  {
    if s == [] then []
    else if IsSpace(s[0]) then Words(s[1..])
    else
      var n := RunEnd(s, 0, NonSpace);
      [s[..n]] + Words(s[n..])
  }

  /** `Vec::join(" ")`. */
  function JoinWords(ws: seq<string>): string {
    if ws == [] then ""
    else if |ws| == 1 then ws[0]
    else ws[0] + " " + JoinWords(ws[1..])
  }

  lemma {:induction false} WordsSkipsLeadingSpace(a: string, s: string)
    requires AllSpace(a)
    ensures Words(a + s) == Words(s)
  {
    if a == [] {
      assert a + s == s;
    } else {
      assert (a + s)[1..] == a[1..] + s;
      WordsSkipsLeadingSpace(a[1..], s);
    }
  }

  lemma {:induction false} WordsSkipsTrailingSpace(s: string, b: string)
    requires AllSpace(b)
    ensures Words(s + b) == Words(s)
    decreases |s|
  {
    if s == [] {
      WordsSkipsLeadingSpace(b, []);
      assert s + b == b + [];
    } else if IsSpace(s[0]) {
      assert (s + b)[1..] == s[1..] + b;
      WordsSkipsTrailingSpace(s[1..], b);
    } else {
      var n := RunEnd(s, 0, NonSpace);
      RunEndIs(s + b, 0, NonSpace, n);
      assert (s + b)[..n] == s[..n] && (s + b)[n..] == s[n..] + b;
      WordsSkipsTrailingSpace(s[n..], b);
    }
  }

  predicate Word(w: string) { w != "" && forall k :: 0 <= k < |w| ==> !IsSpace(w[k]) }

  lemma WordIsOne(w: string)
    requires Word(w)
    ensures Words(w) == [w]
  {
    RunEndIs(w, 0, NonSpace, |w|);
    assert w[..|w|] == w && w[|w|..] == "";
    assert Words("") == [];
  }

  /** White space separates words, and nothing else does. */
  lemma {:induction false} WordsSplit(a: string, c: char, b: string)
    requires IsSpace(c)
    ensures Words(a + [c] + b) == Words(a) + Words(b)
    decreases |a|
  {
    var s := a + [c] + b;
    if a == "" {
      assert s[1..] == b;
      assert Words(s) == Words(b) == [] + Words(b);
    } else if IsSpace(a[0]) {
      assert s[1..] == a[1..] + [c] + b;
      WordsSplit(a[1..], c, b);
    } else {
      var n := RunEnd(a, 0, NonSpace);
      RunEndIs(s, 0, NonSpace, n);
      assert s[..n] == a[..n] && s[n..] == a[n..] + [c] + b;
      WordsSplit(a[n..], c, b);
    }
  }

  lemma {:induction false} WordsAreWords(s: string)
    ensures forall w :: w in Words(s) ==> Word(w)
    decreases |s|
  {
    if s != "" {
      if IsSpace(s[0]) {
        WordsAreWords(s[1..]);
      } else {
        WordsAreWords(s[RunEnd(s, 0, NonSpace)..]);
      }
    }
  }

  /** Trimmed, with single blanks and no other white space. */
  predicate Normal(s: string) {
    Trimmed(s) && forall k :: 0 <= k < |s| && IsSpace(s[k]) ==> s[k] == ' ' && k + 1 < |s| && !IsSpace(s[k + 1])
  }

  lemma JoinStep(w: string, ws: seq<string>)
    requires Word(w) && ws != [] && Normal(JoinWords(ws)) && JoinWords(ws) != ""
    ensures var t := JoinWords([w] + ws); t != "" && Normal(t) && Words(t) == [w] + Words(JoinWords(ws))
  {
    var rest := JoinWords(ws);
    assert ([w] + ws)[1..] == ws && JoinWords([w] + ws) == w + " " + rest;
    hide JoinWords;
    WordsSplit(w, ' ', rest);
    WordIsOne(w);
    NormalAfter(w, rest);
    assert w + [' '] + rest == w + " " + rest;
    hide Words;
  }

  lemma JoinOne(w: string)
    requires Word(w)
    ensures JoinWords([w]) == w && Normal(w)
  {
  }

  /** Joined words are normal, and are still those words. */
  lemma {:induction false} JoinedWords(ws: seq<string>)
    requires forall w :: w in ws ==> Word(w)
    ensures Words(JoinWords(ws)) == ws && Normal(JoinWords(ws)) && (ws != [] ==> JoinWords(ws) != "")
  {
    if ws != [] {
      assert ws[0] in ws && Word(ws[0]);
      JoinedWords(ws[1..]);
      hide *;
      if |ws| == 1 {
        WordIsOne(ws[0]);
        JoinOne(ws[0]);
        assert ws == [ws[0]];
      } else {
        JoinStep(ws[0], ws[1..]);
        assert ws == [ws[0]] + ws[1..];
      }
    }
  }

  lemma NormalAfter(w: string, rest: string)
    requires Word(w) && Normal(rest) && rest != ""
    ensures Normal(w + " " + rest)
  {
    var s, n := w + " " + rest, |w| + 1;
    assert forall k :: 0 <= k < |w| ==> s[k] == w[k];
    assert s[|w|] == ' ' && forall k :: n <= k < |s| ==> s[k] == rest[k - n];
  }

  /** So the words of a text, joined, are its one normal form. */
  lemma NormalForm(s: string)
    ensures var t := JoinWords(Words(s)); Normal(t) && Words(t) == Words(s)
  {
    WordsAreWords(s);
    JoinedWords(Words(s));
    hide *;
  }

  const WHITE_SPACE: seq<int> := [
    9, 10, 11, 12, 13, 32, 133, 160, 5760, 8192, 8193, 8194, 8195, 8196, 8197, 8198, 8199, 8200, 8201, 8202, 8232,
    8233, 8239, 8287, 12288]

  /** White space is 25 characters. */
  lemma SpacesAre(c: char)
    ensures IsSpace(c) <==> c as int in WHITE_SPACE
  {
  }

  /** Lower-casing takes each capital letter to the small one at its place in the alphabet, and leaves
      all else. */
  lemma LowersLetters(c: char)
    ensures 'A' <= c <= 'Z' ==> LowerChar(c) as int - 'a' as int == c as int - 'A' as int
    ensures !('A' <= c <= 'Z') ==> LowerChar(c) == c
  {
  }
}
