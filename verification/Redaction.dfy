/** Keeping tokens out of stored text: the literal replacement of a known token, the masking of
    userinfo in every URL the scan stops at, and the authenticated clone URL itself. */
module Redaction {
  import opened Text

  const MASK: string := "***"

  const SEPARATOR: string := "://"

  datatype UrlResult = Url(url: string) | Unsupported

  // ---- authorities ----

  /** The last `@`, where `rsplit_once('@')` splits. */
  function LastAt(s: string): (r: Option<nat>)
    ensures r.Some? ==> r.value < |s| && s[r.value] == '@' && forall k :: r.value < k < |s| ==> s[k] != '@'
    ensures r.None? ==> '@' !in s
  {
    if s == [] then None
    else if s[|s| - 1] == '@' then Some(|s| - 1)
    else LastAt(s[..|s| - 1])
  }

  lemma LastAtIs(s: string, k: nat)
    requires k < |s| && s[k] == '@' && forall j :: k < j < |s| ==> s[j] != '@'
    ensures LastAt(s) == Some(k)
  {
    hide LastAt;
  }

  function StripUserinfo(authority: string): string {
    var at := LastAt(authority);
    if at.Some? then authority[at.value + 1..] else authority
  }

  function MaskAuthority(authority: string): string {
    var at := LastAt(authority);
    if at.Some? then MASK + authority[at.value..] else authority
  }

  // ---- the authenticated URL ----

  const SCHEME: string := "https://"

  const USER: string := "x-access-token:"

  /** The authority without userinfo, then the first slash and all that follows it. */
  function HostPath(rest: string): string {
    var slash := Find(rest, "/", 0);
    if slash.Some? then StripUserinfo(rest[..slash.value]) + rest[slash.value..] else StripUserinfo(rest)
  }

  function AuthenticatedUrl(url: string, pat: Option<string>): UrlResult {
    if pat.None? || pat.value == "" then Url(url)
    else if !(SCHEME <= url) then Unsupported
    else Url(SCHEME + USER + pat.value + "@" + HostPath(url[|SCHEME|..]))
  }

  // ---- redaction ----

  /** `str::replace`, from `i` on: leftmost occurrences, none overlapping. */
  function Replaced(s: string, token: string, i: nat): string
    requires token != "" && i <= |s|
    decreases |s| - i
  {
    var p := Find(s, token, i);
    if p.None? then s[i..] else s[i..p.value] + MASK + Replaced(s, token, p.value + |token|)
  }

  /** Where the authority of the URL whose `://` stands at `p` ends. */
  function AuthorityEnd(s: string, p: nat): (e: nat)
    requires p + 3 <= |s|
    ensures p + 3 <= e <= |s|
  {
    RunEnd(s, p + 3, Authority)
  }

  function MaskUrls(s: string, i: nat): string
    requires i <= |s|
    decreases |s| - i
  {
    var p := Find(s, SEPARATOR, i);
    if p.None? then s[i..]
    else
      var e := AuthorityEnd(s, p.value);
      s[i..p.value + 3] + MaskAuthority(s[p.value + 3..e]) + MaskUrls(s, e)
  }

  function Redacted(text: string, pat: Option<string>): string {
    MaskUrls(if pat.Some? && pat.value != "" then Replaced(text, pat.value, 0) else text, 0)
  }

  // ---- searching a suffix is searching the text from its start ----

  lemma OccursShift(a: string, s: string, pat: string, k: nat)
    ensures OccursAt(a + s, pat, |a| + k) <==> OccursAt(s, pat, k)
  {
    if k + |pat| <= |s| {
      assert (a + s)[|a| + k..|a| + k + |pat|] == s[k..k + |pat|];
    }
  }

  lemma {:induction false} FindShift(a: string, s: string, pat: string, i: nat)
    requires i <= |s|
    ensures Find(a + s, pat, |a| + i) ==
            (if Find(s, pat, i).Some? then Some(|a| + Find(s, pat, i).value) else None)
    decreases |s| - i
  {
    OccursShift(a, s, pat, i);
    hide OccursAt;
    if i < |s| { FindShift(a, s, pat, i + 1); }
  }

  lemma RunEndShift(a: string, s: string, i: nat, c: Class)
    requires i <= |s|
    ensures RunEnd(a + s, |a| + i, c) == |a| + RunEnd(s, i, c)
  {
    RunEndIs(a + s, |a| + i, c, |a| + RunEnd(s, i, c));
  }

  lemma {:induction false} MaskUrlsShift(a: string, s: string, i: nat)
    requires i <= |s|
    ensures MaskUrls(a + s, |a| + i) == MaskUrls(s, i)
    decreases |s| - i
  {
    hide *;
    FindShift(a, s, SEPARATOR, i);
    var p := Find(s, SEPARATOR, i);
    if p.None? {
      MaskUrlsNone(s, i);
      MaskUrlsNone(a + s, |a| + i);
      assert (a + s)[|a| + i..] == s[i..];
    } else {
      MaskUrlsStep(s, i, p.value);
      AuthorityEndShift(a, s, p.value);
      var e := AuthorityEnd(s, p.value);
      MaskUrlsStep(a + s, |a| + i, |a| + p.value);
      assert (a + s)[|a| + i..|a| + p.value + 3] == s[i..p.value + 3];
      assert (a + s)[|a| + p.value + 3..|a| + e] == s[p.value + 3..e];
      MaskUrlsShift(a, s, e);
    }
  }

  lemma AuthorityEndShift(a: string, s: string, p: nat)
    requires p + 3 <= |s|
    ensures AuthorityEnd(a + s, |a| + p) == |a| + AuthorityEnd(s, p)
  {
    hide RunEnd;
    RunEndShift(a, s, p + 3, Authority);
  }

  // ---- the loop ----

  method RSplitOnceAt(authority: string) returns (found: bool, host: string)
    ensures found == LastAt(authority).Some?
    ensures host == StripUserinfo(authority)
  {
    var k := |authority|;
    while k > 0 && authority[k - 1] != '@'
      invariant 0 <= k <= |authority|
      invariant forall j :: k <= j < |authority| ==> authority[j] != '@'
    {
      k := k - 1;
    }
    found := k > 0;
    if found {
      assert authority[k - 1] == '@';
      host := authority[k..];
    } else {
      host := authority;
    }
  }

  method PushAuthority(result: string, authority: string) returns (r: string)
    ensures r == result + MaskAuthority(authority)
  {
    var found, host := RSplitOnceAt(authority);
    MaskedIs(authority);
    r := result + if found then "***@" + host else authority;
  }

  /** `redact_url_userinfo`. */
  method RedactUrlUserinfo(text: string) returns (result: string)
    ensures result == MaskUrls(text, 0)
  {
    hide *;
    result := "";
    var rest := text;
    ghost var done: nat := 0;
    var found := Find(rest, SEPARATOR, 0);
    while found.Some?
      invariant done <= |text| && rest == text[done..]
      invariant found == Find(rest, SEPARATOR, 0)
      invariant result + MaskUrls(text, done) == MaskUrls(text, 0)
      decreases |rest|
    {
      RestStep(text, done, found.value);
      ghost var before := result;
      var split := found.value + 3;
      result := result + rest[..split];
      var after := rest[split..];
      var authEnd := RunEnd(after, 0, Authority);
      var authority := after[..authEnd];
      result := PushAuthority(result, authority);
      ghost var next := done + split + authEnd;
      Regroup(before, rest[..split], MaskAuthority(authority), MaskUrls(text, next));
      rest := after[authEnd..];
      done := next;
      found := Find(rest, SEPARATOR, 0);
    }
    RestEnds(text, done);
    result := result + rest;
  }

  lemma Regroup(a: string, b: string, c: string, d: string)
    ensures a + (b + c + d) == a + b + c + d
  {
  }

  lemma MaskedIs(authority: string)
    ensures MaskAuthority(authority) ==
            if LastAt(authority).Some? then "***@" + StripUserinfo(authority) else authority
  {
  }

  lemma MaskUrlsStep(s: string, i: nat, p: nat)
    requires i <= |s| && Find(s, SEPARATOR, i) == Some(p)
    ensures i <= p && p + 3 <= |s|
    ensures MaskUrls(s, i) ==
            s[i..p + 3] + MaskAuthority(s[p + 3..AuthorityEnd(s, p)]) + MaskUrls(s, AuthorityEnd(s, p))
  {
    hide Find;
    hide AuthorityEnd;
    hide MaskAuthority;
  }

  lemma RestFinds(text: string, i: nat, p: nat)
    requires i <= |text| && Find(text[i..], SEPARATOR, 0) == Some(p)
    ensures i + p + 3 <= |text| && Find(text, SEPARATOR, i) == Some(i + p)
    ensures AuthorityEnd(text, i + p) == i + p + 3 + RunEnd(text[i..][p + 3..], 0, Authority)
  {
    hide Find;
    hide RunEnd;
    assert text == text[..i] + text[i..] && text == text[..i + p + 3] + text[i + p + 3..];
    FindShift(text[..i], text[i..], SEPARATOR, 0);
    RunEndShift(text[..i + p + 3], text[i + p + 3..], 0, Authority);
    assert text[i..][p + 3..] == text[i + p + 3..];
  }

  lemma RestStep(text: string, i: nat, p: nat)
    requires i <= |text| && Find(text[i..], SEPARATOR, 0) == Some(p)
    ensures i + p + 3 <= |text|
    ensures var authEnd := RunEnd(text[i..][p + 3..], 0, Authority);
            MaskUrls(text, i) ==
            text[i..][..p + 3] + MaskAuthority(text[i..][p + 3..][..authEnd]) + MaskUrls(text, i + p + 3 + authEnd)
  {
    hide *;
    RestFinds(text, i, p);
    MaskUrlsStep(text, i, i + p);
    assert text[i..][..p + 3] == text[i..i + p + 3];
    var e := AuthorityEnd(text, i + p);
    assert text[i + p + 3..e] == text[i..][p + 3..][..e - (i + p + 3)];
  }

  lemma RestEnds(text: string, i: nat)
    requires i <= |text| && Find(text[i..], SEPARATOR, 0).None?
    ensures MaskUrls(text, i) == text[i..]
  {
    hide Find;
    assert text == text[..i] + text[i..];
    FindShift(text[..i], text[i..], SEPARATOR, 0);
  }

  /** `redact`. */
  method Redact(text: string, pat: Option<string>) returns (out: string)
    ensures out == Redacted(text, pat)
  {
    out := text;
    if pat.Some? {
      if pat.value != "" {
        out := Replaced(out, pat.value, 0);
      }
    }
    out := RedactUrlUserinfo(out);
  }

  // ---- no token survives ----

  /** A token that cannot be spelt with the mask's own stars at a seam. */
  predicate Opaque(token: string) {
    token != "" && token[0] != '*' && token[|token| - 1] != '*' && !Contains(token, MASK)
  }

  lemma OccursInSlice(s: string, pat: string, i: nat, j: nat, k: nat)
    requires i <= j <= |s| && OccursAt(s[i..j], pat, k)
    ensures OccursAt(s, pat, i + k) && i + k + |pat| <= j
  {
    forall m: nat | m < |pat| ensures s[i + k..i + k + |pat|][m] == pat[m] {
      OccursAtChar(s[i..j], pat, k, m);
    }
  }

  lemma AroundMask(x: string, y: string, p: string, k: nat)
    requires Opaque(p) && OccursAt(x + MASK + y, p, k)
    ensures OccursAt(x, p, k) || (k >= |x| + 3 && OccursAt(y, p, k - |x| - 3))
  {
    var s := x + MASK + y;
    if k + |p| <= |x| {
      assert s[k..k + |p|] == x[k..k + |p|];
    } else if k >= |x| + 3 {
      assert s[k..k + |p|] == y[k - |x| - 3..k - |x| - 3 + |p|];
    } else {
      OverlapsMask(x, y, p, k);
    }
  }

  lemma OverlapsMask(x: string, y: string, p: string, k: nat)
    requires p != "" && OccursAt(x + MASK + y, p, k) && k < |x| + 3 && |x| < k + |p|
    ensures !Opaque(p)
  {
    var s := x + MASK + y;
    assert forall j :: 0 <= j < |p| ==> p[j] == s[k + j];
    if k < |x| && |x| + 3 < k + |p| {
      assert p[|x| - k..|x| - k + 3] == s[|x|..|x| + 3] == MASK;
      assert OccursAt(p, MASK, |x| - k);
    }
  }

  lemma ReplacedEnd(s: string, token: string, i: nat)
    requires token != "" && i <= |s| && Find(s, token, i).None?
    ensures Replaced(s, token, i) == s[i..]
  {
    hide Find;
  }

  /** The text the search passes over has no match. */
  lemma GapHasNone(s: string, token: string, i: nat)
    requires token != "" && i <= |s|
    ensures var p := Find(s, token, i); !Contains(if p.None? then s[i..] else s[i..p.value], token)
  {
    var p := Find(s, token, i);
    var j := if p.None? then |s| else p.value;
    assert s[i..|s|] == s[i..];
    FindLeast(s, token, i);
    hide Find;
    hide OccursAt;
    SliceOccurrences(s, token, i, j);
  }

  lemma JoinHasNone(x: string, y: string, token: string)
    requires Opaque(token) && !Contains(x, token) && !Contains(y, token)
    ensures !Contains(x + MASK + y, token)
  {
    hide Opaque;
    MaskOccurrences(x, y, token);
    OccursInside(x, token);
    OccursInside(y, token);
    hide OccursAt;
  }

  lemma OccursInside(s: string, pat: string)
    ensures forall k: nat :: OccursAt(s, pat, k) ==> k <= |s|
  {
  }

  lemma {:induction false} ReplacedHasNone(s: string, token: string, i: nat)
    requires Opaque(token) && i <= |s|
    ensures !Contains(Replaced(s, token, i), token)
    decreases |s| - i
  {
    assert token != "";
    hide *;
    var p := Find(s, token, i);
    GapHasNone(s, token, i);
    if p.None? {
      ReplacedEnd(s, token, i);
    } else {
      ReplacedStep(s, token, i, p.value);
      ReplacedHasNone(s, token, p.value + |token|);
      JoinHasNone(s[i..p.value], Replaced(s, token, p.value + |token|), token);
    }
  }

  lemma SliceOccurrences(s: string, pat: string, i: nat, j: nat)
    requires i <= j <= |s|
    ensures forall k: nat :: OccursAt(s[i..j], pat, k) ==> i + k + |pat| <= j && OccursAt(s, pat, i + k)
  {
    hide OccursAt;
    forall k: nat | OccursAt(s[i..j], pat, k) ensures i + k + |pat| <= j && OccursAt(s, pat, i + k) {
      OccursInSlice(s, pat, i, j, k);
    }
  }

  lemma MaskOccurrences(x: string, y: string, p: string)
    requires Opaque(p)
    ensures forall k: nat :: OccursAt(x + MASK + y, p, k) ==>
              OccursAt(x, p, k) || (k >= |x| + 3 && OccursAt(y, p, k - |x| - 3))
  {
    hide *;
    forall k: nat | OccursAt(x + MASK + y, p, k)
      ensures OccursAt(x, p, k) || (k >= |x| + 3 && OccursAt(y, p, k - |x| - 3))
    {
      AroundMask(x, y, p, k);
    }
  }

  lemma OccursWithin(s: string, pat: string, k: nat)
    requires OccursAt(s, pat, k)
    ensures Contains(s, pat)
  {
    assert k <= |s|;
  }

  /** What stands in the masked text, stars apart, stood in the text before: both sides of a
      mask are adjacent slices of it, and nothing is spelt across a seam. */
  lemma {:induction false} MaskUrlsReflects(s: string, a: nat, i: nat, p: string, k: nat)
    requires a <= i <= |s| && Opaque(p) && OccursAt(s[a..i] + MaskUrls(s, i), p, k)
    ensures Contains(s, p)
    decreases |s| - i, 1
  {
    hide *;
    var q := Find(s, SEPARATOR, i);
    if q.None? {
      PlainReflects(s, a, i, p, k);
    } else {
      MaskUrlsStep(s, i, q.value);
      var e, split := AuthorityEnd(s, q.value), q.value + 3;
      var at := LastAt(s[split..e]);
      StepJoined(s, a, i, split, e, MaskUrls(s, e));
      if at.None? {
        MaskUrlsReflects(s, a, e, p, k);
      } else {
        AcrossMaskReflects(s, a, split, split + at.value, e, p, k);
      }
    }
  }

  lemma PlainReflects(s: string, a: nat, i: nat, p: string, k: nat)
    requires a <= i <= |s| && Find(s, SEPARATOR, i).None? && OccursAt(s[a..i] + MaskUrls(s, i), p, k)
    ensures Contains(s, p)
  {
    hide *;
    MaskUrlsNone(s, i);
    assert s[a..i] + s[i..] == s[a..|s|];
    SliceContains(s, a, |s|, p, k);
  }

  lemma {:induction false} AcrossMaskReflects(s: string, a: nat, split: nat, at: nat, e: nat, p: string, k: nat)
    requires a <= split <= at <= e <= |s| && Opaque(p)
    requires OccursAt(s[a..split] + MASK + (s[at..e] + MaskUrls(s, e)), p, k)
    ensures Contains(s, p)
    decreases |s| - e, 2
  {
    hide *;
    var x, y := s[a..split], s[at..e] + MaskUrls(s, e);
    AroundMask(x, y, p, k);
    if OccursAt(x, p, k) {
      SliceContains(s, a, split, p, k);
    } else {
      MaskUrlsReflects(s, at, e, p, k - |x| - 3);
    }
  }

  lemma SliceContains(s: string, i: nat, j: nat, p: string, k: nat)
    requires i <= j <= |s| && OccursAt(s[i..j], p, k)
    ensures Contains(s, p)
  {
    OccursInSlice(s, p, i, j, k);
    OccursWithin(s, p, i + k);
  }

  /** One step of the masking, with the text kept before it. */
  lemma StepJoined(s: string, a: nat, i: nat, split: nat, e: nat, rest: string)
    requires a <= i <= split <= e <= |s|
    ensures var at := LastAt(s[split..e]);
            s[a..i] + (s[i..split] + MaskAuthority(s[split..e]) + rest) ==
              if at.None? then s[a..e] + rest else s[a..split] + MASK + (s[split + at.value..e] + rest)
  {
    MaskAuthorityCases(s[split..e]);
    hide *;
    var at := LastAt(s[split..e]);
    if at.None? {
      JoinPlain(s, a, i, split, e, rest);
    } else {
      SliceTail(s, split, e, at.value);
      SlicesMeet(s, a, i, split);
      JoinMasked(s[a..i], s[i..split], s[split + at.value..e], rest);
    }
  }

  lemma SliceTail(s: string, i: nat, j: nat, n: nat)
    requires i + n <= j <= |s|
    ensures s[i..j][n..] == s[i + n..j]
  {
  }

  lemma SlicesMeet(s: string, i: nat, j: nat, k: nat)
    requires i <= j <= k <= |s|
    ensures s[i..j] + s[j..k] == s[i..k]
  {
  }

  lemma JoinPlain(s: string, a: nat, i: nat, split: nat, e: nat, rest: string)
    requires a <= i <= split <= e <= |s|
    ensures s[a..i] + (s[i..split] + s[split..e] + rest) == s[a..e] + rest
  {
  }

  lemma JoinMasked(a: string, b: string, c: string, rest: string)
    ensures a + (b + (MASK + c) + rest) == (a + b) + MASK + (c + rest)
  {
  }

  lemma MaskUrlsNone(s: string, i: nat)
    requires i <= |s| && Find(s, SEPARATOR, i).None?
    ensures MaskUrls(s, i) == s[i..]
  {
    hide Find;
  }

  lemma MaskAuthorityCases(authority: string)
    ensures var at := LastAt(authority);
            && (at.Some? ==> at.value < |authority| && authority[at.value] == '@')
            && MaskAuthority(authority) == if at.Some? then MASK + authority[at.value..] else authority
  {
    hide LastAt;
  }

  /** For every text, an opaque token is nowhere in the redacted text. */
  lemma RedactedHidesToken(text: string, token: string)
    requires Opaque(token)
    ensures !Contains(Redacted(text, Some(token)), token)
  {
    var out := Replaced(text, token, 0);
    ReplacedHasNone(text, token, 0);
    hide Replaced;
    hide OccursAt;
    hide Opaque;
    forall k: nat ensures !OccursAt(MaskUrls(out, 0), token, k) {
      if OccursAt(MaskUrls(out, 0), token, k) {
        assert out[0..0] + MaskUrls(out, 0) == MaskUrls(out, 0);
        MaskUrlsReflects(out, 0, 0, token, k);
      }
    }
  }

  /** A token without stars is opaque. */
  lemma StarFreeIsOpaque(token: string)
    requires token != "" && '*' !in token
    ensures Opaque(token)
  {
    forall k: nat ensures !OccursAt(token, MASK, k) {
      if OccursAt(token, MASK, k) { OccursAtChar(token, MASK, k, 0); }
    }
  }

  function Joined(ps: seq<string>, glue: string): string
    requires ps != []
  {
    if |ps| == 1 then ps[0] else ps[0] + glue + Joined(ps[1..], glue)
  }

  lemma JoinedMore(x: string, rest: seq<string>, glue: string)
    requires rest != []
    ensures Joined([x] + rest, glue) == x + glue + Joined(rest, glue)
  {
    assert ([x] + rest)[1..] == rest;
  }

  lemma ReplacedStep(s: string, token: string, i: nat, p: nat)
    requires token != "" && i <= |s| && Find(s, token, i) == Some(p)
    ensures i <= p && p + |token| <= |s| && s[i..] == s[i..p] + token + s[p + |token|..]
    ensures Replaced(s, token, i) == s[i..p] + MASK + Replaced(s, token, p + |token|)
  {
    FindLeast(s, token, i);
    hide Find;
    assert s[p..p + |token|] == token;
  }

  /** The replacement changes nothing but occurrences of the token: the text and its replacement
      are the same pieces, joined by the token and by the mask. */
  lemma {:induction false} OnlyTokensChange(s: string, token: string, i: nat) returns (ps: seq<string>)
    requires token != "" && i <= |s|
    ensures ps != [] && Joined(ps, token) == s[i..] && Joined(ps, MASK) == Replaced(s, token, i)
    decreases |s| - i
  {
    hide Find;
    var p := Find(s, token, i);
    if p.None? {
      ps := [s[i..]];
    } else {
      hide *;
      ReplacedStep(s, token, i, p.value);
      var rest := OnlyTokensChange(s, token, p.value + |token|);
      ps := [s[i..p.value]] + rest;
      JoinedMore(s[i..p.value], rest, token);
      JoinedMore(s[i..p.value], rest, MASK);
    }
  }

  // ---- the second scan stops at the same authorities ----

  predicate AllAuthority(s: string) { forall j :: 0 <= j < |s| ==> Is(s[j], Authority) }

  /** Text that an authority cannot run into. */
  predicate StartsOutside(s: string) { s != "" ==> !Is(s[0], Authority) }

  lemma MaskAuthorityFacts(authority: string)
    requires AllAuthority(authority)
    ensures var m := MaskAuthority(authority);
            && AllAuthority(m) && MaskAuthority(m) == m
            && (m == "" <==> authority == "")
            && (m != "" ==> m[|m| - 1] == authority[|authority| - 1])
  {
    hide LastAt;
    var at := LastAt(authority);
    if at.Some? {
      var m := MASK + authority[at.value..];
      assert forall j :: 3 <= j < |m| ==> m[j] == authority[at.value + j - 3];
      LastAtIs(m, 3);
      assert m[3..] == authority[at.value..];
    }
  }

  /** The scan of a text cut at its first authority. */
  lemma ScanOf(head: string, m: string, rest: string)
    requires |head| >= 3 && Find(head, SEPARATOR, 0) == Some(|head| - 3)
    requires AllAuthority(m) && StartsOutside(rest)
    ensures var t := head + m + rest;
            && Find(t, SEPARATOR, 0) == Some(|head| - 3) && AuthorityEnd(t, |head| - 3) == |head| + |m|
            && MaskUrls(t, 0) == head + MaskAuthority(m) + MaskUrls(rest, 0)
  {
    hide *;
    var t := head + m + rest;
    assert t == head + (m + rest) && t == (head + m) + rest;
    FindInPrefix(head, m + rest);
    AuthorityOf(head, m, rest);
    MaskUrlsStep(t, 0, |head| - 3);
    assert t[0..|head|] == head && t[|head|..|head| + |m|] == m;
    MaskUrlsShift(head + m, rest, 0);
  }

  lemma FindInPrefix(head: string, tail: string)
    requires |head| >= 3 && Find(head, SEPARATOR, 0) == Some(|head| - 3)
    ensures Find(head + tail, SEPARATOR, 0) == Some(|head| - 3)
  {
    FindLeast(head, SEPARATOR, 0);
    var t := head + tail;
    forall k: nat | k <= |head| - 3 ensures OccursAt(t, SEPARATOR, k) <==> OccursAt(head, SEPARATOR, k) {
      assert t[k..k + 3] == head[k..k + 3];
    }
    FindIs(t, SEPARATOR, 0, |head| - 3);
  }

  lemma AuthorityOf(head: string, m: string, rest: string)
    requires |head| >= 3 && AllAuthority(m) && StartsOutside(rest)
    ensures AuthorityEnd(head + m + rest, |head| - 3) == |head| + |m|
  {
    var t := head + m + rest;
    assert forall j :: |head| <= j < |head| + |m| ==> t[j] == m[j - |head|];
    RunEndIs(t, |head|, Authority, |head| + |m|);
  }

  lemma FindFromCursor(s: string, i: nat, p: nat)
    requires i <= |s| && Find(s, SEPARATOR, i) == Some(p)
    ensures i <= p && p + 3 <= |s| && Find(s[i..p + 3], SEPARATOR, 0) == Some(p - i)
  {
    FindLeast(s, SEPARATOR, i);
    var head := s[i..p + 3];
    forall k: nat | k <= p - i ensures OccursAt(head, SEPARATOR, k) <==> OccursAt(s, SEPARATOR, i + k) {
      SliceOfSlice(s, i, p + 3, k, k + 3);
    }
    hide Find;
    FindIs(head, SEPARATOR, 0, p - i);
  }

  /** Masking rewrites nothing before its first mask. */
  lemma MaskUrlsStart(s: string, e: nat)
    requires e <= |s|
    ensures |s| - e < 3 ==> MaskUrls(s, e) == s[e..]
    ensures |s| - e >= 3 ==> |MaskUrls(s, e)| >= 3 && MaskUrls(s, e)[..3] == s[e..e + 3]
  {
    hide *;
    var p := Find(s, SEPARATOR, e);
    if p.None? {
      MaskUrlsNone(s, e);
    } else {
      MaskUrlsStep(s, e, p.value);
    }
  }

  lemma RestStartsOutside(s: string, p: nat)
    requires p + 3 <= |s|
    ensures var e := AuthorityEnd(s, p); StartsOutside(MaskUrls(s, e)) && AllAuthority(s[p + 3..e])
  {
    hide RunEnd;
    hide MaskUrls;
    MaskUrlsStart(s, AuthorityEnd(s, p));
  }

  /** Masking is idempotent from any cursor of the scan. */
  lemma {:induction false} MaskUrlsTwice(s: string, i: nat)
    requires i <= |s|
    ensures MaskUrls(MaskUrls(s, i), 0) == MaskUrls(s, i)
    decreases |s| - i
  {
    hide *;
    var p := Find(s, SEPARATOR, i);
    if p.None? {
      MaskUrlsNone(s, i);
      assert s == s[..i] + s[i..];
      FindShift(s[..i], s[i..], SEPARATOR, 0);
      MaskUrlsNone(s[i..], 0);
    } else {
      FindFromCursor(s, i, p.value);
      MaskUrlsStep(s, i, p.value);
      var e := AuthorityEnd(s, p.value);
      RestStartsOutside(s, p.value);
      var authority := s[p.value + 3..e];
      MaskAuthorityFacts(authority);
      ScanOf(s[i..p.value + 3], MaskAuthority(authority), MaskUrls(s, e));
      MaskUrlsTwice(s, e);
    }
  }

  // ---- what is changed ----

  datatype Piece = Kept(text: string) | Userinfo(text: string)

  function Original(ps: seq<Piece>): string {
    if ps == [] then "" else ps[0].text + Original(ps[1..])
  }

  function Shown(ps: seq<Piece>): string {
    if ps == [] then "" else (if ps[0].Kept? then ps[0].text else MASK) + Shown(ps[1..])
  }

  /** Each userinfo stands between a `://` and an `@`, with no delimiter inside. */
  predicate WellPlaced(ps: seq<Piece>) {
    forall j :: 0 <= j < |ps| && ps[j].Userinfo? ==>
      && AllAuthority(ps[j].text)
      && j > 0 && ps[j - 1].Kept? && SEPARATOR <= LastThree(ps[j - 1].text)
      && j + 1 < |ps| && ps[j + 1].Kept? && "@" <= ps[j + 1].text
  }

  function LastThree(s: string): string { if |s| < 3 then s else s[|s| - 3..] }

  /** Masking changes nothing but userinfo. */
  lemma {:induction false} OnlyUserinfoChanges(s: string, i: nat) returns (ps: seq<Piece>)
    requires i <= |s|
    ensures Original(ps) == s[i..] && Shown(ps) == MaskUrls(s, i) && WellPlaced(ps)
    decreases |s| - i
  {
    hide *;
    var p := Find(s, SEPARATOR, i);
    if p.None? {
      MaskUrlsNone(s, i);
      NoPieces();
      KeptFirst(s[i..], []);
      ps := [Kept(s[i..])] + [];
    } else {
      EndsWithSeparator(s, i, p.value);
      MaskUrlsStep(s, i, p.value);
      var e, split := AuthorityEnd(s, p.value), p.value + 3;
      RestStartsOutside(s, p.value);
      var rest := OnlyUserinfoChanges(s, e);
      ps := NextPieces(s, i, split, e, rest);
    }
  }

  lemma NextPieces(s: string, i: nat, split: nat, e: nat, rest: seq<Piece>) returns (ps: seq<Piece>)
    requires i <= split <= e <= |s| && AllAuthority(s[split..e]) && SEPARATOR <= LastThree(s[i..split])
    requires Original(rest) == s[e..] && WellPlaced(rest)
    ensures Original(ps) == s[i..] && WellPlaced(ps)
    ensures Shown(ps) == s[i..split] + MaskAuthority(s[split..e]) + Shown(rest)
  {
    hide *;
    var at := LastAt(s[split..e]);
    MaskAuthorityCases(s[split..e]);
    if at.None? {
      ps := [Kept(s[i..e])] + rest;
      KeptFirst(s[i..e], rest);
      assert s[i..e] == s[i..split] + s[split..e] && s[i..e] + s[e..] == s[i..];
    } else {
      var a := split + at.value;
      assert s[split..e][at.value] == s[a];
      ps := MaskedPieces(s, i, split, a, e, rest);
    }
  }

  lemma MaskedPieces(s: string, i: nat, split: nat, a: nat, e: nat, rest: seq<Piece>) returns (ps: seq<Piece>)
    requires i <= split <= a < e <= |s| && s[a] == '@'
    requires AllAuthority(s[split..e]) && SEPARATOR <= LastThree(s[i..split])
    requires Original(rest) == s[e..] && WellPlaced(rest)
    ensures Original(ps) == s[i..] && WellPlaced(ps)
    ensures Shown(ps) == s[i..split] + (MASK + s[split..e][a - split..]) + Shown(rest)
  {
    hide *;
    ps := [Kept(s[i..split]), Userinfo(s[split..a]), Kept(s[a..e])] + rest;
    CutAtUserinfo(s, i, split, a, e);
    MaskedFirst(s[i..split], s[split..a], s[a..e], rest);
    Reassociate(s[i..split], MASK, s[a..e], Shown(rest));
  }

  lemma NoPieces()
    ensures Original([]) == "" && Shown([]) == "" && WellPlaced([])
  {
  }

  lemma Reassociate(a: string, b: string, c: string, d: string)
    ensures a + (b + (c + d)) == a + (b + c) + d
  {
  }

  lemma CutAtUserinfo(s: string, i: nat, split: nat, a: nat, e: nat)
    requires i <= split <= a < e <= |s| && AllAuthority(s[split..e]) && s[a] == '@'
    ensures s[i..split] + (s[split..a] + (s[a..e] + s[e..])) == s[i..]
    ensures AllAuthority(s[split..a]) && "@" <= s[a..e] && s[split..e][a - split..] == s[a..e]
  {
    assert forall j :: 0 <= j < |s[split..a]| ==> s[split..a][j] == s[split..e][j];
  }

  lemma EndsWithSeparator(s: string, i: nat, p: nat)
    requires i <= |s| && Find(s, SEPARATOR, i) == Some(p)
    ensures i <= p && p + 3 <= |s| && SEPARATOR <= LastThree(s[i..p + 3])
  {
    FindLeast(s, SEPARATOR, i);
    hide Find;
    var x := s[i..p + 3];
    assert x[|x| - 3..] == s[p..p + 3];
  }

  lemma KeptFirst(a: string, rest: seq<Piece>)
    requires WellPlaced(rest)
    ensures var ps := [Kept(a)] + rest;
            WellPlaced(ps) && Original(ps) == a + Original(rest) && Shown(ps) == a + Shown(rest)
  {
    hide Original;
    hide Shown;
    var ps := [Kept(a)] + rest;
    assert forall j :: 1 <= j < |ps| ==> ps[j] == rest[j - 1];
    FirstPiece(ps[0], rest);
  }

  lemma FirstPiece(x: Piece, rest: seq<Piece>)
    ensures Original([x] + rest) == x.text + Original(rest)
    ensures Shown([x] + rest) == (if x.Kept? then x.text else MASK) + Shown(rest)
  {
    assert ([x] + rest)[1..] == rest;
  }

  lemma MaskedFirst(a: string, u: string, b: string, rest: seq<Piece>)
    requires WellPlaced(rest) && SEPARATOR <= LastThree(a) && AllAuthority(u) && "@" <= b
    ensures var ps := [Kept(a), Userinfo(u), Kept(b)] + rest;
            && WellPlaced(ps) && Original(ps) == a + (u + (b + Original(rest)))
            && Shown(ps) == a + (MASK + (b + Shown(rest)))
  {
    hide Original;
    hide Shown;
    hide AllAuthority;
    hide LastThree;
    var ps := [Kept(a), Userinfo(u), Kept(b)] + rest;
    assert forall j :: 3 <= j < |ps| ==> ps[j] == rest[j - 3];
    assert ps == [Kept(a)] + ([Userinfo(u)] + ([Kept(b)] + rest));
    FirstPiece(Kept(b), rest);
    FirstPiece(Userinfo(u), [Kept(b)] + rest);
    FirstPiece(Kept(a), [Userinfo(u)] + ([Kept(b)] + rest));
  }

  // ---- every URL, or only those the scan stops at ----

  /** The URL whose `://` stands at `k` shows no userinfo but the mask. */
  predicate Clean(s: string, k: nat) {
    k + 3 <= |s| ==> ShowsOnlyMask(s[k + 3..AuthorityEnd(s, k)])
  }

  predicate ShowsOnlyMask(authority: string) {
    var at := LastAt(authority);
    at.Some? ==> authority[..at.value] == MASK
  }

  ghost predicate AllClean(s: string) {
    forall k: nat :: OccursAt(s, SEPARATOR, k) ==> Clean(s, k)
  }

  /** A `://` whose colon ends the authority of the URL at `p`; the scan steps over it. */
  predicate Nested(s: string, p: nat) {
    p + 3 <= |s| && AuthorityEnd(s, p) > p + 3 && OccursAt(s, SEPARATOR, AuthorityEnd(s, p) - 1)
  }

  /** No stepped-over URL has userinfo. */
  predicate NestedClean(s: string, i: nat)
    requires i <= |s|
    decreases |s| - i
  {
    var p := Find(s, SEPARATOR, i);
    p.Some? ==>
      && (Nested(s, p.value) ==> Clean(s, AuthorityEnd(s, p.value) - 1))
      && NestedClean(s, AuthorityEnd(s, p.value))
  }

  lemma NestedCleanStep(s: string, i: nat, p: nat)
    requires i <= |s| && Find(s, SEPARATOR, i) == Some(p)
    ensures i <= p && p + 3 <= |s|
    ensures NestedClean(s, i) <==>
            (Nested(s, p) ==> Clean(s, AuthorityEnd(s, p) - 1)) && NestedClean(s, AuthorityEnd(s, p))
  {
    hide Find;
    hide AuthorityEnd;
    hide Nested;
    hide Clean;
  }

  lemma CleanShift(a: string, s: string, k: nat)
    requires k + 3 <= |s|
    ensures Clean(a + s, |a| + k) <==> Clean(s, k)
  {
    AuthorityEndShift(a, s, k);
    hide AuthorityEnd;
    hide ShowsOnlyMask;
    assert (a + s)[|a| + k + 3..|a| + AuthorityEnd(s, k)] == s[k + 3..AuthorityEnd(s, k)];
  }

  lemma MaskedIsClean(head: string, m: string, rest: string)
    requires |head| >= 3 && AllAuthority(m) && StartsOutside(rest)
    ensures Clean(head + MaskAuthority(m) + rest, |head| - 3)
  {
    MaskAuthorityFacts(m);
    var x := MaskAuthority(m);
    AuthorityOf(head, x, rest);
    assert (head + x + rest)[|head|..|head| + |x|] == x;
    MaskedShowsMask(m);
    hide AuthorityEnd;
    hide MaskAuthority;
  }

  lemma MaskedShowsMask(authority: string)
    ensures ShowsOnlyMask(MaskAuthority(authority))
  {
    var at := LastAt(authority);
    if at.Some? {
      var m := MASK + authority[at.value..];
      hide LastAt;
      assert forall j :: 3 <= j < |m| ==> m[j] == authority[at.value + j - 3];
      LastAtIs(m, 3);
    }
  }

  lemma SeparatorChars(s: string, k: nat)
    requires OccursAt(s, SEPARATOR, k)
    ensures k + 3 <= |s| && s[k] == ':' && s[k + 1] == '/' && s[k + 2] == '/'
  {
    OccursAtChar(s, SEPARATOR, k, 0);
    OccursAtChar(s, SEPARATOR, k, 1);
    OccursAtChar(s, SEPARATOR, k, 2);
  }

  lemma NotBefore(head: string, tail: string, k: nat)
    requires |head| >= 3 && Find(head, SEPARATOR, 0) == Some(|head| - 3)
    requires OccursAt(head + tail, SEPARATOR, k)
    ensures |head| - 3 <= k
  {
    FindLeast(head, SEPARATOR, 0);
    hide *;
    if k < |head| - 3 { OccursInPrefix(head, tail, k); }
  }

  /** Where a `://` can stand in a text cut at its first authority. */
  lemma OccurrencesOf(head: string, x: string, rest: string, k: nat)
    requires |head| >= 3 && Find(head, SEPARATOR, 0) == Some(|head| - 3) && AllAuthority(x)
    requires OccursAt(head + x + rest, SEPARATOR, k)
    ensures k == |head| - 3 || (x != "" && k == |head| + |x| - 1) || k >= |head| + |x|
  {
    hide *;
    assert head + x + rest == head + (x + rest);
    NotBefore(head, x + rest, k);
    SeparatorEndsHead(head);
    SeparatorChars(head, |head| - 3);
    SeparatorChars(head + x + rest, k);
    NoSlash(x);
  }

  lemma SeparatorEndsHead(head: string)
    requires |head| >= 3 && Find(head, SEPARATOR, 0) == Some(|head| - 3)
    ensures OccursAt(head, SEPARATOR, |head| - 3)
  {
    hide *;
    FindLeast(head, SEPARATOR, 0);
  }

  lemma NoSlash(x: string)
    requires AllAuthority(x)
    ensures forall j :: 0 <= j < |x| ==> x[j] != '/'
  {
  }

  lemma OccursInPrefix(head: string, tail: string, k: nat)
    requires k + 3 <= |head| && OccursAt(head + tail, SEPARATOR, k)
    ensures OccursAt(head, SEPARATOR, k)
  {
    assert (head + tail)[k..k + 3] == head[k..k + 3];
  }

  /** `AllClean` of a text cut at its first authority, already masked. */
  lemma AllCleanOf(head: string, m: string, rest: string)
    requires |head| >= 3 && Find(head, SEPARATOR, 0) == Some(|head| - 3)
    requires AllAuthority(m) && StartsOutside(rest)
    ensures var x := MaskAuthority(m);
            var t := head + x + rest;
            var n := |head| + |x| - 1;
            AllClean(t) <==> AllClean(rest) && (x != "" && OccursAt(t, SEPARATOR, n) ==> Clean(t, n))
  {
    hide *;
    MaskedIsClean(head, m, rest);
    MaskAuthorityFacts(m);
    var x := MaskAuthority(m);
    var t := head + x + rest;
    var n := |head| + |x|;
    assert t == (head + x) + rest;
    forall k: nat ensures OccursAt(t, SEPARATOR, n + k) <==> OccursAt(rest, SEPARATOR, k) {
      OccursShift(head + x, rest, SEPARATOR, k);
    }
    forall k: nat | OccursAt(rest, SEPARATOR, k) ensures Clean(t, n + k) <==> Clean(rest, k) {
      OccursFits(rest, k);
      CleanShift(head + x, rest, k);
    }
    forall k: nat | OccursAt(t, SEPARATOR, k) ensures k == |head| - 3 || (x != "" && k == n - 1) || k >= n {
      OccurrencesOf(head, x, rest, k);
    }
    AllCleanSplits(t, rest, |head| - 3, n, x != "");
  }

  lemma OccursFits(s: string, k: nat)
    requires OccursAt(s, SEPARATOR, k)
    ensures k + 3 <= |s|
  {
  }

  lemma AllCleanSplits(t: string, rest: string, first: nat, n: nat, nested: bool)
    requires forall k: nat :: OccursAt(t, SEPARATOR, n + k) <==> OccursAt(rest, SEPARATOR, k)
    requires forall k: nat :: OccursAt(rest, SEPARATOR, k) ==> (Clean(t, n + k) <==> Clean(rest, k))
    requires forall k: nat :: OccursAt(t, SEPARATOR, k) ==> k == first || (nested && k == n - 1) || k >= n
    requires first + 3 <= |t| && Clean(t, first) && (nested ==> n > 0)
    ensures AllClean(t) <==> AllClean(rest) && (nested && OccursAt(t, SEPARATOR, n - 1) ==> Clean(t, n - 1))
  {
    hide Clean;
    if AllClean(t) {
      forall k: nat | OccursAt(rest, SEPARATOR, k) ensures Clean(rest, k) {
        assert OccursAt(t, SEPARATOR, n + k);
      }
    }
    if AllClean(rest) && (nested && OccursAt(t, SEPARATOR, n - 1) ==> Clean(t, n - 1)) {
      forall k: nat | OccursAt(t, SEPARATOR, k) ensures Clean(t, k) {
        if k >= n {
          var j: nat := k - n;
          assert OccursAt(t, SEPARATOR, n + j);
          assert OccursAt(rest, SEPARATOR, j);
        }
      }
    }
  }

  lemma SeparatorIs(s: string, k: nat)
    requires k + 3 <= |s| && s[k] == ':' && s[k + 1] == '/' && s[k + 2] == '/'
    ensures OccursAt(s, SEPARATOR, k)
  {
    assert s[k..k + 3] == [s[k], s[k + 1], s[k + 2]];
  }

  /** A `://` whose colon ends `a` and whose slashes start `b`. */
  lemma SeparatorAcross(a: string, b: string)
    requires a != ""
    ensures OccursAt(a + b, SEPARATOR, |a| - 1) <==> a[|a| - 1] == ':' && |b| >= 2 && b[0] == '/' && b[1] == '/'
  {
    hide OccursAt;
    if OccursAt(a + b, SEPARATOR, |a| - 1) { SeparatorChars(a + b, |a| - 1); }
    if a[|a| - 1] == ':' && |b| >= 2 && b[0] == '/' && b[1] == '/' { SeparatorIs(a + b, |a| - 1); }
  }

  lemma CleanAcross(a: string, b: string)
    requires a != "" && |b| >= 2
    ensures Clean(a + b, |a| - 1) <==> ShowsOnlyMask(b[2..RunEnd(b, 2, Authority)])
  {
    hide *;
    RunEndShift(a, b, 2, Authority);
    CleanIs(a + b, |a| - 1);
    assert (a + b)[|a| + 2..|a| + RunEnd(b, 2, Authority)] == b[2..RunEnd(b, 2, Authority)];
  }

  lemma CleanIs(s: string, k: nat)
    requires k + 3 <= |s|
    ensures k + 3 <= RunEnd(s, k + 3, Authority) <= |s|
    ensures Clean(s, k) <==> ShowsOnlyMask(s[k + 3..RunEnd(s, k + 3, Authority)])
  {
    hide RunEnd;
    hide ShowsOnlyMask;
  }

  lemma NestedAuthority(s: string, e: nat)
    requires e + 2 <= |s| && s[e] == '/' && s[e + 1] == '/'
    ensures var rest, f := MaskUrls(s, e), RunEnd(s[e..], 2, Authority);
            |rest| >= 2 && RunEnd(rest, 2, Authority) == f && rest[2..f] == s[e..][2..f]
  {
    hide *;
    var u := s[e..];
    var p := Find(s, SEPARATOR, e);
    if p.None? {
      MaskUrlsNone(s, e);
    } else {
      MaskUrlsStep(s, e, p.value);
      FindAtColon(s, e, p.value);
      RunStopsBySlash(u, 2, p.value + 1 - e);
      var f := RunEnd(u, 2, Authority);
      RunEndPrefix(u, MaskUrls(s, e), 2, p.value + 3 - e);
    }
  }

  lemma FindAtColon(s: string, i: nat, p: nat)
    requires i <= |s| && Find(s, SEPARATOR, i) == Some(p)
    ensures p + 3 <= |s| && s[p] == ':' && s[p + 1] == '/'
  {
    FindLeast(s, SEPARATOR, i);
    hide Find;
    SeparatorChars(s, p);
  }

  lemma RunStopsBySlash(s: string, i: nat, k: nat)
    requires i <= k < |s| && s[k] == '/'
    ensures RunEnd(s, i, Authority) <= k
  {
    hide RunEnd;
  }

  lemma RunEndPrefix(s: string, s': string, i: nat, n: nat)
    requires i <= n <= |s| && n <= |s'| && s[..n] == s'[..n] && RunEnd(s, i, Authority) < n
    ensures var f := RunEnd(s, i, Authority); RunEnd(s', i, Authority) == f && s'[i..f] == s[i..f]
  {
    var f := RunEnd(s, i, Authority);
    assert forall j :: 0 <= j < n ==> s'[j] == s[..n][j];
    RunEndIs(s', i, Authority, f);
    hide RunEnd;
  }

  lemma NestedAcross(a: string, s: string, e: nat)
    requires a != "" && 0 < e <= |s| && a[|a| - 1] == s[e - 1]
    ensures var t := a + MaskUrls(s, e);
            && (OccursAt(t, SEPARATOR, |a| - 1) <==> OccursAt(s, SEPARATOR, e - 1))
            && (OccursAt(s, SEPARATOR, e - 1) ==> (Clean(t, |a| - 1) <==> Clean(s, e - 1)))
  {
    hide *;
    var rest, b, u := MaskUrls(s, e), s[..e], s[e..];
    assert s == b + u && b[|b| - 1] == s[e - 1];
    SameStart(s, e);
    SeparatorAcross(a, rest);
    SeparatorAcross(b, u);
    if OccursAt(s, SEPARATOR, e - 1) {
      NestedAuthority(s, e);
      CleanAcross(a, rest);
      CleanAcross(b, u);
    }
  }

  lemma SameStart(s: string, e: nat)
    requires e <= |s|
    ensures var rest := MaskUrls(s, e);
            && (|rest| >= 2 <==> |s| - e >= 2)
            && (|rest| >= 2 ==> rest[0] == s[e] && rest[1] == s[e + 1])
  {
    MaskUrlsStart(s, e);
    hide MaskUrls;
    var rest := MaskUrls(s, e);
    if |s| - e >= 3 {
      assert rest[..3][0] == s[e] && rest[..3][1] == s[e + 1];
    }
  }

  /** A nested URL is where it was, and with the authority it had. */
  lemma NestedSurvives(s: string, p: nat, head: string, e: nat, x: string, t: string)
    requires p + 3 <= |s| && head != "" && e == AuthorityEnd(s, p) && x == MaskAuthority(s[p + 3..e])
    requires t == head + x + MaskUrls(s, e)
    ensures Nested(s, p) <==> x != "" && OccursAt(t, SEPARATOR, |head| + |x| - 1)
    ensures Nested(s, p) ==> (Clean(t, |head| + |x| - 1) <==> Clean(s, e - 1))
  {
    hide *;
    NestedMeans(s, p);
    MaskedLast(s, p, e);
    if x != "" {
      LastOf(head, x);
      NestedAcross(head + x, s, e);
    }
  }

  lemma MaskedLast(s: string, p: nat, e: nat)
    requires p + 3 <= |s| && e == AuthorityEnd(s, p)
    ensures p + 3 <= e <= |s|
    ensures var x := MaskAuthority(s[p + 3..e]);
            (x == "" <==> e == p + 3) && (x != "" ==> x[|x| - 1] == s[e - 1])
  {
    RestStartsOutside(s, p);
    hide *;
    MaskAuthorityFacts(s[p + 3..e]);
  }

  lemma LastOf(head: string, x: string)
    requires x != ""
    ensures head + x != "" && |head + x| == |head| + |x| && (head + x)[|head| + |x| - 1] == x[|x| - 1]
  {
  }

  lemma NestedMeans(s: string, p: nat)
    requires p + 3 <= |s|
    ensures AuthorityEnd(s, p) >= p + 3
    ensures Nested(s, p) <==> AuthorityEnd(s, p) > p + 3 && OccursAt(s, SEPARATOR, AuthorityEnd(s, p) - 1)
  {
    hide AuthorityEnd;
    hide OccursAt;
  }

  /** After masking, every URL of the text shows no userinfo but the mask, exactly when no
      URL that the scan steps over has any. */
  lemma {:induction false} AllCleanExactly(s: string, i: nat)
    requires i <= |s|
    ensures AllClean(MaskUrls(s, i)) <==> NestedClean(s, i)
    decreases |s| - i
  {
    hide *;
    var p := Find(s, SEPARATOR, i);
    if p.None? {
      MaskUrlsNone(s, i);
      NoUrls(s, i);
    } else {
      NestedCleanStep(s, i, p.value);
      MaskUrlsStep(s, i, p.value);
      FindFromCursor(s, i, p.value);
      RestStartsOutside(s, p.value);
      var e := AuthorityEnd(s, p.value);
      AllCleanOf(s[i..p.value + 3], s[p.value + 3..e], MaskUrls(s, e));
      NestedSurvives(s, p.value, s[i..p.value + 3], e, MaskAuthority(s[p.value + 3..e]), MaskUrls(s, i));
      AllCleanExactly(s, e);
    }
  }

  lemma NoUrls(s: string, i: nat)
    requires i <= |s| && Find(s, SEPARATOR, i).None?
    ensures AllClean(s[i..]) && NestedClean(s, i)
  {
    FindLeast(s, SEPARATOR, i);
    hide Find;
    hide Clean;
    hide OccursAt;
    forall k: nat ensures !OccursAt(s[i..], SEPARATOR, k) {
      assert s[i..] == s[i..|s|];
      if OccursAt(s[i..], SEPARATOR, k) { OccursInSlice(s, SEPARATOR, i, |s|, k); }
    }
  }

  /** The condition is needed: a URL that begins inside another one's authority keeps its
      userinfo, and the text comes back unchanged. */
  lemma NestedUrlKeepsUserinfo()
    ensures var s := "a" + "://" + "b:" + "//c@d"; MaskUrls(s, 0) == s && !AllClean(s)
  {
    hide *;
    var head := "a" + "://";
    FirstUrl("a");
    PlainAuthority("b:");
    NestedTail();
    ScanOf(head, "b:", "//c@d");
    LastOf(head, "b:");
    NestedNotClean(head + "b:", "//c@d");
  }

  lemma NestedNotClean(a: string, rest: string)
    requires a != "" && a[|a| - 1] == ':' && |rest| >= 2 && rest[0] == '/' && rest[1] == '/'
    requires !ShowsOnlyMask(rest[2..RunEnd(rest, 2, Authority)])
    ensures !AllClean(a + rest)
  {
    hide *;
    SeparatorAcross(a, rest);
    CleanAcross(a, rest);
    NotAllClean(a + rest, |a| - 1);
  }

  lemma FirstUrl(scheme: string)
    requires ':' !in scheme
    ensures Find(scheme + "://", SEPARATOR, 0) == Some(|scheme|)
  {
    var s := scheme + "://";
    SeparatorIs(s, |scheme|);
    forall k: nat | k < |scheme| ensures !OccursAt(s, SEPARATOR, k) {
      assert s[k] == scheme[k];
      if OccursAt(s, SEPARATOR, k) { OccursAtChar(s, SEPARATOR, k, 0); }
    }
    hide OccursAt;
    FindIs(s, SEPARATOR, 0, |scheme|);
  }

  lemma PlainAuthority(m: string)
    requires m == "b:"
    ensures m != "" && m[|m| - 1] == ':' && AllAuthority(m) && MaskAuthority(m) == m
  {
    assert m[0] == 'b' && m[1] == ':';
    MaskAuthorityCases(m);
  }

  lemma NoSeparator(s: string)
    requires ':' !in s
    ensures MaskUrls(s, 0) == s
  {
    FindLeast(s, SEPARATOR, 0);
    if Find(s, SEPARATOR, 0).Some? { OccursAtChar(s, SEPARATOR, Find(s, SEPARATOR, 0).value, 0); }
    MaskUrlsNone(s, 0);
    assert s[0..] == s;
  }

  lemma NestedTail()
    ensures var s := "//c@d";
            && StartsOutside(s) && MaskUrls(s, 0) == s && 2 <= RunEnd(s, 2, Authority)
            && !ShowsOnlyMask(s[2..RunEnd(s, 2, Authority)])
  {
    var s := "//c@d";
    assert s[0] == '/' && s[1] == '/' && s[2] == 'c' && s[3] == '@' && s[4] == 'd';
    RunEndIs(s, 2, Authority, 5);
    NoSeparator(s);
    var a := s[2..5];
    assert a[0] == 'c' && a[1] == '@' && a[2] == 'd';
    LastAtIs(a, 1);
    hide RunEnd;
    hide MaskUrls;
    hide LastAt;
    assert |a[..1]| == 1;
  }

  lemma NotAllClean(s: string, k: nat)
    requires OccursAt(s, SEPARATOR, k) && !Clean(s, k)
    ensures !AllClean(s)
  {
  }

  // ---- authenticating twice ----

  lemma FindSlash(authority: string, tail: string)
    requires '/' !in authority && (tail != "" ==> tail[0] == '/')
    ensures Find(authority + tail, "/", 0) == if tail == "" then None else Some(|authority|)
  {
    var rest := authority + tail;
    forall k: nat ensures OccursAt(rest, "/", k) <==> k < |rest| && rest[k] == '/' {
      assert k < |rest| ==> rest[k..k + 1] == [rest[k]];
    }
    hide OccursAt;
    if tail == "" {
      FindLeast(rest, "/", 0);
      assert rest == authority;
      hide Find;
    } else {
      FindIs(rest, "/", 0, |authority|);
      hide Find;
    }
  }

  lemma HostPathOf(authority: string, tail: string)
    requires '/' !in authority && (tail != "" ==> tail[0] == '/')
    ensures HostPath(authority + tail) == StripUserinfo(authority) + tail
  {
    FindSlash(authority, tail);
    hide Find;
    hide StripUserinfo;
    var rest := authority + tail;
    if tail == "" {
      assert rest == authority;
    } else {
      assert rest[..|authority|] == authority && tail == rest[|authority|..];
    }
  }

  lemma SplitAtSlash(s: string) returns (authority: string, tail: string)
    ensures s == authority + tail && '/' !in authority && (tail != "" ==> tail[0] == '/')
    ensures tail == "" <==> '/' !in s
  {
    var k := 0;
    while k < |s| && s[k] != '/'
      invariant 0 <= k <= |s| && '/' !in s[..k]
    {
      k := k + 1;
    }
    authority, tail := s[..k], s[k..];
    assert s == authority + tail;
  }

  lemma StripOf(user: string, host: string)
    requires '@' !in host
    ensures StripUserinfo(user + "@" + host) == host
  {
    var s := user + "@" + host;
    assert forall j :: |user| < j < |s| ==> s[j] == host[j - |user| - 1];
    LastAtIs(s, |user|);
    assert s[|user| + 1..] == host;
  }

  lemma StripHasNoAt(authority: string)
    requires '/' !in authority
    ensures '@' !in StripUserinfo(authority) && '/' !in StripUserinfo(authority)
  {
    hide LastAt;
  }

  lemma HostPathOfToken(token: string, rest: string)
    ensures var r := USER + token + "@" + HostPath(rest);
            '/' !in token ==> HostPath(r) == HostPath(rest)
    ensures var r := USER + token + "@" + HostPath(rest);
            '/' in token ==> |HostPath(r)| > |HostPath(rest)|
  {
    hide *;
    var authority, tail := SplitAtSlash(rest);
    HostPathOf(authority, tail);
    StripHasNoAt(authority);
    var host := StripUserinfo(authority);
    var a, b := SplitAtSlash(token);
    UserHasNoSlash(a);
    if '/' !in token {
      assert USER + token + "@" + (host + tail) == (USER + a + "@" + host) + tail;
      HostPathOf(USER + a + "@" + host, tail);
      StripOf(USER + a, host);
    } else {
      assert USER + token + "@" + (host + tail) == (USER + a) + (b + "@" + (host + tail));
      HostPathOf(USER + a, b + "@" + (host + tail));
    }
  }

  lemma UserHasNoSlash(a: string)
    requires '/' !in a
    ensures '/' !in USER + a
  {
  }

  /** Authenticating an authenticated https URL with a second token is authenticating the
      original with it, exactly when the first token has no slash. */
  lemma ReauthenticateExactly(url: string, first: string, second: string)
    requires first != "" && second != "" && SCHEME <= url
    ensures var once := AuthenticatedUrl(url, Some(first));
            && once.Url?
            && (AuthenticatedUrl(once.url, Some(second)) == AuthenticatedUrl(url, Some(second)) <==> '/' !in first)
  {
    hide *;
    var rest := url[|SCHEME|..];
    AuthenticatedIs(url, first);
    AuthenticatedIs(url, second);
    HostPathOfToken(first, rest);
    var r := USER + first + "@" + HostPath(rest);
    assert SCHEME <= SCHEME + r && (SCHEME + r)[|SCHEME|..] == r;
    AuthenticatedIs(SCHEME + r, second);
    var p, a, b := SCHEME + (USER + second + "@"), HostPath(r), HostPath(rest);
    assert (p + a)[|p|..] == a && (p + b)[|p|..] == b;
  }

  lemma AuthenticatedIs(url: string, token: string)
    requires token != "" && SCHEME <= url
    ensures var tail := HostPath(url[|SCHEME|..]);
            && AuthenticatedUrl(url, Some(token)) == Url(SCHEME + (USER + token + "@" + tail))
            && AuthenticatedUrl(url, Some(token)) == Url(SCHEME + (USER + token + "@") + tail)
  {
    hide HostPath;
    var tail := HostPath(url[|SCHEME|..]);
    assert SCHEME + USER + token + "@" + tail == SCHEME + (USER + token + "@" + tail);
    assert SCHEME + USER + token + "@" + tail == SCHEME + (USER + token + "@") + tail;
  }
}
