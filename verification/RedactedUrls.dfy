/** What `redact` makes of every text, whatever token it is given or none: the equations that
    determine it, written with the delimiters themselves, and what no text shows afterwards. */
module RedactedUrls {
  import opened HiddenTokens
  import opened Redaction
  import opened Text

  // ---- the equations of the masking ----

  /** What ends an authority. */
  predicate Delimits(c: char) { c == '/' || c == '?' || c == '#' || IsSpace(c) }

  predicate NoDelimiter(s: string) { forall k :: 0 <= k < |s| ==> !Delimits(s[k]) }

  /** Nothing, or text that a delimiter opens. */
  predicate Behind(rest: string) { rest != "" ==> Delimits(rest[0]) }

  /** The first `://` of `before + "://"` is the last. */
  predicate FirstUrlAfter(before: string) {
    forall k: nat :: k < |before| ==> !OccursAt(before + "://", "://", k)
  }

  lemma DelimitersAre(s: string, rest: string)
    ensures NoDelimiter(s) <==> AllAuthority(s)
    ensures Behind(rest) <==> StartsOutside(rest)
  {
  }

  lemma FirstIs(before: string)
    requires FirstUrlAfter(before)
    ensures Find(before + "://", SEPARATOR, 0) == Some(|before|)
  {
    SeparatorAt(before);
    hide *;
    FirstMeans(before);
    FindIs(before + "://", "://", 0, |before|);
  }

  lemma SeparatorAt(before: string)
    ensures OccursAt(before + "://", "://", |before|) && SEPARATOR == "://"
  {
    assert (before + "://")[|before|..|before| + 3] == "://";
  }

  lemma FirstMeans(before: string)
    ensures FirstUrlAfter(before) <==> forall k: nat :: k < |before| ==> !OccursAt(before + "://", "://", k)
  {
    hide OccursAt;
  }

  /** The search finds something exactly when there is something to find. */
  lemma FoundExactly(s: string, pat: string)
    ensures Find(s, pat, 0).Some? <==> Contains(s, pat)
  {
    FindLeast(s, pat, 0);
    hide Find;
    hide OccursAt;
  }

  lemma MaskUrlsOf(before: string, authority: string, rest: string)
    requires FirstUrlAfter(before) && NoDelimiter(authority) && Behind(rest)
    ensures MaskUrls(before + "://" + authority + rest, 0)
         == before + "://" + MaskAuthority(authority) + MaskUrls(rest, 0)
  {
    FirstIs(before);
    DelimitersAre(authority, rest);
    hide *;
    ScanOf(before + "://", authority, rest);
  }

  lemma WithUser(user: string, host: string)
    requires '@' !in host
    ensures MaskAuthority(user + "@" + host) == "***@" + host
  {
    hide *;
    var a := user + "@" + host;
    AfterUser(user, host);
    LastAtIs(a, |user|);
    MaskAuthorityCases(a);
    MaskAndAt(host);
  }

  lemma AfterUser(user: string, host: string)
    ensures var a := user + "@" + host;
            && |a| > |user| && a[|user|] == '@' && a[|user|..] == "@" + host
            && forall j :: |user| < j < |a| ==> a[j] == host[j - |user| - 1]
  {
  }

  lemma MaskAndAt(host: string)
    ensures MASK + ("@" + host) == "***@" + host
  {
  }

  lemma WithoutUser(host: string)
    requires '@' !in host
    ensures MaskAuthority(host) == host
  {
    MaskAuthorityCases(host);
    hide MaskAuthority;
  }

  predicate NoToken(pat: Option<string>) { pat == None || pat == Some("") }

  lemma MasksWithoutToken(text: string, pat: Option<string>)
    requires NoToken(pat)
    ensures Redacted(text, pat) == MaskUrls(text, 0)
  {
  }

  /** With no token, or an empty one: text without a `://` stays. */
  lemma PlainTextStays(text: string, pat: Option<string>)
    requires NoToken(pat) && !Contains(text, "://")
    ensures Redacted(text, pat) == text
  {
    MasksWithoutToken(text, pat);
    FoundExactly(text, "://");
    assert SEPARATOR == "://" && text[0..] == text;
    hide *;
    MaskUrlsNone(text, 0);
  }

  /** The userinfo of the first URL, up to its last `@`, becomes `***`. */
  lemma UserinfoHidden(before: string, user: string, host: string, rest: string, pat: Option<string>)
    requires NoToken(pat) && FirstUrlAfter(before) && Behind(rest)
    requires NoDelimiter(user + "@" + host) && '@' !in host
    ensures Redacted(before + "://" + (user + "@" + host) + rest, pat)
         == before + "://" + ("***@" + host) + Redacted(rest, pat)
  {
    MasksWithoutToken(before + "://" + (user + "@" + host) + rest, pat);
    MasksWithoutToken(rest, pat);
    MaskUrlsOf(before, user + "@" + host, rest);
    WithUser(user, host);
    hide *;
  }

  /** A first URL without userinfo stays. */
  lemma HostStays(before: string, host: string, rest: string, pat: Option<string>)
    requires NoToken(pat) && FirstUrlAfter(before) && Behind(rest) && NoDelimiter(host) && '@' !in host
    ensures Redacted(before + "://" + host + rest, pat) == before + "://" + host + Redacted(rest, pat)
  {
    MasksWithoutToken(before + "://" + host + rest, pat);
    MasksWithoutToken(rest, pat);
    MaskUrlsOf(before, host, rest);
    WithoutUser(host);
    hide *;
  }

  /** Every text is of one of the three forms, so the equations determine what `redact` makes of it. */
  lemma TextForms(text: string) returns (before: string, authority: string, rest: string)
    ensures Contains(text, "://") ==>
              && text == before + "://" + authority + rest
              && FirstUrlAfter(before) && NoDelimiter(authority) && Behind(rest)
  {
    FindLeast(text, "://", 0);
    var p := Find(text, "://", 0);
    hide Find;
    if p.None? {
      return "", "", "";
    }
    var e := AuthorityEnd(text, p.value);
    before, authority, rest := text[..p.value], text[p.value + 3..e], text[e..];
    DelimitersAre(authority, rest);
    CutUrl(text, p.value, e);
    forall k: nat | k < |before| ensures !OccursAt(before + "://", "://", k) {
      SameThree(text, p.value, k);
    }
  }

  lemma CutUrl(text: string, p: nat, e: nat)
    requires OccursAt(text, "://", p) && p + 3 <= e <= |text|
    ensures text == text[..p] + "://" + text[p + 3..e] + text[e..]
  {
    assert text[p..p + 3] == "://";
  }

  lemma SameThree(text: string, p: nat, k: nat)
    requires OccursAt(text, "://", p) && k < p
    ensures OccursAt(text[..p] + "://", "://", k) <==> OccursAt(text, "://", k)
  {
    assert text[..p] + "://" == text[..p + 3];
    assert text[..p + 3][k..k + 3] == text[k..k + 3];
  }

  // ---- the token ----

  /** The first occurrence of the token becomes `***`, and so on behind it. */
  lemma TokenHidden(before: string, token: string, rest: string)
    requires token != "" && forall k: nat :: k < |before| ==> !OccursAt(before + token + rest, token, k)
    ensures Replaced(before + token + rest, token, 0) == before + "***" + Replaced(rest, token, 0)
  {
    var s := before + token + rest;
    TokenAt(before, token, rest);
    hide OccursAt;
    FindIs(s, token, 0, |before|);
    hide *;
    ReplacedStep(s, token, 0, |before|);
    ReplacedShift(before + token, rest, token, 0);
    MaskIs();
  }

  lemma MaskIs()
    ensures MASK == "***"
  {
  }

  lemma TokenAt(before: string, token: string, rest: string)
    ensures var s := before + token + rest;
            OccursAt(s, token, |before|) && s[0..|before|] == before && s == (before + token) + rest
  {
    assert (before + token + rest)[|before|..|before| + |token|] == token;
  }

  lemma {:induction false} ReplacedShift(a: string, s: string, token: string, i: nat)
    requires token != "" && i <= |s|
    ensures Replaced(a + s, token, |a| + i) == Replaced(s, token, i)
    decreases |s| - i
  {
    hide *;
    FindShift(a, s, token, i);
    var p := Find(s, token, i);
    if p.None? {
      ReplacedEnd(s, token, i);
      ReplacedEnd(a + s, token, |a| + i);
      ShiftedSlice(a, s, i, |s|);
    } else {
      ReplacedStep(s, token, i, p.value);
      ReplacedStep(a + s, token, |a| + i, |a| + p.value);
      ReplacedShift(a, s, token, p.value + |token|);
      ShiftedSlice(a, s, i, p.value);
    }
  }

  lemma ShiftedSlice(a: string, s: string, i: nat, j: nat)
    requires i <= j <= |s|
    ensures (a + s)[|a| + i..|a| + j] == s[i..j]
    ensures s[i..|s|] == s[i..] && (a + s)[|a| + i..|a| + |s|] == (a + s)[|a| + i..]
  {
  }

  /** Text without the token is redacted as if there were none; and in any text the token goes first. */
  lemma TokenFirst(text: string, token: string)
    requires token != ""
    ensures Redacted(text, Some(token)) == Redacted(Replaced(text, token, 0), None)
    ensures !Contains(text, token) ==> Redacted(text, Some(token)) == Redacted(text, None)
  {
    FoundExactly(text, token);
    if !Contains(text, token) {
      ReplacedEnd(text, token, 0);
      assert text[0..] == text;
    }
    hide Replaced;
    hide Find;
    hide Contains;
    hide MaskUrls;
  }

  // ---- what no text shows afterwards ----

  /** No `@`, or one, behind the mask. */
  predicate ShowsNoUser(authority: string) {
    forall k :: 0 <= k < |authority| && authority[k] == '@' ==> k == 3 && authority[..3] == "***"
  }

  /** So does every authority that a scan from `i` on meets. */
  predicate ShowsNoUsers(s: string, i: nat)
    requires i <= |s|
    decreases |s| - i
  {
    var p := Find(s, "://", i);
    p.Some? ==>
      var e := AuthorityEnd(s, p.value);
      ShowsNoUser(s[p.value + 3..e]) && ShowsNoUsers(s, e)
  }

  lemma SteadyShowsNoUser(a: string)
    requires MaskAuthority(a) == a
    ensures ShowsNoUser(a)
  {
    SteadyAuthority(a);
    if '@' in a {
      LastAtLast(a);
      forall k | 0 <= k < |a| && a[k] == '@' ensures k == 3 && a[..3] == "***" {
        assert a[0] == MASK[0] && a[1] == MASK[1] && a[2] == MASK[2];
      }
    }
    hide MaskAuthority;
  }

  lemma {:induction false} SteadyShowsNoUsers(s: string, i: nat)
    requires i <= |s| && Steady(s, i)
    ensures ShowsNoUsers(s, i)
    decreases |s| - i
  {
    var p := Find(s, "://", i);
    hide Find;
    hide AuthorityEnd;
    hide MaskAuthority;
    hide ShowsNoUser;
    if p.Some? {
      SteadyShowsNoUser(s[p.value + 3..AuthorityEnd(s, p.value)]);
      SteadyShowsNoUsers(s, AuthorityEnd(s, p.value));
    }
  }

  /** Of every text and every token, or none: no authority that a scan of the redacted text meets shows
      any userinfo but the mask. */
  lemma RedactedShowsNoUsers(text: string, pat: Option<string>)
    ensures ShowsNoUsers(Redacted(text, pat), 0)
  {
    var s := if pat.Some? && pat.value != "" then Replaced(text, pat.value, 0) else text;
    assert Redacted(text, pat) == MaskUrls(s, 0);
    MaskedIsSteady(s, 0);
    hide *;
    SteadyShowsNoUsers(Redacted(text, pat), 0);
  }

  /** Without a token nothing but userinfo is changed. */
  lemma OnlyUserinfoRedacted(text: string, pat: Option<string>) returns (ps: seq<Piece>)
    requires NoToken(pat)
    ensures Original(ps) == text && Shown(ps) == Redacted(text, pat) && WellPlaced(ps)
  {
    MasksWithoutToken(text, pat);
    ps := OnlyUserinfoChanges(text, 0);
    assert text[0..] == text;
    hide *;
  }

  /** A clone that failed, with the token unknown: its URL shows no secret. */
  lemma LeakedCloneUrl(secret: string)
    requires NoDelimiter(secret)
    ensures var user := "x-access-token:" + secret;
            Redacted("cloning https" + "://" + (user + "@" + "github.com") + "/o/r.git failed", None)
            == "cloning https" + "://" + ("***@" + "github.com") + "/o/r.git failed"
  {
    var before, host, rest := "cloning https", "github.com", "/o/r.git failed";
    NoColonBefore(before);
    NoColonBefore(rest);
    SecretPlain(secret);
    assert Behind(rest) && '@' !in host;
    hide *;
    UserinfoHidden(before, "x-access-token:" + secret, host, rest, None);
    PlainTextStays(rest, None);
  }

  lemma SecretPlain(secret: string)
    requires NoDelimiter(secret)
    ensures NoDelimiter("x-access-token:" + secret + "@" + "github.com")
  {
    assert NoDelimiter("x-access-token:") && NoDelimiter("@" + "github.com");
    var a, b := "x-access-token:", "@" + "github.com";
    assert "x-access-token:" + secret + "@" + "github.com" == a + secret + b;
    JoinedPlain(a, secret);
    JoinedPlain(a + secret, b);
  }

  lemma JoinedPlain(a: string, b: string)
    requires NoDelimiter(a) && NoDelimiter(b)
    ensures NoDelimiter(a + b)
  {
  }

  lemma NoColonBefore(s: string)
    requires ':' !in s
    ensures FirstUrlAfter(s) && !Contains(s, "://")
  {
    forall k: nat | k < |s| ensures !OccursAt(s + "://", "://", k) {
      if OccursAt(s + "://", "://", k) { OccursAtChar(s + "://", "://", k, 0); }
    }
    forall k: nat ensures !OccursAt(s, "://", k) {
      if OccursAt(s, "://", k) { OccursAtChar(s, "://", k, 0); }
    }
  }

  // ---- the authenticated URL, spelt out ----

  /** A token goes in front of the host of an https URL, in the place of any userinfo; without a token
      the URL is used as it is, and with one no other scheme is. */
  lemma AuthenticatedExactly(user: string, host: string, tail: string, token: string)
    requires '/' !in user + host && '@' !in host && (tail != "" ==> tail[0] == '/') && token != ""
    ensures AuthenticatedUrl("https://" + (user + "@" + host + tail), Some(token))
         == Url("https://" + ("x-access-token:" + token + "@" + (host + tail)))
    ensures AuthenticatedUrl("https://" + (host + tail), Some(token))
         == Url("https://" + ("x-access-token:" + token + "@" + (host + tail)))
  {
    HostPathOf(user + "@" + host, tail);
    StripOf(user, host);
    HostPathOf(host, tail);
    HostHasNoUser(host);
    assert user + "@" + host + tail == (user + "@" + host) + tail;
    HttpsTail(user + "@" + host + tail);
    HttpsTail(host + tail);
    AuthenticatedIs("https://" + (user + "@" + host + tail), token);
    AuthenticatedIs("https://" + (host + tail), token);
    assert SCHEME == "https://" && USER == "x-access-token:";
    hide *;
  }

  lemma HttpsTail(rest: string)
    ensures SCHEME <= "https://" + rest && ("https://" + rest)[|SCHEME|..] == rest
  {
  }

  lemma HostHasNoUser(host: string)
    requires '@' !in host
    ensures StripUserinfo(host) == host
  {
  }

  lemma UnauthenticatedExactly(url: string, token: string)
    ensures AuthenticatedUrl(url, None) == Url(url) && AuthenticatedUrl(url, Some("")) == Url(url)
    ensures token != "" ==> (AuthenticatedUrl(url, Some(token)) == Unsupported <==> !("https://" <= url))
  {
    hide HostPath;
  }
}
