/** Which tokens `redact` hides: the masking of URLs, seen as what it leaves alone, and the texts in
    which a token that is not opaque survives both passes. */
module HiddenTokens {
  import opened Redaction
  import opened Text

  // ---- text the masking leaves alone ----

  /** Every authority the scan meets from `i` on is as masking would leave it. */
  predicate Steady(s: string, i: nat)
    requires i <= |s|
    decreases |s| - i
  {
    var p := Find(s, SEPARATOR, i);
    p.Some? ==>
      var e := AuthorityEnd(s, p.value);
      MaskAuthority(s[p.value + 3..e]) == s[p.value + 3..e] && Steady(s, e)
  }

  lemma SteadyStep(s: string, i: nat, p: nat)
    requires i <= |s| && Find(s, SEPARATOR, i) == Some(p)
    ensures i <= p && p + 3 <= |s|
    ensures Steady(s, i) <==>
            MaskAuthority(s[p + 3..AuthorityEnd(s, p)]) == s[p + 3..AuthorityEnd(s, p)] && Steady(s, AuthorityEnd(s, p))
  {
    hide Find;
    hide AuthorityEnd;
    hide MaskAuthority;
  }

  lemma SteadyNone(s: string, i: nat)
    requires i <= |s| && Find(s, SEPARATOR, i).None?
    ensures Steady(s, i)
  {
    hide Find;
  }

  lemma {:induction false} SteadyStays(s: string, i: nat)
    requires i <= |s| && Steady(s, i)
    ensures MaskUrls(s, i) == s[i..]
    decreases |s| - i
  {
    assert |SEPARATOR| == 3;
    hide *;
    var p := Find(s, SEPARATOR, i);
    if p.None? {
      MaskUrlsNone(s, i);
    } else {
      var e := AuthorityEnd(s, p.value);
      SteadyStep(s, i, p.value);
      MaskUrlsStep(s, i, p.value);
      SteadyStays(s, e);
      ThreeSlices(s, i, p.value + 3, e);
    }
  }

  lemma ThreeSlices(s: string, i: nat, j: nat, e: nat)
    requires i <= j <= e <= |s|
    ensures s[i..j] + s[j..e] + s[e..] == s[i..]
  {
  }

  lemma {:induction false} SteadyShift(a: string, s: string, i: nat)
    requires i <= |s|
    ensures Steady(a + s, |a| + i) <==> Steady(s, i)
    decreases |s| - i
  {
    hide *;
    FindShift(a, s, SEPARATOR, i);
    var p := Find(s, SEPARATOR, i);
    if p.None? {
      SteadyNone(s, i);
      SteadyNone(a + s, |a| + i);
    } else {
      SteadyStep(s, i, p.value);
      AuthorityEndShift(a, s, p.value);
      var e := AuthorityEnd(s, p.value);
      SteadyStep(a + s, |a| + i, |a| + p.value);
      assert (a + s)[|a| + p.value + 3..|a| + e] == s[p.value + 3..e];
      SteadyShift(a, s, e);
    }
  }

  /** What masking returns it leaves alone. */
  lemma {:induction false} MaskedIsSteady(s: string, i: nat)
    requires i <= |s|
    ensures Steady(MaskUrls(s, i), 0)
    decreases |s| - i
  {
    hide *;
    var p := Find(s, SEPARATOR, i);
    if p.None? {
      MaskUrlsNone(s, i);
      assert s == s[..i] + s[i..];
      FindShift(s[..i], s[i..], SEPARATOR, 0);
      SteadyNone(s[i..], 0);
    } else {
      FindFromCursor(s, i, p.value);
      MaskUrlsStep(s, i, p.value);
      var e := AuthorityEnd(s, p.value);
      RestStartsOutside(s, p.value);
      var authority := s[p.value + 3..e];
      MaskAuthorityFacts(authority);
      var head, m, rest := s[i..p.value + 3], MaskAuthority(authority), MaskUrls(s, e);
      ScanOf(head, m, rest);
      MaskedIsSteady(s, e);
      SteadyShift(head + m, rest, 0);
      SteadyStep(head + m + rest, 0, |head| - 3);
      assert (head + m + rest)[|head|..|head| + |m|] == m;
    }
  }

  // ---- a piece of it is left alone too ----

  lemma FindCut(u: string, y: string, i: nat, p: nat)
    requires i <= |u| && Find(u, SEPARATOR, i) == Some(p)
    ensures Find(u + y, SEPARATOR, i) == Some(p)
  {
    FindLeast(u, SEPARATOR, i);
    var s := u + y;
    forall k: nat | i <= k <= p ensures OccursAt(s, SEPARATOR, k) <==> OccursAt(u, SEPARATOR, k) {
      assert s[k..k + 3] == u[k..k + 3];
    }
    hide Find;
    hide OccursAt;
    FindIs(s, SEPARATOR, i, p);
  }

  lemma AuthorityIs(s: string, p: nat)
    requires p + 3 <= |s|
    ensures var e := AuthorityEnd(s, p);
            && p + 3 <= e <= |s| && (forall k :: p + 3 <= k < e ==> Is(s[k], Authority))
            && (e < |s| ==> !Is(s[e], Authority))
  {
  }

  lemma AuthorityCut(u: string, y: string, p: nat)
    requires p + 3 <= |u|
    ensures var e := AuthorityEnd(u + y, p);
            AuthorityEnd(u, p) == if e <= |u| then e else |u|
  {
    var e := AuthorityEnd(u + y, p);
    var n := if e <= |u| then e else |u|;
    hide RunEnd;
    assert forall k :: p + 3 <= k < n ==> u[k] == (u + y)[k];
    RunEndIs(u, p + 3, Authority, n);
  }

  /** An authority that masking leaves alone has no `@`, or its only one behind the mask. */
  lemma SteadyAuthority(a: string)
    ensures MaskAuthority(a) == a <==> '@' !in a || (MASK <= a && LastAt(a) == Some(3))
  {
    MaskAuthorityCases(a);
    var at := LastAt(a);
    hide LastAt;
    if at.Some? && MaskAuthority(a) == a {
      assert |MASK + a[at.value..]| == |a|;
      assert (MASK + a[3..])[..3] == MASK;
    }
    if MASK <= a && at == Some(3) {
      assert a == a[..3] + a[3..];
    }
  }

  lemma AuthorityPrefix(a: string, b: string)
    requires MaskAuthority(a + b) == a + b
    ensures MaskAuthority(a) == a
  {
    SteadyAuthority(a + b);
    SteadyAuthority(a);
    hide MaskAuthority;
    var ab := a + b;
    assert forall k :: 0 <= k < |a| ==> a[k] == ab[k];
    if '@' in a {
      var j :| 0 <= j < |a| && a[j] == '@';
      assert ab[j] == '@';
      assert MASK <= ab && LastAt(ab) == Some(3);
      assert ab[0] == MASK[0] && ab[1] == MASK[1] && ab[2] == MASK[2];
      LastAtIs(a, 3);
      assert a[..3] == MASK;
    }
  }

  /** A cut inside an authority that masking leaves alone keeps the part before it. */
  lemma CutLeavesAlone(u: string, y: string, split: nat, e: nat, f: nat)
    requires split <= e <= |u| && e <= f <= |u| + |y|
    requires MaskAuthority((u + y)[split..f]) == (u + y)[split..f]
    ensures MaskAuthority(u[split..e]) == u[split..e]
  {
    hide *;
    CutJoins(u, y, split, e, f);
    AuthorityPrefix(u[split..e], (u + y)[e..f]);
  }

  lemma CutJoins(u: string, y: string, split: nat, e: nat, f: nat)
    requires split <= e <= |u| && e <= f <= |u| + |y|
    ensures (u + y)[split..f] == u[split..e] + (u + y)[e..f]
  {
  }

  lemma {:induction false} SteadyCut(u: string, y: string, i: nat)
    requires i <= |u| && Steady(u + y, i)
    ensures Steady(u, i)
    decreases |u| - i
  {
    hide *;
    var p := Find(u, SEPARATOR, i);
    if p.None? {
      SteadyNone(u, i);
    } else {
      FindCut(u, y, i, p.value);
      SteadyStep(u, i, p.value);
      SteadyStep(u + y, i, p.value);
      AuthorityCut(u, y, p.value);
      AuthorityIs(u + y, p.value);
      var e, f := AuthorityEnd(u, p.value), AuthorityEnd(u + y, p.value);
      CutLeavesAlone(u, y, p.value + 3, e, f);
      if f <= |u| {
        SteadyCut(u, y, e);
      } else {
        SteadyEnd(u);
      }
    }
  }

  lemma SteadyEnd(s: string)
    ensures Steady(s, |s|)
  {
  }

  // ---- which tokens the masking can leave alone ----

  /** The beginnings that matter: in the open, in the midst of a `://`, and inside an authority,
      with none, some or all of a mask already there. */
  const BEGINNINGS: seq<string> := ["", ":", ":/", "://", "://*", "://**", "://***"]

  /** After one of these beginnings the masking leaves the token alone. */
  predicate Survives(token: string) { exists x :: x in BEGINNINGS && Steady(x + token, 0) }

  lemma FindLater(s: string, i: nat, b: nat)
    requires i <= b <= |s|
    requires Find(s, SEPARATOR, i).Some? ==> b <= Find(s, SEPARATOR, i).value
    ensures Find(s, SEPARATOR, b) == Find(s, SEPARATOR, i)
    decreases b - i
  {
    hide OccursAt;
    if i < b { FindLater(s, i + 1, b); }
  }

  /** A scan that has not yet met a `://` may as well start later. */
  lemma SteadyLater(s: string, i: nat, b: nat)
    requires i <= b <= |s| && (Find(s, SEPARATOR, i).Some? ==> b <= Find(s, SEPARATOR, i).value)
    ensures Steady(s, i) <==> Steady(s, b)
  {
    hide *;
    FindLater(s, i, b);
    var p := Find(s, SEPARATOR, i);
    if p.None? {
      SteadyNone(s, i);
      SteadyNone(s, b);
    } else {
      SteadyStep(s, i, p.value);
      SteadyStep(s, b, p.value);
    }
  }

  lemma SteadySuffix(s: string, b: nat, d: nat)
    requires b + d <= |s|
    ensures Steady(s, b + d) <==> Steady(s[b..], d)
  {
    hide *;
    assert s == s[..b] + s[b..];
    SteadyShift(s[..b], s[b..], d);
  }

  lemma FindAtStart(rest: string)
    ensures Find(SEPARATOR + rest, SEPARATOR, 0) == Some(0)
  {
    assert (SEPARATOR + rest)[0..3] == SEPARATOR;
  }

  lemma SliceInside(s: string, lead: string, t: string, d: nat)
    requires d <= |t| && s == SEPARATOR + (lead + t)
    ensures |s| == 3 + |lead| + |t| && s[3 + |lead|..] == t && s[3..3 + |lead| + d] == lead + t[..d]
    ensures d < |t| ==> s[3 + |lead| + d] == t[d]
  {
    assert s[3..] == lead + t;
    assert s[3..3 + |lead| + d] == (lead + t)[..|lead| + d] == lead + t[..d];
  }

  lemma AuthorityInside(s: string, lead: string, t: string, d: nat)
    requires AllAuthority(lead) && d <= |t| && AllAuthority(t[..d]) && (d < |t| ==> !Is(t[d], Authority))
    requires s == SEPARATOR + (lead + t)
    ensures |s| == 3 + |lead| + |t| && AuthorityEnd(s, 0) == 3 + |lead| + d
    ensures s[3..3 + |lead| + d] == lead + t[..d] && s[3 + |lead|..] == t
  {
    hide Is;
    var n := 3 + |lead|;
    SliceInside(s, lead, t, d);
    forall k | 3 <= k < n + d ensures Is(s[k], Authority) {
      assert s[k] == s[3..n + d][k - 3];
    }
    hide *;
    RunEndIs(s, 3, Authority, n + d);
    AuthorityEndIs(s, 0);
  }

  lemma AuthorityEndIs(s: string, p: nat)
    requires p + 3 <= |s|
    ensures AuthorityEnd(s, p) == RunEnd(s, p + 3, Authority)
  {
    hide RunEnd;
  }

  /** An authority that `lead` opens and the token goes on with. */
  lemma SteadyInside(s: string, lead: string, t: string, d: nat)
    requires AllAuthority(lead) && d <= |t| && AllAuthority(t[..d]) && (d < |t| ==> !Is(t[d], Authority))
    requires s == SEPARATOR + (lead + t)
    ensures Steady(s, 0) <==> MaskAuthority(lead + t[..d]) == lead + t[..d] && Steady(t, d)
  {
    hide *;
    FindAtStart(lead + t);
    AuthorityInside(s, lead, t, d);
    SteadyStep(s, 0, 0);
    SteadySuffix(s, 3 + |lead|, d);
  }

  // ---- survival is one of a few ways to be met ----

  /** Met by a mask that the token completes: stars, and the `@` behind them. */
  predicate CompletesMask(t: string, a: nat) {
    a <= 3 && a < |t| && t[a] == '@' && t[..a] == MASK[3 - a..] && Steady(SEPARATOR + (MASK[a..] + t), 0)
  }

  /** Met in the open, in the midst of a `://`, inside an authority, or by a mask. */
  ghost predicate Met(t: string) {
    || Steady(t, 0) || Steady(":" + t, 0) || Steady(":/" + t, 0) || Steady(SEPARATOR + ("" + t), 0)
    || exists a: nat :: CompletesMask(t, a)
  }

  lemma MetPlain(t: string)
    ensures Steady(t, 0) || Steady(":" + t, 0) || Steady(":/" + t, 0) || Steady(SEPARATOR + ("" + t), 0) ==> Met(t)
  {
    hide Steady;
  }

  /** The part of an authority before `b`, and the part in the text from `b` on. */
  lemma CutAuthority(s: string, j: nat, b: nat, e: nat)
    requires j <= b <= e <= |s| && forall k :: j <= k < e ==> Is(s[k], Authority)
    requires e < |s| ==> !Is(s[e], Authority)
    ensures var t, d := s[b..], e - b;
            && t[..d] == s[b..e] && AllAuthority(s[j..b]) && AllAuthority(t[..d])
            && (d < |t| ==> !Is(t[d], Authority)) && s[j..e] == s[j..b] + t[..d]
  {
    hide Is;
  }

  lemma NoAtAfter(lead: string, rest: string)
    requires '@' !in lead + rest || (LastAt(lead + rest) == Some(3) && |lead| > 3)
    ensures '@' !in rest
  {
    hide LastAt;
    var auth := lead + rest;
    LastAtLast(auth);
    forall k | 0 <= k < |rest| ensures rest[k] != '@' {
      assert auth[|lead| + k] == rest[k];
    }
  }

  lemma LastAtLast(s: string)
    ensures LastAt(s).Some? ==> forall k :: LastAt(s).value < k < |s| ==> s[k] != '@'
  {
  }

  lemma MaskSpelled(auth: string, lead: string, t: string, d: nat)
    requires |lead| <= 3 && d <= |t| && auth == lead + t[..d] && |auth| > 3 && auth[..3] == MASK && auth[3] == '@'
    ensures var a := 3 - |lead|; a < |t| && t[a] == '@' && t[..a] == MASK[3 - a..] && lead == MASK[a..]
  {
    var a := 3 - |lead|;
    assert t[a] == auth[3];
    assert forall k :: 0 <= k < a ==> t[k] == auth[|lead| + k];
    assert lead == auth[..|lead|] && t[..a] == auth[|lead|..3];
    assert MASK[..|lead|] == MASK[a..] && MASK[|lead|..] == MASK[3 - a..];
  }

  lemma MetByLead(t: string, a: nat, lead: string, s: string)
    requires a <= 3 && a < |t| && t[a] == '@' && t[..a] == MASK[3 - a..] && lead == MASK[a..]
    requires s == SEPARATOR + (lead + t) && Steady(s, 0)
    ensures Met(t)
  {
    hide Steady;
    assert CompletesMask(t, a);
    hide CompletesMask;
  }

  lemma MaskCompleted(s: string, auth: string, lead: string, t: string, d: nat)
    requires |lead| <= 3 && d <= |t| && AllAuthority(lead) && AllAuthority(t[..d]) && (d < |t| ==> !Is(t[d], Authority))
    requires auth == lead + t[..d] && Steady(t, d) && MaskAuthority(auth) == auth
    requires MASK <= auth && LastAt(auth) == Some(3) && s == SEPARATOR + (lead + t)
    ensures Met(t)
  {
    assert |MASK| == 3;
    hide *;
    SteadyInside(s, lead, t, d);
    LastAtFacts(auth);
    MaskSpelled(auth, lead, t, d);
    MetByLead(t, 3 - |lead|, lead, s);
  }

  lemma LastAtFacts(s: string)
    ensures LastAt(s).Some? ==> LastAt(s).value < |s| && s[LastAt(s).value] == '@'
  {
  }

  /** A token that goes on with an authority in which it shows no `@`. */
  lemma MetAfterScheme(t: string, d: nat)
    requires d <= |t| && AllAuthority(t[..d]) && (d < |t| ==> !Is(t[d], Authority)) && Steady(t, d) && '@' !in t[..d]
    ensures Met(t)
  {
    hide *;
    NothingBefore(t[..d]);
    SteadyAuthority(t[..d]);
    NothingIsAuthority();
    SteadyInside(SEPARATOR + ("" + t), "", t, d);
    MetPlain(t);
  }

  lemma NothingBefore(s: string)
    ensures "" + s == s
  {
  }

  /** The token begins inside the authority of the URL at `p`. */
  lemma MetInside(s: string, p: nat, b: nat)
    requires p + 3 <= b <= |s| && b <= AuthorityEnd(s, p) && Steady(s, AuthorityEnd(s, p))
    requires MaskAuthority(s[p + 3..AuthorityEnd(s, p)]) == s[p + 3..AuthorityEnd(s, p)]
    ensures Met(s[b..])
  {
    hide *;
    AuthorityIs(s, p);
    var e := AuthorityEnd(s, p);
    var t, d, lead := s[b..], e - b, s[p + 3..b];
    CutAuthority(s, p + 3, b, e);
    SteadySuffix(s, b, d);
    MetWith(t, d, lead);
  }

  lemma MetWith(t: string, d: nat, lead: string)
    requires AllAuthority(lead) && d <= |t| && AllAuthority(t[..d]) && (d < |t| ==> !Is(t[d], Authority))
    requires Steady(t, d)
    requires MaskAuthority(lead + t[..d]) == lead + t[..d]
    ensures Met(t)
  {
    hide *;
    SteadyAuthority(lead + t[..d]);
    if '@' in lead + t[..d] && |lead| <= 3 {
      MaskCompleted(SEPARATOR + (lead + t), lead + t[..d], lead, t, d);
    } else {
      NoAtAfter(lead, t[..d]);
      MetAfterScheme(t, d);
    }
  }

  lemma NothingIsAuthority()
    ensures AllAuthority("")
  {
  }

  /** The token begins in the midst of the `://` at `p`. */
  lemma MetAcross(s: string, p: nat, b: nat)
    requires p < b < p + 3 <= |s| && OccursAt(s, SEPARATOR, p) && Steady(s, p)
    ensures Met(s[b..])
  {
    hide *;
    SeparatorChars(s, p);
    SteadySuffix(s, p, 0);
    MetPlain(s[b..]);
    if b == p + 1 {
      assert s[p..] == ":" + s[b..];
    } else {
      assert s[p..] == ":/" + s[b..];
    }
  }

  /** Whatever stands before it, text that the masking leaves alone is met in one of those ways. */
  lemma {:induction false} SteadyMeets(s: string, i: nat, b: nat)
    requires i <= b <= |s| && Steady(s, i)
    ensures Met(s[b..])
    decreases b - i
  {
    hide *;
    var p := Find(s, SEPARATOR, i);
    if p.None? || b <= p.value {
      SteadyLater(s, i, b);
      SteadySuffix(s, b, 0);
      MetPlain(s[b..]);
    } else {
      SteadyStep(s, i, p.value);
      AuthorityIs(s, p.value);
      if b < p.value + 3 {
        SteadyLater(s, i, p.value);
        FoundAt(s, i, p.value);
        MetAcross(s, p.value, b);
      } else if b <= AuthorityEnd(s, p.value) {
        MetInside(s, p.value, b);
      } else {
        SteadyMeets(s, AuthorityEnd(s, p.value), b);
      }
    }
  }

  lemma FoundAt(s: string, i: nat, p: nat)
    requires i <= |s| && Find(s, SEPARATOR, i) == Some(p)
    ensures OccursAt(s, SEPARATOR, p)
  {
    FindLeast(s, SEPARATOR, i);
    hide Find;
  }

  /** So surviving is just being met in one of those ways. */
  lemma SurvivesMeets(t: string)
    ensures Survives(t) <==> Met(t)
  {
    hide Steady;
    hide Met;
    if Survives(t) {
      var x :| x in BEGINNINGS && Steady(x + t, 0);
      SteadyMeets(x + t, 0, |x|);
      assert (x + t)[|x|..] == t;
    }
    if Met(t) { MetSurvives(t); }
  }

  lemma MetSurvives(t: string)
    requires Met(t)
    ensures Survives(t)
  {
    hide Steady;
    hide Survives;
    if Steady(t, 0) {
      assert "" + t == t;
      SurvivesAs(t, 0, t);
    } else if Steady(":" + t, 0) {
      SurvivesAs(t, 1, ":" + t);
    } else if Steady(":/" + t, 0) {
      SurvivesAs(t, 2, ":/" + t);
    } else if Steady(SEPARATOR + ("" + t), 0) {
      SurvivesAs(t, 3, SEPARATOR + ("" + t));
    } else {
      var a: nat :| CompletesMask(t, a);
      MaskBeginning(a, t);
      SurvivesAs(t, 6 - a, SEPARATOR + (MASK[a..] + t));
    }
  }

  lemma MaskBeginning(a: nat, t: string)
    requires a <= 3
    ensures BEGINNINGS[6 - a] + t == SEPARATOR + (MASK[a..] + t)
  {
    assert BEGINNINGS[6 - a] == SEPARATOR + MASK[a..] by { MaskTail(a); }
  }

  lemma MaskTail(a: nat)
    requires a <= 3
    ensures BEGINNINGS[6 - a] == SEPARATOR + MASK[a..]
  {
    assert MASK[0..] == "***" && MASK[1..] == "**" && MASK[2..] == "*" && MASK[3..] == "";
  }

  lemma SurvivesAs(t: string, k: nat, s: string)
    requires k < |BEGINNINGS| && s == BEGINNINGS[k] + t && Steady(s, 0)
    ensures Survives(t)
  {
    hide Steady;
    assert BEGINNINGS[k] in BEGINNINGS;
  }

  // ---- a token that is not opaque and can be left alone leaks ----

  lemma ReplacedOnce(x: string, token: string, y: string)
    requires token != "" && |y| < |token|
    requires forall k: nat :: k < |x| ==> !OccursAt(x + token + y, token, k)
    ensures Replaced(x + token + y, token, 0) == x + MASK + y
  {
    var s := x + token + y;
    assert s[|x|..|x| + |token|] == token;
    FindIs(s, token, 0, |x|);
    FindLeast(s, token, |x| + |token|);
    assert s[0..|x|] == x && s[|x| + |token|..] == y;
    assert Replaced(s, token, |x| + |token|) == y;
    hide Find;
  }

  lemma EarlyMeansStar(token: string, k: nat)
    requires token != "" && token[|token| - 1] == '*' && k < |token| - 1
    requires OccursAt(token[..|token| - 1] + token, token, k)
    ensures token[0] == '*'
  {
    var m := |token| - 1;
    var s := token[..m] + token;
    OccursAtChar(s, token, k, 0);
    OccursAtChar(s, token, k, m);
    assert s[k] == token[k] && s[k + m] == token[k];
  }

  lemma EarlyMeansEarlierMask(x: string, token: string, y: string, k: nat)
    requires k < |x| && OccursAt(token, MASK, |x|) && OccursAt(x + token + y, token, k)
    ensures OccursAt(token, MASK, k)
  {
    var s, p := x + token + y, |x|;
    OccursAtChar(token, MASK, p, 0);
    OccursAtChar(token, MASK, p, 1);
    OccursAtChar(token, MASK, p, 2);
    OccursAtChar(s, token, k, p);
    OccursAtChar(s, token, k, p + 1);
    OccursAtChar(s, token, k, p + 2);
    assert s[k + p] == token[k] && s[k + p + 1] == token[k + 1] && s[k + p + 2] == token[k + 2];
    assert token[k..k + 3] == [token[k], token[k + 1], token[k + 2]];
  }

  lemma SplitAtMask(token: string, p: nat)
    requires token != "" && OccursAt(token, MASK, p) && token[0] != '*'
    ensures 0 < p && p + 3 <= |token| && token == token[..p] + MASK + token[p + 3..]
  {
    OccursAtChar(token, MASK, p, 0);
    assert token == token[..p] + token[p..p + 3] + token[p + 3..];
  }

  /** A beginning without stars, or the whole mask before a token that starts with `@`. */
  predicate Leads(x: string, t: string) {
    Steady(x + t, 0) && ('*' !in x || (x == "://***" && t != "" && t[0] == '@'))
  }

  /** A surviving token that does not start with a star has such a beginning. */
  lemma HasLead(t: string) returns (x: string)
    requires Survives(t) && t != "" && t[0] != '*'
    ensures Leads(x, t)
  {
    SurvivesMeets(t);
    hide Steady;
    hide Survives;
    assert "" + t == t && SEPARATOR + ("" + t) == SEPARATOR + t;
    if Steady(t, 0) {
      x := "";
    } else if Steady(":" + t, 0) {
      x := ":";
    } else if Steady(":/" + t, 0) {
      x := ":/";
    } else if Steady(SEPARATOR + t, 0) {
      x := SEPARATOR;
    } else {
      var a: nat :| CompletesMask(t, a);
      StarsFirst(t, a);
      MaskBeginning(0, t);
      x := "://***";
    }
  }

  lemma StarsFirst(t: string, a: nat)
    requires CompletesMask(t, a)
    ensures a == 0 || t[0] == '*'
  {
    hide Steady;
    if a > 0 { assert t[..a][0] == t[0] && MASK[3 - a..][0] == '*'; }
  }

  // ---- a token that ends with a star, or holds a mask ----

  lemma AuthorityStars(a: string)
    requires MaskAuthority(a) == a
    ensures MaskAuthority(a + "**") == a + "**"
  {
    var b := a + "**";
    SteadyAuthority(a);
    SteadyAuthority(b);
    if '@' in a {
      LastAtFacts(a);
      LastAtLast(a);
      LastAtIs(b, 3);
      assert b[..3] == a[..3];
    }
  }

  lemma FindStars(u: string, i: nat)
    requires i <= |u|
    ensures Find(u + "**", SEPARATOR, i) == Find(u, SEPARATOR, i)
  {
    hide *;
    var p := Find(u, SEPARATOR, i);
    if p.Some? {
      FindCut(u, "**", i, p.value);
    } else {
      var s := u + "**";
      FindLeast(u, SEPARATOR, i);
      FindLeast(s, SEPARATOR, i);
      var q := Find(s, SEPARATOR, i);
      if q.Some? {
        SeparatorChars(s, q.value);
        assert s[q.value + 2] == '/';
        assert q.value + 3 <= |u|;
        OccursInPrefix(u, "**", q.value);
      }
    }
  }

  lemma AuthorityEndStars(u: string, p: nat)
    requires p + 3 <= |u|
    ensures var e := AuthorityEnd(u, p);
            AuthorityEnd(u + "**", p) == if e < |u| then e else |u| + 2
  {
    hide RunEnd;
    var s, e := u + "**", AuthorityEnd(u, p);
    RunEndIs(s, p + 3, Authority, if e < |u| then e else |u| + 2);
  }

  lemma {:induction false} SteadyStars(u: string, i: nat)
    requires i <= |u| && Steady(u, i)
    ensures Steady(u + "**", i)
    decreases |u| - i
  {
    hide *;
    FindStars(u, i);
    var p := Find(u, SEPARATOR, i);
    var s := u + "**";
    if p.None? {
      SteadyNone(s, i);
    } else {
      SteadyStep(u, i, p.value);
      SteadyStep(s, i, p.value);
      AuthorityEndStars(u, p.value);
      var split, e := p.value + 3, AuthorityEnd(u, p.value);
      AuthorityIs(u, p.value);
      if e < |u| {
        assert s[split..e] == u[split..e];
        SteadyStars(u, e);
      } else {
        assert s[split..|s|] == u[split..e] + "**";
        AuthorityStars(u[split..e]);
        SteadyEnd(s);
      }
    }
  }

  /** A token that recurred before its place, behind a beginning without stars, would have none. */
  lemma {:induction false} NoStarAt(x: string, t: string, k: nat, i: nat)
    requires t != "" && '*' !in x && k < |x| && i < |t| && OccursAt(x + (t[..|t| - 1] + t), t, k)
    ensures t[i] != '*'
    decreases i
  {
    var u := t[..|t| - 1] + t;
    OccursAtChar(x + u, t, k, i);
    if k + i < |x| {
      assert (x + u)[k + i] == x[k + i];
    } else {
      var j: nat := k + i - |x|;
      assert (x + u)[k + i] == u[j] == t[j];
      NoStarAt(x, t, k, j);
    }
  }

  lemma FirstAtStart(x: string, u: string, t: string, k: nat)
    requires k < |x| && t != "" && OccursAt(x + u, t, k)
    ensures x[k] == t[0]
  {
    OccursAtChar(x + u, t, k, 0);
  }

  lemma LeadHasNoAt(x: string, t: string)
    requires Leads(x, t)
    ensures '*' in x ==> t != "" && t[0] == '@' && forall k :: 0 <= k < |x| ==> x[k] != '@'
  {
    hide Steady;
  }

  lemma NotEarlierAtEnd(x: string, t: string, k: nat)
    requires Leads(x, t) && t != "" && t[0] != '*' && t[|t| - 1] == '*' && k < |x| + |t| - 1
    ensures !OccursAt(x + (t[..|t| - 1] + t), t, k)
  {
    LeadHasNoAt(x, t);
    hide *;
    var u := t[..|t| - 1] + t;
    if OccursAt(x + u, t, k) {
      if k >= |x| {
        OccursShift(x, u, t, k - |x|);
        EarlyMeansStar(t, k - |x|);
      } else if '*' in x {
        FirstAtStart(x, u, t, k);
      } else {
        NoStarAt(x, t, k, |t| - 1);
      }
    }
  }

  lemma OccursAtSlice(s: string, t: string, k: nat)
    requires k + |t| <= |s| && s[k..k + |t|] == t
    ensures Contains(s, t)
  {
    assert OccursAt(s, t, k);
  }

  lemma ContainsTail(x: string, t: string)
    ensures Contains(x + t, t)
  {
    assert (x + t)[|x|..|x| + |t|] == t;
    OccursAtSlice(x + t, t, |x|);
  }

  lemma Assoc(x: string, a: string, b: string, c: string)
    ensures (x + a) + b + c == x + (a + b + c)
  {
  }

  lemma LeakAtEnd(x: string, t: string) returns (text: string)
    requires Leads(x, t) && t != "" && t[0] != '*' && t[|t| - 1] == '*'
    ensures Contains(Redacted(text, Some(t)), t)
  {
    assert Steady(x + t, 0);
    hide *;
    var head := t[..|t| - 1];
    text := x + head + t + "";
    assert x + head + t + "" == x + (head + t);
    forall k: nat | k < |x + head| ensures !OccursAt(text, t, k) { NotEarlierAtEnd(x, t, k); }
    ReplacedOnce(x + head, t, "");
    StarAtEnd(x, t);
    SteadyStars(x + t, 0);
    var out := x + t + "**";
    SteadyStays(out, 0);
    RedactedAs(text, t, out);
    assert out[|x|..|x| + |t|] == t;
    OccursAtSlice(out, t, |x|);
  }

  lemma StarAtEnd(x: string, t: string)
    requires t != "" && t[|t| - 1] == '*'
    ensures x + t[..|t| - 1] + MASK + "" == x + t + "**"
  {
    assert t == t[..|t| - 1] + "*";
  }

  lemma RedactedAs(text: string, t: string, out: string)
    requires t != "" && Replaced(text, t, 0) == out && MaskUrls(out, 0) == out[0..]
    ensures Redacted(text, Some(t)) == out
  {
    hide Replaced;
    hide MaskUrls;
    assert out[0..] == out;
  }

  /** Three stars in a row that begin before the first mask of a token are a mask of its own. */
  lemma StarsAreMask(t: string, n: nat, r: nat)
    requires OccursAt(t, MASK, n) && t[0] != '*' && r < n
    requires var u := t[..n] + t; u[r] == '*' && u[r + 1] == '*' && u[r + 2] == '*'
    ensures OccursAt(t, MASK, r)
  {
    var u := t[..n] + t;
    assert u[n] == t[0];
    assert r + 1 != n && r + 2 != n;
    assert t[r..r + 3] == [u[r], u[r + 1], u[r + 2]];
  }

  lemma NotEarlierInside(x: string, t: string, n: nat, y: string, k: nat)
    requires Leads(x, t) && t != "" && t[0] != '*' && OccursAt(t, MASK, n) && k < |x| + n
    requires forall j: nat :: j < n ==> !OccursAt(t, MASK, j)
    ensures !OccursAt(x + (t[..n] + t + y), t, k)
  {
    LeadHasNoAt(x, t);
    SplitAtMask(t, n);
    hide *;
    var u := t[..n] + t + y;
    if OccursAt(x + u, t, k) {
      if k >= |x| {
        OccursShift(x, u, t, k - |x|);
        EarlyMeansEarlierMask(t[..n], t, y, k - |x|);
      } else if '*' in x {
        FirstAtStart(x, u, t, k);
      } else {
        MaskRecurs(x, t, n, y, k);
        StarsAreMask(t, n, k + n - |x|);
      }
    }
  }

  /** Where the first mask of a token would stand, had the token recurred at `k`. */
  lemma MaskRecurs(x: string, t: string, n: nat, y: string, k: nat)
    requires '*' !in x && k < |x| && OccursAt(t, MASK, n) && n + 3 <= |t| && OccursAt(x + (t[..n] + t + y), t, k)
    ensures k + n >= |x|
    ensures var u, r := t[..n] + t, k + n - |x|; u[r] == '*' && u[r + 1] == '*' && u[r + 2] == '*'
  {
    var s, u := x + (t[..n] + t + y), t[..n] + t;
    assert k + n >= |x| || s[k + n] == x[k + n];
    OccursAtChar(t, MASK, n, 0);
    OccursAtChar(t, MASK, n, 1);
    OccursAtChar(t, MASK, n, 2);
    OccursAtChar(s, t, k, n);
    OccursAtChar(s, t, k, n + 1);
    OccursAtChar(s, t, k, n + 2);
    assert s[k + n] == '*' && s[k + n + 1] == '*' && s[k + n + 2] == '*';
    var r := k + n - |x|;
    assert s[|x|..][..|u|] == u;
    assert s[k + n] == u[r] && s[k + n + 1] == u[r + 1] && s[k + n + 2] == u[r + 2];
  }

  lemma LeakInside(x: string, t: string, n: nat) returns (text: string)
    requires Leads(x, t) && t != "" && t[0] != '*' && OccursAt(t, MASK, n)
    requires forall j: nat :: j < n ==> !OccursAt(t, MASK, j)
    ensures Contains(Redacted(text, Some(t)), t)
  {
    assert Steady(x + t, 0);
    hide *;
    SplitAtMask(t, n);
    var head, tail := t[..n], t[n + 3..];
    text := (x + head) + t + tail;
    Assoc(x, head, t, tail);
    forall k: nat | k < |x + head| ensures !OccursAt(text, t, k) { NotEarlierInside(x, t, n, tail, k); }
    ReplacedOnce(x + head, t, tail);
    Assoc(x, head, MASK, tail);
    SteadyStays(x + t, 0);
    RedactedAs(text, t, x + t);
    ContainsTail(x, t);
  }

  // ---- a token that starts with a star ----

  /** A star is no part of a `://`. */
  lemma SteadyBehind(x: string, t: string)
    requires t != "" && t[0] == '*' && |x| <= 2 && Steady(x + t, 0)
    requires forall k :: 0 <= k < |x| ==> x[k] != '@'
    ensures Steady(t, 0)
  {
    hide *;
    var s := x + t;
    var p := Find(s, SEPARATOR, 0);
    if p.Some? {
      FoundAt(s, 0, p.value);
      SeparatorChars(s, p.value);
      assert s[|x|] == '*';
    }
    SteadyLater(s, 0, |x|);
    SteadySuffix(s, |x|, 0);
    assert s[|x|..] == t;
  }

  lemma StarsInFront(t: string)
    requires Steady(t, 0)
    ensures Steady("**" + t, 0)
  {
    hide *;
    var s := "**" + t;
    assert s[2..] == t && s[0] == '*' && s[1] == '*';
    var p := Find(s, SEPARATOR, 0);
    if p.Some? {
      FoundAt(s, 0, p.value);
      SeparatorChars(s, p.value);
    }
    SteadyLater(s, 0, 2);
    SteadySuffix(s, 2, 0);
  }

  lemma StarSplits(x: string, t: string)
    requires t != "" && t[0] == '*'
    ensures x + MASK + t[1..] == x + ("**" + t)
  {
    assert t == "*" + t[1..];
  }

  lemma ReplacedFirst(x: string, t: string)
    requires t != "" && t[0] == '*' && '*' !in x
    ensures Replaced(x + t + t[1..], t, 0) == x + ("**" + t)
  {
    hide *;
    var text := x + t + t[1..];
    assert text == x + (t + t[1..]);
    forall k: nat | k < |x| ensures !OccursAt(text, t, k) {
      if OccursAt(text, t, k) { FirstAtStart(x, t + t[1..], t, k); }
    }
    ReplacedOnce(x, t, t[1..]);
    StarSplits(x, t);
  }

  lemma LeakInOpen(t: string) returns (text: string)
    requires t != "" && t[0] == '*' && Steady(t, 0)
    ensures Contains(Redacted(text, Some(t)), t)
  {
    hide *;
    text := "" + t + t[1..];
    ReplacedFirst("", t);
    var out := "**" + t;
    assert "" + out == out;
    StarsInFront(t);
    SteadyStays(out, 0);
    RedactedAs(text, t, out);
    assert out[2..2 + |t|] == t;
    OccursAtSlice(out, t, 2);
  }

  lemma StarredPlain(a: string)
    requires '@' !in a
    ensures MaskAuthority("**" + a) == "**" + a
  {
    assert "**"[0] == '*' && "**"[1] == '*';
    SteadyAuthority("**" + a);
  }

  lemma StarredAt(a: string, n: nat)
    requires n < |a| && a[n] == '@' && forall k :: n < k < |a| ==> a[k] != '@'
    ensures MaskAuthority("**" + a) == MASK + a[n..]
  {
    var b := "**" + a;
    assert forall k :: 0 <= k < |a| ==> b[2 + k] == a[k];
    LastAtIs(b, 2 + n);
    assert b[2 + n..] == a[n..];
  }

  lemma MaskGoesOn(auth: string, lead: string, a: string)
    requires auth == lead + a && |lead| <= 3 < |auth| && auth[..3] == MASK && auth[3] == '@'
    ensures var n := 3 - |lead|; n < |a| && a[n] == '@' && a[..n] == MASK[|lead|..]
  {
    var n := 3 - |lead|;
    assert forall k :: 0 <= k < n ==> a[k] == auth[..3][|lead| + k];
    assert a[n] == auth[3];
  }

  lemma NoAtBehind(auth: string, lead: string, a: string)
    requires auth == lead + a && |lead| <= 3 && LastAt(auth) == Some(3)
    ensures forall k :: 3 - |lead| < k < |a| ==> a[k] != '@'
  {
    LastAtLast(auth);
    hide LastAt;
    assert forall k :: 0 <= k < |a| ==> a[k] == auth[|lead| + k];
  }

  lemma StarredMask(auth: string, lead: string, a: string)
    requires auth == lead + a && |lead| <= 3 && MASK <= auth && LastAt(auth) == Some(3)
    ensures MaskAuthority("**" + a) == MASK[..|lead|] + a
  {
    assert |MASK| == 3;
    hide *;
    LastAtFacts(auth);
    assert auth[..3] == MASK;
    MaskGoesOn(auth, lead, a);
    NoAtBehind(auth, lead, a);
    StarredAt(a, 3 - |lead|);
    SplitMask(a, |lead|);
  }

  lemma SplitMask(a: string, l: nat)
    requires l <= 3 && 3 - l <= |a| && a[..3 - l] == MASK[l..]
    ensures MASK + a[3 - l..] == MASK[..l] + a
  {
    assert a == a[..3 - l] + a[3 - l..] && MASK == MASK[..l] + MASK[l..];
  }

  /** Two more stars before an authority that masking left alone: what masking makes of it ends
      with the authority all the same. */
  lemma StarredAuthority(lead: string, a: string) returns (w: string)
    requires |lead| <= 3 && MaskAuthority(lead + a) == lead + a
    ensures MaskAuthority("**" + a) == w + a
  {
    assert |MASK| == 3;
    hide *;
    SteadyAuthority(lead + a);
    if '@' in lead + a {
      StarredMask(lead + a, lead, a);
      w := MASK[..|lead|];
    } else {
      StarredPlain(a);
      w := "**";
    }
  }

  lemma AuthorityOfToken(t: string) returns (d: nat)
    ensures d <= |t| && AllAuthority(t[..d]) && (d < |t| ==> !Is(t[d], Authority))
  {
    d := RunEnd(t, 0, Authority);
  }

  lemma StarsAreAuthority(k: nat)
    requires k <= 3
    ensures AllAuthority("**") && AllAuthority(MASK[k..]) && |MASK[k..]| == 3 - k
  {
  }

  lemma RedactedIs(text: string, t: string, s: string)
    requires t != "" && Replaced(text, t, 0) == s
    ensures Redacted(text, Some(t)) == MaskUrls(s, 0)
  {
    hide Replaced;
    hide MaskUrls;
  }

  /** An authority that `lead` opens and the token goes on with, masked. */
  lemma MaskedInside(s: string, lead: string, t: string, d: nat, w: string)
    requires AllAuthority(lead) && d <= |t| && AllAuthority(t[..d]) && (d < |t| ==> !Is(t[d], Authority))
    requires Steady(t, d)
    requires s == SEPARATOR + (lead + t) && MaskAuthority(lead + t[..d]) == w + t[..d]
    ensures MaskUrls(s, 0) == SEPARATOR + w + t
  {
    hide *;
    var n := 3 + |lead|;
    FindAtStart(lead + t);
    AuthorityInside(s, lead, t, d);
    TailStays(s, n, t, d);
    MaskUrlsStep(s, 0, 0);
    StartsWithSeparator(s, lead + t);
    Rejoin(SEPARATOR, w, t, d);
  }

  lemma StartsWithSeparator(s: string, rest: string)
    requires s == SEPARATOR + rest
    ensures |s| >= 3 && s[0..3] == SEPARATOR
  {
  }

  lemma TailStays(s: string, n: nat, t: string, d: nat)
    requires n <= |s| && s[n..] == t && d <= |t| && Steady(t, d)
    ensures MaskUrls(s, n + d) == t[d..]
  {
    hide *;
    SteadySuffix(s, n, d);
    SteadyStays(s, n + d);
    SliceOfTail(s, n, t, d);
  }

  lemma SliceOfTail(s: string, n: nat, t: string, d: nat)
    requires n <= |s| && s[n..] == t && d <= |t|
    ensures s[n + d..] == t[d..]
  {
  }

  lemma LeakInAuthority(t: string, lead: string) returns (text: string)
    requires t != "" && t[0] == '*' && |lead| <= 3 && AllAuthority(lead) && Steady(SEPARATOR + (lead + t), 0)
    ensures Contains(Redacted(text, Some(t)), t)
  {
    assert '*' !in SEPARATOR;
    hide *;
    var d := AuthorityOfToken(t);
    SteadyInside(SEPARATOR + (lead + t), lead, t, d);
    var w := StarredAuthority(lead, t[..d]);
    StarsAreAuthority(0);
    text := SEPARATOR + t + t[1..];
    ReplacedFirst(SEPARATOR, t);
    var s := SEPARATOR + ("**" + t);
    MaskedInside(s, "**", t, d, w);
    RedactedIs(text, t, s);
    ContainsTail(SEPARATOR + w, t);
  }

  lemma Rejoin(a: string, w: string, t: string, d: nat)
    requires d <= |t|
    ensures a + (w + t[..d]) + t[d..] == a + w + t
  {
    assert t == t[..d] + t[d..];
  }

  lemma LeakFromStar(t: string) returns (text: string)
    requires Survives(t) && t != "" && t[0] == '*'
    ensures Contains(Redacted(text, Some(t)), t)
  {
    SurvivesMeets(t);
    hide Steady;
    hide Survives;
    hide Contains;
    hide Redacted;
    if Steady(t, 0) {
      text := LeakInOpen(t);
    } else if Steady(":" + t, 0) {
      SteadyBehind(":", t);
    } else if Steady(":/" + t, 0) {
      SteadyBehind(":/", t);
    } else if Steady(SEPARATOR + ("" + t), 0) {
      NothingIsAuthority();
      text := LeakInAuthority(t, "");
    } else {
      var a: nat :| CompletesMask(t, a);
      StarsAreAuthority(a);
      text := LeakInAuthority(t, MASK[a..]);
    }
  }

  /** A token that is not opaque and that the masking can leave alone survives in some text. */
  lemma LeakOf(t: string) returns (text: string)
    requires t != "" && !Opaque(t) && Survives(t)
    ensures Contains(Redacted(text, Some(t)), t)
  {
    hide Survives;
    hide Redacted;
    if t[0] == '*' {
      text := LeakFromStar(t);
    } else {
      var x := HasLead(t);
      if t[|t| - 1] == '*' {
        text := LeakAtEnd(x, t);
      } else {
        FindLeast(t, MASK, 0);
        hide Find;
        hide OccursAt;
        text := LeakInside(x, t, Find(t, MASK, 0).value);
      }
    }
  }

  /** Whatever the masking returns, each piece of it survives. */
  lemma RedactedSurvives(text: string, t: string)
    requires t != "" && Contains(Redacted(text, Some(t)), t)
    ensures Survives(t)
  {
    var s := Replaced(text, t, 0);
    assert Redacted(text, Some(t)) == MaskUrls(s, 0);
    hide *;
    var out := MaskUrls(s, 0);
    MaskedIsSteady(s, 0);
    var k := OccursSomewhere(out, t);
    assert out == out[..k + |t|] + out[k + |t|..];
    SteadyCut(out[..k + |t|], out[k + |t|..], 0);
    SteadyMeets(out[..k + |t|], 0, k);
    assert out[..k + |t|][k..] == t;
    SurvivesMeets(t);
  }

  lemma OccursSomewhere(s: string, t: string) returns (k: nat)
    requires Contains(s, t)
    ensures k + |t| <= |s| && s[k..k + |t|] == t
  {
    k :| k <= |s| && OccursAt(s, t, k);
  }

  /** Which tokens are hidden in all texts: exactly those that the replacement cannot spell again,
      and those that the masking cannot leave alone. */
  lemma HidesExactly(token: string)
    requires token != ""
    ensures (forall text :: !Contains(Redacted(text, Some(token)), token)) <==> Opaque(token) || !Survives(token)
  {
    hide Redacted;
    hide Opaque;
    hide Contains;
    hide Survives;
    if Opaque(token) {
      forall text ensures !Contains(Redacted(text, Some(token)), token) { RedactedHidesToken(text, token); }
    } else if Survives(token) {
      var text := LeakOf(token);
    } else {
      forall text ensures !Contains(Redacted(text, Some(token)), token) {
        if Contains(Redacted(text, Some(token)), token) { RedactedSurvives(text, token); }
      }
    }
  }

  /** A token that holds no `://` survives as it is, so it is hidden in all texts exactly when it
      neither starts nor ends with a star nor holds three in a row. */
  lemma HidesExactlyOpaqueTokens(token: string)
    requires token != "" && !Contains(token, SEPARATOR)
    ensures (forall text :: !Contains(Redacted(text, Some(token)), token)) <==> Opaque(token)
  {
    HidesExactly(token);
    PlainSurvives(token);
    hide *;
  }

  lemma FindMeansContains(s: string)
    ensures Find(s, SEPARATOR, 0).Some? ==> Contains(s, SEPARATOR)
  {
    FindLeast(s, SEPARATOR, 0);
    var p := Find(s, SEPARATOR, 0);
    hide Find;
    hide Contains;
    if p.Some? { OccursWithin(s, SEPARATOR, p.value); }
  }

  lemma PlainSurvives(token: string)
    requires !Contains(token, SEPARATOR)
    ensures Survives(token)
  {
    hide *;
    FindMeansContains(token);
    SteadyNone(token, 0);
    MetPlain(token);
    SurvivesMeets(token);
  }
}
