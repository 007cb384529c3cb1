/** Exactness of the anchor scanner: on the canonical print of a document tree it returns
    the tree's ids in preorder, each with its heading text. */
module Printer {
  import opened Text
  import opened Scanner

  datatype Value = Quoted(text: string, quote: char) | Unquoted(text: string)

  /** An attribute with the blanks before it, and those around its `=`. */
  datatype Attr =
    | Valued(lead: string, name: string, before: string, after: string, value: Value)
    | Bare(lead: string, name: string)

  /** A document tree, first child and next sibling. */
  datatype Forest =
    | Nil
    | Words(text: string, next: Forest)
    | Comment(body: string, next: Forest)
    | Doctype(body: string, next: Forest)
    | Void(tag: string, attrs: seq<Attr>, slash: bool, next: Forest)
    | Element(tag: string, attrs: seq<Attr>, kids: Forest, next: Forest)

  // ---- the canonical print ----

  function PrintAttr(a: Attr): string {
    match a
    case Valued(lead, name, before, after, value) =>
      lead + (name + (before + ("=" + (after + PrintValue(value)))))
    case Bare(lead, name) => lead + name
  }

  function PrintValue(v: Value): string {
    match v
    case Quoted(text, quote) => [quote] + (text + [quote])
    case Unquoted(text) => text
  }

  /** A tag's attribute text, with the slash of a self-closing tag. */
  function PrintAttrs(attrs: seq<Attr>, slash: bool): string {
    if attrs == [] then (if slash then "/" else "")
    else PrintAttr(attrs[0]) + PrintAttrs(attrs[1..], slash)
  }

  function OpenTag(tag: string, rest: string): (r: string)
    ensures |r| == |tag| + |rest| + 2
  {
    "<" + tag + rest + ">"
  }

  function CommentText(body: string): (r: string)
    ensures |r| == |body| + 7
  {
    "<!--" + body + "-->"
  }

  function DoctypeText(body: string): (r: string)
    ensures |r| == |body| + 3
  {
    "<!" + body + ">"
  }

  function Print(f: Forest): string {
    match f
    case Nil => ""
    case Words(text, next) => text + Print(next)
    case Comment(body, next) => CommentText(body) + Print(next)
    case Doctype(body, next) => DoctypeText(body) + Print(next)
    case Void(tag, attrs, slash, next) => OpenTag(tag, PrintAttrs(attrs, slash)) + Print(next)
    case Element(tag, attrs, kids, next) =>
      OpenTag(tag, PrintAttrs(attrs, false)) + (Print(kids) + (("</" + tag + ">") + Print(next)))
  }

  // ---- which trees are printed canonically ----

  predicate NoAngles(s: string) { '<' !in s && '>' !in s }

  predicate Letter(c: char) { 'a' <= c <= 'z' || 'A' <= c <= 'Z' }

  predicate LetterOrDigit(c: char) { Letter(c) || '0' <= c <= '9' }

  predicate Gap(c: char) { c == ' ' || c == '\n' || c == '\t' }

  predicate QuoteMark(c: char) { c == '"' || c == '\'' }

  /** What the grammar allows where the scanner runs over a class of its own. */
  predicate Allowed(c: char, p: Class) {
    match p
    case Alnum => LetterOrDigit(c)
    case NameChar => LetterOrDigit(c) || c == '-' || c == '_'
    case Blank => Gap(c)
    case _ => false
  }

  predicate AllIn(s: string, p: Class) { forall i :: 0 <= i < |s| ==> Allowed(s[i], p) }

  /** The elements whose text becomes a title: `h1` to `h6`, in either case. */
  predicate HeadingTag(tag: string) {
    |tag| == 2 && (tag[0] == 'h' || tag[0] == 'H') && '1' <= tag[1] <= '6'
  }

  /** What may stand in an unquoted value: no blank, quote or angle bracket. */
  predicate PlainChar(c: char) { !Gap(c) && !QuoteMark(c) && c != '<' && c != '>' }

  /** A quoted value holds anything but its quote and `>`; an unquoted one is not empty and holds
      no `id=`, which the scanner would take for the attribute. */
  predicate GoodValue(v: Value) {
    match v
    case Quoted(text, quote) => QuoteMark(quote) && quote !in text && '>' !in text
    case Unquoted(text) =>
      text != "" && (forall k :: 0 <= k < |text| ==> PlainChar(text[k])) && !Contains(Lower(text), "id=")
  }

  predicate GoodAttr(a: Attr) {
    && a.lead != "" && AllIn(a.lead, Blank)
    && a.name != "" && Letter(a.name[0]) && AllIn(a.name, NameChar)
    && (a.Valued? ==> AllIn(a.before, Blank) && AllIn(a.after, Blank) && GoodValue(a.value))
  }

  /** A slash right behind an unquoted value would belong to the value. */
  predicate SlashApart(attrs: seq<Attr>, slash: bool) {
    slash && attrs != [] ==> var last := attrs[|attrs| - 1]; last.Bare? || last.value.Quoted?
  }

  predicate GoodAttrs(attrs: seq<Attr>, slash: bool) {
    (forall k :: 0 <= k < |attrs| ==> GoodAttr(attrs[k])) && SlashApart(attrs, slash)
  }

  predicate GoodTag(tag: string, attrs: seq<Attr>, slash: bool) {
    tag != "" && AllIn(tag, Alnum) && GoodAttrs(attrs, slash)
  }

  predicate Good(f: Forest) {
    match f
    case Nil => true
    case Words(text, next) => NoAngles(text) && Good(next)
    case Comment(body, next) => !Contains("--" + body, "-->") && Good(next)
    case Doctype(body, next) => NoAngles(body) && !OccursAt(body, "--", 0) && Good(next)
    case Void(tag, attrs, slash, next) => GoodTag(tag, attrs, slash) && !HeadingTag(tag) && Good(next)
    case Element(tag, attrs, kids, next) =>
      GoodTag(tag, attrs, false) && Good(kids) && (HeadingTag(tag) ==> Inside(kids, Lower(tag))) && Good(next)
  }

  /** What may stand inside a heading `h`: no heading of its own level, and no angle
      bracket in a comment. */
  predicate Inside(f: Forest, h: string) {
    match f
    case Nil => true
    case Words(_, next) => Inside(next, h)
    case Comment(body, next) => NoAngles(body) && Inside(next, h)
    case Doctype(_, next) => Inside(next, h)
    case Void(_, _, _, next) => Inside(next, h)
    case Element(tag, _, kids, next) => Lower(tag) != h && Inside(kids, h) && Inside(next, h)
  }

  // ---- what the index of a tree should be ----

  function FirstId(attrs: seq<Attr>): Option<string> {
    if attrs == [] then None
    else if attrs[0].Valued? && attrs[0].name in {"id", "ID", "Id", "iD"} then Some(Lower(attrs[0].value.text))
    else FirstId(attrs[1..])
  }

  /** The text of a forest, markup dropped. */
  function TextOf(f: Forest): string {
    match f
    case Nil => ""
    case Words(text, next) => text + TextOf(next)
    case Comment(_, next) => TextOf(next)
    case Doctype(_, next) => TextOf(next)
    case Void(_, _, _, next) => TextOf(next)
    case Element(_, _, kids, next) => TextOf(kids) + TextOf(next)
  }

  function HeadingText(tag: string, kids: Forest): Option<string> {
    var t := JoinWords(Text.Words(TextOf(kids)));
    if HeadingTag(tag) && t != "" then Some(t) else None
  }

  /** An element's entry in the index: none without an id that says something. */
  function Entry(id: Option<string>, title: Option<string>): seq<Section> {
    match id
    case None => []
    case Some(text) => if text == "" then [] else [Section(text, title)]
  }

  /** The anchors of a tree in preorder. */
  function Preorder(f: Forest): seq<Section> {
    match f
    case Nil => []
    case Words(_, next) => Preorder(next)
    case Comment(_, next) => Preorder(next)
    case Doctype(_, next) => Preorder(next)
    case Void(_, attrs, _, next) => Entry(FirstId(attrs), None) + Preorder(next)
    case Element(tag, attrs, kids, next) =>
      Entry(FirstId(attrs), HeadingText(tag, kids)) + (Preorder(kids) + Preorder(next))
  }

  // ---- the grammar's words are the scanner's ----

  lemma HeadingIs(tag: string)
    ensures IsHeading(Lower(tag)) <==> HeadingTag(tag)
  {
    var l := Lower(tag);
    if |tag| == 2 {
      assert l == [LowerChar(tag[0]), LowerChar(tag[1])];
      assert LowerChar(tag[0]) == 'h' <==> tag[0] == 'h' || tag[0] == 'H';
      assert '1' <= LowerChar(tag[1]) <= '6' <==> '1' <= tag[1] <= '6';
    }
    HeadingChars(l);
    hide IsHeading;
    hide Lower;
  }

  lemma HeadingChars(l: string)
    ensures IsHeading(l) <==> |l| == 2 && l[0] == 'h' && '1' <= l[1] <= '6'
  {
    if |l| == 2 { assert l == [l[0], l[1]]; }
  }

  lemma EntryIs(id: Option<string>, title: Option<string>)
    ensures Entry(id, title) == AnchorOf(id, title)
  {
  }

  lemma IdNameIs(name: string)
    ensures Lower(name) == "id" <==> name in {"id", "ID", "Id", "iD"}
  {
    if |name| == 2 {
      assert name == [name[0], name[1]] && Lower(name) == [LowerChar(name[0]), LowerChar(name[1])];
      assert LowerChar(name[0]) == 'i' <==> name[0] == 'i' || name[0] == 'I';
      assert LowerChar(name[1]) == 'd' <==> name[1] == 'd' || name[1] == 'D';
    }
  }

  // ---- reading one piece of markup at the cursor ----

  lemma CharAt(s: string, pat: string, i: nat)
    requires OccursAt(s, pat, i)
    ensures forall k :: 0 <= k < |pat| ==> s[i + k] == pat[k]
    ensures i + |pat| <= |s|
  {
    forall k | 0 <= k < |pat| ensures s[i + k] == pat[k] { OccursAtChar(s, pat, i, k); }
  }

  lemma {:induction false} SkipText(html: string, i: nat, j: nat)
    requires i <= j <= |html| && forall k :: i <= k < j ==> html[k] != '<'
    ensures Anchors(html, Lower(html), i) == Anchors(html, Lower(html), j)
    decreases j - i
  {
    if i < j { SkipText(html, i + 1, j); }
  }

  lemma Occurs3(s: string, a: char, b: char, c: char, k: nat)
    ensures OccursAt(s, [a, b, c], k) <==> k + 3 <= |s| && s[k] == a && s[k + 1] == b && s[k + 2] == c
  {
    if k + 3 <= |s| { assert s[k..k + 3] == [s[k], s[k + 1], s[k + 2]]; }
  }

  lemma Occurs1(s: string, a: char, k: nat)
    ensures OccursAt(s, [a], k) <==> k < |s| && s[k] == a
  {
    if k < |s| { assert s[k..k + 1] == [s[k]]; }
  }

  /** Punctuation is its own lower case. */
  lemma LowerOccurs3(s: string, a: char, b: char, c: char, k: nat)
    requires !IsAlpha(a) && !IsAlpha(b) && !IsAlpha(c)
    ensures OccursAt(Lower(s), [a, b, c], k) <==> OccursAt(s, [a, b, c], k)
  {
    Occurs3(s, a, b, c, k);
    Occurs3(Lower(s), a, b, c, k);
  }

  /** The first `-->` after the opening `<!`. */
  lemma FindCommentEnd(html: string, i: nat, end: nat)
    requires i + 4 <= end && OccursAt(html, "!--", i + 1) && OccursAt(html, "-->", end)
    requires forall k: nat :: i + 2 <= k < end ==> !OccursAt(html, "-->", k)
    ensures Find(Lower(html), "-->", i + 1) == Some(end)
  {
    LowerOccurs3(html, '-', '-', '>', end);
    Occurs3(html, '!', '-', '-', i + 1);
    forall k: nat | i + 1 <= k < end ensures !OccursAt(Lower(html), "-->", k) {
      LowerOccurs3(html, '-', '-', '>', k);
      Occurs3(html, '-', '-', '>', k);
    }
    hide OccursAt;
    FindIs(Lower(html), "-->", i + 1, end);
  }

  /** `<!--`, a body, and the first `-->` after the opening `<!`. */
  lemma ReadComment(html: string, i: nat, end: nat)
    requires i + 4 <= end && end + 3 <= |html| && html[i] == '<'
    requires OccursAt(html, "!--", i + 1) && OccursAt(html, "-->", end)
    requires forall k: nat :: i + 2 <= k < end ==> !OccursAt(html, "-->", k)
    ensures Anchors(html, Lower(html), i) == Anchors(html, Lower(html), end + 3)
  {
    hide Find;
    hide OccursAt;
    LowerOccurs3(html, '!', '-', '-', i + 1);
    FindCommentEnd(html, i, end);
  }

  lemma FindClose(html: string, i: nat, end: nat)
    requires i <= end < |html| && html[end] == '>' && forall k :: i <= k < end ==> html[k] != '>'
    ensures Find(Lower(html), ">", i) == Some(end)
  {
    Occurs1(Lower(html), '>', end);
    forall k: nat | i <= k < end ensures !OccursAt(Lower(html), ">", k) {
      Occurs1(Lower(html), '>', k);
    }
    FindIs(Lower(html), ">", i, end);
  }

  lemma CommentsInLower(html: string, i: nat)
    ensures OccursAt(Lower(html), "!--", i) <==> OccursAt(html, "!--", i)
  {
    LowerOccurs3(html, '!', '-', '-', i);
  }

  /** A `<` followed by neither a name nor a comment is skipped up to its `>`. */
  lemma ReadNameless(html: string, i: nat, end: nat)
    requires i < end < |html| && html[i] == '<' && html[end] == '>'
    requires forall k :: i < k < end ==> html[k] != '>'
    requires !IsAlnum(html[i + 1]) && !OccursAt(html, "!--", i + 1)
    ensures Anchors(html, Lower(html), i) == Anchors(html, Lower(html), end + 1)
  {
    hide *;
    CommentsInLower(html, i + 1);
    NameEnds(html, i + 1, i + 1);
    FindClose(html, i + 1, end);
    AngleIsLower(html, i);
    AnchorsAtTag(html, Lower(html), i);
  }

  lemma AngleIsLower(html: string, i: nat)
    requires i < |html| && html[i] == '<'
    ensures Lower(html)[i] == '<'
  {
  }

  lemma AnchorsAtName(html: string, lower: string, i: nat, j: nat, end: nat)
    requires |lower| == |html| && i + 1 < j <= end < |html| && lower[i] == '<' && !OccursAt(lower, "!--", i + 1)
    requires RunEnd(lower, i + 1, Alnum) == j && Find(lower, ">", j) == Some(end)
    ensures Anchors(html, lower, i) ==
            AnchorOf(IdAttr(lower[j..end], 0), TitleAt(html, lower, lower[i + 1..j], end + 1))
            + Anchors(html, lower, end + 1)
  {
    hide *;
    AnchorsAtTag(html, lower, i);
  }

  lemma LowerSlice(html: string, i: nat, j: nat)
    requires i <= j <= |html|
    ensures Lower(html)[i..j] == Lower(html[i..j])
  {
  }

  lemma NameEnds(html: string, i: nat, j: nat)
    requires i <= j < |html| && (forall k :: i <= k < j ==> IsAlnum(html[k])) && !IsAlnum(html[j])
    ensures RunEnd(Lower(html), i, Alnum) == j
  {
    RunEndIs(Lower(html), i, Alnum, j);
  }

  lemma NoCommentAtName(html: string, i: nat)
    requires i < |html| && IsAlnum(html[i])
    ensures !OccursAt(Lower(html), "!--", i)
  {
    LowerOccurs3(html, '!', '-', '-', i);
    Occurs3(html, '!', '-', '-', i);
  }

  /** A named tag: name in `[i + 1, j)`, attribute text in `[j, end)`, `>` at `end`. */
  lemma ReadNamed(html: string, i: nat, j: nat, end: nat)
    requires i + 1 < j <= end < |html| && html[i] == '<' && html[end] == '>'
    requires forall k :: i < k < j ==> IsAlnum(html[k])
    requires !IsAlnum(html[j])
    requires forall k :: j <= k < end ==> html[k] != '>'
    ensures Anchors(html, Lower(html), i) ==
            AnchorOf(IdAttr(Lower(html[j..end]), 0), TitleAt(html, Lower(html), Lower(html[i + 1..j]), end + 1))
            + Anchors(html, Lower(html), end + 1)
  {
    hide *;
    NoCommentAtName(html, i + 1);
    NameEnds(html, i + 1, j);
    FindClose(html, j, end);
    AngleIsLower(html, i);
    AnchorsAtName(html, Lower(html), i, j, end);
    LowerSlice(html, i + 1, j);
    LowerSlice(html, j, end);
  }

  // ---- the attribute text ----

  lemma {:induction false} IdAttrSkips(s: string, i: nat, j: nat)
    requires i <= j <= |s| && forall k :: i <= k < j ==> !IsQuote(s[k]) && !IsAlpha(s[k])
    ensures IdAttr(s, i) == IdAttr(s, j)
    decreases j - i
  {
    if i < j { IdAttrSkips(s, i + 1, j); }
  }

  lemma IdAttrSkipsOne(s: string, i: nat)
    requires i < |s| && !IsQuote(s[i]) && !IsAlpha(s[i])
    ensures IdAttr(s, i) == IdAttr(s, i + 1)
  {
    hide RunEnd;
    hide NextChar;
  }

  lemma IdAttrSkipsQuoted(s: string, i: nat, m: nat)
    requires i < m < |s| && IsQuote(s[i]) && s[m] == s[i] && forall k :: i < k < m ==> s[k] != s[i]
    ensures IdAttr(s, i) == IdAttr(s, m + 1)
  {
    NextCharIs(s, i + 1, s[i], m);
    hide RunEnd;
    hide NextChar;
  }

  lemma IdAttrAtName(s: string, i: nat, n: nat)
    requires i < n <= |s| && IsAlpha(s[i]) && RunEnd(s, i, NameChar) == n
    ensures var j := RunEnd(s, n, Blank);
            IdAttr(s, i) == if s[i..n] == "id" && j < |s| && s[j] == '='
                            then IdValue(s, RunEnd(s, j + 1, Blank)) else IdAttr(s, n)
  {
    hide RunEnd;
    hide NextChar;
    hide IdValue;
  }

  predicate Blanks(s: string, i: nat, j: nat) { i <= j <= |s| && forall k :: i <= k < j ==> Is(s[k], Blank) }

  predicate Names(s: string, i: nat, j: nat) {
    i < j <= |s| && IsAlpha(s[i]) && forall k :: i <= k < j ==> Is(s[k], NameChar)
  }

  /** What ends an attribute at `e`: no name character, no `=` behind blanks, and behind an
      unquoted value a blank if anything. */
  predicate Ends(s: string, e: nat, plain: bool) {
    && e <= |s| && (e < |s| ==> !Is(s[e], NameChar))
    && (RunEnd(s, e, Blank) < |s| ==> s[RunEnd(s, e, Blank)] != '=')
    && (plain && e < |s| ==> Is(s[e], Blank))
  }

  /** The name of an attribute with a value, up to the value: blanks, name, blanks, `=`, blanks. */
  lemma IdAttrAssigned(s: string, i: nat, p: nat, n: nat, q: nat, v: nat)
    requires Blanks(s, i, p) && Names(s, p, n) && Blanks(s, n, q) && q < |s| && s[q] == '=' && Blanks(s, q + 1, v)
    requires v < |s| && !Is(s[v], Blank)
    ensures IdAttr(s, i) == if s[p..n] == "id" then IdValue(s, v) else IdAttr(s, v)
  {
    hide IdAttr;
    hide IdValue;
    IdAttrSkips(s, i, p);
    RunEndIs(s, p, NameChar, n);
    RunEndIs(s, n, Blank, q);
    RunEndIs(s, q + 1, Blank, v);
    hide RunEnd;
    IdAttrAtName(s, p, n);
    IdAttrSkips(s, n, v);
  }

  lemma IdAttrBare(s: string, i: nat, p: nat, n: nat)
    requires Blanks(s, i, p) && Names(s, p, n) && Ends(s, n, false)
    ensures IdAttr(s, i) == IdAttr(s, n)
  {
    hide IdAttr;
    IdAttrSkips(s, i, p);
    RunEndIs(s, p, NameChar, n);
    hide RunEnd;
    IdAttrAtName(s, p, n);
  }

  lemma IdValueQuoted(s: string, v: nat, m: nat)
    requires v < m < |s| && IsQuote(s[v]) && s[m] == s[v] && forall k :: v < k < m ==> s[k] != s[v]
    ensures IdValue(s, v) == Some(s[v + 1..m])
  {
    NextCharIs(s, v + 1, s[v], m);
    hide NextChar;
  }

  lemma IdValuePlain(s: string, v: nat, e: nat)
    requires v < e <= |s| && !IsQuote(s[v]) && (forall k :: v <= k < e ==> Is(s[k], NonBlank))
    requires e < |s| ==> Is(s[e], Blank)
    ensures IdValue(s, v) == Some(s[v..e])
  {
    RunEndIs(s, v, NonBlank, e);
    hide RunEnd;
  }

  lemma IdThenEquals(s: string, k: nat, m: nat)
    requires k <= m < |s| && s[k..m] == "id" && s[m] == '='
    ensures OccursAt(s, "id=", k)
  {
    assert s[k..k + 3] == s[k..m] + [s[m]];
  }

  /** A run of name characters inside an unquoted value is no `id` attribute. */
  lemma NoIdInside(s: string, k: nat, m: nat, v: nat, e: nat)
    requires v <= k < m <= e && Ends(s, e, true) && RunEnd(s, k, NameChar) == m && IsAlpha(s[k])
    requires forall j :: v <= j < e ==> !Is(s[j], Blank)
    requires forall j: nat :: v <= j ==> !(j + 3 <= e && OccursAt(s, "id=", j))
    ensures IdAttr(s, k) == IdAttr(s, m)
  {
    IdAttrAtName(s, k, m);
    if m < e {
      RunEndIs(s, m, Blank, m);
      if s[k..m] == "id" && s[m] == '=' { IdThenEquals(s, k, m); }
    }
    hide IdAttr;
    hide RunEnd;
  }

  lemma RunStaysInside(s: string, k: nat, e: nat)
    requires k < e <= |s| && IsAlpha(s[k]) && (e < |s| ==> !Is(s[e], NameChar))
    ensures k < RunEnd(s, k, NameChar) <= e
  {
    assert Is(s[k], NameChar);
  }

  lemma {:induction false} PlainSkipped(s: string, k: nat, v: nat, e: nat)
    requires v <= k <= e && Ends(s, e, true)
    requires forall j :: v <= j < e ==> !Is(s[j], Blank) && !IsQuote(s[j])
    requires forall j: nat :: v <= j ==> !(j + 3 <= e && OccursAt(s, "id=", j))
    ensures IdAttr(s, k) == IdAttr(s, e)
    decreases e - k
  {
    hide IdAttr;
    hide OccursAt;
    hide RunEnd;
    if k < e {
      if IsAlpha(s[k]) {
        RunStaysInside(s, k, e);
        var m := RunEnd(s, k, NameChar);
        NoIdInside(s, k, m, v, e);
        PlainSkipped(s, m, v, e);
      } else {
        IdAttrSkipsOne(s, k);
        PlainSkipped(s, k + 1, v, e);
      }
    }
  }

  lemma LowerKeepsClass(c: char, p: Class)
    requires p == Alnum || p == NameChar
    ensures Is(LowerChar(c), p) <==> Is(c, p)
    ensures IsAlpha(LowerChar(c)) <==> IsAlpha(c)
  {
  }

  lemma SliceAt(s: string, pat: string, i: nat)
    requires OccursAt(s, pat, i)
    ensures i + |pat| <= |s| && s[i..i + |pat|] == pat
    ensures forall k :: i <= k < i + |pat| ==> s[k] == pat[k - i]
  {
    CharAt(s, pat, i);
  }

  lemma LowerOccursConcat(s: string, a: string, b: string, i: nat)
    ensures OccursAt(s, Lower(a + b), i) <==> OccursAt(s, Lower(a), i) && OccursAt(s, Lower(b), i + |a|)
  {
    LowerConcat(a, b);
    OccursAtConcat(s, Lower(a), Lower(b), i);
  }

  lemma LowerOccursChar(s: string, c: char, i: nat)
    ensures OccursAt(s, Lower([c]), i) <==> i < |s| && s[i] == LowerChar(c)
  {
    assert Lower([c]) == [LowerChar(c)];
    Occurs1(s, LowerChar(c), i);
  }

  lemma NameAt(s: string, name: string, i: nat)
    requires name != "" && IsAlpha(name[0]) && AllIn(name, NameChar) && OccursAt(s, Lower(name), i)
    ensures i + |name| <= |s| && s[i..i + |name|] == Lower(name)
    ensures IsAlpha(s[i]) && forall k :: i <= k < i + |name| ==> Is(s[k], NameChar)
  {
    SliceAt(s, Lower(name), i);
    forall k | i <= k < i + |name| ensures Is(s[k], NameChar) {
      assert s[k] == LowerChar(name[k - i]) && Is(name[k - i], NameChar);
      LowerKeepsClass(name[k - i], NameChar);
    }
    LowerKeepsClass(name[0], NameChar);
    assert s[i] == LowerChar(name[0]);
  }

  lemma BlanksAt(s: string, text: string, i: nat)
    requires AllIn(text, Blank) && OccursAt(s, Lower(text), i)
    ensures Blanks(s, i, i + |text|)
  {
    SliceAt(s, Lower(text), i);
    forall k | i <= k < i + |text| ensures Is(s[k], Blank) {
      assert s[k] == LowerChar(text[k - i]) && Is(text[k - i], Blank);
    }
  }

  lemma LowerOfQuote(c: char)
    requires IsQuote(c)
    ensures LowerChar(c) == c
  {
  }

  /** Where a quoted value and its quotes stand in lower-case attribute text. */
  lemma QuotedAt(s: string, text: string, quote: char, v: nat)
    requires IsQuote(quote) && quote !in text && OccursAt(s, Lower([quote] + (text + [quote])), v)
    ensures var m := v + 1 + |text|;
            && m < |s| && s[v] == s[m] == quote && s[v + 1..m] == Lower(text)
            && forall k :: v < k < m ==> s[k] != quote
  {
    LowerOccursConcat(s, [quote], text + [quote], v);
    LowerOccursConcat(s, text, [quote], v + 1);
    LowerOccursChar(s, quote, v);
    LowerOccursChar(s, quote, v + 1 + |text|);
    LowerOfQuote(quote);
    SliceAt(s, Lower(text), v + 1);
    hide OccursAt;
    forall k | v < k < v + 1 + |text| ensures s[k] != quote {
      assert s[k] == LowerChar(text[k - v - 1]) && text[k - v - 1] in text;
    }
  }

  lemma LowerOfPlain(c: char)
    requires PlainChar(c)
    ensures PlainChar(LowerChar(c))
  {
  }

  /** What an unquoted value is in lower-case attribute text. */
  lemma UnquotedAt(s: string, text: string, v: nat)
    requires (forall k :: 0 <= k < |text| ==> PlainChar(text[k])) && !Contains(Lower(text), "id=")
    requires OccursAt(s, Lower(text), v)
    ensures var e := v + |text|;
            && e <= |s| && s[v..e] == Lower(text) && (forall k :: v <= k < e ==> PlainChar(s[k]))
            && forall j: nat :: v <= j ==> !(j + 3 <= e && OccursAt(s, "id=", j))
  {
    SliceAt(s, Lower(text), v);
    var e := v + |text|;
    forall k | v <= k < e ensures PlainChar(s[k]) {
      assert s[k] == LowerChar(text[k - v]);
      LowerOfPlain(text[k - v]);
    }
    forall j: nat | v <= j && j + 3 <= e ensures !OccursAt(s, "id=", j) {
      assert s[j..j + 3] == Lower(text)[j - v..j - v + 3];
      assert !OccursAt(Lower(text), "id=", j - v);
    }
  }

  /** A printed value, read, and skipped. */
  lemma ReadValue(s: string, value: Value, v: nat)
    requires GoodValue(value) && OccursAt(s, Lower(PrintValue(value)), v)
    requires Ends(s, v + |PrintValue(value)|, value.Unquoted?)
    ensures v < |s| && !Is(s[v], Blank)
    ensures IdValue(s, v) == Some(Lower(value.text)) && IdAttr(s, v) == IdAttr(s, v + |PrintValue(value)|)
  {
    hide Lower;
    hide IdAttr;
    hide IdValue;
    hide RunEnd;
    hide OccursAt;
    match value
    case Quoted(text, quote) =>
      QuotedAt(s, text, quote, v);
      IdValueQuoted(s, v, v + 1 + |text|);
      IdAttrSkipsQuoted(s, v, v + 1 + |text|);
    case Unquoted(text) =>
      UnquotedAt(s, text, v);
      assert PlainChar(s[v]);
      IdValuePlain(s, v, v + |text|);
      PlainSkipped(s, v, v, v + |text|);
  }

  lemma NameSplits(s: string, lead: string, name: string, rest: string, i: nat)
    requires OccursAt(s, Lower(lead + (name + rest)), i)
    ensures OccursAt(s, Lower(lead), i) && OccursAt(s, Lower(name), i + |lead|)
    ensures OccursAt(s, Lower(rest), i + |lead| + |name|)
  {
    hide *;
    LowerOccursConcat(s, lead, name + rest, i);
    LowerOccursConcat(s, name, rest, i + |lead|);
  }

  lemma EqualsSplits(s: string, before: string, rest: string, n: nat)
    requires OccursAt(s, Lower(before + ("=" + rest)), n)
    ensures var q := n + |before|;
            OccursAt(s, Lower(before), n) && q < |s| && s[q] == '=' && OccursAt(s, Lower(rest), q + 1)
  {
    assert LowerChar('=') == '=';
    hide *;
    LowerOccursConcat(s, before, "=" + rest, n);
    LowerOccursConcat(s, "=", rest, n + |before|);
    LowerOccursChar(s, '=', n + |before|);
  }

  lemma PrintValuedIs(a: Attr)
    requires a.Valued?
    ensures PrintAttr(a) == a.lead + (a.name + (a.before + ("=" + (a.after + PrintValue(a.value)))))
  {
    hide PrintValue;
  }

  lemma ValuedSplits(s: string, a: Attr, i: nat)
    requires a.Valued? && OccursAt(s, Lower(PrintAttr(a)), i)
    ensures var p := i + |a.lead|;
            var n := p + |a.name|;
            var q := n + |a.before|;
            var v := q + 1 + |a.after|;
            && v + |PrintValue(a.value)| == i + |PrintAttr(a)|
            && OccursAt(s, Lower(a.lead), i) && OccursAt(s, Lower(a.name), p) && OccursAt(s, Lower(a.before), n)
            && q < |s| && s[q] == '=' && OccursAt(s, Lower(a.after), q + 1)
            && OccursAt(s, Lower(PrintValue(a.value)), v)
  {
    hide *;
    var value := PrintValue(a.value);
    PrintValuedIs(a);
    NameSplits(s, a.lead, a.name, a.before + ("=" + (a.after + value)), i);
    EqualsSplits(s, a.before, a.after + value, i + |a.lead| + |a.name|);
    LowerOccursConcat(s, a.after, value, i + |a.lead| + |a.name| + |a.before| + 1);
  }

  lemma GoodAttrIs(a: Attr)
    requires GoodAttr(a)
    ensures a.lead != "" && AllIn(a.lead, Blank) && a.name != "" && IsAlpha(a.name[0]) && AllIn(a.name, NameChar)
    ensures a.Valued? ==> AllIn(a.before, Blank) && AllIn(a.after, Blank) && GoodValue(a.value)
  {
    hide AllIn;
    hide GoodValue;
  }

  lemma NameIs(s: string, name: string, p: nat)
    requires name != "" && IsAlpha(name[0]) && AllIn(name, NameChar) && OccursAt(s, Lower(name), p)
    ensures Names(s, p, p + |name|) && s[p..p + |name|] == Lower(name)
  {
    hide OccursAt;
    hide Lower;
    NameAt(s, name, p);
  }

  /** Where the parts of a printed attribute with a value stand in lower-case attribute text. */
  lemma ValuedParts(s: string, a: Attr, i: nat)
    requires GoodAttr(a) && a.Valued? && OccursAt(s, Lower(PrintAttr(a)), i)
    ensures var p := i + |a.lead|;
            var n := p + |a.name|;
            var q := n + |a.before|;
            var v := q + 1 + |a.after|;
            && v + |PrintValue(a.value)| == i + |PrintAttr(a)|
            && Blanks(s, i, p) && Names(s, p, n) && s[p..n] == Lower(a.name) && Blanks(s, n, q)
            && q < |s| && s[q] == '=' && Blanks(s, q + 1, v) && OccursAt(s, Lower(PrintValue(a.value)), v)
  {
    hide *;
    var p := i + |a.lead|;
    var n := p + |a.name|;
    var q := n + |a.before|;
    ValuedSplits(s, a, i);
    GoodAttrIs(a);
    BlanksAt(s, a.lead, i);
    NameIs(s, a.name, p);
    BlanksAt(s, a.before, n);
    BlanksAt(s, a.after, q + 1);
  }

  lemma BareParts(s: string, a: Attr, i: nat)
    requires GoodAttr(a) && a.Bare? && OccursAt(s, Lower(PrintAttr(a)), i)
    ensures Blanks(s, i, i + |a.lead|) && Names(s, i + |a.lead|, i + |PrintAttr(a)|)
  {
    LowerOccursConcat(s, a.lead, a.name, i);
    BlanksAt(s, a.lead, i);
    NameAt(s, a.name, i + |a.lead|);
  }

  lemma AttrFirst(a: Attr) returns (tail: string)
    requires GoodAttr(a)
    ensures PrintAttr(a) == a.lead + (a.name[..1] + tail)
  {
    tail := PrintAttr(a)[|a.lead| + 1..];
  }

  lemma LowerAlpha(s: string, c: char, k: nat)
    requires IsAlpha(c) && OccursAt(s, Lower([c]), k)
    ensures k < |s| && IsAlpha(s[k])
  {
    LowerOccursChar(s, c, k);
  }

  lemma LowerParts(s: string, x: string, y: string, z: string, rest: string, n: nat)
    requires OccursAt(s, Lower(x + (y + z) + rest), n)
    ensures OccursAt(s, Lower(x), n) && OccursAt(s, Lower(y), n + |x|)
  {
    hide *;
    LowerOccursConcat(s, x + (y + z), rest, n);
    LowerOccursConcat(s, x, y + z, n);
    LowerOccursConcat(s, y, z, n + |x|);
  }

  lemma AttrsFirst(attrs: seq<Attr>, slash: bool)
    requires attrs != []
    ensures PrintAttrs(attrs, slash) == PrintAttr(attrs[0]) + PrintAttrs(attrs[1..], slash)
  {
  }

  lemma NameFirst(a: Attr)
    requires GoodAttr(a)
    ensures a.lead != "" && a.name != "" && a.name[..1] == [a.name[0]] && IsAlpha(a.name[0])
  {
    GoodAttrIs(a);
    hide *;
  }

  lemma LeadStarts(s: string, attrs: seq<Attr>, slash: bool, n: nat)
    requires attrs != [] && GoodAttr(attrs[0]) && OccursAt(s, Lower(PrintAttrs(attrs, slash)), n)
    ensures var p := n + |attrs[0].lead|; n < p < |s| && Blanks(s, n, p) && IsAlpha(s[p])
  {
    hide *;
    var a := attrs[0];
    NameFirst(a);
    GoodAttrIs(a);
    AttrsFirst(attrs, slash);
    var tail := AttrFirst(a);
    LowerParts(s, a.lead, a.name[..1], tail, PrintAttrs(attrs[1..], slash), n);
    BlanksAt(s, a.lead, n);
    LowerAlpha(s, a.name[0], n + |a.lead|);
  }

  lemma SlashEnds(s: string, slash: bool, plain: bool, n: nat)
    requires slash ==> !plain
    requires OccursAt(s, Lower(PrintAttrs([], slash)), n) && n + |PrintAttrs([], slash)| == |s|
    ensures Ends(s, n, plain)
  {
    SliceAt(s, Lower(PrintAttrs([], slash)), n);
    hide RunEnd;
    RunEndIs(s, n, Blank, n);
  }

  /** What follows an attribute ends it: nothing, a slash, or blanks and a name. */
  lemma TailEnds(s: string, attrs: seq<Attr>, slash: bool, plain: bool, n: nat)
    requires (forall k :: 0 <= k < |attrs| ==> GoodAttr(attrs[k])) && (slash && attrs == [] ==> !plain)
    requires OccursAt(s, Lower(PrintAttrs(attrs, slash)), n) && n + |PrintAttrs(attrs, slash)| == |s|
    ensures Ends(s, n, plain)
  {
    hide *;
    if attrs == [] {
      SlashEnds(s, slash, plain, n);
    } else {
      LeadStarts(s, attrs, slash, n);
      BlankThenName(s, n, n + |attrs[0].lead|);
    }
  }

  lemma BlankThenName(s: string, n: nat, p: nat)
    requires n < p < |s| && Blanks(s, n, p) && IsAlpha(s[p])
    ensures Ends(s, n, true) && Ends(s, n, false)
  {
    RunEndIs(s, n, Blank, p);
    hide RunEnd;
  }

  predicate IsPlain(a: Attr) { a.Valued? && a.value.Unquoted? }

  lemma ReadValued(s: string, a: Attr, i: nat)
    requires GoodAttr(a) && a.Valued? && OccursAt(s, Lower(PrintAttr(a)), i)
    requires Ends(s, i + |PrintAttr(a)|, a.value.Unquoted?)
    ensures IdAttr(s, i) == if Lower(a.name) == "id" then Some(Lower(a.value.text)) else IdAttr(s, i + |PrintAttr(a)|)
  {
    hide *;
    var p := i + |a.lead|;
    var n := p + |a.name|;
    var q := n + |a.before|;
    var v := q + 1 + |a.after|;
    GoodAttrIs(a);
    ValuedParts(s, a, i);
    ReadValue(s, a.value, v);
    IdAttrAssigned(s, i, p, n, q, v);
  }

  /** One printed attribute, read from its leading blank. */
  lemma ReadAttr(s: string, a: Attr, i: nat)
    requires GoodAttr(a) && OccursAt(s, Lower(PrintAttr(a)), i) && Ends(s, i + |PrintAttr(a)|, IsPlain(a))
    ensures IdAttr(s, i) ==
            if a.Valued? && Lower(a.name) == "id" then Some(Lower(a.value.text)) else IdAttr(s, i + |PrintAttr(a)|)
  {
    assert IsPlain(a) == (a.Valued? && a.value.Unquoted?);
    hide *;
    if a.Valued? {
      ReadValued(s, a, i);
    } else {
      BareParts(s, a, i);
      IdAttrBare(s, i, i + |a.lead|, i + |PrintAttr(a)|);
    }
  }

  lemma IdAttrOfSlash(s: string, slash: bool, i: nat)
    requires OccursAt(s, Lower(PrintAttrs([], slash)), i) && i + |PrintAttrs([], slash)| == |s|
    ensures IdAttr(s, i) == None
  {
    SliceAt(s, Lower(PrintAttrs([], slash)), i);
    IdAttrSkips(s, i, |s|);
  }

  lemma GoodAttrsRest(attrs: seq<Attr>, slash: bool)
    requires GoodAttrs(attrs, slash) && attrs != []
    ensures GoodAttr(attrs[0]) && GoodAttrs(attrs[1..], slash)
    ensures slash && attrs[1..] == [] ==> !IsPlain(attrs[0])
  {
    hide GoodAttr;
    var rest := attrs[1..];
    assert forall k :: 0 <= k < |rest| ==> rest[k] == attrs[k + 1];
  }

  /** `extract_id_attr` finds the first `id` of printed attributes. */
  lemma {:induction false} IdAttrPrinted(s: string, attrs: seq<Attr>, slash: bool, i: nat)
    requires GoodAttrs(attrs, slash)
    requires OccursAt(s, Lower(PrintAttrs(attrs, slash)), i) && i + |PrintAttrs(attrs, slash)| == |s|
    ensures IdAttr(s, i) == FirstId(attrs)
    decreases |attrs|
  {
    hide IdAttr;
    hide OccursAt;
    hide Lower;
    hide GoodAttr;
    hide PrintAttr;
    hide Ends;
    hide IsPlain;
    hide SlashApart;
    if attrs == [] {
      IdAttrOfSlash(s, slash, i);
    } else {
      GoodAttrsRest(attrs, slash);
      IdNameIs(attrs[0].name);
      var a, rest := PrintAttr(attrs[0]), PrintAttrs(attrs[1..], slash);
      LowerOccursConcat(s, a, rest, i);
      IdAttrPrinted(s, attrs[1..], slash, i + |a|);
      TailEnds(s, attrs[1..], slash, IsPlain(attrs[0]), i + |a|);
      ReadAttr(s, attrs[0], i);
    }
  }

  // ---- where the parts of each printed piece stand ----

  predicate Without(s: string, c: char) { forall k :: 0 <= k < |s| ==> s[k] != c }

  lemma WithoutConcat(a: string, b: string, c: char)
    requires Without(a, c) && Without(b, c)
    ensures Without(a + b, c)
  {
  }

  lemma ClassHasNoAngles(s: string, p: Class)
    requires AllIn(s, p) && (p == Blank || p == NameChar)
    ensures Without(s, '<') && Without(s, '>')
  {
  }

  lemma ValueText(v: Value)
    requires GoodValue(v)
    ensures Without(PrintValue(v), '>')
    ensures v.Unquoted? ==> Without(PrintValue(v), '<')
  {
    if v.Quoted? {
      assert forall k :: 0 <= k < |v.text| ==> v.text[k] in v.text;
      WithoutConcat(v.text, [v.quote], '>');
      WithoutConcat([v.quote], v.text + [v.quote], '>');
    } else {
      assert forall k :: 0 <= k < |v.text| ==> PlainChar(v.text[k]);
    }
  }

  lemma AssignedText(lead: string, name: string, before: string, after: string, value: string, c: char)
    requires Without(lead, c) && Without(name, c) && Without(before, c) && Without(after, c)
    requires Without(value, c) && c != '='
    ensures Without(lead + (name + (before + ("=" + (after + value)))), c)
  {
    assert Without("=", c);
    WithoutConcat(after, value, c);
    hide Without;
    WithoutConcat("=", after + value, c);
    WithoutConcat(before, "=" + (after + value), c);
    WithoutConcat(name, before + ("=" + (after + value)), c);
    WithoutConcat(lead, name + (before + ("=" + (after + value))), c);
  }

  lemma AttrText(a: Attr)
    requires GoodAttr(a)
    ensures Without(PrintAttr(a), '>')
    ensures a.Bare? || a.value.Unquoted? ==> Without(PrintAttr(a), '<')
  {
    GoodAttrIs(a);
    hide GoodAttr;
    hide AllIn;
    hide GoodValue;
    hide Without;
    hide PrintValue;
    ClassHasNoAngles(a.lead, Blank);
    ClassHasNoAngles(a.name, NameChar);
    if a.Valued? {
      ClassHasNoAngles(a.before, Blank);
      ClassHasNoAngles(a.after, Blank);
      ValueText(a.value);
      AssignedText(a.lead, a.name, a.before, a.after, PrintValue(a.value), '>');
      if a.value.Unquoted? { AssignedText(a.lead, a.name, a.before, a.after, PrintValue(a.value), '<'); }
    } else {
      WithoutConcat(a.lead, a.name, '>');
      WithoutConcat(a.lead, a.name, '<');
    }
  }

  lemma PrintAttrsIs(attrs: seq<Attr>, slash: bool)
    requires attrs != []
    ensures PrintAttrs(attrs, slash) == PrintAttr(attrs[0]) + PrintAttrs(attrs[1..], slash)
  {
    hide PrintAttr;
  }

  lemma AttrStarts(a: Attr)
    requires GoodAttr(a)
    ensures PrintAttr(a) != "" && Is(PrintAttr(a)[0], Blank)
  {
    assert PrintAttr(a)[0] == a.lead[0];
  }

  /** Attribute text starts with a blank, or is the slash alone. */
  lemma AttrsStart(attrs: seq<Attr>, slash: bool)
    requires GoodAttrs(attrs, slash)
    ensures PrintAttrs(attrs, slash) != "" ==> Is(PrintAttrs(attrs, slash)[0], Blank) || PrintAttrs(attrs, slash) == "/"
  {
    hide GoodAttrs;
    hide PrintAttr;
    hide Is;
    if attrs != [] {
      GoodAttrsRest(attrs, slash);
      AttrStarts(attrs[0]);
      assert PrintAttrs(attrs, slash)[0] == PrintAttr(attrs[0])[0];
    }
  }

  lemma {:induction false} AttrsText(attrs: seq<Attr>, slash: bool)
    requires GoodAttrs(attrs, slash)
    ensures Without(PrintAttrs(attrs, slash), '>')
  {
    if attrs != [] {
      hide *;
      GoodAttrsRest(attrs, slash);
      AttrsText(attrs[1..], slash);
      AttrText(attrs[0]);
      PrintAttrsIs(attrs, slash);
      WithoutConcat(PrintAttr(attrs[0]), PrintAttrs(attrs[1..], slash), '>');
    }
  }

  /** A tag stands at `[i, end]`: `<`, text up to `j` in class alphanumeric, no `>` before `end`. */
  predicate TagAt(html: string, i: nat, j: nat, end: nat) {
    && i < j <= end < |html| && html[i] == '<' && html[end] == '>'
    && (forall k :: i < k < j ==> IsAlnum(html[k]))
    && !IsAlnum(html[j])
    && (forall k :: i < k < end ==> html[k] != '>')
  }

  lemma OpenTagSplits(html: string, tag: string, rest: string, i: nat)
    requires OccursAt(html, OpenTag(tag, rest), i)
    ensures var end := i + 1 + |tag| + |rest|;
            && end < |html| && html[i] == '<' && html[end] == '>'
            && OccursAt(html, tag, i + 1) && OccursAt(html, rest, i + 1 + |tag|)
  {
    assert OpenTag(tag, rest) == "<" + (tag + (rest + ">"));
    OccursAtConcat(html, "<", tag + (rest + ">"), i);
    OccursAtConcat(html, tag, rest + ">", i + 1);
    OccursAtConcat(html, rest, ">", i + 1 + |tag|);
    Occurs1(html, '<', i);
    Occurs1(html, '>', i + 1 + |tag| + |rest|);
  }

  lemma OpenTagAt(html: string, tag: string, attrs: seq<Attr>, slash: bool, i: nat)
    requires GoodTag(tag, attrs, slash) && OccursAt(html, OpenTag(tag, PrintAttrs(attrs, slash)), i)
    ensures var j := i + 1 + |tag|;
            var end := j + |PrintAttrs(attrs, slash)|;
            && TagAt(html, i, j, end)
            && html[i + 1..j] == tag && html[j..end] == PrintAttrs(attrs, slash)
  {
    hide OccursAt;
    hide PrintAttrs;
    hide OpenTag;
    var rest := PrintAttrs(attrs, slash);
    var j := i + 1 + |tag|;
    OpenTagSplits(html, tag, rest, i);
    AttrsText(attrs, slash);
    AttrsStart(attrs, slash);
    SliceAt(html, tag, i + 1);
    SliceAt(html, rest, j);
    assert rest != "" ==> html[j] == rest[0];
    forall k | i < k < j ensures IsAlnum(html[k]) && html[k] != '>' {
      assert html[k] == tag[k - i - 1] && Is(tag[k - i - 1], Alnum);
    }
  }

  lemma CloseTagAt(html: string, tag: string, i: nat)
    requires AllIn(tag, Alnum) && OccursAt(html, CloseTag(tag), i)
    ensures var end := i + 2 + |tag|;
            && TagAt(html, i, i + 1, end) && html[i + 1] == '/'
            && html[i + 2..end] == tag && forall k :: i + 1 < k < end ==> IsAlnum(html[k])
  {
    var end := i + 2 + |tag|;
    assert CloseTag(tag) == "<" + ("/" + (tag + ">"));
    OccursAtConcat(html, "<", "/" + (tag + ">"), i);
    OccursAtConcat(html, "/", tag + ">", i + 1);
    OccursAtConcat(html, tag, ">", i + 2);
    Occurs1(html, '<', i);
    Occurs1(html, '/', i + 1);
    Occurs1(html, '>', end);
    SliceAt(html, tag, i + 2);
    forall k | i + 1 < k < end ensures IsAlnum(html[k]) {
      assert html[k] == tag[k - i - 2] && Is(tag[k - i - 2], Alnum);
    }
    hide OccursAt;
    hide CloseTag;
  }

  lemma CommentAt(html: string, body: string, i: nat)
    requires OccursAt(html, CommentText(body), i)
    ensures var end := i + 4 + |body|;
            && end + 3 <= |html| && html[i] == '<' && OccursAt(html, "!--", i + 1)
            && OccursAt(html, "--" + body, i + 2) && OccursAt(html, body, i + 4) && OccursAt(html, "-->", end)
  {
    assert CommentText(body) == "<" + (("!--" + body) + "-->");
    OccursAtConcat(html, "<", ("!--" + body) + "-->", i);
    OccursAtConcat(html, "!--" + body, "-->", i + 1);
    OccursAtConcat(html, "!--", body, i + 1);
    assert "!--" + body == "!" + ("--" + body);
    OccursAtConcat(html, "!", "--" + body, i + 1);
    Occurs1(html, '<', i);
  }

  /** No `-->` ends before the comment's own. */
  lemma CommentEnds(html: string, body: string, i: nat)
    requires OccursAt(html, CommentText(body), i) && !Contains("--" + body, "-->")
    ensures forall k: nat :: i + 2 <= k < i + 4 + |body| ==> !OccursAt(html, "-->", k)
  {
    CommentAt(html, body, i);
    var end := i + 4 + |body|;
    var b := "--" + body;
    SliceAt(html, b, i + 2);
    Occurs3(html, '-', '-', '>', end);
    forall k: nat | i + 2 <= k < end ensures !OccursAt(html, "-->", k) {
      Occurs3(html, '-', '-', '>', k);
      Occurs3(b, '-', '-', '>', k - i - 2);
      assert !OccursAt(b, "-->", k - i - 2);
    }
  }

  lemma DoctypeParts(html: string, body: string, i: nat)
    requires OccursAt(html, DoctypeText(body), i)
    ensures OccursAt(html, "<", i) && OccursAt(html, "!", i + 1)
    ensures OccursAt(html, body, i + 2) && OccursAt(html, ">", i + 2 + |body|)
  {
    assert DoctypeText(body) == "<" + ("!" + (body + ">"));
    hide OccursAt;
    OccursAtConcat(html, "<", "!" + (body + ">"), i);
    OccursAtConcat(html, "!", body + ">", i + 1);
    OccursAtConcat(html, body, ">", i + 2);
  }

  /** A declaration whose body does not begin with dashes is no comment. */
  lemma NoCommentInDoctype(html: string, body: string, i: nat)
    requires OccursAt(html, body, i + 2) && OccursAt(html, ">", i + 2 + |body|) && !OccursAt(body, "--", 0)
    ensures !OccursAt(html, "!--", i + 1)
  {
    SliceAt(html, body, i + 2);
    Occurs1(html, '>', i + 2 + |body|);
    Occurs3(html, '!', '-', '-', i + 1);
    assert |body| >= 2 ==> body[0..2] == [body[0], body[1]];
  }

  lemma DoctypeAt(html: string, body: string, i: nat)
    requires OccursAt(html, DoctypeText(body), i) && NoAngles(body) && !OccursAt(body, "--", 0)
    ensures var end := i + 2 + |body|;
            && TagAt(html, i, i + 1, end) && html[i + 1] == '!' && !OccursAt(html, "!--", i + 1)
            && forall k :: i < k < end ==> html[k] != '<'
  {
    var end := i + 2 + |body|;
    hide OccursAt;
    DoctypeParts(html, body, i);
    NoCommentInDoctype(html, body, i);
    Occurs1(html, '<', i);
    Occurs1(html, '!', i + 1);
    Occurs1(html, '>', end);
    TextAt(html, body, i + 2);
  }

  lemma TextAt(html: string, text: string, i: nat)
    requires OccursAt(html, text, i) && NoAngles(text)
    ensures i + |text| <= |html| && html[i..i + |text|] == text
    ensures forall k :: i <= k < i + |text| ==> html[k] != '<' && html[k] != '>'
  {
    SliceAt(html, text, i);
    forall k | i <= k < i + |text| ensures html[k] != '<' && html[k] != '>' {
      assert html[k] == text[k - i] && text[k - i] in text;
    }
  }

  // ---- the text of a heading ----

  lemma {:induction false} StrippedText(s: string, i: nat, j: nat)
    requires i <= j <= |s| && forall k :: i <= k < j ==> s[k] != '<' && s[k] != '>'
    ensures Stripped(s, i, false) == s[i..j] + Stripped(s, j, false)
    decreases j - i
  {
    if i < j {
      StrippedText(s, i + 1, j);
      assert s[i..j] == [s[i]] + s[i + 1..j];
    }
  }

  lemma {:induction false} StrippedInTag(s: string, i: nat, end: nat)
    requires i <= end < |s| && s[end] == '>' && forall k :: i <= k < end ==> s[k] != '>'
    ensures Stripped(s, i, true) == Stripped(s, end + 1, false)
    decreases end - i
  {
    if i < end { StrippedInTag(s, i + 1, end); }
  }

  lemma StrippedTag(s: string, i: nat, end: nat)
    requires i < end < |s| && s[i] == '<' && s[end] == '>' && forall k :: i < k < end ==> s[k] != '>'
    ensures Stripped(s, i, false) == Stripped(s, end + 1, false)
  {
    StrippedInTag(s, i + 1, end);
  }

  lemma StrippedComment(s: string, body: string, i: nat)
    requires OccursAt(s, CommentText(body), i) && NoAngles(body)
    ensures Stripped(s, i, false) == Stripped(s, i + 7 + |body|, false)
  {
    CommentAt(s, body, i);
    TextAt(s, body, i + 4);
    var end := i + 4 + |body|;
    Occurs3(s, '-', '-', '>', end);
    Occurs3(s, '!', '-', '-', i + 1);
    StrippedTag(s, i, end + 2);
  }

  lemma ElementSplits(s: string, tag: string, attrs: seq<Attr>, kids: Forest, next: Forest, i: nat)
    requires OccursAt(s, Print(Element(tag, attrs, kids, next)), i)
    ensures var open := OpenTag(tag, PrintAttrs(attrs, false));
            var c := i + |open| + |Print(kids)|;
            && OccursAt(s, open, i) && OccursAt(s, Print(kids), i + |open|)
            && OccursAt(s, CloseTag(tag), c) && OccursAt(s, Print(next), c + 3 + |tag|)
            && |Print(Element(tag, attrs, kids, next))| == |open| + |Print(kids)| + 3 + |tag| + |Print(next)|
  {
    hide OccursAt;
    hide PrintAttrs;
    hide OpenTag;
    var open := OpenTag(tag, PrintAttrs(attrs, false));
    var c := i + |open| + |Print(kids)|;
    OccursAtConcat(s, open, Print(kids) + (CloseTag(tag) + Print(next)), i);
    OccursAtConcat(s, Print(kids), CloseTag(tag) + Print(next), i + |open|);
    OccursAtConcat(s, CloseTag(tag), Print(next), c);
  }

  lemma StrippedTagAt(s: string, i: nat, j: nat, end: nat)
    requires TagAt(s, i, j, end)
    ensures end < |s| && Stripped(s, i, false) == Stripped(s, end + 1, false)
  {
    hide Stripped;
    StrippedTag(s, i, end);
  }

  lemma StrippedOpen(s: string, tag: string, attrs: seq<Attr>, slash: bool, i: nat)
    requires GoodTag(tag, attrs, slash) && OccursAt(s, OpenTag(tag, PrintAttrs(attrs, slash)), i)
    ensures i + |OpenTag(tag, PrintAttrs(attrs, slash))| <= |s|
    ensures Stripped(s, i, false) == Stripped(s, i + |OpenTag(tag, PrintAttrs(attrs, slash))|, false)
  {
    hide *;
    OpenTagAt(s, tag, attrs, slash, i);
    StrippedTagAt(s, i, i + 1 + |tag|, i + 1 + |tag| + |PrintAttrs(attrs, slash)|);
  }

  lemma StrippedClose(s: string, tag: string, i: nat)
    requires AllIn(tag, Alnum) && OccursAt(s, CloseTag(tag), i)
    ensures i + 3 + |tag| <= |s| && Stripped(s, i, false) == Stripped(s, i + 3 + |tag|, false)
  {
    hide *;
    CloseTagAt(s, tag, i);
    StrippedTagAt(s, i, i + 1, i + 2 + |tag|);
  }

  /** The text of what stands before `next`, once the print of `next` is known to leave its own. */
  lemma StrippedBefore(s: string, text: string, next: Forest, i: nat, j: nat)
    requires i <= j && j + |Print(next)| <= |s| && Stripped(s, i, false) == text + Stripped(s, j, false)
    requires Stripped(s, j, false) == TextOf(next) + Stripped(s, j + |Print(next)|, false)
    ensures Stripped(s, i, false) == text + TextOf(next) + Stripped(s, j + |Print(next)|, false)
  {
  }

  lemma WordsAt(s: string, text: string, next: Forest, i: nat)
    requires NoAngles(text) && OccursAt(s, text + Print(next), i)
    ensures OccursAt(s, Print(next), i + |text|) && Stripped(s, i, false) == text + Stripped(s, i + |text|, false)
  {
    hide *;
    OccursAtConcat(s, text, Print(next), i);
    TextAt(s, text, i);
    StrippedText(s, i, i + |text|);
  }

  lemma CommentBefore(s: string, body: string, next: Forest, i: nat)
    requires NoAngles(body) && OccursAt(s, CommentText(body) + Print(next), i)
    ensures OccursAt(s, Print(next), i + 7 + |body|) && Stripped(s, i, false) == Stripped(s, i + 7 + |body|, false)
  {
    assert |CommentText(body)| == 7 + |body|;
    hide *;
    OccursAtConcat(s, CommentText(body), Print(next), i);
    StrippedComment(s, body, i);
  }

  lemma StrippedDoctype(s: string, body: string, i: nat)
    requires NoAngles(body) && !OccursAt(body, "--", 0) && OccursAt(s, DoctypeText(body), i)
    ensures i + 3 + |body| <= |s| && Stripped(s, i, false) == Stripped(s, i + 3 + |body|, false)
  {
    hide *;
    DoctypeAt(s, body, i);
    StrippedTagAt(s, i, i + 1, i + 2 + |body|);
  }

  lemma DoctypeBefore(s: string, body: string, next: Forest, i: nat)
    requires NoAngles(body) && !OccursAt(body, "--", 0) && OccursAt(s, DoctypeText(body) + Print(next), i)
    ensures OccursAt(s, Print(next), i + 3 + |body|) && Stripped(s, i, false) == Stripped(s, i + 3 + |body|, false)
  {
    assert |DoctypeText(body)| == 3 + |body|;
    hide *;
    OccursAtConcat(s, DoctypeText(body), Print(next), i);
    StrippedDoctype(s, body, i);
  }

  lemma OpenBefore(s: string, tag: string, attrs: seq<Attr>, slash: bool, next: Forest, i: nat)
    requires GoodTag(tag, attrs, slash) && OccursAt(s, OpenTag(tag, PrintAttrs(attrs, slash)) + Print(next), i)
    ensures var j := i + |OpenTag(tag, PrintAttrs(attrs, slash))|;
            OccursAt(s, Print(next), j) && Stripped(s, i, false) == Stripped(s, j, false)
  {
    hide *;
    OccursAtConcat(s, OpenTag(tag, PrintAttrs(attrs, slash)), Print(next), i);
    StrippedOpen(s, tag, attrs, slash, i);
  }

  /** `strip_tags` on the print of a heading's content leaves the content's text. */
  lemma {:induction false} StrippedPrint(s: string, f: Forest, h: string, i: nat)
    requires Good(f) && Inside(f, h) && OccursAt(s, Print(f), i)
    ensures i + |Print(f)| <= |s|
    ensures Stripped(s, i, false) == TextOf(f) + Stripped(s, i + |Print(f)|, false)
    decreases f, 1
  {
    hide *;
    SliceAt(s, Print(f), i);
    PrintIs(f);
    FormParts(f, h);
    match f
    case Nil =>
    case Words(text, next) =>
      WordsAt(s, text, next, i);
      StrippedPrint(s, next, h, i + |text|);
      StrippedBefore(s, text, next, i, i + |text|);
    case Comment(body, next) =>
      CommentBefore(s, body, next, i);
      StrippedPrint(s, next, h, i + 7 + |body|);
    case Doctype(body, next) =>
      DoctypeBefore(s, body, next, i);
      StrippedPrint(s, next, h, i + 3 + |body|);
    case Void(tag, attrs, slash, next) =>
      OpenBefore(s, tag, attrs, slash, next, i);
      StrippedPrint(s, next, h, i + |OpenTag(tag, PrintAttrs(attrs, slash))|);
    case Element(tag, attrs, kids, next) =>
      GoodParts(f, h);
      StrippedElement(s, f, h, i);
  }

  /** The print of a form and its text, one form at a time. */
  lemma PrintIs(f: Forest)
    ensures f.Nil? ==> Print(f) == "" && TextOf(f) == ""
    ensures f.Words? ==> Print(f) == f.text + Print(f.next) && TextOf(f) == f.text + TextOf(f.next)
    ensures f.Comment? ==>
              && Print(f) == CommentText(f.body) + Print(f.next) && |CommentText(f.body)| == 7 + |f.body|
              && TextOf(f) == TextOf(f.next)
    ensures f.Doctype? ==>
              && Print(f) == DoctypeText(f.body) + Print(f.next) && |DoctypeText(f.body)| == 3 + |f.body|
              && TextOf(f) == TextOf(f.next)
    ensures f.Void? ==>
              Print(f) == OpenTag(f.tag, PrintAttrs(f.attrs, f.slash)) + Print(f.next) && TextOf(f) == TextOf(f.next)
    ensures f.Element? ==> TextOf(f) == TextOf(f.kids) + TextOf(f.next)
  {
    hide OpenTag;
    hide PrintAttrs;
  }

  /** What a good form inside a heading is made of. */
  lemma FormParts(f: Forest, h: string)
    requires Good(f) && Inside(f, h)
    ensures f.Words? ==> NoAngles(f.text) && Good(f.next) && Inside(f.next, h)
    ensures f.Comment? ==> !Contains("--" + f.body, "-->") && NoAngles(f.body) && Good(f.next) && Inside(f.next, h)
    ensures f.Doctype? ==> NoAngles(f.body) && !OccursAt(f.body, "--", 0) && Good(f.next) && Inside(f.next, h)
    ensures f.Void? ==>
              GoodTag(f.tag, f.attrs, f.slash) && !HeadingTag(f.tag) && Good(f.next) && Inside(f.next, h)
  {
    hide HeadingTag;
    hide GoodTag;
  }

  lemma GoodParts(f: Forest, h: string)
    requires Good(f) && f.Element?
    ensures GoodTag(f.tag, f.attrs, false) && Good(f.kids) && Good(f.next)
    ensures Inside(f, h) ==> Lower(f.tag) != h && Inside(f.kids, h) && Inside(f.next, h)
    ensures HeadingTag(f.tag) ==> Inside(f.kids, Lower(f.tag))
  {
    hide HeadingTag;
    hide GoodTag;
  }

  lemma {:induction false} StrippedElement(s: string, f: Forest, h: string, i: nat)
    requires f.Element? && GoodTag(f.tag, f.attrs, false) && Good(f.kids) && Good(f.next)
    requires Inside(f.kids, h) && Inside(f.next, h) && OccursAt(s, Print(f), i)
    ensures Stripped(s, i, false) == TextOf(f) + Stripped(s, i + |Print(f)|, false)
    decreases f, 0
  {
    hide Stripped;
    hide OccursAt;
    hide OpenTag;
    hide PrintAttrs;
    hide Good;
    hide Inside;
    hide Print;
    var open := OpenTag(f.tag, PrintAttrs(f.attrs, false));
    ElementSplits(s, f.tag, f.attrs, f.kids, f.next, i);
    StrippedOpen(s, f.tag, f.attrs, false, i);
    StrippedPrint(s, f.kids, h, i + |open|);
    var c := i + |open| + |Print(f.kids)|;
    StrippedClose(s, f.tag, c);
    StrippedPrint(s, f.next, h, c + 3 + |f.tag|);
  }

  // ---- the heading's own close tag is the first one found ----

  /** The close tag `</h>` begins nowhere in `[i, j)` of the lower-cased text. */
  predicate NoClose(html: string, h: string, i: nat, j: nat) {
    forall k: nat :: i <= k < j ==> !OccursAt(Lower(html), CloseTag(h), k)
  }

  /** What an occurrence of `</h>` says about the text it occurs in. */
  lemma CloseTagFacts(html: string, h: string, k: nat)
    requires IsHeading(h)
    ensures |h| == 2
    ensures OccursAt(Lower(html), CloseTag(h), k) ==>
              && k + 4 < |html| && html[k] == '<' && html[k + 1] == '/' && html[k + 4] == '>'
              && IsAlnum(html[k + 2]) && IsAlnum(html[k + 3]) && Lower(html[k + 2..k + 4]) == h
  {
    assert |h| == 2 && AllIn(h, Alnum);
    if OccursAt(Lower(html), CloseTag(h), k) {
      CloseTagAt(Lower(html), h, k);
      LowerKeepsClass(html[k + 2], Alnum);
      LowerKeepsClass(html[k + 3], Alnum);
      assert Lower(html[k + 2..k + 4]) == Lower(html)[k + 2..k + 4];
    }
  }

  lemma NoCloseWithout(html: string, h: string, i: nat, j: nat)
    requires IsHeading(h) && j <= |html|
    requires forall k :: i <= k < j ==> html[k] == '<' ==> k + 1 < |html| && html[k + 1] != '/'
    ensures NoClose(html, h, i, j)
  {
    forall k: nat | i <= k < j ensures !OccursAt(Lower(html), CloseTag(h), k) {
      CloseTagFacts(html, h, k);
      hide OccursAt;
    }
  }

  /** The text does not end with `</` and two alphanumerics. */
  predicate SafeEnd(s: string) {
    |s| >= 4 ==> s[|s| - 4] != '<' || s[|s| - 3] != '/' || !IsAlnum(s[|s| - 2]) || !IsAlnum(s[|s| - 1])
  }

  lemma SafeEndConcat(a: string, b: string)
    requires SafeEnd(b) && b != "" && (Is(b[0], Blank) || b == "/")
    ensures SafeEnd(a + b)
  {
    var s := a + b;
    assert forall k :: 0 <= k < |b| ==> s[|a| + k] == b[k];
    assert s[|a|] == b[0];
  }

  lemma {:induction false} AttrsSafeEnd(attrs: seq<Attr>, slash: bool)
    requires GoodAttrs(attrs, slash)
    ensures SafeEnd(PrintAttrs(attrs, slash))
  {
    if attrs != [] {
      hide *;
      var p, r := PrintAttr(attrs[0]), PrintAttrs(attrs[1..], slash);
      GoodAttrsRest(attrs, slash);
      AttrsSafeEnd(attrs[1..], slash);
      AttrsStart(attrs[1..], slash);
      AttrSafeEnd(attrs[0]);
      PrintAttrsIs(attrs, slash);
      if r == "" {
        assert p + r == p;
      } else {
        SafeEndConcat(p, r);
      }
    }
  }

  lemma EndsWithLast(a: string, b: string)
    requires b != ""
    ensures a + b != "" && (a + b)[|a + b| - 1] == b[|b| - 1]
  {
  }

  lemma QuotedEnds(a: Attr)
    requires GoodAttr(a) && a.Valued? && a.value.Quoted?
    ensures var p := PrintAttr(a); p != "" && !IsAlnum(p[|p| - 1])
  {
    var v := PrintValue(a.value);
    assert v != "" && v[|v| - 1] == a.value.quote && !IsAlnum(a.value.quote);
    hide *;
    PrintValuedIs(a);
    EndsWithLast(a.after, v);
    EndsWithLast("=", a.after + v);
    EndsWithLast(a.before, "=" + (a.after + v));
    EndsWithLast(a.name, a.before + ("=" + (a.after + v)));
    EndsWithLast(a.lead, a.name + (a.before + ("=" + (a.after + v))));
  }

  lemma AttrSafeEnd(a: Attr)
    requires GoodAttr(a)
    ensures SafeEnd(PrintAttr(a))
  {
    if a.Valued? && a.value.Quoted? { QuotedEnds(a); } else { AttrText(a); }
    hide GoodAttr;
    hide PrintAttr;
  }

  lemma TagHasNoClose(html: string, h: string, i: nat, j: nat, end: nat)
    requires IsHeading(h) && TagAt(html, i, j, end) && i + 1 < j && SafeEnd(html[j..end])
    ensures NoClose(html, h, i, end + 1)
  {
    hide OccursAt;
    assert end - j >= 4 ==> html[j..end][end - j - 4..] == html[end - 4..end];
    forall k: nat | i <= k < end + 1 ensures !OccursAt(Lower(html), CloseTag(h), k) {
      CloseTagFacts(html, h, k);
      hide Lower;
      hide CloseTag;
      hide IsHeading;
    }
  }

  lemma OpenHasNoClose(html: string, tag: string, attrs: seq<Attr>, slash: bool, h: string, i: nat)
    requires GoodTag(tag, attrs, slash) && IsHeading(h) && OccursAt(html, OpenTag(tag, PrintAttrs(attrs, slash)), i)
    ensures NoClose(html, h, i, i + |OpenTag(tag, PrintAttrs(attrs, slash))|)
  {
    hide OccursAt;
    hide PrintAttrs;
    hide NoClose;
    hide SafeEnd;
    hide AllIn;
    hide IsHeading;
    OpenTagAt(html, tag, attrs, slash, i);
    AttrsSafeEnd(attrs, slash);
    TagHasNoClose(html, h, i, i + 1 + |tag|, i + 1 + |tag| + |PrintAttrs(attrs, slash)|);
  }

  lemma CloseIsNotClose(html: string, tag: string, h: string, i: nat)
    requires AllIn(tag, Alnum) && IsHeading(h) && Lower(tag) != h && OccursAt(html, CloseTag(tag), i)
    ensures NoClose(html, h, i, i + 3 + |tag|)
  {
    CloseTagAt(html, tag, i);
    hide OccursAt;
    forall k: nat | i <= k < i + 3 + |tag| ensures !OccursAt(Lower(html), CloseTag(h), k) {
      CloseTagFacts(html, h, k);
    }
  }

  lemma CommentHasNoClose(html: string, body: string, h: string, i: nat)
    requires IsHeading(h) && NoAngles(body) && OccursAt(html, CommentText(body), i)
    ensures NoClose(html, h, i, i + 7 + |body|)
  {
    CommentAt(html, body, i);
    TextAt(html, body, i + 4);
    Occurs3(html, '!', '-', '-', i + 1);
    Occurs3(html, '-', '-', '>', i + 4 + |body|);
    hide OccursAt;
    NoCloseWithout(html, h, i, i + 7 + |body|);
  }

  lemma DoctypeHasNoClose(html: string, body: string, h: string, i: nat)
    requires IsHeading(h) && NoAngles(body) && !OccursAt(body, "--", 0) && OccursAt(html, DoctypeText(body), i)
    ensures NoClose(html, h, i, i + 3 + |body|)
  {
    DoctypeAt(html, body, i);
    hide OccursAt;
    NoCloseWithout(html, h, i, i + 3 + |body|);
  }

  lemma {:induction false} PrintHasNoClose(html: string, f: Forest, h: string, i: nat)
    requires IsHeading(h) && Good(f) && Inside(f, h) && OccursAt(html, Print(f), i)
    ensures NoClose(html, h, i, i + |Print(f)|)
    decreases f, 1
  {
    hide OccursAt;
    hide OpenTag;
    hide CloseTag;
    hide PrintAttrs;
    match f
    case Nil =>
    case Words(text, next) =>
      OccursAtConcat(html, text, Print(next), i);
      TextAt(html, text, i);
      NoCloseWithout(html, h, i, i + |text|);
      PrintHasNoClose(html, next, h, i + |text|);
    case Comment(body, next) =>
      OccursAtConcat(html, CommentText(body), Print(next), i);
      CommentHasNoClose(html, body, h, i);
      PrintHasNoClose(html, next, h, i + 7 + |body|);
    case Doctype(body, next) =>
      OccursAtConcat(html, DoctypeText(body), Print(next), i);
      DoctypeHasNoClose(html, body, h, i);
      PrintHasNoClose(html, next, h, i + 3 + |body|);
    case Void(tag, attrs, slash, next) =>
      var open := OpenTag(tag, PrintAttrs(attrs, slash));
      OccursAtConcat(html, open, Print(next), i);
      OpenHasNoClose(html, tag, attrs, slash, h, i);
      PrintHasNoClose(html, next, h, i + |open|);
    case Element(tag, attrs, kids, next) =>
      GoodParts(f, h);
      ElementHasNoClose(html, f, h, i);
  }

  lemma {:induction false} ElementHasNoClose(html: string, f: Forest, h: string, i: nat)
    requires f.Element? && GoodTag(f.tag, f.attrs, false) && Good(f.kids) && Good(f.next) && IsHeading(h)
    requires Lower(f.tag) != h && Inside(f.kids, h) && Inside(f.next, h) && OccursAt(html, Print(f), i)
    ensures NoClose(html, h, i, i + |Print(f)|)
    decreases f, 0
  {
    hide OccursAt;
    hide OpenTag;
    hide PrintAttrs;
    hide Good;
    hide Inside;
    hide Print;
    hide Lower;
    var open := OpenTag(f.tag, PrintAttrs(f.attrs, false));
    ElementSplits(html, f.tag, f.attrs, f.kids, f.next, i);
    OpenHasNoClose(html, f.tag, f.attrs, false, h, i);
    PrintHasNoClose(html, f.kids, h, i + |open|);
    var c := i + |open| + |Print(f.kids)|;
    CloseIsNotClose(html, f.tag, h, c);
    PrintHasNoClose(html, f.next, h, c + 3 + |f.tag|);
  }

  // ---- trimming before stripping changes no word ----

  predicate InTagAfter(s: string, i: nat, inTag: bool)
    requires i <= |s|
    decreases |s| - i
  {
    if i == |s| then inTag
    else if s[i] == '<' then InTagAfter(s, i + 1, true)
    else if s[i] == '>' then InTagAfter(s, i + 1, false)
    else InTagAfter(s, i + 1, inTag)
  }

  lemma {:induction false} StrippedAppend(s: string, b: string, i: nat, inTag: bool)
    requires i <= |s| && AllSpace(b)
    ensures Stripped(s + b, i, inTag) == Stripped(s, i, inTag) + (if InTagAfter(s, i, inTag) then "" else b)
    decreases |s| - i
  {
    if i < |s| {
      StrippedAppend(s, b, i + 1, if s[i] == '<' then true else if s[i] == '>' then false else inTag);
    } else {
      StrippedSpaces(s + b, i, inTag);
      assert (s + b)[i..] == b;
    }
  }

  lemma {:induction false} StrippedSpaces(t: string, i: nat, inTag: bool)
    requires i <= |t| && AllSpace(t[i..])
    ensures Stripped(t, i, inTag) == if inTag then "" else t[i..]
    decreases |t| - i
  {
    if i < |t| {
      assert IsSpace(t[i..][0]) && t[i + 1..] == t[i..][1..];
      StrippedSpaces(t, i + 1, inTag);
      assert t[i..] == [t[i]] + t[i + 1..];
    }
  }

  lemma {:induction false} StrippedShift(a: string, s: string, i: nat, inTag: bool)
    requires i <= |s|
    ensures Stripped(a + s, |a| + i, inTag) == Stripped(s, i, inTag)
    decreases |s| - i
  {
    if i < |s| {
      assert (a + s)[|a| + i] == s[i];
      StrippedShift(a, s, i + 1, if s[i] == '<' then true else if s[i] == '>' then false else inTag);
    }
  }

  lemma StrippedOfSpaced(a: string, t: string, b: string)
    requires AllSpace(a) && AllSpace(b)
    ensures Stripped(a + (t + b), 0, false)
         == a + (Stripped(t, 0, false) + (if InTagAfter(t, 0, false) then "" else b))
  {
    hide Stripped;
    var s := a + (t + b);
    assert forall k :: 0 <= k < |a| ==> s[k] == a[k] && IsSpace(a[k]);
    StrippedText(s, 0, |a|);
    assert s[0..|a|] == a;
    StrippedShift(a, t + b, 0, false);
    StrippedAppend(t, b, 0, false);
  }

  /** The `trim` before `strip_tags` is invisible: the words are those of the whole slice. */
  lemma StripTagsOfTrim(s: string)
    ensures StripTags(Trim(s)) == JoinWords(Text.Words(Stripped(s, 0, false)))
  {
    var a, b := TrimSplits(s);
    var t := Trim(s);
    hide Stripped;
    hide Text.Words;
    hide Trim;
    assert s == a + (t + b);
    StrippedOfSpaced(a, t, b);
    var core := Stripped(t, 0, false);
    assert AllSpace("") && core + "" == core;
    WordsSkipsTrailingSpace(core, if InTagAfter(t, 0, false) then "" else b);
    WordsSkipsLeadingSpace(a, core + (if InTagAfter(t, 0, false) then "" else b));
  }

  // ---- the theorem ----

  /** The title read from a printed heading is the text of its content. */
  lemma HeadingTextPrinted(inner: string, h: string, kids: Forest)
    requires Good(kids) && Inside(kids, h) && inner == Print(kids)
    ensures StripTags(Trim(inner)) == JoinWords(Text.Words(TextOf(kids)))
  {
    WholeOccurs(inner);
    hide OccursAt;
    hide Print;
    hide Good;
    hide Inside;
    hide TextOf;
    StrippedPrint(inner, kids, h, 0);
    assert Stripped(inner, |inner|, false) == "" && TextOf(kids) + "" == TextOf(kids);
    StripTagsOfTrim(inner);
  }

  lemma LowerCloseTag(tag: string)
    ensures Lower(CloseTag(tag)) == CloseTag(Lower(tag))
  {
  }

  lemma CloseTagFound(html: string, tag: string, kids: Forest, after: nat)
    requires AllIn(tag, Alnum) && IsHeading(Lower(tag)) && Good(kids) && Inside(kids, Lower(tag))
    requires OccursAt(html, Print(kids), after) && OccursAt(html, CloseTag(tag), after + |Print(kids)|)
    ensures after <= |html| && Find(Lower(html), CloseTag(Lower(tag)), after) == Some(after + |Print(kids)|)
  {
    LowerCloseTag(tag);
    hide OccursAt;
    hide Find;
    hide Lower;
    hide CloseTag;
    hide Print;
    hide Good;
    hide Inside;
    hide IsHeading;
    PrintHasNoClose(html, kids, Lower(tag), after);
    OccursAtLower(html, CloseTag(tag), after + |Print(kids)|);
    SliceAt(html, Print(kids), after);
    FindIs(Lower(html), CloseTag(Lower(tag)), after, after + |Print(kids)|);
  }

  lemma TitleFound(html: string, lower: string, h: string, after: nat, p: nat)
    requires |lower| == |html| && after <= p <= |html|
    requires IsHeading(h) && Find(lower, CloseTag(h), after) == Some(p)
    ensures TitleAt(html, lower, h, after) ==
            var t := StripTags(Trim(html[after..p])); if t == "" then None else Some(t)
  {
    hide Find;
    hide StripTags;
    hide Trim;
  }

  /** The title the scanner reads for a printed element. */
  lemma TitlePrinted(html: string, tag: string, kids: Forest, after: nat)
    requires AllIn(tag, Alnum) && Good(kids) && (HeadingTag(tag) ==> Inside(kids, Lower(tag)))
    requires OccursAt(html, Print(kids), after) && OccursAt(html, CloseTag(tag), after + |Print(kids)|)
    ensures after <= |html| && TitleAt(html, Lower(html), Lower(tag), after) == HeadingText(tag, kids)
  {
    hide OccursAt;
    hide Find;
    hide StripTags;
    hide Trim;
    hide Text.Words;
    hide JoinWords;
    hide Print;
    hide TextOf;
    hide Good;
    hide Inside;
    hide Lower;
    hide IsHeading;
    hide HeadingTag;
    hide CloseTag;
    HeadingIs(tag);
    SliceAt(html, Print(kids), after);
    if HeadingTag(tag) {
      var p := after + |Print(kids)|;
      CloseTagFound(html, tag, kids, after);
      TitleFound(html, Lower(html), Lower(tag), after, p);
      HeadingTextPrinted(html[after..p], Lower(tag), kids);
      hide TitleAt;
    }
  }

  lemma WholeOccurs(s: string)
    ensures OccursAt(s, s, 0)
  {
    assert s[0..|s|] == s;
  }

  /** `extract_id_attr` on the whole printed attribute text. */
  lemma IdAttrOfPrint(attrs: seq<Attr>, slash: bool)
    requires GoodAttrs(attrs, slash)
    ensures IdAttr(Lower(PrintAttrs(attrs, slash)), 0) == FirstId(attrs)
  {
    var low := Lower(PrintAttrs(attrs, slash));
    WholeOccurs(low);
    IdAttrPrinted(low, attrs, slash, 0);
  }

  lemma AnchorsOpen(html: string, tag: string, attrs: seq<Attr>, slash: bool, title: Option<string>, i: nat)
    requires GoodTag(tag, attrs, slash) && OccursAt(html, OpenTag(tag, PrintAttrs(attrs, slash)), i)
    requires var after := i + |OpenTag(tag, PrintAttrs(attrs, slash))|;
             after <= |html| && TitleAt(html, Lower(html), Lower(tag), after) == title
    ensures var after := i + |OpenTag(tag, PrintAttrs(attrs, slash))|;
            Anchors(html, Lower(html), i) == AnchorOf(FirstId(attrs), title) + Anchors(html, Lower(html), after)
  {
    hide Anchors;
    hide OccursAt;
    hide IdAttr;
    hide TitleAt;
    hide PrintAttrs;
    hide Lower;
    OpenTagAt(html, tag, attrs, slash, i);
    IdAttrOfPrint(attrs, slash);
    var j := i + 1 + |tag|;
    ReadNamed(html, i, j, j + |PrintAttrs(attrs, slash)|);
  }

  lemma NoTitle(html: string, tag: string, after: nat)
    requires !IsHeading(tag) && after <= |html|
    ensures TitleAt(html, Lower(html), tag, after) == None
  {
  }

  lemma NoCommentWithout(html: string, i: nat)
    requires i < |html| ==> html[i] != '!'
    ensures !OccursAt(html, "!--", i)
  {
    Occurs3(html, '!', '-', '-', i);
  }

  lemma SkipTagAt(html: string, i: nat, end: nat)
    requires TagAt(html, i, i + 1, end) && !OccursAt(html, "!--", i + 1)
    ensures end < |html| && Anchors(html, Lower(html), i) == Anchors(html, Lower(html), end + 1)
  {
    hide Anchors;
    hide OccursAt;
    hide Lower;
    ReadNameless(html, i, end);
  }

  lemma AnchorsClose(html: string, tag: string, i: nat)
    requires AllIn(tag, Alnum) && OccursAt(html, CloseTag(tag), i)
    ensures i + 3 + |tag| <= |html| && Anchors(html, Lower(html), i) == Anchors(html, Lower(html), i + 3 + |tag|)
  {
    hide *;
    CloseTagAt(html, tag, i);
    NoCommentWithout(html, i + 1);
    SkipTagAt(html, i, i + 2 + |tag|);
  }

  lemma AnchorsComment(html: string, body: string, i: nat)
    requires OccursAt(html, CommentText(body), i) && !Contains("--" + body, "-->")
    ensures i + 7 + |body| <= |html| && Anchors(html, Lower(html), i) == Anchors(html, Lower(html), i + 7 + |body|)
  {
    hide Anchors;
    CommentAt(html, body, i);
    CommentEnds(html, body, i);
    ReadComment(html, i, i + 4 + |body|);
  }

  lemma AnchorsDoctype(html: string, body: string, i: nat)
    requires OccursAt(html, DoctypeText(body), i) && NoAngles(body) && !OccursAt(body, "--", 0)
    ensures i + 3 + |body| <= |html| && Anchors(html, Lower(html), i) == Anchors(html, Lower(html), i + 3 + |body|)
  {
    hide *;
    DoctypeAt(html, body, i);
    SkipTagAt(html, i, i + 2 + |body|);
  }

  /** The scanner's pass over a printed forest yields its preorder, wherever it stands. */
  lemma {:induction false} AnchorsPrinted(html: string, f: Forest, i: nat)
    requires Good(f) && OccursAt(html, Print(f), i)
    ensures i + |Print(f)| <= |html|
    ensures Anchors(html, Lower(html), i) == Preorder(f) + Anchors(html, Lower(html), i + |Print(f)|)
    decreases f, 1
  {
    hide Anchors;
    hide OccursAt;
    hide OpenTag;
    hide CloseTag;
    hide PrintAttrs;
    hide CommentText;
    hide DoctypeText;
    hide Lower;
    hide Contains;
    hide IsHeading;
    hide HeadingTag;
    hide AnchorOf;
    hide Entry;
    hide FirstId;
    hide HeadingText;
    SliceAt(html, Print(f), i);
    match f
    case Nil =>
    case Words(text, next) =>
      OccursAtConcat(html, text, Print(next), i);
      TextAt(html, text, i);
      SkipText(html, i, i + |text|);
      AnchorsPrinted(html, next, i + |text|);
    case Comment(body, next) =>
      OccursAtConcat(html, CommentText(body), Print(next), i);
      AnchorsComment(html, body, i);
      AnchorsPrinted(html, next, i + 7 + |body|);
    case Doctype(body, next) =>
      OccursAtConcat(html, DoctypeText(body), Print(next), i);
      AnchorsDoctype(html, body, i);
      AnchorsPrinted(html, next, i + 3 + |body|);
    case Void(tag, attrs, slash, next) =>
      var open := OpenTag(tag, PrintAttrs(attrs, slash));
      OccursAtConcat(html, open, Print(next), i);
      SliceAt(html, open, i);
      HeadingIs(tag);
      EntryIs(FirstId(attrs), None);
      NoTitle(html, Lower(tag), i + |open|);
      AnchorsOpen(html, tag, attrs, slash, None, i);
      AnchorsPrinted(html, next, i + |open|);
    case Element(tag, attrs, kids, next) =>
      GoodParts(f, "");
      AnchorsElement(html, f, i);
  }

  lemma {:induction false} AnchorsElement(html: string, f: Forest, i: nat)
    requires f.Element? && GoodTag(f.tag, f.attrs, false) && Good(f.kids) && Good(f.next)
    requires HeadingTag(f.tag) ==> Inside(f.kids, Lower(f.tag))
    requires OccursAt(html, Print(f), i)
    ensures i + |Print(f)| <= |html|
    ensures Anchors(html, Lower(html), i) == Preorder(f) + Anchors(html, Lower(html), i + |Print(f)|)
    decreases f, 0
  {
    hide *;
    var open := OpenTag(f.tag, PrintAttrs(f.attrs, false));
    var title := HeadingText(f.tag, f.kids);
    PreorderElement(f);
    EntryIs(FirstId(f.attrs), title);
    ElementSplits(html, f.tag, f.attrs, f.kids, f.next, i);
    SliceAt(html, open, i);
    GoodTagName(f.tag, f.attrs);
    TitlePrinted(html, f.tag, f.kids, i + |open|);
    AnchorsOpen(html, f.tag, f.attrs, false, title, i);
    AnchorsPrinted(html, f.kids, i + |open|);
    var c := i + |open| + |Print(f.kids)|;
    AnchorsClose(html, f.tag, c);
    var end := c + 3 + |f.tag|;
    AnchorsPrinted(html, f.next, end);
    SectionsRegroup(AnchorOf(FirstId(f.attrs), title), Preorder(f.kids), Preorder(f.next),
                    Anchors(html, Lower(html), end + |Print(f.next)|));
  }

  lemma PreorderElement(f: Forest)
    requires f.Element?
    ensures Preorder(f) == Entry(FirstId(f.attrs), HeadingText(f.tag, f.kids)) + (Preorder(f.kids) + Preorder(f.next))
  {
    hide Entry;
    hide FirstId;
    hide HeadingText;
  }

  lemma GoodTagName(tag: string, attrs: seq<Attr>)
    requires GoodTag(tag, attrs, false)
    ensures AllIn(tag, Alnum)
  {
  }

  lemma SectionsRegroup(a: seq<Section>, b: seq<Section>, c: seq<Section>, d: seq<Section>)
    ensures a + (b + (c + d)) == a + (b + c) + d
  {
  }

  /** The section index of a canonically printed document: its non-empty ids in preorder,
      first occurrence only, each heading's with its text. */
  lemma ExtractPrinted(f: Forest)
    requires Good(f)
    ensures Extract(Print(f)) == FirstOnly(Preorder(f), {})
  {
    hide Print;
    hide Good;
    hide Preorder;
    var html := Print(f);
    WholeOccurs(html);
    AnchorsPrinted(html, f, 0);
    hide OccursAt;
    assert Preorder(f) + [] == Preorder(f);
    hide FirstOnly;
  }
}
