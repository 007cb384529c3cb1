/** The anchor scanner of the living Document: `extract_sections` and its helpers.
    Each scan is a loop over a cursor, proved against a recursive function of the cursor;
    the theorems about the index are theorems about those functions. */
module Scanner {
  import opened Text

  /** One `id=` anchor with the heading text it carries. */
  datatype Section = Section(id: string, title: Option<string>)

  predicate IsQuote(c: char) { c == '"' || c == '\'' }

  predicate IsHeading(tag: string) { tag in {"h1", "h2", "h3", "h4", "h5", "h6"} }

  // ---- what the scans compute ----

  /** The value that starts at `v`: quoted up to its quote, or unquoted up to a blank. */
  function IdValue(attrs: string, v: nat): Option<string>
    requires v <= |attrs|
  {
    if v == |attrs| then None
    else if IsQuote(attrs[v]) then Some(attrs[v + 1..NextChar(attrs, v + 1, attrs[v])])
    else Some(attrs[v..RunEnd(attrs, v, NonBlank)])
  }

  /** `extract_id_attr` from `i` on: the value of the first `id` attribute. */
  function IdAttr(attrs: string, i: nat): Option<string>
    decreases |attrs| - i
  {
    if i >= |attrs| then None
    else if IsQuote(attrs[i]) then IdAttr(attrs, NextChar(attrs, i + 1, attrs[i]) + 1)
    else if IsAlpha(attrs[i]) then
      var end := RunEnd(attrs, i, NameChar);
      var j := RunEnd(attrs, end, Blank);
      if attrs[i..end] == "id" && j < |attrs| && attrs[j] == '='
      then IdValue(attrs, RunEnd(attrs, j + 1, Blank))
      else IdAttr(attrs, end)
    else IdAttr(attrs, i + 1)
  }

  /** The characters of `s` outside `<...>`. */
  function Stripped(s: string, i: nat, inTag: bool): string
    requires i <= |s|
    decreases |s| - i
  {
    if i == |s| then ""
    else if s[i] == '<' then Stripped(s, i + 1, true)
    else if s[i] == '>' then Stripped(s, i + 1, false)
    else if inTag then Stripped(s, i + 1, true)
    else [s[i]] + Stripped(s, i + 1, false)
  }

  /** `strip_tags`: markup removed, whitespace normalised. */
  function StripTags(s: string): string {
    JoinWords(Words(Stripped(s, 0, false)))
  }

  function CloseTag(tag: string): (r: string)
    ensures |r| == |tag| + 3
  {
    "</" + tag + ">"
  }

  /** The title of a tag whose `>` is just before `after`: for a heading, its text up to
      the matching close tag. */
  function TitleAt(html: string, lower: string, tag: string, after: nat): Option<string>
    requires |lower| == |html| && after <= |html|
  {
    if !IsHeading(tag) then None
    else
      match Find(lower, CloseTag(tag), after)
      case None => None
      case Some(p) =>
        var t := StripTags(Trim(html[after..p]));
        if t == "" then None else Some(t)
  }

  /** The anchor a tag contributes, if its id is present and non-empty. */
  function AnchorOf(id: Option<string>, title: Option<string>): (r: seq<Section>)
    ensures |r| <= 1
  {
    if id.Some? && id.value != "" then [Section(id.value, title)] else []
  }

  /** Every anchor from `i` on, in order, repeats included. */
  function Anchors(html: string, lower: string, i: nat): seq<Section>
    requires |lower| == |html| && i <= |html|
    decreases |html| - i
  {
    if i == |html| then []
    else if lower[i] != '<' then Anchors(html, lower, i + 1)
    else if OccursAt(lower, "!--", i + 1) then
      match Find(lower, "-->", i + 1)
      case None => []
      case Some(p) => Anchors(html, lower, p + 3)
    else
      var j := RunEnd(lower, i + 1, Alnum);
      match Find(lower, ">", j)
      case None => []
      case Some(tagEnd) =>
        if j == i + 1 then Anchors(html, lower, tagEnd + 1)
        else
          AnchorOf(IdAttr(lower[j..tagEnd], 0), TitleAt(html, lower, lower[i + 1..j], tagEnd + 1))
          + Anchors(html, lower, tagEnd + 1)
  }

  /** The first occurrence of each id not already seen. */
  function FirstOnly(xs: seq<Section>, seen: set<string>): (r: seq<Section>) {
    if xs == [] then []
    else if xs[0].id in seen then FirstOnly(xs[1..], seen)
    else [xs[0]] + FirstOnly(xs[1..], seen + {xs[0].id})
  }

  /** `extract_sections`. */
  function Extract(html: string): seq<Section> {
    FirstOnly(Anchors(html, Lower(html), 0), {})
  }

  // ---- the loops ----

  /** `strip_tags`. */
  method StripTagsLoop(text: string) returns (title: string)
    ensures title == StripTags(text)
  {
    var out, inTag := "", false;
    for k := 0 to |text|
      invariant out + Stripped(text, k, inTag) == Stripped(text, 0, false)
    {
      if text[k] == '<' {
        inTag := true;
      } else if text[k] == '>' {
        inTag := false;
      } else if !inTag {
        ghost var rest := Stripped(text, k + 1, false);
        assert out + ([text[k]] + rest) == (out + [text[k]]) + rest;
        out := out + [text[k]];
      }
    }
    assert out + "" == out;
    title := JoinWords(Words(out));
  }

  /** Advance the cursor while class `p` holds: the inner loops of the scanner. */
  method SkipWhile(s: string, start: nat, p: Class) returns (i: nat)
    requires start <= |s|
    ensures i == RunEnd(s, start, p)
  {
    i := start;
    while i < |s| && Is(s[i], p)
      invariant start <= i <= |s|
      invariant forall k :: start <= k < i ==> Is(s[k], p)
    {
      i := i + 1;
    }
    RunEndIs(s, start, p, i);
  }

  /** Advance the cursor to the next `q`, or to the end. */
  method SkipToQuote(s: string, start: nat, q: char) returns (i: nat)
    requires start <= |s|
    ensures i == NextChar(s, start, q)
  {
    i := start;
    while i < |s| && s[i] != q
      invariant start <= i <= |s|
      invariant forall k :: start <= k < i ==> s[k] != q
    {
      i := i + 1;
    }
    NextCharIs(s, start, q, i);
  }

  /** The value read by `extract_id_attr` once it stands after `id=` and its blanks. */
  method ReadIdValue(attrs: string, v: nat) returns (id: Option<string>)
    requires v <= |attrs|
    ensures id == IdValue(attrs, v)
  {
    if v >= |attrs| {
      return None;
    }
    if IsQuote(attrs[v]) {
      var k := SkipToQuote(attrs, v + 1, attrs[v]);
      return Some(attrs[v + 1..k]);
    }
    var k := SkipWhile(attrs, v, NonBlank);
    return Some(attrs[v..k]);
  }

  /** `extract_id_attr`. */
  method ExtractIdAttr(attrs: string) returns (id: Option<string>)
    ensures id == IdAttr(attrs, 0)
  {
    hide RunEnd;
    hide NextChar;
    hide IdValue;
    var i := 0;
    while i < |attrs|
      invariant i <= |attrs| + 1
      invariant IdAttr(attrs, 0) == IdAttr(attrs, i)
      decreases |attrs| + 1 - i
    {
      if IsQuote(attrs[i]) {
        i := SkipToQuote(attrs, i + 1, attrs[i]);
        i := i + 1;
      } else if IsAlpha(attrs[i]) {
        var start := i;
        i := SkipWhile(attrs, i, NameChar);
        var j := SkipWhile(attrs, i, Blank);
        if attrs[start..i] == "id" && j < |attrs| && attrs[j] == '=' {
          j := SkipWhile(attrs, j + 1, Blank);
          id := ReadIdValue(attrs, j);
          return;
        }
      } else {
        i := i + 1;
      }
    }
    return None;
  }

  /** Pushing an anchor unless its id was seen keeps the pending result. */
  lemma FirstOnlyStep(done: seq<Section>, anchor: seq<Section>, rest: seq<Section>, seen: set<string>)
    requires |anchor| <= 1
    ensures done + FirstOnly(anchor + rest, seen) ==
            if anchor == [] || anchor[0].id in seen then done + FirstOnly(rest, seen)
            else (done + anchor) + FirstOnly(rest, seen + {anchor[0].id})
  {
    if anchor == [] {
      assert anchor + rest == rest;
    } else {
      assert anchor == [anchor[0]] && (anchor + rest)[1..] == rest;
      assert done + (anchor + FirstOnly(rest, seen + {anchor[0].id}))
          == (done + anchor) + FirstOnly(rest, seen + {anchor[0].id});
    }
  }

  /** The title branch of `extract_sections`. */
  method ReadTitle(html: string, lower: string, tag: string, after: nat) returns (title: Option<string>)
    requires |lower| == |html| && after <= |html|
    ensures title == TitleAt(html, lower, tag, after)
  {
    title := None;
    if IsHeading(tag) {
      var found := Find(lower, CloseTag(tag), after);
      if found.Some? {
        var t := StripTagsLoop(Trim(html[after..found.value]));
        if t != "" {
          title := Some(t);
        }
      }
    }
  }

  /** One tag of `extract_sections`: name in `[nameStart, j)`, its `>` at `tagEnd`. */
  method ReadTag(html: string, lower: string, nameStart: nat, j: nat, tagEnd: nat) returns (anchor: seq<Section>)
    requires |lower| == |html| && nameStart <= j <= tagEnd < |html|
    ensures anchor == AnchorOf(IdAttr(lower[j..tagEnd], 0), TitleAt(html, lower, lower[nameStart..j], tagEnd + 1))
  {
    hide IdAttr;
    hide TitleAt;
    var id := ExtractIdAttr(lower[j..tagEnd]);
    var title := ReadTitle(html, lower, lower[nameStart..j], tagEnd + 1);
    if id.Some? && id.value != "" {
      anchor := [Section(id.value, title)];
    } else {
      anchor := [];
    }
  }

  lemma AnchorsAtText(html: string, lower: string, i: nat)
    requires |lower| == |html| && i < |html| && lower[i] != '<'
    ensures Anchors(html, lower, i) == Anchors(html, lower, i + 1)
  {
  }

  lemma AnchorsAtComment(html: string, lower: string, i: nat)
    requires |lower| == |html| && i < |html| && lower[i] == '<' && OccursAt(lower, "!--", i + 1)
    ensures var p := Find(lower, "-->", i + 1);
            Anchors(html, lower, i) == if p.None? then [] else Anchors(html, lower, p.value + 3)
  {
    hide Find;
    hide OccursAt;
    hide RunEnd;
  }

  lemma AnchorsAtTag(html: string, lower: string, i: nat)
    requires |lower| == |html| && i < |html| && lower[i] == '<' && !OccursAt(lower, "!--", i + 1)
    ensures var j := RunEnd(lower, i + 1, Alnum);
            var p := Find(lower, ">", j);
            Anchors(html, lower, i) ==
              if p.None? then []
              else if j == i + 1 then Anchors(html, lower, p.value + 1)
              else AnchorOf(IdAttr(lower[j..p.value], 0), TitleAt(html, lower, lower[i + 1..j], p.value + 1))
                   + Anchors(html, lower, p.value + 1)
  {
    hide Find;
    hide OccursAt;
    hide RunEnd;
    hide IdAttr;
    hide TitleAt;
    hide AnchorOf;
  }

  /** One turn of the loop of `extract_sections` from cursor `i`: the anchor met, if any,
      and the cursor after it, which is the end of the text where the loop stops early. */
  method NextAnchor(html: string, lower: string, i: nat) returns (anchor: seq<Section>, next: nat)
    requires |lower| == |html| && i < |html|
    ensures i < next <= |html| && |anchor| <= 1
    ensures Anchors(html, lower, i) == anchor + Anchors(html, lower, next)
  {
    hide *;
    anchor := [];
    AnchorsEnd(html, lower);
    if lower[i] != '<' {
      AnchorsAtText(html, lower, i);
      next := i + 1;
      return;
    }
    var nameStart := i + 1;
    if OccursAt(lower, "!--", nameStart) {
      AnchorsAtComment(html, lower, i);
      var found := Find(lower, "-->", nameStart);
      next := if found.None? then |html| else found.value + 3;
      return;
    }
    AnchorsAtTag(html, lower, i);
    var j := SkipWhile(lower, nameStart, Alnum);
    var found := Find(lower, ">", j);
    if found.None? {
      next := |html|;
      return;
    }
    var tagEnd := found.value;
    if j != nameStart {
      anchor := ReadTag(html, lower, nameStart, j, tagEnd);
    }
    next := tagEnd + 1;
  }

  lemma AnchorsEnd(html: string, lower: string)
    requires |lower| == |html|
    ensures Anchors(html, lower, |html|) == []
  {
  }

  lemma FirstOnlyEnd(done: seq<Section>, seen: set<string>)
    ensures done + FirstOnly([], seen) == done
  {
  }

  /** `extract_sections`: one pass over the text, with the set of ids already seen. */
  method ExtractSections(html: string) returns (sections: seq<Section>)
    ensures sections == Extract(html)
  {
    var lower := Lower(html);
    var seen: set<string> := {};
    var i := 0;
    sections := [];
    assert [] + FirstOnly(Anchors(html, lower, 0), {}) == Extract(html);
    hide *;
    while i < |html|
      invariant i <= |html|
      invariant sections + FirstOnly(Anchors(html, lower, i), seen) == Extract(html)
    {
      var anchor, next := NextAnchor(html, lower, i);
      FirstOnlyStep(sections, anchor, Anchors(html, lower, next), seen);
      i := next;
      if anchor != [] && anchor[0].id !in seen {
        sections, seen := sections + anchor, seen + {anchor[0].id};
      }
    }
    AnchorsEnd(html, lower);
    FirstOnlyEnd(sections, seen);
  }

  // ---- what holds of the index of any text at all ----

  /** A well-formed anchor of `lower`: a non-empty lower-case id that stands in the text. */
  predicate Sound(lower: string, x: Section) {
    x.id != "" && Lower(x.id) == x.id && Contains(lower, x.id)
  }

  lemma SliceStands(lower: string, a: nat, b: nat)
    requires a <= b <= |lower| && Lower(lower) == lower
    ensures Lower(lower[a..b]) == lower[a..b] && Contains(lower, lower[a..b])
  {
    assert forall k :: a <= k < b ==> Lower(lower)[k] == LowerChar(lower[k]);
    assert OccursAt(lower, lower[a..b], a);
  }

  lemma SoundIs(lower: string, id: string, title: Option<string>)
    requires Lower(id) == id && Contains(lower, id)
    ensures id != "" ==> Sound(lower, Section(id, title))
  {
  }

  /** An id read from attribute text is a slice of that text. */
  lemma {:induction false} IdAttrIsSlice(attrs: string, i: nat)
    ensures IdAttr(attrs, i).Some? ==>
              exists a: nat, b: nat :: a <= b <= |attrs| && attrs[a..b] == IdAttr(attrs, i).value
    decreases |attrs| - i
  {
    hide NextChar;
    hide RunEnd;
    if i < |attrs| {
      if IsQuote(attrs[i]) {
        IdAttrIsSlice(attrs, NextChar(attrs, i + 1, attrs[i]) + 1);
      } else if IsAlpha(attrs[i]) {
        var end := RunEnd(attrs, i, NameChar);
        var j := RunEnd(attrs, end, Blank);
        if attrs[i..end] != "id" || j == |attrs| || attrs[j] != '=' {
          IdAttrIsSlice(attrs, end);
        }
      } else {
        IdAttrIsSlice(attrs, i + 1);
      }
    }
  }

  lemma TagAnchorSound(html: string, lower: string, j: nat, tagEnd: nat, title: Option<string>)
    requires j <= tagEnd <= |lower| && Lower(lower) == lower
    ensures forall x :: x in AnchorOf(IdAttr(lower[j..tagEnd], 0), title) ==> Sound(lower, x)
  {
    var attrs := lower[j..tagEnd];
    var id := IdAttr(attrs, 0);
    IdAttrIsSlice(attrs, 0);
    hide IdAttr;
    hide Sound;
    if id.Some? {
      var a: nat, b: nat :| a <= b <= |attrs| && attrs[a..b] == id.value;
      SliceOfSlice(lower, j, tagEnd, a, b);
      SliceStands(lower, j + a, j + b);
      SoundIs(lower, id.value, title);
    }
  }

  lemma {:induction false} AnchorsSound(html: string, lower: string, i: nat)
    requires |lower| == |html| && i <= |html| && Lower(lower) == lower
    ensures forall x :: x in Anchors(html, lower, i) ==> Sound(lower, x)
    decreases |html| - i
  {
    hide Find;
    hide OccursAt;
    hide RunEnd;
    hide IdAttr;
    hide TitleAt;
    hide AnchorOf;
    hide Sound;
    if i < |html| {
      if lower[i] != '<' {
        AnchorsSound(html, lower, i + 1);
      } else if OccursAt(lower, "!--", i + 1) {
        var found := Find(lower, "-->", i + 1);
        if found.Some? { AnchorsSound(html, lower, found.value + 3); }
      } else {
        var j := RunEnd(lower, i + 1, Alnum);
        var found := Find(lower, ">", j);
        if found.Some? {
          AnchorsSound(html, lower, found.value + 1);
          if j > i + 1 {
            TagAnchorSound(html, lower, j, found.value, TitleAt(html, lower, lower[i + 1..j], found.value + 1));
          }
        }
      }
    }
  }

  /** What `FirstOnly` keeps comes from the list, is unseen, and has distinct ids. */
  lemma {:induction false} FirstOnlyDistinct(xs: seq<Section>, seen: set<string>)
    ensures forall y :: y in FirstOnly(xs, seen) ==> y in xs && y.id !in seen
    ensures forall j, k :: 0 <= j < k < |FirstOnly(xs, seen)| ==> FirstOnly(xs, seen)[j].id != FirstOnly(xs, seen)[k].id
  {
    if xs != [] {
      FirstOnlyDistinct(xs[1..], if xs[0].id in seen then seen else seen + {xs[0].id});
    }
  }

  /** Every first occurrence of an unseen id is kept, with its own title. */
  lemma {:induction false} FirstOnlyKeepsFirsts(xs: seq<Section>, seen: set<string>, i: nat)
    requires i < |xs| && xs[i].id !in seen && forall j :: 0 <= j < i ==> xs[j].id != xs[i].id
    ensures xs[i] in FirstOnly(xs, seen)
  {
    if i > 0 {
      assert xs[0].id != xs[i].id;
      FirstOnlyKeepsFirsts(xs[1..], if xs[0].id in seen then seen else seen + {xs[0].id}, i - 1);
    }
  }

  /** What is kept stands in the order of the list. */
  lemma {:induction false} FirstOnlyInOrder(xs: seq<Section>, seen: set<string>) returns (ks: seq<nat>)
    ensures |ks| == |FirstOnly(xs, seen)| && forall i, j :: 0 <= i < j < |ks| ==> ks[i] < ks[j]
    ensures forall i :: 0 <= i < |ks| ==> ks[i] < |xs| && FirstOnly(xs, seen)[i] == xs[ks[i]]
  {
    if xs == [] {
      ks := [];
    } else {
      var js := FirstOnlyInOrder(xs[1..], if xs[0].id in seen then seen else seen + {xs[0].id});
      var shifted := seq(|js|, i requires 0 <= i < |js| => js[i] + 1);
      ks := if xs[0].id in seen then shifted else [0] + shifted;
    }
  }

  /** A title is in normal form: trimmed, its words apart by single blanks, and those of the text
      between the tags. */
  lemma TitleIsNormal(s: string)
    ensures var t := StripTags(s); Normal(t) && Words(t) == Words(Stripped(s, 0, false))
  {
    NormalForm(Stripped(s, 0, false));
    hide *;
    StripTagsIs(s);
  }

  lemma StripTagsIs(s: string)
    ensures StripTags(s) == JoinWords(Words(Stripped(s, 0, false)))
  {
  }

  /** For every text, the index has non-empty, pairwise distinct, lower-case ids, each of
      which stands in the lower-cased text. */
  lemma ExtractSound(html: string)
    ensures forall x :: x in Extract(html) ==> Sound(Lower(html), x)
    ensures forall j, k :: 0 <= j < k < |Extract(html)| ==> Extract(html)[j].id != Extract(html)[k].id
  {
    LowerTwice(html);
    AnchorsSound(html, Lower(html), 0);
    FirstOnlyDistinct(Anchors(html, Lower(html), 0), {});
    hide Anchors;
    hide FirstOnly;
  }
}
