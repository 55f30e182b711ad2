/**
 * The regular expressions `<tag>([^<]*)<\/tag>` and `<tag>([^<]+)<\/tag>` that the client and the
 * development mock use to read XML bodies, as the leftmost match of `String.prototype.match`.
 * `minLen` is 0 for the `*` form and 1 for the `+` form.
 */
module XmlText {
  import opened Wrappers

  /** The tags the source searches for are plain ASCII identifiers, so the regex is literal. */
  predicate IsPlainTag(tag: string) {
    |tag| > 0 && forall k :: 0 <= k < |tag| ==> ('a' <= tag[k] <= 'z' || 'A' <= tag[k] <= 'Z' || '0' <= tag[k] <= '9')
  }

  function Open(tag: string): string { "<" + tag + ">" }

  function Close(tag: string): string { "</" + tag + ">" }

  /** `<tag>content</tag>`. */
  function Element(tag: string, content: string): string { Open(tag) + content + Close(tag) }

  /** `xml[i..]` begins with the opening tag. */
  predicate OpensAt(xml: string, tag: string, i: nat) {
    i + |Open(tag)| <= |xml| && xml[i..i + |Open(tag)|] == Open(tag)
  }

  /**
   * The regex matches `xml[i..k + |Close(tag)|]`: an opening tag at `i`, at least `minLen`
   * characters other than `<`, and the closing tag at `k`.
   */
  ghost predicate MatchSpan(xml: string, tag: string, minLen: nat, i: nat, k: nat) {
    && OpensAt(xml, tag, i)
    && i + |Open(tag)| + minLen <= k
    && k + |Close(tag)| <= |xml|
    && '<' !in xml[i + |Open(tag)|..k]
    && xml[k..k + |Close(tag)|] == Close(tag)
  }

  /** Index of the first `<` at or after `from` (or `|xml|` when there is none). */
  function FirstLt(xml: string, from: nat): (r: nat)
    requires from <= |xml|
    ensures from <= r <= |xml|
    ensures r < |xml| ==> xml[r] == '<'
    ensures '<' !in xml[from..r]
    decreases |xml| - from
  {
    if from == |xml| || xml[from] == '<' then from
    else
      var r := FirstLt(xml, from + 1);
      assert xml[from..r] == [xml[from]] + xml[from + 1..r];
      r
  }

  /** Where the match that starts at `i` ends, if one starts there. */
  function MatchAt(xml: string, tag: string, minLen: nat, i: nat): (r: Option<nat>)
    ensures r.Some? ==> MatchSpan(xml, tag, minLen, i, r.value)
  {
    if !OpensAt(xml, tag, i) then None
    else
      var c := i + |Open(tag)|;
      var k := FirstLt(xml, c);
      if c + minLen <= k && k + |Close(tag)| <= |xml| && xml[k..k + |Close(tag)|] == Close(tag) then Some(k)
      else None
  }

  /** When MatchAt finds nothing at `i`, no match starts at `i`. */
  lemma MatchAtNone(xml: string, tag: string, minLen: nat, i: nat)
    requires MatchAt(xml, tag, minLen, i).None?
    ensures forall k :: !MatchSpan(xml, tag, minLen, i, k)
  {
    forall k | MatchSpan(xml, tag, minLen, i, k) ensures false {
      SpanEndsAtFirstLt(xml, tag, minLen, i, k);
    }
  }

  /** A match ends at the first `<` after its opening tag: the closing tag starts with `<`. */
  lemma SpanEndsAtFirstLt(xml: string, tag: string, minLen: nat, i: nat, k: nat)
    requires MatchSpan(xml, tag, minLen, i, k)
    ensures k == FirstLt(xml, i + |Open(tag)|)
  {
    var c := i + |Open(tag)|;
    var f := FirstLt(xml, c);
    assert xml[k] == Close(tag)[0] == '<';
  }

  /** The leftmost match starting at `i` or later, as (start, position of the closing tag). */
  function FirstMatchFrom(xml: string, tag: string, minLen: nat, i: nat): (r: Option<(nat, nat)>)
    requires i <= |xml|
    ensures r.Some? ==> i <= r.value.0 && MatchSpan(xml, tag, minLen, r.value.0, r.value.1)
    decreases |xml| - i
  {
    if i == |xml| then None
    else match MatchAt(xml, tag, minLen, i)
      case Some(k) => Some((i, k))
      case None => FirstMatchFrom(xml, tag, minLen, i + 1)
  }

  /** FirstMatchFrom skips no match: none starts between `i` and what it returns, and none at all when it returns None. */
  lemma {:induction false} FirstMatchFromLeftmost(xml: string, tag: string, minLen: nat, i: nat)
    requires i <= |xml|
    ensures var r := FirstMatchFrom(xml, tag, minLen, i);
      && (r.Some? ==> forall j, k :: i <= j < r.value.0 ==> !MatchSpan(xml, tag, minLen, j, k))
      && (r.None? ==> forall j, k :: i <= j ==> !MatchSpan(xml, tag, minLen, j, k))
    decreases |xml| - i
  {
    if i < |xml| && MatchAt(xml, tag, minLen, i).None? {
      MatchAtNone(xml, tag, minLen, i);
      FirstMatchFromLeftmost(xml, tag, minLen, i + 1);
    }
  }

  /**
   * `xml.match(/<tag>([^<]*)<\/tag>/)` (minLen 0) or `/([^<]+)/` (minLen 1): the captured text of
   * the leftmost match, or None (JavaScript `null`) when nothing matches. The tags searched for
   * are plain identifiers, so the regular expression matches them literally.
   */
  function MatchedText(xml: string, tag: string, minLen: nat): (r: Option<string>)
    ensures r.Some? ==> |r.value| >= minLen && '<' !in r.value
  {
    match FirstMatchFrom(xml, tag, minLen, 0)
    case None => None
    case Some((i, k)) => Some(xml[i + |Open(tag)|..k])
  }

  /** The match at (i, k) is the one `String.prototype.match` reports: no match starts earlier. */
  ghost predicate LeftmostSpan(xml: string, tag: string, minLen: nat, i: nat, k: nat) {
    MatchSpan(xml, tag, minLen, i, k) && forall j: nat, k': nat :: j < i ==> !MatchSpan(xml, tag, minLen, j, k')
  }

  /** MatchedText is null exactly when nothing matches, and otherwise captures the leftmost match. */
  lemma MatchedTextLeftmost(xml: string, tag: string, minLen: nat)
    ensures var r := MatchedText(xml, tag, minLen);
      && (r.None? <==> forall i, k :: !MatchSpan(xml, tag, minLen, i, k))
      && (r.Some? ==> exists i: nat, k: nat :: LeftmostSpan(xml, tag, minLen, i, k) && r.value == xml[i + |Open(tag)|..k])
  {
    FirstMatchFromLeftmost(xml, tag, minLen, 0);
    var f := FirstMatchFrom(xml, tag, minLen, 0);
    if f.Some? {
      var (i, k) := f.value;
      assert LeftmostSpan(xml, tag, minLen, i, k);
    }
  }

  /** Text in which no opening tag can begin holds no match. */
  lemma InertHasNoMatch(xml: string, tag: string, minLen: nat)
    requires Inert(xml, tag)
    ensures MatchedText(xml, tag, minLen).None?
  {
    var f := FirstMatchFrom(xml, tag, minLen, 0);
    if f.Some? {
      OpenStartsWithLt(xml, tag, f.value.0);
      assert false;
    }
  }

  lemma OpenStartsWithLt(xml: string, tag: string, i: nat)
    requires OpensAt(xml, tag, i)
    ensures xml[i] == '<'
  {
    assert xml[i] == xml[i..i + |Open(tag)|][0];
  }

  /** An empty element does not match a pattern that needs at least one character. */
  lemma EmptyElementNoMatch(tag: string, minLen: nat)
    requires minLen >= 1
    ensures MatchedText(Element(tag, ""), tag, minLen).None?
  {
    var xml := Element(tag, "");
    assert |xml| == |Open(tag)| + |Close(tag)|;
    var f := FirstMatchFrom(xml, tag, minLen, 0);
    if f.Some? {
      assert false;
    }
  }

  // ---------------------------------------------------------------- reading a known document

  /**
   * No opening `<tag>` can begin inside `s`, whatever follows it: every `<` in `s` is followed,
   * inside `s`, by a character that differs from the one at the same offset in `Open(tag)`.
   */
  ghost predicate Inert(s: string, tag: string) {
    forall j :: 0 <= j < |s| && s[j] == '<' ==> BreaksOpenAt(s, tag, j)
  }

  /** Some character of `s` after position `j` differs from the one at the same offset in `Open(tag)`. */
  ghost predicate BreaksOpenAt(s: string, tag: string, j: int) {
    exists d :: 1 <= d < |Open(tag)| && 0 <= j + d < |s| && s[j + d] != Open(tag)[d]
  }

  /** Text without `<` is inert. */
  lemma InertPlain(s: string, tag: string)
    requires '<' !in s
    ensures Inert(s, tag)
  {
  }

  lemma {:induction false} InertConcat(a: string, b: string, tag: string)
    requires Inert(a, tag) && Inert(b, tag)
    ensures Inert(a + b, tag)
  {
    var s := a + b;
    forall j | 0 <= j < |s| && s[j] == '<'
      ensures BreaksOpenAt(s, tag, j)
    {
      if j < |a| {
        assert a[j] == '<';
        var d :| 1 <= d < |Open(tag)| && j + d < |a| && a[j + d] != Open(tag)[d];
        assert s[j + d] == a[j + d];
      } else {
        assert b[j - |a|] == '<';
        var d :| 1 <= d < |Open(tag)| && j - |a| + d < |b| && b[j - |a| + d] != Open(tag)[d];
        assert s[j + d] == b[j - |a| + d];
      }
    }
  }

  /** `<` followed by a character that no tag starts with (`?`, `/`, …): `<?xml`, `</t>`. */
  lemma InertMarkup(rest: string, tag: string)
    requires IsPlainTag(tag)
    requires rest != [] && (rest[0] == '?' || rest[0] == '/')
    requires '<' !in rest
    ensures Inert("<" + rest, tag)
  {
    var s := "<" + rest;
    forall j | 0 <= j < |s| && s[j] == '<'
      ensures BreaksOpenAt(s, tag, j)
    {
      assert j == 0;
      assert Open(tag)[1] == tag[0];
      assert s[1] != Open(tag)[1];
    }
  }

  /** `</t>` is inert for every plain tag. */
  lemma InertClose(t: string, tag: string)
    requires IsPlainTag(t) && IsPlainTag(tag)
    ensures Inert(Close(t), tag)
  {
    assert Close(t) == "<" + ("/" + t + ">");
    PlainHasNoLt(t);
    assert '<' !in "/" + t + ">";
    InertMarkup("/" + t + ">", tag);
  }

  lemma PlainHasNoLt(t: string)
    requires IsPlainTag(t)
    ensures '<' !in t && '>' !in t
  {
  }

  /** `<t>` is inert for every plain tag other than `t` itself. */
  lemma InertOpen(t: string, tag: string)
    requires IsPlainTag(t) && IsPlainTag(tag) && t != tag
    ensures Inert(Open(t), tag)
  {
    var s := Open(t);
    PlainHasNoLt(t);
    var d := FirstDifference(t + ">", tag + ">");
    forall j | 0 <= j < |s| && s[j] == '<'
      ensures BreaksOpenAt(s, tag, j)
    {
      assert j == 0;
      assert s[d + 1] == (t + ">")[d] && Open(tag)[d + 1] == (tag + ">")[d];
    }
  }

  /** Two different tags, each closed by `>`, differ at an offset both of them have. */
  lemma FirstDifference(a: string, b: string) returns (d: nat)
    requires |a| > 0 && |b| > 0 && a[|a| - 1] == '>' && b[|b| - 1] == '>'
    requires '>' !in a[..|a| - 1] && '>' !in b[..|b| - 1]
    requires a != b
    ensures d < |a| && d < |b| && a[d] != b[d]
  {
    d := 0;
    while d < |a| && d < |b| && a[d] == b[d]
      invariant d <= |a| && d <= |b|
      invariant a[..d] == b[..d]
    {
      assert a[..d + 1] == a[..d] + [a[d]];
      assert b[..d + 1] == b[..d] + [b[d]];
      d := d + 1;
    }
  }

  /** An inert prefix opens no `<tag>`, whatever text follows it. */
  lemma NoOpenInInert(pre: string, rest: string, tag: string, j: nat)
    requires IsPlainTag(tag) && Inert(pre, tag) && j < |pre|
    ensures !OpensAt(pre + rest, tag, j)
  {
    var xml := pre + rest;
    assert xml[j] == pre[j];
    assert Open(tag)[0] == '<';
    if j + |Open(tag)| <= |xml| {
      var w := xml[j..j + |Open(tag)|];
      if pre[j] == '<' {
        var d :| 1 <= d < |Open(tag)| && j + d < |pre| && pre[j + d] != Open(tag)[d];
        assert w[d] == xml[j + d] == pre[j + d];
      } else {
        assert w[0] == xml[j];
      }
    }
  }

  /** The element right after `pre` is a match. */
  lemma ElementIsSpan(pre: string, tag: string, content: string, post: string, minLen: nat)
    requires '<' !in content && |content| >= minLen
    ensures MatchSpan(pre + Element(tag, content) + post, tag, minLen, |pre|, |pre| + |Open(tag)| + |content|)
    ensures (pre + Element(tag, content) + post)[|pre| + |Open(tag)|..|pre| + |Open(tag)| + |content|] == content
  {
    var xml := pre + Element(tag, content) + post;
    var i, c, k := |pre|, |pre| + |Open(tag)|, |pre| + |Open(tag)| + |content|;
    assert xml == pre + Open(tag) + content + Close(tag) + post;
    assert xml[i..c] == Open(tag);
    assert xml[c..k] == content;
    assert xml[k..k + |Close(tag)|] == Close(tag);
  }

  /** A match at `i` is the one MatchAt finds there. */
  lemma MatchAtSpan(xml: string, tag: string, minLen: nat, i: nat, k: nat)
    requires MatchSpan(xml, tag, minLen, i, k)
    ensures MatchAt(xml, tag, minLen, i) == Some(k)
  {
    SpanEndsAtFirstLt(xml, tag, minLen, i, k);
  }

  /** Scanning from `j`, when no opening tag lies between `j` and a match at `i`, finds that match. */
  lemma {:induction false} FirstMatchFromReaches(xml: string, tag: string, minLen: nat, j: nat, i: nat, k: nat)
    requires j <= i && MatchSpan(xml, tag, minLen, i, k)
    requires forall j': nat :: j <= j' < i ==> !OpensAt(xml, tag, j')
    ensures FirstMatchFrom(xml, tag, minLen, j) == Some((i, k))
    decreases i - j
  {
    if j == i {
      MatchAtSpan(xml, tag, minLen, i, k);
    } else {
      assert !OpensAt(xml, tag, j);
      FirstMatchFromReaches(xml, tag, minLen, j + 1, i, k);
    }
  }

  /** When no opening tag precedes a match, that match is the one reported. */
  lemma MatchedTextOfFirstOpen(xml: string, tag: string, minLen: nat, i: nat, k: nat)
    requires MatchSpan(xml, tag, minLen, i, k)
    requires forall j: nat :: j < i ==> !OpensAt(xml, tag, j)
    ensures MatchedText(xml, tag, minLen) == Some(xml[i + |Open(tag)|..k])
  {
    FirstMatchFromReaches(xml, tag, minLen, 0, i, k);
  }

  /**
   * Reading an element out of a known document: when nothing before `pre`'s end can open `<tag>`,
   * the match is the element that follows `pre`, and the captured text is its content.
   */
  lemma MatchedTextAfter(pre: string, tag: string, content: string, post: string, minLen: nat)
    requires IsPlainTag(tag) && Inert(pre, tag)
    requires '<' !in content && |content| >= minLen
    ensures MatchedText(pre + Element(tag, content) + post, tag, minLen) == Some(content)
  {
    var xml := pre + Element(tag, content) + post;
    var i, k := |pre|, |pre| + |Open(tag)| + |content|;
    NoOpenBefore(pre, Element(tag, content), post, tag);
    ElementIsSpan(pre, tag, content, post, minLen);
    MatchedTextOfFirstOpen(xml, tag, minLen, i, k);
  }

  lemma NoOpenBefore(pre: string, e: string, post: string, tag: string)
    requires IsPlainTag(tag) && Inert(pre, tag)
    ensures forall j: nat :: j < |pre| ==> !OpensAt(pre + e + post, tag, j)
  {
    assert pre + e + post == pre + (e + post);
    forall j: nat | j < |pre| ensures !OpensAt(pre + (e + post), tag, j) {
      NoOpenInInert(pre, e + post, tag, j);
    }
  }

  // ---------------------------------------------------------------- documents made of parts

  /** A document written as a run of parts (the pieces of a template literal). */
  function Concat(parts: seq<string>): (r: string)
    ensures |parts| == 0 ==> r == []
  {
    if parts == [] then [] else parts[0] + Concat(parts[1..])
  }

  lemma {:induction false} ConcatSplit(parts: seq<string>, j: nat)
    requires j < |parts|
    ensures Concat(parts) == Concat(parts[..j]) + parts[j] + Concat(parts[j + 1..])
  {
    if j == 0 {
      assert parts[..0] == [];
    } else {
      ConcatSplit(parts[1..], j - 1);
      assert parts[1..][..j - 1] == parts[1..j];
      assert parts[1..][j - 1] == parts[j];
      assert parts[1..][j..] == parts[j + 1..];
      assert parts[..j][1..] == parts[1..j];
    }
  }

  lemma {:induction false} InertJoin(parts: seq<string>, tag: string)
    requires forall i :: 0 <= i < |parts| ==> Inert(parts[i], tag)
    ensures Inert(Concat(parts), tag)
  {
    if parts != [] {
      InertJoin(parts[1..], tag);
      InertConcat(parts[0], Concat(parts[1..]), tag);
    }
  }

  /**
   * In a document made of parts, when part `j` is the element `<tag>content</tag>` and no earlier
   * part can open `<tag>`, the match is that element.
   */
  lemma MatchedTextOfPart(parts: seq<string>, j: nat, tag: string, content: string, minLen: nat)
    requires IsPlainTag(tag) && j < |parts| && parts[j] == Element(tag, content)
    requires '<' !in content && |content| >= minLen
    requires forall i :: 0 <= i < j ==> Inert(parts[i], tag)
    ensures MatchedText(Concat(parts), tag, minLen) == Some(content)
  {
    ConcatSplit(parts, j);
    InertJoin(parts[..j], tag);
    MatchedTextAfter(Concat(parts[..j]), tag, content, Concat(parts[j + 1..]), minLen);
  }

  /** An element of another tag, with text content, is inert. */
  lemma InertElement(t: string, content: string, tag: string)
    requires IsPlainTag(t) && IsPlainTag(tag) && t != tag && '<' !in content
    ensures Inert(Element(t, content), tag)
  {
    InertOpen(t, tag);
    InertPlain(content, tag);
    InertClose(t, tag);
    InertConcat(Open(t), content, tag);
    InertConcat(Open(t) + content, Close(t), tag);
  }
}
