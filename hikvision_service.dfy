/**
 * The ISAPI client for the access-control terminal (src/device/hikvisionService.js): XML entity
 * escaping, the request bodies, reading a tag out of a reply, the three-way triage of a failed
 * request into an operator-facing message, and the four client calls.
 *
 * The HTTP transport is a parameter `wire`: a total function from the request the client builds
 * to what came back (a status and a body, no reply at all, or a failure before sending).
 */
module Hikvision {
  import opened Wrappers
  import opened JsBuiltins
  import opened XmlText
  import opened DeviceConfig

  // ---------------------------------------------------------------- XML escaping

  /** The five characters for which XML 1.0 (section 4.6) predefines entities. */
  predicate IsMarkupChar(c: char) {
    c == '&' || c == '<' || c == '>' || c == '"' || c == '\''
  }

  /** `escapeXML`: five global replacements, `&` first. */
  function EscapeXml(s: string): (r: string)
  {
    ReplaceAll(ReplaceAll(ReplaceAll(ReplaceAll(ReplaceAll(
      s, '&', "&amp;"), '<', "&lt;"), '>', "&gt;"), '"', "&quot;"), '\'', "&apos;")
  }

  /** Text without markup characters (an employee number, say) passes through unchanged. */
  lemma EscapeXmlOfPlain(s: string)
    requires forall k :: 0 <= k < |s| ==> !IsMarkupChar(s[k])
    ensures EscapeXml(s) == s
  {
    assert '&' !in s && '<' !in s && '>' !in s && '"' !in s && '\'' !in s;
  }

  /** Reference definition: the entity for a markup character, the character itself otherwise. */
  function EscapeChar(c: char): (r: string)
    ensures |r| >= 1
  {
    if c == '&' then "&amp;"
    else if c == '<' then "&lt;"
    else if c == '>' then "&gt;"
    else if c == '"' then "&quot;"
    else if c == '\'' then "&apos;"
    else [c]
  }

  /** Reference definition: every character escaped on its own. */
  function EscapeEach(s: string): (r: string)
    ensures |r| >= |s|
  {
    if s == [] then [] else EscapeChar(s[0]) + EscapeEach(s[1..])
  }

  lemma EscapeXmlConcat(a: string, b: string)
    ensures EscapeXml(a + b) == EscapeXml(a) + EscapeXml(b)
  {
    var a1, b1 := ReplaceAll(a, '&', "&amp;"), ReplaceAll(b, '&', "&amp;");
    var a2, b2 := ReplaceAll(a1, '<', "&lt;"), ReplaceAll(b1, '<', "&lt;");
    var a3, b3 := ReplaceAll(a2, '>', "&gt;"), ReplaceAll(b2, '>', "&gt;");
    var a4, b4 := ReplaceAll(a3, '"', "&quot;"), ReplaceAll(b3, '"', "&quot;");
    ReplaceAllConcat(a, b, '&', "&amp;");
    ReplaceAllConcat(a1, b1, '<', "&lt;");
    ReplaceAllConcat(a2, b2, '>', "&gt;");
    ReplaceAllConcat(a3, b3, '"', "&quot;");
    ReplaceAllConcat(a4, b4, '\'', "&apos;");
  }

  lemma ReplaceAllOne(c: char, x: char, rep: string)
    ensures ReplaceAll([c], x, rep) == if c == x then rep else [c]
  {
    assert [c][1..] == [];
  }

  /** The replacements after the `&` step leave alone a text without `<`, `>`, `"` or `'`. */
  lemma KeptAfterAmp(s: string)
    requires '<' !in s && '>' !in s && '"' !in s && '\'' !in s
    ensures ReplaceAll(ReplaceAll(ReplaceAll(ReplaceAll(s, '<', "&lt;"), '>', "&gt;"), '"', "&quot;"), '\'', "&apos;") == s
  {
  }

  lemma KeptAfterLt(s: string)
    requires '>' !in s && '"' !in s && '\'' !in s
    ensures ReplaceAll(ReplaceAll(ReplaceAll(s, '>', "&gt;"), '"', "&quot;"), '\'', "&apos;") == s
  {
  }

  lemma KeptAfterGt(s: string)
    requires '"' !in s && '\'' !in s
    ensures ReplaceAll(ReplaceAll(s, '"', "&quot;"), '\'', "&apos;") == s
  {
  }

  lemma EscapeXmlChar(c: char)
    ensures EscapeXml([c]) == EscapeChar(c)
  {
    ReplaceAllOne(c, '&', "&amp;");
    if c == '&' {
      KeptAfterAmp("&amp;");
    } else {
      ReplaceAllOne(c, '<', "&lt;");
      if c == '<' {
        KeptAfterLt("&lt;");
      } else {
        ReplaceAllOne(c, '>', "&gt;");
        if c == '>' {
          KeptAfterGt("&gt;");
        } else {
          ReplaceAllOne(c, '"', "&quot;");
          ReplaceAllOne(c, '\'', "&apos;");
          if c == '"' {
            assert '\'' !in "&quot;";
          }
        }
      }
    }
  }

  /** The chained replacements escape each character independently: `&` first means no entity is escaped twice. */
  lemma {:induction false} EscapeXmlIsPerChar(s: string)
    ensures EscapeXml(s) == EscapeEach(s)
  {
    if s != [] {
      assert s == [s[0]] + s[1..];
      EscapeXmlConcat([s[0]], s[1..]);
      EscapeXmlChar(s[0]);
      EscapeXmlIsPerChar(s[1..]);
    }
  }

  /** One of the five predefined entities starts at `r[k..]`. */
  predicate EntityAt(r: string, k: nat)
    requires k <= |r|
  {
    StartsWith(r[k..], "&amp;") || StartsWith(r[k..], "&lt;") || StartsWith(r[k..], "&gt;")
    || StartsWith(r[k..], "&quot;") || StartsWith(r[k..], "&apos;")
  }

  /** No raw `<`, `>`, `"` or `'`, and every `&` begins one of the five entities. */
  predicate WellEscaped(r: string) {
    forall k :: 0 <= k < |r| ==> !IsMarkupChar(r[k]) || (r[k] == '&' && EntityAt(r, k))
  }

  lemma StartsWithAppend(x: string, y: string, e: string)
    requires StartsWith(x, e)
    ensures StartsWith(x + y, e)
  {
    assert (x + y)[..|e|] == x[..|e|];
  }

  lemma WellEscapedConcat(a: string, b: string)
    requires WellEscaped(a) && WellEscaped(b)
    ensures WellEscaped(a + b)
  {
    var s := a + b;
    forall k | 0 <= k < |s| && IsMarkupChar(s[k]) ensures s[k] == '&' && EntityAt(s, k) {
      if k < |a| {
        assert s[k] == a[k];
        assert s[k..] == a[k..] + b;
        var x := a[k..];
        if StartsWith(x, "&amp;") { StartsWithAppend(x, b, "&amp;"); }
        else if StartsWith(x, "&lt;") { StartsWithAppend(x, b, "&lt;"); }
        else if StartsWith(x, "&gt;") { StartsWithAppend(x, b, "&gt;"); }
        else if StartsWith(x, "&quot;") { StartsWithAppend(x, b, "&quot;"); }
        else { StartsWithAppend(x, b, "&apos;"); }
      } else {
        assert s[k] == b[k - |a|];
        assert s[k..] == b[k - |a|..];
      }
    }
  }

  lemma WellEscapedChar(c: char)
    ensures WellEscaped(EscapeChar(c))
  {
    var r := EscapeChar(c);
    if IsMarkupChar(c) {
      assert r[0] == '&' && EntityAt(r, 0);
      assert forall k :: 1 <= k < |r| ==> !IsMarkupChar(r[k]);
    }
  }

  lemma {:induction false} EscapeEachWellEscaped(s: string)
    ensures WellEscaped(EscapeEach(s))
  {
    if s != [] {
      WellEscapedChar(s[0]);
      EscapeEachWellEscaped(s[1..]);
      WellEscapedConcat(EscapeChar(s[0]), EscapeEach(s[1..]));
    }
  }

  /** The output of `escapeXML` has no raw markup character and every `&` in it begins an entity. */
  lemma EscapeXmlWellEscaped(s: string)
    ensures WellEscaped(EscapeXml(s))
    ensures '<' !in EscapeXml(s)
  {
    EscapeXmlIsPerChar(s);
    EscapeEachWellEscaped(s);
  }

  /** Reading the five entities back into characters. */
  function Unescape(r: string): (s: string)
    decreases |r|
  {
    if r == [] then []
    else if StartsWith(r, "&amp;") then "&" + Unescape(r[5..])
    else if StartsWith(r, "&lt;") then "<" + Unescape(r[4..])
    else if StartsWith(r, "&gt;") then ">" + Unescape(r[4..])
    else if StartsWith(r, "&quot;") then "\"" + Unescape(r[6..])
    else if StartsWith(r, "&apos;") then "'" + Unescape(r[6..])
    else [r[0]] + Unescape(r[1..])
  }

  lemma StartsWithAt(r: string, p: string, i: nat)
    requires StartsWith(r, p) && i < |p|
    ensures r[i] == p[i]
  {
    assert r[..|p|][i] == r[i];
  }

  lemma StartsWithPrefix(p: string, rest: string)
    ensures StartsWith(p + rest, p) && (p + rest)[|p|..] == rest
  {
    assert (p + rest)[..|p|] == p;
  }

  /** Unescaping a text that starts with no entity keeps its first character. */
  lemma UnescapePlain(r: string)
    requires r != [] && r[0] != '&'
    ensures Unescape(r) == [r[0]] + Unescape(r[1..])
  {
    if StartsWith(r, "&amp;") { StartsWithAt(r, "&amp;", 0); }
    if StartsWith(r, "&lt;") { StartsWithAt(r, "&lt;", 0); }
    if StartsWith(r, "&gt;") { StartsWithAt(r, "&gt;", 0); }
    if StartsWith(r, "&quot;") { StartsWithAt(r, "&quot;", 0); }
    if StartsWith(r, "&apos;") { StartsWithAt(r, "&apos;", 0); }
  }

  /** Unescaping reads one escaped character back and continues after it. */
  lemma UnescapeStep(c: char, rest: string)
    ensures Unescape(EscapeChar(c) + rest) == [c] + Unescape(rest)
  {
    var e := EscapeChar(c);
    var r := e + rest;
    StartsWithPrefix(e, rest);
    if !IsMarkupChar(c) {
      assert r[0] == c;
      UnescapePlain(r);
    } else if c == '&' {
      assert Unescape(r) == "&" + Unescape(r[5..]);
    } else if c == '<' {
      StartsWithAt(r, e, 1);
      if StartsWith(r, "&amp;") { StartsWithAt(r, "&amp;", 1); }
      assert Unescape(r) == "<" + Unescape(r[4..]);
    } else if c == '>' {
      StartsWithAt(r, e, 1);
      if StartsWith(r, "&amp;") { StartsWithAt(r, "&amp;", 1); }
      assert Unescape(r) == ">" + Unescape(r[4..]);
    } else if c == '"' {
      StartsWithAt(r, e, 1);
      if StartsWith(r, "&amp;") { StartsWithAt(r, "&amp;", 1); }
      if StartsWith(r, "&lt;") { StartsWithAt(r, "&lt;", 1); }
      if StartsWith(r, "&gt;") { StartsWithAt(r, "&gt;", 1); }
      assert Unescape(r) == "\"" + Unescape(r[6..]);
    } else {
      StartsWithAt(r, e, 1);
      StartsWithAt(r, e, 2);
      if StartsWith(r, "&amp;") { StartsWithAt(r, "&amp;", 2); }
      if StartsWith(r, "&lt;") { StartsWithAt(r, "&lt;", 1); }
      if StartsWith(r, "&gt;") { StartsWithAt(r, "&gt;", 1); }
      assert Unescape(r) == "'" + Unescape(r[6..]);
    }
  }

  lemma {:induction false} EscapeEachRoundTrip(s: string)
    ensures Unescape(EscapeEach(s)) == s
  {
    if s != [] {
      UnescapeStep(s[0], EscapeEach(s[1..]));
      EscapeEachRoundTrip(s[1..]);
    }
  }

  /** Escaping loses nothing: the original text can be read back, so distinct inputs escape differently. */
  lemma EscapeXmlRoundTrip(s: string)
    ensures Unescape(EscapeXml(s)) == s
  {
    EscapeXmlIsPerChar(s);
    EscapeEachRoundTrip(s);
  }

  // ---------------------------------------------------------------- reading a tag

  /**
   * `extractXMLTag(xml, tag)`: the trimmed text of the leftmost `<tag>…</tag>` whose content holds
   * no `<`, or null (None) when there is no such element.
   */
  function ExtractXmlTag(xml: string, tag: string): (r: Option<string>)
    ensures r.Some? ==> '<' !in r.value
  {
    match MatchedText(xml, tag, 0)
    case None => None
    case Some(t) => Some(Trim(t))
  }

  /** ExtractXmlTag is null exactly when no element matches, and otherwise the trimmed text of the leftmost one. */
  lemma ExtractXmlTagLeftmost(xml: string, tag: string)
    ensures var r := ExtractXmlTag(xml, tag);
      && (r.None? <==> forall i, k :: !MatchSpan(xml, tag, 0, i, k))
      && (r.Some? ==> exists i: nat, k: nat :: LeftmostSpan(xml, tag, 0, i, k) && r.value == Trim(xml[i + |Open(tag)|..k]))
  {
    MatchedTextLeftmost(xml, tag, 0);
  }

  // ---------------------------------------------------------------- request bodies

  /** The validity window of a device user; `enable` is None when the field is absent. */
  datatype ValidWindow = ValidWindow(enable: Option<bool>, beginTime: string, endTime: string)

  /** The record `buildDeviceUserPayload` produces and `addOrUpdateUser` sends. */
  datatype UserPayload = UserPayload(
    employeeNo: string,
    name: string,
    phoneNo: string,
    address: string,
    membershipType: string,
    status: string,
    valid: ValidWindow)

  /** What follows the `<` of the XML declaration that opens both request bodies. */
  const DeclarationBody := "?xml version=\"1.0\" encoding=\"UTF-8\"?>"

  /** `<?xml version="1.0" encoding="UTF-8"?>`. */
  const XmlDeclaration := "<" + DeclarationBody

  /** `Valid.enable !== false ? "true" : "false"`. */
  function EnableText(enable: Option<bool>): (r: string)
    ensures r == "false" <==> enable == Some(false)
    ensures r == "true" || r == "false"
  {
    if enable == Some(false) then "false" else "true"
  }

  /** The declaration, a line break, the root element's opening tag and the indentation of its first child. */
  function BodyHead(root: string): string {
    XmlDeclaration + "\n" + Open(root) + "\n  "
  }

  /** The six texts the `<UserInfo>` body carries: identity and name escaped, the window verbatim. */
  function UserFieldTexts(p: UserPayload): (texts: seq<string>)
    ensures |texts| == 6
  {
    [EscapeXml(p.employeeNo), EscapeXml(p.name), "normal", EnableText(p.valid.enable), p.valid.beginTime, p.valid.endTime]
  }

  /** The six tags of the `<UserInfo>` body, in document order. */
  const UserFieldTags: seq<string> := ["employeeNo", "name", "userType", "enable", "beginTime", "endTime"]

  /**
   * The `<UserInfo>` template around the six field texts, cut at its elements; the line breaks
   * and indentation are the template's own.
   */
  function UserXmlParts(texts: seq<string>): (parts: seq<string>)
    requires |texts| == 6
    ensures |parts| == 15
  {
    [ BodyHead("UserInfo"),
      Element("employeeNo", texts[0]), "\n  ",
      Element("name", texts[1]), "\n  ",
      Element("userType", texts[2]), "\n  ",
      Open("Valid"), "\n    ",
      Element("enable", texts[3]), "\n    ",
      Element("beginTime", texts[4]), "\n    ",
      Element("endTime", texts[5]),
      "\n  " + Close("Valid") + "\n" + Close("UserInfo") ]
  }

  /** `buildUserXML(userPayload)`. */
  function BuildUserXml(p: UserPayload): (xml: string)
  {
    Concat(UserXmlParts(UserFieldTexts(p)))
  }

  /** Where field `f`'s element sits among UserXmlParts. */
  function UserFieldPart(f: nat): (i: nat)
    requires f < 6
    ensures i < 15
  {
    [1, 3, 5, 9, 11, 13][f]
  }

  /** Field `f`'s part is its element. */
  lemma UserFieldPartIsElement(texts: seq<string>, f: nat)
    requires |texts| == 6 && f < 6
    ensures UserXmlParts(texts)[UserFieldPart(f)] == Element(UserFieldTags[f], texts[f])
  {
  }

  /** The field tags are plain names, different from each other and from the two enclosing tags. */
  lemma FieldTag(f: nat)
    requires f < 6
    ensures IsPlainTag(UserFieldTags[f])
    ensures UserFieldTags[f] != "UserInfo" && UserFieldTags[f] != "Valid"
    ensures forall g :: 0 <= g < f ==> UserFieldTags[g] != UserFieldTags[f]
  {
    if f == 0 { assert IsPlainTag("employeeNo"); }
    else if f == 1 { assert IsPlainTag("name"); }
    else if f == 2 { assert IsPlainTag("userType"); }
    else if f == 3 { assert IsPlainTag("enable"); }
    else if f == 4 { assert IsPlainTag("beginTime"); }
    else { assert IsPlainTag("endTime"); }
  }

  /** No field text holds a `<` as long as the verbatim window times hold none. */
  lemma FieldTextsHaveNoLt(p: UserPayload)
    requires '<' !in p.valid.beginTime && '<' !in p.valid.endTime
    ensures forall f :: 0 <= f < 6 ==> '<' !in UserFieldTexts(p)[f]
  {
    var texts := UserFieldTexts(p);
    forall f | 0 <= f < 6 ensures '<' !in texts[f] {
      if f == 0 {
        EscapeXmlWellEscaped(p.employeeNo);
      } else if f == 1 {
        EscapeXmlWellEscaped(p.name);
      } else if f == 2 {
        assert texts[f] == "normal";
      } else if f == 3 {
        assert texts[f] == "true" || texts[f] == "false";
      }
    }
  }

  /** `<?xml …?>` followed by a line break cannot open any tag. */
  lemma InertDeclaration(tag: string)
    requires IsPlainTag(tag)
    ensures Inert(XmlDeclaration + "\n", tag)
  {
    AppendAssoc("<", DeclarationBody, "\n");
    assert '<' !in DeclarationBody;
    InertMarkup(DeclarationBody + "\n", tag);
  }

  /** A body's head cannot open any tag other than its root. */
  lemma InertBodyHead(root: string, tag: string)
    requires IsPlainTag(root) && IsPlainTag(tag) && root != tag
    ensures Inert(BodyHead(root), tag)
  {
    InertDeclaration(tag);
    InertOpen(root, tag);
    InertPlain("\n  ", tag);
    InertConcat(XmlDeclaration + "\n", Open(root), tag);
    InertConcat(XmlDeclaration + "\n" + Open(root), "\n  ", tag);
  }

  /** Every part before field `f`'s element is inert for `f`'s tag. */
  lemma UserXmlPartInert(texts: seq<string>, f: nat, i: nat)
    requires |texts| == 6 && f < 6 && i < UserFieldPart(f)
    requires forall g :: 0 <= g < 6 ==> '<' !in texts[g]
    ensures Inert(UserXmlParts(texts)[i], UserFieldTags[f])
  {
    var parts := UserXmlParts(texts);
    var tag := UserFieldTags[f];
    FieldTag(f);
    if i == 0 {
      assert IsPlainTag("UserInfo");
      InertBodyHead("UserInfo", tag);
    } else if i == 7 {
      assert IsPlainTag("Valid");
      InertOpen("Valid", tag);
    } else if i == 2 || i == 4 || i == 6 {
      assert parts[i] == "\n  ";
      InertPlain("\n  ", tag);
    } else if i == 8 || i == 10 || i == 12 {
      assert parts[i] == "\n    ";
      InertPlain("\n    ", tag);
    } else {
      var g := if i < 7 then (i - 1) / 2 else (i - 3) / 2;
      assert g < f && UserFieldPart(g) == i;
      FieldTag(g);
      UserFieldPartIsElement(texts, g);
      InertElement(UserFieldTags[g], texts[g], tag);
    }
  }

  /**
   * Reading field `f` back out of the `<UserInfo>` template with the regex `<tag>([^<]*)</tag>`
   * (minLen 0) or `<tag>([^<]+)</tag>` (minLen 1) finds the text it was built with, as long as no
   * field text holds a `<`.
   */
  lemma UserXmlField(texts: seq<string>, f: nat, minLen: nat)
    requires |texts| == 6 && f < 6 && |texts[f]| >= minLen
    requires forall g :: 0 <= g < 6 ==> '<' !in texts[g]
    ensures MatchedText(Concat(UserXmlParts(texts)), UserFieldTags[f], minLen) == Some(texts[f])
  {
    var parts := UserXmlParts(texts);
    FieldTag(f);
    UserFieldPartIsElement(texts, f);
    forall i | 0 <= i < UserFieldPart(f) ensures Inert(parts[i], UserFieldTags[f]) {
      UserXmlPartInert(texts, f, i);
    }
    MatchedTextOfPart(parts, UserFieldPart(f), UserFieldTags[f], texts[f], minLen);
  }

  /**
   * The body carries the escaped identity and name, `userType` `normal`, `enable` as EnableText,
   * and the validity times verbatim, each as the text of its own element.
   */
  lemma BuildUserXmlContents(p: UserPayload)
    requires '<' !in p.valid.beginTime && '<' !in p.valid.endTime
    ensures var xml := BuildUserXml(p);
      && MatchedText(xml, "employeeNo", 0) == Some(EscapeXml(p.employeeNo))
      && MatchedText(xml, "name", 0) == Some(EscapeXml(p.name))
      && MatchedText(xml, "userType", 0) == Some("normal")
      && MatchedText(xml, "enable", 0) == Some(EnableText(p.valid.enable))
      && MatchedText(xml, "beginTime", 0) == Some(p.valid.beginTime)
      && MatchedText(xml, "endTime", 0) == Some(p.valid.endTime)
  {
    var texts := UserFieldTexts(p);
    FieldTextsHaveNoLt(p);
    UserXmlField(texts, 0, 0);
    UserXmlField(texts, 1, 0);
    UserXmlField(texts, 2, 0);
    UserXmlField(texts, 3, 0);
    UserXmlField(texts, 4, 0);
    UserXmlField(texts, 5, 0);
  }

  /** `buildOpenDoorXML()`, cut at its one element. */
  function OpenDoorXmlParts(): (parts: seq<string>)
    ensures |parts| == 3
  {
    [ BodyHead("RemoteControlDoor"),
      Element("cmd", "open"),
      "\n" + Close("RemoteControlDoor") ]
  }

  function BuildOpenDoorXml(): string
  {
    Concat(OpenDoorXmlParts())
  }

  /** A body whose root holds one element: that element's text is what is read back. */
  lemma SingleElementBody(root: string, tag: string, content: string)
    requires IsPlainTag(root) && IsPlainTag(tag) && root != tag && '<' !in content
    ensures MatchedText(Concat([BodyHead(root), Element(tag, content), "\n" + Close(root)]), tag, 0) == Some(content)
  {
    InertBodyHead(root, tag);
    MatchedTextOfPart([BodyHead(root), Element(tag, content), "\n" + Close(root)], 1, tag, content, 0);
  }

  lemma OpenDoorXmlMatch()
    ensures MatchedText(BuildOpenDoorXml(), "cmd", 0) == Some("open")
  {
    assert IsPlainTag("cmd") && IsPlainTag("RemoteControlDoor");
    SingleElementBody("RemoteControlDoor", "cmd", "open");
  }

  /** The door body's one command is `open`. */
  lemma OpenDoorXmlCommand()
    ensures ExtractXmlTag(BuildOpenDoorXml(), "cmd") == Some("open")
  {
    OpenDoorXmlMatch();
  }

  // ---------------------------------------------------------------- error triage

  /** `err.response.data`: a string, or something else (a parsed object, a buffer). */
  datatype ResponseBody = TextBody(text: string) | OtherBody

  /** The three shapes an axios failure takes. */
  datatype ClientFailure =
    | HasResponse(status: int, data: ResponseBody)   // the device replied with a rejected status
    | RequestOnly(code: Option<string>)              // sent, no reply (timeout, unreachable)
    | Neither(message: string)                       // failed before sending

  /** The error `normaliseError` returns: the message and the original failure. */
  datatype DeviceError = DeviceError(message: string, original: ClientFailure)

  function BodyText(data: ResponseBody): (r: string)
    ensures data.OtherBody? ==> r == ""
  {
    match data
    case TextBody(t) => t
    case OtherBody => ""
  }

  /**
   * `hikMsg` when it is truthy, for the body text `text`: the device's `statusString` when present
   * and non-blank, else its `subStatusCode`.
   */
  function VendorMessage(text: string): (r: Option<string>)
    ensures r.Some? ==> r.value != ""
    ensures Truthy(ExtractXmlTag(text, "statusString")) ==> r == ExtractXmlTag(text, "statusString")
    ensures !Truthy(ExtractXmlTag(text, "statusString")) ==>
      (r.Some? <==> Truthy(ExtractXmlTag(text, "subStatusCode")))
      && (r.Some? ==> r == ExtractXmlTag(text, "subStatusCode"))
  {
    var primary := ExtractXmlTag(text, "statusString");
    var hikMsg := if Truthy(primary) then primary else ExtractXmlTag(text, "subStatusCode");
    if Truthy(hikMsg) then hikMsg else None
  }

  /** A body that is not a string is read as "", which yields no vendor text. */
  lemma VendorMessageOfEmpty()
    ensures VendorMessage("") == None
  {
    assert ExtractXmlTag("", "statusString") == None;
    assert ExtractXmlTag("", "subStatusCode") == None;
  }

  function ErrorPrefix(context: string): string {
    "[Hikvision:" + context + "] "
  }

  const TimeoutText := "Request timed out. Is the device reachable?"

  /** `err.code || "network error"`. */
  function CodeText(code: Option<string>): (r: string)
    ensures Truthy(code) ==> r == code.value
    ensures !Truthy(code) ==> r == "network error"
  {
    if Truthy(code) then code.value else "network error"
  }

  /** What follows the prefix: the reply's status and vendor text, the no-reply reason, or the message. */
  function TriageText(err: ClientFailure): string {
    match err
    case HasResponse(status, data) =>
      var hikMsg := VendorMessage(BodyText(data));
      "HTTP " + IntToString(status) + (if hikMsg.Some? then " \U{2014} " + hikMsg.value else "")
    case RequestOnly(code) =>
      if code == Some("ECONNABORTED") then TimeoutText else "No response from device (" + CodeText(code) + ")"
    case Neither(message) => message
  }

  /** The message `normaliseError(context, err)` builds: it always starts with `[Hikvision:<context>] `. */
  function ErrorMessage(context: string, err: ClientFailure): (r: string)
    ensures StartsWith(r, ErrorPrefix(context))
    ensures err.Neither? ==> r == ErrorPrefix(context) + err.message
  {
    var r := ErrorPrefix(context) + TriageText(err);
    assert r[..|ErrorPrefix(context)|] == ErrorPrefix(context);
    r
  }

  /** `normaliseError(context, err)`: the message is built up one piece at a time, then the original is attached. */
  method NormaliseError(context: string, err: ClientFailure) returns (out: DeviceError)
    ensures out == DeviceError(ErrorMessage(context, err), err)
  {
    var message := ErrorPrefix(context);
    match err {
      case HasResponse(status, data) =>
        var hikMsg := VendorMessage(BodyText(data));
        AppendAssoc(message, "HTTP ", IntToString(status));
        message := message + "HTTP " + IntToString(status);
        if hikMsg.Some? {
          AppendAssoc(message, " \U{2014} ", hikMsg.value);
          AppendAssoc(ErrorPrefix(context), "HTTP " + IntToString(status), " \U{2014} " + hikMsg.value);
          message := message + " \U{2014} " + hikMsg.value;
        } else {
          assert "HTTP " + IntToString(status) + "" == "HTTP " + IntToString(status);
        }
      case RequestOnly(code) =>
        if code == Some("ECONNABORTED") {
          message := message + TimeoutText;
        } else {
          AppendAssoc(message, "No response from device (", CodeText(code));
          AppendAssoc(message, "No response from device (" + CodeText(code), ")");
          message := message + "No response from device (" + CodeText(code) + ")";
        }
      case Neither(m) =>
        message := message + m;
    }
    out := DeviceError(message, err);
  }

  lemma AppendAssoc(a: string, b: string, c: string)
    ensures a + b + c == a + (b + c)
  {
  }

  /** With a reply that yields no vendor text, the message is `HTTP <status>` alone. */
  lemma ResponseMessagePlain(context: string, status: int, data: ResponseBody)
    requires VendorMessage(BodyText(data)).None?
    ensures ErrorMessage(context, HasResponse(status, data)) == ErrorPrefix(context) + ("HTTP " + IntToString(status))
  {
    assert TriageText(HasResponse(status, data)) == "HTTP " + IntToString(status) + "";
  }

  /** With vendor text `v`, the message is `HTTP <status> — <v>`. */
  lemma ResponseMessageVendor(context: string, status: int, data: ResponseBody, v: string)
    requires VendorMessage(BodyText(data)) == Some(v)
    ensures ErrorMessage(context, HasResponse(status, data)) == ErrorPrefix(context) + ("HTTP " + IntToString(status) + (" \U{2014} " + v))
  {
  }

  /** A body that is not a string adds no vendor text. */
  lemma NonStringBodyMessage(context: string, status: int)
    ensures ErrorMessage(context, HasResponse(status, OtherBody)) == ErrorPrefix(context) + ("HTTP " + IntToString(status))
  {
    VendorMessageOfEmpty();
    ResponseMessagePlain(context, status, OtherBody);
  }

  /** A status document `…<statusString>text</statusString>…` contributes its trimmed text. */
  lemma StatusStringMessage(context: string, status: int, pre: string, text: string, post: string)
    requires Inert(pre, "statusString") && '<' !in text && Trim(text) != ""
    ensures ErrorMessage(context, HasResponse(status, TextBody(pre + Element("statusString", text) + post)))
      == ErrorPrefix(context) + ("HTTP " + IntToString(status) + (" \U{2014} " + Trim(text)))
  {
    assert IsPlainTag("statusString");
    var doc := pre + Element("statusString", text) + post;
    MatchedTextAfter(pre, "statusString", text, post, 0);
    assert ExtractXmlTag(doc, "statusString") == Some(Trim(text));
    assert VendorMessage(doc) == Some(Trim(text));
    ResponseMessageVendor(context, status, TextBody(doc), Trim(text));
  }

  /** Without a reply: the time-out text for `ECONNABORTED`, otherwise the code or `network error`. */
  lemma NoResponseMessage(context: string, code: Option<string>)
    ensures code == Some("ECONNABORTED") ==>
      ErrorMessage(context, RequestOnly(code)) == ErrorPrefix(context) + TimeoutText
    ensures code != Some("ECONNABORTED") ==>
      ErrorMessage(context, RequestOnly(code)) == ErrorPrefix(context) + ("No response from device (" + CodeText(code) + ")")
  {
  }

  // ---------------------------------------------------------------- client calls

  datatype Verb = Get | Post | Put | Delete

  /** What the axios instance sends: verb, full URL (base URL + path), body, credentials, time-out. */
  datatype Request = Request(verb: Verb, url: string, body: Option<string>, auth: Auth, timeoutMs: NumberValue)

  /** What came back over the wire. */
  datatype Reply =
    | Responded(status: int, data: ResponseBody)
    | NoReply(code: Option<string>)
    | NotSent(message: string)

  /** The four public calls of the client. */
  datatype ClientCall =
    | AddOrUpdateUser(payload: UserPayload)
    | DeleteUser(employeeNo: int)
    | OpenDoor(doorNo: Option<int>)
    | GetDeviceInfo

  datatype DeviceInfo = DeviceInfo(
    deviceName: Option<string>,
    serialNumber: Option<string>,
    firmwareVersion: Option<string>,
    deviceType: Option<string>,
    model: Option<string>)

  /** What a call resolves to; both shapes carry `success: true`. */
  datatype ClientResult = StatusResult(status: int) | InfoResult(info: DeviceInfo)

  datatype ClientOutcome = Returned(result: ClientResult) | Threw(error: DeviceError)

  /** `validateStatus`: 2xx and the 3xx codes the device uses count as success. */
  predicate ValidateStatus(status: int) {
    200 <= status < 400
  }

  /** How axios settles a reply: None when the promise resolves, the failure shape otherwise. */
  function Rejection(reply: Reply): (r: Option<ClientFailure>)
    ensures r.None? <==> reply.Responded? && ValidateStatus(reply.status)
    ensures reply.Responded? && !ValidateStatus(reply.status) ==> r == Some(HasResponse(reply.status, reply.data))
    ensures reply.NoReply? ==> r == Some(RequestOnly(reply.code))
    ensures reply.NotSent? ==> r == Some(Neither(reply.message))
  {
    match reply
    case Responded(status, data) => if ValidateStatus(status) then None else Some(HasResponse(status, data))
    case NoReply(code) => Some(RequestOnly(code))
    case NotSent(message) => Some(Neither(message))
  }

  const RecordPath := "/AccessControl/UserInfo/Record"
  const DoorPath := "/AccessControl/RemoteControl/door/"
  const DeviceInfoPath := "/System/deviceInfo"

  /**
   * `doorNo ?? cfg.doorNo ?? 1`. The configured door is always a number (NaN at worst, which is
   * not nullish), so the last fallback never applies.
   */
  function DoorOf(doorNo: Option<int>, cfg: Config): (door: NumberValue)
    ensures doorNo.Some? ==> door == Num(doorNo.value)
    ensures doorNo.None? ==> door == cfg.doorNo
  {
    match doorNo
    case Some(n) => Num(n)
    case None => cfg.doorNo
  }

  /** The request each call sends through a client made from `cfg`. */
  function RequestOf(call: ClientCall, cfg: Config): (req: Request)
    ensures req.auth == cfg.auth && req.timeoutMs == cfg.timeoutMs
    ensures StartsWith(req.url, cfg.baseURL)
  {
    var path := match call
      case AddOrUpdateUser(_) => RecordPath
      case DeleteUser(employeeNo) => RecordPath + "?employeeNo=" + IntToString(employeeNo)
      case OpenDoor(doorNo) => DoorPath + NumberToString(DoorOf(doorNo, cfg))
      case GetDeviceInfo => DeviceInfoPath;
    var verb := match call
      case AddOrUpdateUser(_) => Post
      case DeleteUser(_) => Delete
      case OpenDoor(_) => Put
      case GetDeviceInfo => Get;
    var body := match call
      case AddOrUpdateUser(payload) => Some(BuildUserXml(payload))
      case OpenDoor(_) => Some(BuildOpenDoorXml())
      case _ => None;
    assert (cfg.baseURL + path)[..|cfg.baseURL|] == cfg.baseURL;
    Request(verb, cfg.baseURL + path, body, cfg.auth, cfg.timeoutMs)
  }

  /** The label each call passes to `normaliseError`. */
  function ContextOf(call: ClientCall): string {
    match call
    case AddOrUpdateUser(_) => "addOrUpdateUser"
    case DeleteUser(_) => "deleteUser"
    case OpenDoor(_) => "openDoor"
    case GetDeviceInfo => "getDeviceInfo"
  }

  /** `getDeviceInfo`'s record: five tags read from a string body, all null for any other body. */
  function InfoOf(data: ResponseBody): (info: DeviceInfo)
    ensures data.OtherBody? ==> info == DeviceInfo(None, None, None, None, None)
  {
    var xml := BodyText(data);
    DeviceInfo(
      ExtractXmlTag(xml, "deviceName"),
      ExtractXmlTag(xml, "serialNumber"),
      ExtractXmlTag(xml, "firmwareVersion"),
      ExtractXmlTag(xml, "deviceType"),
      ExtractXmlTag(xml, "model"))
  }

  /**
   * One client call: the configuration is read afresh from `env`, the request goes over `wire`,
   * and a rejected request is rethrown as the normalised error.
   */
  function Perform(call: ClientCall, env: Env, wire: Request -> Reply): (o: ClientOutcome)
    ensures var reply := wire(RequestOf(call, GetConfig(env)));
      && (o.Threw? <==> !(reply.Responded? && ValidateStatus(reply.status)))
      && (o.Threw? ==> o.error == DeviceError(ErrorMessage(ContextOf(call), Rejection(reply).value), Rejection(reply).value))
      && (o.Returned? && !call.GetDeviceInfo? ==> o.result == StatusResult(reply.status))
      && (o.Returned? && call.GetDeviceInfo? ==> o.result == InfoResult(InfoOf(reply.data)))
  {
    var reply := wire(RequestOf(call, GetConfig(env)));
    match Rejection(reply)
    case Some(failure) => Threw(DeviceError(ErrorMessage(ContextOf(call), failure), failure))
    case None =>
      if call.GetDeviceInfo? then Returned(InfoResult(InfoOf(reply.data))) else Returned(StatusResult(reply.status))
  }

  /** `openDoor(doorNo)` puts the door body to `/AccessControl/RemoteControl/door/<door>`. */
  lemma OpenDoorRequest(doorNo: Option<int>, env: Env)
    ensures var cfg := GetConfig(env);
      RequestOf(OpenDoor(doorNo), cfg)
        == Request(Put, cfg.baseURL + DoorPath + NumberToString(DoorOf(doorNo, cfg)), Some(BuildOpenDoorXml()), cfg.auth, cfg.timeoutMs)
  {
  }

  /** With no door argument and no configured door, door 1 is opened. */
  lemma OpenDoorDefault(env: Env)
    requires !Truthy(EnvValue(env, "HIKVISION_DOOR_NO"))
    ensures RequestOf(OpenDoor(None), GetConfig(env)).url == GetConfig(env).baseURL + DoorPath + "1"
  {
    assert DoorOf(None, GetConfig(env)) == Num(1);
    assert NumberToString(Num(1)) == "1";
  }

  /** `deleteUser(id)` sends DELETE to the record path with the id as query; the decimal id needs no URI encoding. */
  lemma DeleteUserRequest(employeeNo: int, cfg: Config)
    ensures RequestOf(DeleteUser(employeeNo), cfg)
      == Request(Delete, cfg.baseURL + RecordPath + "?employeeNo=" + IntToString(employeeNo), None, cfg.auth, cfg.timeoutMs)
  {
  }

  /** `addOrUpdateUser(payload)` posts the `<UserInfo>` body to the record path. */
  lemma AddOrUpdateUserRequest(payload: UserPayload, cfg: Config)
    ensures RequestOf(AddOrUpdateUser(payload), cfg)
      == Request(Post, cfg.baseURL + RecordPath, Some(BuildUserXml(payload)), cfg.auth, cfg.timeoutMs)
  {
  }
}
