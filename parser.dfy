/**
 * The template parser: a context holding the unconsumed `source`, the text `mode` and the stack
 * of open elements (`ancestors`, the one array every call shares), and the scanners that read
 * from it.
 *
 * As written the parser never consumes a start tag. `parseTag` passes the matched text itself to
 * `advanceBy`, which slices at `Number("<div")`, that is at 0; the attribute loop then faces a
 * source that still starts with '<', which its name pattern does not accept, and it spins. Text
 * is never consumed either (`parseText` only reads), and `parseChildren` decides every pass from
 * a copy of the source taken on entry, so each pass repeats the first until the counter guard
 * stops the loop after 21 nodes.
 */
module Parser {
  import opened Ast
  import Tokenizer

  // ---------------------------------------------------------------------------------------
  // Character classes and scanning helpers

  const FormFeed: char := 12 as char

  /** `[\t\r\n\f ]` */
  predicate IsSpace(c: char)
  {
    c == '\t' || c == '\r' || c == '\n' || c == FormFeed || c == ' '
  }

  /** `[\t\r\n\f />]`: the characters that end a tag name and start an attribute name. */
  predicate IsTagNameStop(c: char)
  {
    IsSpace(c) || c == '/' || c == '>'
  }

  /** `[\t\r\n\f />=]`: the characters that end an attribute name. */
  predicate IsAttrNameStop(c: char)
  {
    IsTagNameStop(c) || c == '='
  }

  /** `[\t\r\n\f >]`: the characters that end an unquoted attribute value. */
  predicate IsValueStop(c: char)
  {
    IsSpace(c) || c == '>'
  }

  predicate NotSpace(c: char)
  {
    !IsSpace(c)
  }

  /** The character classes a scan stops at. */
  datatype Stop = TagNameStop | AttrNameStop | ValueStop | NonSpace

  predicate Stops(stop: Stop, c: char)
  {
    match stop
    case TagNameStop => IsTagNameStop(c)
    case AttrNameStop => IsAttrNameStop(c)
    case ValueStop => IsValueStop(c)
    case NonSpace => NotSpace(c)
  }

  /** The length of the longest prefix of `s` none of whose characters stops the scan. */
  function Span(s: string, stop: Stop): (k: nat)
    ensures k <= |s|
    ensures forall i :: 0 <= i < k ==> !Stops(stop, s[i])
    ensures k == |s| || Stops(stop, s[k])
    decreases |s|
  {
    if s == [] || Stops(stop, s[0]) then 0 else 1 + Span(s[1..], stop)
  }

  predicate StartsWith(s: string, p: string)
  {
    |p| <= |s| && s[..|p|] == p
  }

  /** `s.slice(n)` for a non-negative `n`. */
  function Drop(s: string, n: nat): (t: string)
    ensures n <= |s| ==> t == s[n..]
    ensures n > |s| ==> t == []
  {
    if n <= |s| then s[n..] else []
  }

  /** What `advanceSpaces` leaves: the source without its leading `[\t\r\n\f ]+`. */
  function SkipSpaces(s: string): (t: string)
    ensures |t| <= |s| && t == s[|s| - |t|..]
    ensures t == [] || !IsSpace(t[0])
    ensures forall i :: 0 <= i < |s| - |t| ==> IsSpace(s[i])
  {
    s[Span(s, NonSpace)..]
  }

  /** `s.indexOf(c)`: the first position of `c`, or -1. */
  function IndexOf(s: string, c: char): (i: int)
    ensures -1 <= i < |s|
    ensures i == -1 <==> c !in s
    ensures i >= 0 ==> s[i] == c && c !in s[..i]
    decreases |s|
  {
    if s == [] then -1
    else if s[0] == c then 0
    else
      var j := IndexOf(s[1..], c);
      assert s[1..][..if j >= 0 then j else 0] == s[1..if j >= 0 then j + 1 else 1];
      if j == -1 then -1 else j + 1
  }

  /** A "{{" starts at position i. */
  predicate OpensInterpolation(s: string, i: int)
  {
    0 <= i && i + 1 < |s| && s[i] == '{' && s[i + 1] == '{'
  }

  /** `s.indexOf('{{')`. */
  function IndexOfOpen(s: string, from: nat): (i: int)
    requires from <= |s|
    ensures i == -1 || (from <= i < |s| && OpensInterpolation(s, i))
    ensures forall j :: from <= j < (if i == -1 then |s| else i) ==> !OpensInterpolation(s, j)
    decreases |s| - from
  {
    if from + 1 >= |s| then -1
    else if OpensInterpolation(s, from) then from
    else IndexOfOpen(s, from + 1)
  }

  // ---------------------------------------------------------------------------------------
  // parseText

  /** `parseText(context)`: the text up to the first '<' or the first "{{", whichever comes
      first, or the whole source. The source is only read. */
  function ParseText(source: string): (content: string)
    ensures |content| <= |source| && content == source[..|content|]
    ensures forall i :: 0 <= i < |content| ==> source[i] != '<' && !OpensInterpolation(source, i)
    ensures |content| == |source| || source[|content|] == '<' || OpensInterpolation(source, |content|)
  {
    var endIndex := |source|;
    var ltIndex := IndexOf(source, '<');
    var delimiterIndex := IndexOfOpen(source, 0);
    var endIndex := if ltIndex > -1 && ltIndex < endIndex then ltIndex else endIndex;
    var endIndex := if delimiterIndex > -1 && delimiterIndex < endIndex then delimiterIndex else endIndex;
    assert forall i :: 0 <= i < endIndex ==> source[i] != '<' by {
      if ltIndex > -1 {
        assert forall i :: 0 <= i < ltIndex ==> source[..ltIndex][i] == source[i];
      }
    }
    source[..endIndex]
  }

  /** The node `parseText` returns. */
  function TextNode(source: string): AstNode
  {
    Text(ParseText(source), Undefined)
  }

  // ---------------------------------------------------------------------------------------
  // Tag and attribute patterns

  /** `/^<([a-z][^\t\r\n\f />]*)/i` (a start tag) or `/^<\/([a-z][^\t\r\n\f />]*)/i` (an end
      tag): the captured tag name. */
  function MatchTag(source: string, start: bool): (name: Option<string>)
    ensures name.Some? ==> name.value != [] && Tokenizer.IsAlpha(name.value[0])
    ensures name.Some? ==> forall i :: 0 <= i < |name.value| ==> !IsTagNameStop(name.value[i])
    ensures name.Some? ==> StartsWith(source, (if start then "<" else "</") + name.value)
  {
    var open := if start then 1 else 2;
    if |source| > open && source[0] == '<' && (start || source[1] == '/') && Tokenizer.IsAlpha(source[open]) then
      var rest := source[open + 1..];
      var k := Span(rest, TagNameStop);
      var name := source[open..open + 1 + k];
      assert forall i :: 1 <= i < |name| ==> name[i] == rest[i - 1];
      assert source[..open + |name|] == source[..open] + name;
      Some(name)
    else None
  }

  /** A tag name never holds a space. */
  lemma TagNameHasNoSpace(source: string, start: bool)
    requires MatchTag(source, start).Some?
    ensures ' ' !in MatchTag(source, start).value
  {
    var name := MatchTag(source, start).value;
    assert forall i :: 0 <= i < |name| ==> name[i] != ' ';
  }

  /** The attribute-name pattern `^[\t\r\n\f />][^\t\r\n\f />=]*`: the length of the name, 0 when it fails. */
  function AttrNameLength(s: string): (k: nat)
    ensures k <= |s|
    ensures k > 0 <==> s != [] && IsTagNameStop(s[0])
    ensures forall i :: 1 <= i < k ==> !IsAttrNameStop(s[i])
  {
    if s != [] && IsTagNameStop(s[0]) then
      var k := Span(s[1..], AttrNameStop);
      assert forall i :: 1 <= i < 1 + k ==> s[i] == s[1..][i - 1];
      1 + k
    else 0
  }

  /** The value after `name =`: quoted (up to the next identical quote, both quotes consumed; an
      unclosed quote gives "" and consumes only the opening quote) or a maximal run without
      whitespace or '>' (or "" when there is none). Returns the value and what is left. */
  function ReadValue(s: string): (r: (string, string))
    ensures |r.1| <= |s| && r.1 == s[|s| - |r.1|..]
  {
    if s != [] && (s[0] == '"' || s[0] == '\'') then
      var t := s[1..];
      var endQuote := IndexOf(t, s[0]);
      if endQuote > -1 then (t[..endQuote], t[endQuote + 1..]) else ("", t)
    else
      var run := Span(s, ValueStop);
      if run > 0 then (s[..run], s[run..]) else ("", s)
  }

  /** One matched pass of the attribute loop: the attribute it pushes and what is left. */
  function AttributeStep(s: string): (r: Option<(Attribute, string)>)
    ensures r.None? <==> AttrNameLength(s) == 0
    ensures r.Some? ==> |r.value.1| < |s|
    ensures r.Some? ==> r.value.0.name == s[..AttrNameLength(s)] && ValidAttrName(r.value.0.name)
  {
    var k := AttrNameLength(s);
    if k == 0 then None
    else
      var name := s[..k];
      assert forall i :: 0 <= i < k ==> name[i] == s[i];
      var s1 := SkipSpaces(s[k..]);
      var s2 := SkipSpaces(Drop(s1, 1));
      var (value, s3) := ReadValue(s2);
      Some((Attribute(name, value), SkipSpaces(s3)))
  }

  /** `startsWith('>') || startsWith('/>')`: the end of a tag's attributes. */
  predicate AtTagEnd(s: string)
  {
    (|s| >= 1 && s[0] == '>') || (|s| >= 2 && s[0] == '/' && s[1] == '>')
  }

  /** `AttributeStep` unfolded: what the loop body consumes and collects. */
  lemma AttributeStepIs(s: string, valueStart: string, afterValue: string)
    requires AttrNameLength(s) > 0
    requires valueStart == SkipSpaces(Drop(SkipSpaces(Drop(s, AttrNameLength(s))), 1))
    requires afterValue == ReadValue(valueStart).1
    ensures AttributeStep(s) == Some((Attribute(s[..AttrNameLength(s)], ReadValue(valueStart).0), SkipSpaces(afterValue)))
  {
  }

  datatype AttrScan = Attrs(props: seq<Attribute>, rest: string) | NoProgress

  /** The attribute loop: it stops at '>' or "/>"; a pass whose name pattern fails consumes
      nothing, so the loop never ends. */
  function ScanAttributes(s: string): (r: AttrScan)
    ensures r.Attrs? ==> AtTagEnd(r.rest)
    decreases |s|
  {
    if AtTagEnd(s) then Attrs([], s)
    else
      var step := AttributeStep(s);
      if step.None? then NoProgress
      else
        var r := ScanAttributes(step.value.1);
        if r.NoProgress? then NoProgress else Attrs([step.value.0] + r.props, r.rest)
  }

  /** The scan of a source with `props` already collected in front. */
  function Prepend(props: seq<Attribute>, r: AttrScan): (r': AttrScan)
    ensures r'.NoProgress? <==> r.NoProgress?
  {
    if r.NoProgress? then NoProgress else Attrs(props + r.props, r.rest)
  }

  lemma PrependNothing(r: AttrScan)
    ensures Prepend([], r) == r
  {
    if r.Attrs? {
      assert [] + r.props == r.props;
    }
  }

  lemma PrependPrepend(p: seq<Attribute>, q: seq<Attribute>, r: AttrScan)
    ensures Prepend(p, Prepend(q, r)) == Prepend(p + q, r)
  {
    if r.Attrs? {
      assert p + (q + r.props) == (p + q) + r.props;
    }
  }

  /** One pass of the attribute loop. */
  lemma ScanStep(s: string)
    requires !AtTagEnd(s) && AttributeStep(s).Some?
    ensures ScanAttributes(s) == Prepend([AttributeStep(s).value.0], ScanAttributes(AttributeStep(s).value.1))
  {
  }

  /** The shape the attribute-name pattern gives a name. */
  predicate ValidAttrName(name: string)
  {
    name != [] && IsTagNameStop(name[0]) && forall i :: 1 <= i < |name| ==> !IsAttrNameStop(name[i])
  }

  /** Every attribute name starts with the separator the pattern begins with, and holds no
      other separator or '='. */
  lemma {:induction false} AttributeNames(s: string)
    requires ScanAttributes(s).Attrs?
    ensures forall a :: a in ScanAttributes(s).props ==> ValidAttrName(a.name)
    decreases |s|
  {
    if !(AtTagEnd(s)) {
      var step := AttributeStep(s).value;
      ScanStep(s);
      AttributeNames(step.1);
    }
  }

  /** A source starting with '<' (as `parseTag` leaves it) makes the attribute loop spin. */
  lemma AngleNeverConsumed(s: string)
    requires s != [] && s[0] == '<'
    ensures ScanAttributes(s) == NoProgress
  {
    assert !AtTagEnd(s);
    assert AttrNameLength(s) == 0;
    assert AttributeStep(s).None?;
  }

  /** The attribute scan `parseTag` starts after a matched tag, as written: `advanceBy` gets the
      matched text, `slice` of its number (NaN) is `slice(0)`, so the scan starts on the '<'
      and never makes progress. */
  function TagScanAsWritten(source: string, start: bool): (r: AttrScan)
    requires MatchTag(source, start).Some?
    ensures r == NoProgress
  {
    assert source[0] == ((if start then "<" else "</") + MatchTag(source, start).value)[0];
    assert SkipSpaces(source) == source by { assert Span(source, NonSpace) == 0; }
    AngleNeverConsumed(source);
    ScanAttributes(SkipSpaces(Drop(source, 0)))
  }

  /** The same scan when `advanceBy` is given the length of the matched text: it starts right
      after the tag name. */
  function TagScanIntended(source: string, start: bool): (r: AttrScan)
    requires MatchTag(source, start).Some?
    ensures r.Attrs? ==> AtTagEnd(r.rest)
  {
    ScanAttributes(SkipSpaces(Drop(source, (if start then 1 else 2) + |MatchTag(source, start).value|)))
  }

  /** With the length passed, a tag name followed by '>' reaches the end of the tag at once,
      with no attributes. */
  lemma IntendedTagScanReachesEnd(source: string, start: bool)
    requires MatchTag(source, start).Some?
    requires var n := (if start then 1 else 2) + |MatchTag(source, start).value|; n < |source| && source[n] == '>'
    ensures var n := (if start then 1 else 2) + |MatchTag(source, start).value|;
            TagScanIntended(source, start) == Attrs([], source[n..])
  {
    var n := (if start then 1 else 2) + |MatchTag(source, start).value|;
    assert Drop(source, n) == source[n..];
    assert SkipSpaces(source[n..]) == source[n..] by { assert Span(source[n..], NonSpace) == 0; }
  }

  /** `<p>Vue</p>`: as written the scan after `<p` spins; with the length it stops at `>`. */
  lemma ParagraphTagScan()
    ensures MatchTag("<p>Vue</p>", true) == Some("p")
    ensures TagScanAsWritten("<p>Vue</p>", true) == NoProgress
    ensures TagScanIntended("<p>Vue</p>", true) == Attrs([], ">Vue</p>")
  {
    var src := "<p>Vue</p>";
    assert Tokenizer.IsAlpha(src[1]);
    assert src[2..] == ">Vue</p>";
    assert Span(">Vue</p>", TagNameStop) == 0;
    assert src[1..2] == "p";
    assert MatchTag(src, true) == Some("p");
    IntendedTagScanReachesEnd("<p>Vue</p>", true);
  }

  lemma NameLength(name: string, tail: string)
    requires ValidAttrName(name) && tail != [] && IsAttrNameStop(tail[0])
    ensures AttrNameLength(name + tail) == |name|
  {
    var s := name + tail;
    var t := s[1..];
    assert forall i :: 0 <= i < |name| - 1 ==> t[i] == name[i + 1];
    assert t[|name| - 1] == tail[0];
    SpanIs(t, AttrNameStop, |name| - 1);
  }

  lemma NoLeadingSpace(s: string)
    requires s == [] || !IsSpace(s[0])
    ensures SkipSpaces(s) == s
  {
    SpanIs(s, NonSpace, 0);
  }

  /** After a name and an '=' with no whitespace around it, the value is read from what
      follows. */
  lemma StepAfterName(name: string, q: string)
    requires ValidAttrName(name) && (q == [] || !IsSpace(q[0]))
    ensures AttributeStep(name + "=" + q) == Some((Attribute(name, ReadValue(q).0), SkipSpaces(ReadValue(q).1)))
  {
    var s := name + "=" + q;
    assert s == name + ("=" + q);
    NameLength(name, "=" + q);
    assert s[..|name|] == name;
    var s1 := s[|name|..];
    assert s1 == "=" + q;
    NoLeadingSpace(s1);
    assert Drop(s1, 1) == q;
    NoLeadingSpace(q);
  }

  /** `IndexOf` is determined by the first occurrence. */
  lemma IndexOfIs(s: string, c: char, k: nat)
    requires k < |s| && s[k] == c && forall i :: 0 <= i < k ==> s[i] != c
    ensures IndexOf(s, c) == k
  {
    if k > 0 {
      IndexOfIs(s[1..], c, k - 1);
    }
  }

  lemma ReadQuoted(value: string, rest: string)
    requires '"' !in value
    ensures ReadValue("\"" + value + "\"" + rest) == (value, rest)
  {
    var q := "\"" + value + "\"" + rest;
    var tail := value + ("\"" + rest);
    assert q[1..] == tail;
    IndexOfIs(tail, '"', |value|);
    assert tail[..|value|] == value;
    assert tail[|value|..] == "\"" + rest;
    assert tail[|value| + 1..] == tail[|value|..][1..];
  }

  lemma ReadUnquoted(value: string, rest: string)
    requires value != [] && value[0] != '"' && value[0] != '\'' && forall i :: 0 <= i < |value| ==> !IsValueStop(value[i])
    requires rest == [] || rest[0] == '>'
    ensures ReadValue(value + rest) == (value, rest)
  {
    var q := value + rest;
    assert forall i :: 0 <= i < |value| ==> q[i] == value[i];
    SpanIs(q, ValueStop, |value|);
    assert q[..|value|] == value && q[|value|..] == rest;
  }

  /** A double-quoted value is read up to the next double quote, and both quotes are consumed. */
  lemma QuotedValue(name: string, value: string, rest: string)
    requires ValidAttrName(name) && '"' !in value
    requires rest == [] || !IsSpace(rest[0])
    ensures AttributeStep(name + "=" + ("\"" + value + "\"" + rest)) == Some((Attribute(name, value), rest))
  {
    var q := "\"" + value + "\"" + rest;
    assert ReadValue(q) == (value, rest) by { ReadQuoted(value, rest); }
    assert SkipSpaces(rest) == rest by { NoLeadingSpace(rest); }
    StepAfterName(name, q);
  }

  /** An unquoted value is the maximal run without whitespace and '>'. */
  lemma UnquotedValue(name: string, value: string, rest: string)
    requires ValidAttrName(name)
    requires value != [] && value[0] != '"' && value[0] != '\'' && forall i :: 0 <= i < |value| ==> !IsValueStop(value[i])
    requires rest == [] || rest[0] == '>'
    ensures AttributeStep(name + "=" + (value + rest)) == Some((Attribute(name, value), rest))
  {
    var q := value + rest;
    assert q == [] || !IsSpace(q[0]);
    assert ReadValue(q) == (value, rest) by { ReadUnquoted(value, rest); }
    assert SkipSpaces(rest) == rest by { NoLeadingSpace(rest); }
    StepAfterName(name, q);
  }

  /** `Span` is determined by where the first stopping character is. */
  lemma SpanIs(s: string, stop: Stop, k: nat)
    requires k <= |s| && (forall i :: 0 <= i < k ==> !Stops(stop, s[i])) && (k == |s| || Stops(stop, s[k]))
    ensures Span(s, stop) == k
  {
    if k > 0 {
      SpanIs(s[1..], stop, k - 1);
    }
  }

  // ---------------------------------------------------------------------------------------
  // Text modes and the end test

  /** `/style | xmp | iframe | noembed | noframes | noscipt/`: a search for any of these
      alternatives, each of which includes a space. */
  predicate Contains(s: string, w: string)
    decreases |s|
  {
    StartsWith(s, w) || (s != [] && Contains(s[1..], w))
  }

  predicate RawTextPattern(tag: string)
  {
    Contains(tag, "style ") || Contains(tag, " xmp ") || Contains(tag, " iframe ")
    || Contains(tag, " noembed ") || Contains(tag, " noframes ") || Contains(tag, " noscipt")
  }

  lemma ContainsSpace(s: string, w: string, j: nat)
    requires Contains(s, w) && j < |w| && w[j] == ' '
    ensures ' ' in s
    decreases |s|
  {
    if StartsWith(s, w) {
      assert s[j] == s[..|w|][j];
    } else {
      ContainsSpace(s[1..], w, j);
    }
  }

  /** Each alternative of the pattern holds a space. */
  lemma RawTextHasSpace(tag: string)
    requires RawTextPattern(tag)
    ensures ' ' in tag
  {
    if Contains(tag, "style ") { ContainsSpace(tag, "style ", 5); }
    else if Contains(tag, " xmp ") { ContainsSpace(tag, " xmp ", 0); }
    else if Contains(tag, " iframe ") { ContainsSpace(tag, " iframe ", 0); }
    else if Contains(tag, " noembed ") { ContainsSpace(tag, " noembed ", 0); }
    else if Contains(tag, " noframes ") { ContainsSpace(tag, " noframes ", 0); }
    else { ContainsSpace(tag, " noscipt", 0); }
  }

  /** The mode `parseElement` switches to for a tag. */
  function ModeForTag(tag: string): (m: TextMode)
    ensures m == RCDATA <==> tag == "textarea" || tag == "title"
    ensures m == RAWTEXT ==> ' ' in tag
  {
    if tag == "textarea" || tag == "title" then RCDATA
    else if RawTextPattern(tag) then
      RawTextHasSpace(tag);
      RAWTEXT
    else DATA
  }

  /** A tag name `parseTag` can capture never selects RAWTEXT: `style` and the others get DATA. */
  lemma RawTextNeverSelected(source: string)
    requires MatchTag(source, true).Some?
    ensures ModeForTag(MatchTag(source, true).value) != RAWTEXT
  {
    TagNameHasNoSpace(source, true);
  }

  /** `isEnd(ctx, ancestors)`: the source is used up, or it starts with "</" and the tag of the
      innermost open element. */
  predicate IsEnd(source: string, ancestors: seq<AstNode>)
  {
    source == [] || (ancestors != [] && ancestors[|ancestors| - 1].Element? && StartsWith(source, "</" + ancestors[|ancestors| - 1].tag))
  }

  /** `isEnd` stops on an empty source; at the top level (no open element) nothing else stops
      it; inside an element it stops on that element's closing tag, and never on text or on a
      start tag. */
  lemma IsEndCases(source: string, ancestors: seq<AstNode>)
    ensures source == [] ==> IsEnd(source, ancestors)
    ensures source != [] && ancestors == [] ==> !IsEnd(source, ancestors)
    ensures source != [] && source[0] != '<' ==> !IsEnd(source, ancestors)
    ensures |source| >= 2 && source[1] != '/' ==> !IsEnd(source, ancestors)
    ensures (ancestors != [] && ancestors[|ancestors| - 1].Element?
             && StartsWith(source, "</" + ancestors[|ancestors| - 1].tag)) ==> IsEnd(source, ancestors)
  {
    if source != [] && ancestors != [] && ancestors[|ancestors| - 1].Element? {
      var w := "</" + ancestors[|ancestors| - 1].tag;
      if StartsWith(source, w) {
        assert source[0] == w[0] == '<';
        assert |source| >= 2 ==> source[1] == w[1] == '/';
      }
    }
  }

  // ---------------------------------------------------------------------------------------
  // What every pass of parseChildren does

  /** The decision a pass of `parseChildren` takes. All of it depends only on the copy of the
      source taken on entry and on the mode, so every pass takes the same one. */
  datatype PassKind = SkipPass | PushPass | ElementPass

  function PassOf(source: string, mode: TextMode): PassKind
  {
    if mode == DATA || mode == RCDATA then
      if mode == DATA && source != [] && source[0] == '<' then
        if |source| > 1 && source[1] == '!' then PushPass
        // `/[a-z]/i.test(source[1])`; a missing character is matched as the text "undefined"
        else if |source| == 1 || Tokenizer.IsAlpha(source[1]) then ElementPass
        else PushPass
      else if |source| > 1 && source[1] == '/' then SkipPass
      else PushPass
    else PushPass
  }

  /** `n` copies of a node. */
  function Repeat(node: AstNode, n: nat): (r: seq<AstNode>)
    ensures |r| == n && forall i :: 0 <= i < n ==> r[i] == node
  {
    if n == 0 then [] else Repeat(node, n - 1) + [node]
  }

  /** What `parseChildren` returns: nothing at an end; otherwise 21 copies of the text node when
      passes push, none when they skip, and the outcome of `parseElement` when they parse an
      element. */
  function ChildrenSpec(source: string, mode: TextMode, ancestors: seq<AstNode>): (r: Outcome<seq<AstNode>>)
    ensures r.Done? ==> |r.value| <= 21 && forall n :: n in r.value ==> n == TextNode(source)
  {
    if IsEnd(source, ancestors) then Done([])
    else match PassOf(source, mode)
      case SkipPass => Done([])
      case PushPass => Done(Repeat(TextNode(source), 21))
      case ElementPass => if MatchTag(source, true).Some? then Diverges else Throws
  }

  // ---------------------------------------------------------------------------------------
  // The parser context

  class ParseContext {
    var source: string
    var mode: TextMode
    var ancestors: seq<AstNode>

    /** The context `parse` sets up, with the empty ancestor stack it passes along. */
    constructor (templateStr: string)
      ensures source == templateStr && mode == DATA && ancestors == []
    {
      source, mode, ancestors := templateStr, DATA, [];
    }

    /** `advanceBy(num)`: `source.slice(num)`. */
    method AdvanceBy(num: nat)
      modifies this
      ensures source == Drop(old(source), num)
      ensures mode == old(mode) && ancestors == old(ancestors)
    {
      source := Drop(source, num);
    }

    /** `advanceSpaces()`. */
    method AdvanceSpaces()
      modifies this
      ensures source == SkipSpaces(old(source))
      ensures mode == old(mode) && ancestors == old(ancestors)
    {
      source := SkipSpaces(source);
    }

    /** The value part of one attribute in `parseAttributes`: quoted or not, with an unclosed
        quote or an empty unquoted run read as "". */
    method ParseAttributeValue() returns (value: string)
      modifies this
      ensures (value, source) == ReadValue(old(source))
      ensures mode == old(mode) && ancestors == old(ancestors)
    {
      if source != [] && (source[0] == '"' || source[0] == '\'') {
        value := ParseQuotedValue();
      } else {
        var run := Span(source, ValueStop);
        value := "";
        if run > 0 {
          value := source[..run];
          AdvanceBy(|value|);
        }
      }
    }

    /** A quoted value: up to the matching quote, which is consumed too; with no matching quote
        only the opening quote is consumed and the value is "". */
    method ParseQuotedValue() returns (value: string)
      requires source != [] && (source[0] == '"' || source[0] == '\'')
      modifies this
      ensures (value, source) == ReadValue(old(source))
      ensures mode == old(mode) && ancestors == old(ancestors)
    {
      ghost var t := source[1..];
      var quote := source[0];
      AdvanceBy(1);
      var endQuoteIndex := IndexOf(source, quote);
      value := "";
      if endQuoteIndex > -1 {
        value := source[..endQuoteIndex];
        AdvanceBy(|value|);
        AdvanceBy(1);
        assert source == t[endQuoteIndex + 1..];
      }
    }


    /** `parseAttributes(context)`. */
    method ParseAttributes() returns (r: Outcome<seq<Attribute>>)
      modifies this
      ensures ScanAttributes(old(source)).NoProgress? <==> r.Diverges?
      ensures ScanAttributes(old(source)).Attrs? ==>
                r == Done(ScanAttributes(old(source)).props) && source == ScanAttributes(old(source)).rest
      ensures mode == old(mode) && ancestors == old(ancestors)
    {
      var props: seq<Attribute> := [];
      PrependNothing(ScanAttributes(source));
      while !AtTagEnd(source)
        invariant ScanAttributes(old(source)) == Prepend(props, ScanAttributes(source))
        invariant mode == old(mode) && ancestors == old(ancestors)
        decreases |source|
      {
        ghost var before := source;
        var k := AttrNameLength(source);
        if k == 0 {
          // The name pattern fails and nothing is consumed: the loop repeats forever.
          return Diverges;
        }
        var name := source[..k];
        AdvanceBy(|name|);
        AdvanceSpaces();
        AdvanceBy(1);
        AdvanceSpaces();
        ghost var valueStart := source;
        var value := ParseAttributeValue();
        ghost var afterValue := source;
        AdvanceSpaces();
        AttributeStepIs(before, valueStart, afterValue);
        ScanStep(before);
        PrependPrepend(props, [Attribute(name, value)], ScanAttributes(source));
        props := props + [Attribute(name, value)];
      }
      assert ScanAttributes(source) == Attrs([], source);
      assert props + [] == props;
      return Done(props);
    }

    /** `parseTag(context, type)`. A match leaves the source as it was (the matched text, not
        its length, is passed to `advanceBy`), so the attribute loop never ends; without a match
        the result is undefined. */
    method ParseTag(start: bool) returns (r: Outcome<Option<AstNode>>)
      modifies this
      ensures MatchTag(old(source), start).None? ==> r == Done(None) && source == old(source)
      ensures MatchTag(old(source), start).Some? ==> r == Diverges
      ensures mode == old(mode) && ancestors == old(ancestors)
    {
      var m := MatchTag(source, start);
      if m.None? {
        return Done(None);
      }
      // advanceBy(match[0]): slice(Number(match[0])) is slice(NaN), which is slice(0).
      AdvanceBy(0);
      AdvanceSpaces();
      AngleNeverConsumed(source);
      var props := ParseAttributes();
      assert props.Diverges?;
      return Diverges;
    }

    /** `parseElement(context, ancestors)` as written: `parseTag` either spins or returns
        undefined, whose `isSelfClosing` read throws. */
    method ParseElement() returns (r: Outcome<AstNode>)
      modifies this
      ensures r == if MatchTag(old(source), true).Some? then Diverges else Throws
      ensures r.Throws? ==> source == old(source)
      ensures mode == old(mode) && ancestors == old(ancestors)
    {
      var element := ParseTag(true);
      if element.Diverges? {
        return Diverges;
      }
      return Throws;
    }

    /** The rest of `parseElement`, from the self-closing test on, for an element as `parseTag`
        would return it: switch the mode, parse the children with the element pushed on the
        ancestors, pop it, and consume the matching end tag. */
    method ElementBody(tag: string, props: seq<Attribute>, isSelfClosing: bool) returns (r: Outcome<AstNode>)
      modifies this
      ensures isSelfClosing ==> r == Done(Element(tag, props, [], true, Undefined))
      ensures isSelfClosing ==> source == old(source) && mode == old(mode) && ancestors == old(ancestors)
      ensures !isSelfClosing ==> mode == ModeForTag(tag)
      ensures r.Done? ==> ancestors == old(ancestors)
      ensures !isSelfClosing && r.Done? ==>
                var children := ChildrenSpec(old(source), ModeForTag(tag), old(ancestors) + [Element(tag, props, [], false, Undefined)]);
                children.Done? && r.value == Element(tag, props, children.value, false, Undefined)
      ensures !isSelfClosing ==>
                var children := ChildrenSpec(old(source), ModeForTag(tag), old(ancestors) + [Element(tag, props, [], false, Undefined)]);
                && (children.Throws? ==> r.Throws?)
                && (children.Diverges? ==> r.Diverges?)
                && (children.Done? ==> (r.Diverges? <==> StartsWith(old(source), "</" + tag) && MatchTag(old(source), false).Some?))
                && (children.Done? ==> !r.Throws?)
    {
      if isSelfClosing {
        return Done(Element(tag, props, [], true, Undefined));
      }
      mode := ModeForTag(tag);
      ancestors := ancestors + [Element(tag, props, [], false, Undefined)];
      var children := ParseChildren();
      if children.Throws? {
        return Throws;
      } else if children.Diverges? {
        return Diverges;
      }
      ancestors := ancestors[..|ancestors| - 1];
      var element := Element(tag, props, children.value, false, Undefined);
      if StartsWith(source, "</" + tag) {
        var end := ParseTag(false);
        if end.Diverges? {
          return Diverges;
        }
      }
      return Done(element);
    }

    /** `parseChildren(ctx, ancestors)`. */
    method ParseChildren() returns (r: Outcome<seq<AstNode>>)
      modifies this
      ensures r == ChildrenSpec(old(source), old(mode), old(ancestors))
      ensures r.Done? ==> source == old(source) && ancestors == old(ancestors)
      ensures mode == old(mode)
    {
      var nodes: seq<AstNode> := [];
      var mode, source := this.mode, this.source;
      var count := 0;
      while !IsEnd(this.source, ancestors)
        invariant this.source == source && this.mode == mode && ancestors == old(ancestors)
        invariant 0 <= count <= 21
        invariant count > 0 ==> !IsEnd(source, ancestors)
        invariant PassOf(source, mode).ElementPass? ==> count == 0
        invariant nodes == if PassOf(source, mode).PushPass? then Repeat(TextNode(source), count) else []
        decreases 22 - count
      {
        var c := count;
        count := count + 1;
        if c > 20 {
          break;
        }
        var node: Option<AstNode> := None;
        if mode == DATA || mode == RCDATA {
          if mode == DATA && source != [] && source[0] == '<' {
            if |source| > 1 && source[1] == '!' {
              // A comment or CDATA section: the parsers for both are empty stubs.
            } else if |source| == 1 || Tokenizer.IsAlpha(source[1]) {
              var element := ParseElement();
              return if element.Throws? then Throws else Diverges;
            } else {
              // An invalid tag opening: an error is logged.
            }
          } else if |source| > 1 && source[1] == '/' {
            // A stray end tag: an error is logged and the pass pushes nothing.
            continue;
          } else if OpensInterpolation(source, 0) {
            // An interpolation: its parser is an empty stub.
          } else if Tokenizer.IsAlpha(this.source[0]) {
            node := Some(TextNode(this.source));
          }
        }
        if node.None? {
          node := Some(TextNode(this.source));
        }
        nodes := nodes + [node.value];
      }
      return Done(nodes);
    }
  }

  /** `parse(templateStr)`: the children of a fresh context, under a Root node. */
  method Parse(templateStr: string) returns (r: Outcome<AstNode>)
    ensures r == match ChildrenSpec(templateStr, DATA, [])
                 case Done(nodes) => Done(Root(nodes, Undefined))
                 case Throws => Throws
                 case Diverges => Diverges
  {
    var ctx := new ParseContext(templateStr);
    var nodes := ctx.ParseChildren();
    r := match nodes
         case Done(ns) => Done(Root(ns, Undefined))
         case Throws => Throws
         case Diverges => Diverges;
  }

  // ---------------------------------------------------------------------------------------
  // What parse does with small templates

  /** Any template starting with a start tag makes the parser spin. */
  lemma StartTagNeverParsed(source: string, ancestors: seq<AstNode>)
    requires |source| >= 2 && source[0] == '<' && Tokenizer.IsAlpha(source[1]) && !IsEnd(source, ancestors)
    ensures ChildrenSpec(source, DATA, ancestors) == Diverges
  {
  }

  /** `parse("<p>Vue</p>")` never returns. */
  lemma ParagraphNeverParsed()
    ensures ChildrenSpec("<p>Vue</p>", DATA, []) == Diverges
  {
    StartTagNeverParsed("<p>Vue</p>", []);
  }

  /** `parse("Vue")` gives a Root with 21 copies of the text node "Vue". */
  lemma TextRepeated()
    ensures ChildrenSpec("Vue", DATA, []) == Done(Repeat(Text("Vue", Undefined), 21))
  {
    assert ParseText("Vue") == "Vue";
  }

  /** `parse("<")` throws: the missing second character passes the letter test as "undefined",
      and `parseTag` then returns undefined. */
  lemma LoneAngleThrows()
    ensures ChildrenSpec("<", DATA, []) == Throws
  {
  }

  /** A template whose second character is '/' (and whose first is not '<') gives no nodes: every
      pass is skipped. */
  lemma SlashSkipped()
    ensures ChildrenSpec("a/b", DATA, []) == Done([])
  {
  }
}
