/**
 * `tokenize(str)`: the character state machine that cuts a template into tag, text and end-tag
 * tokens. Each pass of its loop looks at the first character: an accepted character is consumed
 * (and may emit a token and empty the `chars` buffer); a character the current state does not
 * accept is left in place with every variable unchanged, so the loop repeats that pass forever.
 * The model returns `Diverges` at that point. Characters still buffered when the input runs out
 * are dropped.
 */
module Tokenizer {

  /** The ASCII letters, lower case then upper case. */
  const Letters: string := seq(26, i requires 0 <= i < 26 => ('a' as int + i) as char) + seq(26, i requires 0 <= i < 26 => ('A' as int + i) as char)

  /** `isAlpha(char)`: the two range comparisons. */
  predicate IsAlpha(c: char)
  {
    'a' <= c <= 'z' || 'A' <= c <= 'Z'
  }

  /** `isAlpha` holds exactly for the 52 ASCII letters. */
  lemma IsAlphaLetters(c: char)
    ensures IsAlpha(c) <==> c in Letters
  {
    if IsAlpha(c) {
      var i := if 'a' <= c <= 'z' then c as int - 'a' as int else 26 + c as int - 'A' as int;
      assert Letters[i] == c;
    }
    if c in Letters {
      var i :| 0 <= i < |Letters| && Letters[i] == c;
      assert IsAlpha(Letters[i]);
    }
  }

  predicate AllAlpha(s: string)
  {
    forall i :: 0 <= i < |s| ==> IsAlpha(s[i])
  }

  /** The states `initial`, `tagStart`, `tagName`, `text`, `tagEnd` and `tagEndName`. */
  datatype State = InitialState | TagStartState | TagNameState | TextState | TagEndState | TagEndNameState

  /** Tokens of type "tag", "text" and "tagEnd". */
  datatype Token = TagToken(name: string) | TextToken(content: string) | TagEndToken(name: string)

  /** The outcome of one pass that consumes its character. */
  datatype Move = Move(next: State, chars: string, emitted: seq<Token>)

  /** One pass on character `c`: `None` when the state does not accept `c`. */
  function Step(st: State, chars: string, c: char): (m: Option<Move>)
    ensures m.Some? ==> |m.value.emitted| <= 1
    ensures m.Some? && m.value.emitted != [] ==> m.value.chars == []
  {
    match st
    case InitialState =>
      if c == '<' then Some(Move(TagStartState, chars, []))
      else if IsAlpha(c) then Some(Move(TextState, chars + [c], []))
      else None
    case TagStartState =>
      if IsAlpha(c) then Some(Move(TagNameState, chars + [c], []))
      else if c == '/' then Some(Move(TagEndState, chars, []))
      else None
    case TagNameState =>
      if IsAlpha(c) then Some(Move(TagNameState, chars + [c], []))
      else if c == '>' then Some(Move(InitialState, [], [TagToken(chars)]))
      else None
    case TextState =>
      if IsAlpha(c) then Some(Move(TextState, chars + [c], []))
      else if c == '<' then Some(Move(TagStartState, [], [TextToken(chars)]))
      else None
    case TagEndState =>
      if IsAlpha(c) then Some(Move(TagEndNameState, chars + [c], []))
      else None
    case TagEndNameState =>
      if IsAlpha(c) then Some(Move(TagEndNameState, chars + [c], []))
      else if c == '>' then Some(Move(InitialState, [], [TagEndToken(chars)]))
      else None
  }

  datatype Option<T> = None | Some(value: T)

  /** The run of the machine over the rest of the input: the tokens it emits and the text it
      drops at the end, or `Stuck` when some pass consumes nothing. */
  datatype Scan = Scan(tokens: seq<Token>, dropped: string) | Stuck

  function Prefix(emitted: seq<Token>, r: Scan): (r': Scan)
    ensures emitted == [] ==> r' == r
  {
    if r.Stuck? then Stuck else Scan(emitted + r.tokens, r.dropped)
  }

  /** The text the buffered state stands for: the characters consumed since the last token. */
  function Pending(st: State, chars: string): string
  {
    match st
    case InitialState => chars
    case TagStartState => "<" + chars
    case TagNameState => "<" + chars
    case TextState => chars
    case TagEndState => "</" + chars
    case TagEndNameState => "</" + chars
  }

  function Run(st: State, chars: string, s: string): Scan
    decreases |s|
  {
    if s == [] then Scan([], Pending(st, chars))
    else match Step(st, chars, s[0])
      case None => Stuck
      case Some(m) => Prefix(m.emitted, Run(m.next, m.chars, s[1..]))
  }

  /** The buffer holds letters; it is empty in the states that have read no letter yet and
      non-empty in the others. */
  predicate Consistent(st: State, chars: string)
  {
    && AllAlpha(chars)
    && (st.InitialState? || st.TagStartState? || st.TagEndState? ==> chars == [])
    && (st.TagNameState? || st.TextState? || st.TagEndNameState? ==> chars != [])
  }

  /** One pass of the loop: the `switch` on the current state. `consumed` is false when the
      state does not accept the character, in which case nothing changes. */
  method Pass(currentState: State, chars: string, c: char) returns (next: State, chars': string, emitted: seq<Token>, consumed: bool)
    ensures consumed <==> Step(currentState, chars, c).Some?
    ensures consumed ==> Step(currentState, chars, c) == Some(Move(next, chars', emitted))
    ensures !consumed ==> next == currentState && chars' == chars && emitted == []
  {
    next, chars', emitted, consumed := currentState, chars, [], true;
    match currentState {
      case InitialState =>
        if c == '<' {
          next := TagStartState;
        } else if IsAlpha(c) {
          next := TextState;
          chars' := chars + [c];
        } else {
          consumed := false;
        }
      case TagStartState =>
        if IsAlpha(c) {
          next := TagNameState;
          chars' := chars + [c];
        } else if c == '/' {
          next := TagEndState;
        } else {
          consumed := false;
        }
      case TagNameState =>
        if IsAlpha(c) {
          chars' := chars + [c];
        } else if c == '>' {
          next := InitialState;
          emitted := [TagToken(chars)];
          chars' := [];
        } else {
          consumed := false;
        }
      case TextState =>
        if IsAlpha(c) {
          chars' := chars + [c];
        } else if c == '<' {
          next := TagStartState;
          emitted := [TextToken(chars)];
          chars' := [];
        } else {
          consumed := false;
        }
      case TagEndState =>
        if IsAlpha(c) {
          next := TagEndNameState;
          chars' := chars + [c];
        } else {
          consumed := false;
        }
      case TagEndNameState =>
        if IsAlpha(c) {
          chars' := chars + [c];
        } else if c == '>' {
          next := InitialState;
          emitted := [TagEndToken(chars)];
          chars' := [];
        } else {
          consumed := false;
        }
    }
  }

  /** The result of `tokenize(str)`, or `Diverges` when its loop never ends. */
  datatype Tokenized = Tokens(tokens: seq<Token>) | Diverges

  /** `tokenize(str)`: the loop runs while input is left, one character per pass. */
  method Tokenize(str: string) returns (r: Tokenized)
    ensures r.Diverges? <==> Run(InitialState, [], str).Stuck?
    ensures r.Tokens? ==> r.tokens == Run(InitialState, [], str).tokens
  {
    var currentState := InitialState;
    var chars: string := [];
    var tokens: seq<Token> := [];
    var rest := str;
    while rest != []
      invariant Run(InitialState, [], str) == Prefix(tokens, Run(currentState, chars, rest))
      decreases |rest|
    {
      var next, chars', emitted, consumed := Pass(currentState, chars, rest[0]);
      if !consumed {
        // The pass left every variable as it was: the loop repeats it forever.
        RunStep(currentState, chars, rest);
        return Diverges;
      }
      RunStep(currentState, chars, rest);
      PrefixPrefix(tokens, emitted, Run(next, chars', rest[1..]));
      currentState, chars, tokens, rest := next, chars', tokens + emitted, rest[1..];
    }
    r := Tokens(tokens);
  }

  /** One unfolding of `Run`. */
  lemma RunStep(st: State, chars: string, s: string)
    requires s != []
    ensures Step(st, chars, s[0]).None? ==> Run(st, chars, s) == Stuck
    ensures Step(st, chars, s[0]).Some? ==>
              var m := Step(st, chars, s[0]).value;
              Run(st, chars, s) == Prefix(m.emitted, Run(m.next, m.chars, s[1..]))
  {
  }

  lemma PrefixPrefix(a: seq<Token>, b: seq<Token>, r: Scan)
    ensures Prefix(a, Prefix(b, r)) == Prefix(a + b, r)
  {
    if r.Scan? {
      assert a + (b + r.tokens) == (a + b) + r.tokens;
    }
  }

  /** The text a token was cut from. */
  function TokenText(t: Token): string
  {
    match t
    case TagToken(n) => "<" + n + ">"
    case TextToken(c) => c
    case TagEndToken(n) => "</" + n + ">"
  }

  function Print(ts: seq<Token>): string
  {
    if ts == [] then [] else TokenText(ts[0]) + Print(ts[1..])
  }

  lemma {:induction false} PrintAppend(a: seq<Token>, b: seq<Token>)
    ensures Print(a + b) == Print(a) + Print(b)
    decreases |a|
  {
    if a == [] {
      assert a + b == b;
    } else {
      assert (a + b)[0] == a[0];
      assert (a + b)[1..] == a[1..] + b;
      PrintAppend(a[1..], b);
    }
  }

  /** A letter token: a non-empty run of letters. */
  predicate LetterToken(t: Token)
  {
    if t.TextToken? then t.content != [] && AllAlpha(t.content) else t.name != [] && AllAlpha(t.name)
  }

  predicate LetterTokens(ts: seq<Token>)
  {
    forall i :: 0 <= i < |ts| ==> LetterToken(ts[i])
  }

  /** What can be left over at the end: nothing, letters, or an unfinished tag. */
  predicate Fragment(d: string)
  {
    AllAlpha(d) || (|d| >= 1 && d[0] == '<' && AllAlpha(d[1..])) || (|d| >= 2 && d[..2] == "</" && AllAlpha(d[2..]))
  }

  lemma AlphaSnoc(chars: string, c: char)
    requires AllAlpha(chars) && IsAlpha(c)
    ensures AllAlpha(chars + [c])
  {
    assert forall i :: 0 <= i < |chars| ==> (chars + [c])[i] == chars[i];
  }

  /** One pass loses nothing: the buffered text plus the character equals the emitted token's
      text plus the new buffered text, and the buffer stays consistent. */
  lemma StepLossless(st: State, chars: string, c: char)
    requires Consistent(st, chars) && Step(st, chars, c).Some?
    ensures var m := Step(st, chars, c).value;
      && Consistent(m.next, m.chars)
      && Pending(st, chars) + [c] == Print(m.emitted) + Pending(m.next, m.chars)
      && LetterTokens(m.emitted)
  {
    var m := Step(st, chars, c).value;
    if IsAlpha(c) {
      AlphaSnoc(chars, c);
    }
    if m.emitted != [] {
      assert Print(m.emitted) == TokenText(m.emitted[0]);
    }
  }

  lemma LetterTokensAppend(a: seq<Token>, b: seq<Token>)
    requires LetterTokens(a) && LetterTokens(b)
    ensures LetterTokens(a + b)
  {
    forall i | 0 <= i < |a + b|
      ensures LetterToken((a + b)[i])
    {
      if i >= |a| {
        assert (a + b)[i] == b[i - |a|];
      } else {
        assert (a + b)[i] == a[i];
      }
    }
  }

  lemma FinalFragment(st: State, chars: string)
    requires Consistent(st, chars)
    ensures Fragment(Pending(st, chars))
  {
    var d := Pending(st, chars);
    match st
    case TagStartState => assert d[1..] == chars;
    case TagNameState => assert d[1..] == chars;
    case TagEndState => assert d[..2] == "</" && d[2..] == chars;
    case TagEndNameState => assert d[..2] == "</" && d[2..] == chars;
    case _ =>
  }

  /** Nothing is lost: a run that does not get stuck cut its input into the printed tokens
      followed by the dropped text, every token holds letters only, and what is dropped is an
      unfinished token. */
  lemma {:induction false} RunLossless(st: State, chars: string, s: string)
    requires Consistent(st, chars) && Run(st, chars, s).Scan?
    ensures Pending(st, chars) + s == Print(Run(st, chars, s).tokens) + Run(st, chars, s).dropped
    ensures LetterTokens(Run(st, chars, s).tokens)
    ensures Fragment(Run(st, chars, s).dropped)
    decreases |s|
  {
    if s == [] {
      FinalFragment(st, chars);
      assert Pending(st, chars) + s == Pending(st, chars);
    } else {
      var c := s[0];
      RunStep(st, chars, s);
      var m := Step(st, chars, c).value;
      var tail := Run(m.next, m.chars, s[1..]);
      StepLossless(st, chars, c);
      RunLossless(m.next, m.chars, s[1..]);
      PrintAppend(m.emitted, tail.tokens);
      LetterTokensAppend(m.emitted, tail.tokens);
      assert s == [c] + s[1..];
      JoinLossless(Pending(st, chars), c, s[1..], Print(m.emitted), Pending(m.next, m.chars), Print(tail.tokens), tail.dropped);
    }
  }

  lemma JoinLossless(pend: string, c: char, rest: string, pe: string, pend': string, pt: string, d: string)
    requires pend + [c] == pe + pend' && pend' + rest == pt + d
    ensures pend + ([c] + rest) == (pe + pt) + d
  {
    calc {
      pend + ([c] + rest);
      (pend + [c]) + rest;
      (pe + pend') + rest;
      pe + (pend' + rest);
      pe + (pt + d);
      (pe + pt) + d;
    }
  }

  /** A token sequence the machine can produce in full: letter tokens, no two texts in a row
      (they would be one text) and no text at the end (it would be dropped). */
  predicate WellFormed(ts: seq<Token>)
  {
    && LetterTokens(ts)
    && (forall i :: 0 <= i < |ts| - 1 && ts[i].TextToken? ==> !ts[i + 1].TextToken?)
    && (ts != [] ==> !ts[|ts| - 1].TextToken?)
  }

  lemma WellFormedTail(ts: seq<Token>)
    requires WellFormed(ts) && ts != []
    ensures WellFormed(ts[1..]) && LetterToken(ts[0])
    ensures ts[0].TextToken? ==> ts[1..] != [] && !ts[1..][0].TextToken?
  {
    var rest := ts[1..];
    assert forall i :: 0 <= i < |rest| ==> rest[i] == ts[i + 1];
  }

  /** Letters are buffered one by one in the states that collect them. */
  lemma {:induction false} RunLetters(st: State, chars: string, w: string, s: string)
    requires st.TagNameState? || st.TextState? || st.TagEndNameState?
    requires AllAlpha(w)
    ensures Run(st, chars, w + s) == Run(st, chars + w, s)
    decreases |w|
  {
    if w == [] {
      assert w + s == s && chars + w == chars;
    } else {
      RunStep(st, chars, w + s);
      assert (w + s)[0] == w[0];
      assert (w + s)[1..] == w[1..] + s;
      assert chars + [w[0]] + w[1..] == chars + w;
      RunLetters(st, chars + [w[0]], w[1..], s);
    }
  }

  lemma AlphaTail(w: string)
    requires AllAlpha(w) && w != []
    ensures AllAlpha(w[1..]) && [w[0]] + w[1..] == w
  {
    assert forall i :: 0 <= i < |w| - 1 ==> w[1..][i] == w[i + 1];
  }

  /** Printed text of a sequence starting with a tag starts with '<'. */
  lemma PrintStartsWithTag(ts: seq<Token>)
    requires ts != [] && !ts[0].TextToken?
    ensures Print(ts) != [] && Print(ts)[0] == '<'
  {
    assert Print(ts) == TokenText(ts[0]) + Print(ts[1..]);
  }

  /** A well-formed token sequence, printed, tokenizes back to itself with nothing dropped. */
  lemma {:induction false} RoundTrip(ts: seq<Token>)
    requires WellFormed(ts)
    ensures Run(InitialState, [], Print(ts)) == Scan(ts, [])
    decreases |ts|
  {
    if ts == [] {
      return;
    }
    var rest := ts[1..];
    WellFormedTail(ts);
    RoundTrip(rest);
    var p := Print(rest);
    assert ts == [ts[0]] + rest;
    assert Print(ts) == TokenText(ts[0]) + p;
    match ts[0]
    case TagToken(n) =>
      TagRoundTrip(n, p, rest);
    case TagEndToken(n) =>
      TagEndRoundTrip(n, p, rest);
    case TextToken(c) =>
      PrintStartsWithTag(rest);
      TextRoundTrip(c, p, rest);
  }

  /** A start tag is read as one token. */
  lemma TagOpen(n: string, p: string)
    requires n != [] && AllAlpha(n)
    ensures Run(InitialState, [], "<" + n + ">" + p) == Prefix([TagToken(n)], Run(InitialState, [], p))
  {
    AlphaTail(n);
    var s := "<" + n + ">" + p;
    var s1 := [n[0]] + (n[1..] + ">" + p);
    assert s[0] == '<' && s[1..] == s1;
    RunStep(InitialState, [], s);
    assert Step(InitialState, [], '<') == Some(Move(TagStartState, [], []));
    assert s1[0] == n[0] && s1[1..] == n[1..] + ">" + p;
    RunStep(TagStartState, [], s1);
    assert [] + [n[0]] == [n[0]];
    assert n[1..] + ">" + p == n[1..] + (">" + p);
    RunLetters(TagNameState, [n[0]], n[1..], ">" + p);
    RunStep(TagNameState, n, ">" + p);
    assert (">" + p)[1..] == p;
    calc {
      Run(InitialState, [], s);
      Run(TagStartState, [], s1);
      Run(TagNameState, [n[0]], n[1..] + ">" + p);
      Run(TagNameState, n, ">" + p);
      Prefix([TagToken(n)], Run(InitialState, [], p));
    }
  }

  lemma TagRoundTrip(n: string, p: string, rest: seq<Token>)
    requires n != [] && AllAlpha(n) && Run(InitialState, [], p) == Scan(rest, [])
    ensures Run(InitialState, [], "<" + n + ">" + p) == Scan([TagToken(n)] + rest, [])
  {
    TagOpen(n, p);
  }

  /** Letters at the end of the input are left in the buffer. */
  lemma TextAtEnd(c: string)
    requires c != [] && AllAlpha(c)
    ensures Run(InitialState, [], c) == Scan([], c)
  {
    AlphaTail(c);
    RunStep(InitialState, [], c);
    assert [] + [c[0]] == [c[0]];
    assert c[1..] + [] == c[1..];
    RunLetters(TextState, [c[0]], c[1..], []);
  }

  /** The two characters that open an end tag. */
  lemma TagEndOpen(n: string, p: string)
    ensures Run(InitialState, [], "</" + n + ">" + p) == Run(TagEndState, [], n + ">" + p)
  {
    var s := "</" + n + ">" + p;
    var s1 := "/" + n + ">" + p;
    assert s[0] == '<' && s[1..] == s1;
    assert s1[0] == '/' && s1[1..] == n + ">" + p;
    RunStep(InitialState, [], s);
    RunStep(TagStartState, [], s1);
  }

  lemma TagEndRoundTrip(n: string, p: string, rest: seq<Token>)
    requires n != [] && AllAlpha(n) && Run(InitialState, [], p) == Scan(rest, [])
    ensures Run(InitialState, [], "</" + n + ">" + p) == Scan([TagEndToken(n)] + rest, [])
  {
    AlphaTail(n);
    TagEndOpen(n, p);
    var s2 := n + ">" + p;
    assert s2[0] == n[0] && s2[1..] == n[1..] + (">" + p);
    RunStep(TagEndState, [], s2);
    assert [] + [n[0]] == [n[0]];
    RunLetters(TagEndNameState, [n[0]], n[1..], ">" + p);
    RunStep(TagEndNameState, n, ">" + p);
    assert (">" + p)[1..] == p;
    calc {
      Run(TagEndState, [], s2);
      Run(TagEndNameState, [n[0]], n[1..] + (">" + p));
      Run(TagEndNameState, n, ">" + p);
      Prefix([TagEndToken(n)], Run(InitialState, [], p));
    }
  }

  lemma TextRoundTrip(c: string, p: string, rest: seq<Token>)
    requires c != [] && AllAlpha(c) && Run(InitialState, [], p) == Scan(rest, [])
    requires p != [] && p[0] == '<'
    ensures Run(InitialState, [], c + p) == Scan([TextToken(c)] + rest, [])
  {
    AlphaTail(c);
    var s := c + p;
    assert s[0] == c[0] && s[1..] == c[1..] + p;
    RunStep(InitialState, [], s);
    assert [] + [c[0]] == [c[0]];
    RunLetters(TextState, [c[0]], c[1..], p);
    RunStep(TextState, c, p);
    RunStep(InitialState, [], p);
    calc {
      Run(InitialState, [], s);
      Run(TextState, [c[0]], c[1..] + p);
      Run(TextState, c, p);
      Prefix([TextToken(c)], Run(TagStartState, [], p[1..]));
      Prefix([TextToken(c)], Run(InitialState, [], p));
    }
  }

  /** `tokenize("<p>Vue</p>")` yields tag p, text "Vue" and tagEnd p. */
  lemma ParagraphTokens()
    ensures Run(InitialState, [], "<p>Vue</p>") == Scan([TagToken("p"), TextToken("Vue"), TagEndToken("p")], [])
  {
    var ts := [TagToken("p"), TextToken("Vue"), TagEndToken("p")];
    assert LetterToken(ts[1]) by {
      assert AllAlpha("Vue") by { assert IsAlpha('V') && IsAlpha('u') && IsAlpha('e'); }
    }
    assert Print(ts) == "<p>Vue</p>" by {
      assert Print(ts[2..]) == "</p>" by { assert Print(ts[2..][1..]) == []; }
      assert Print(ts[1..]) == "Vue" + "</p>";
    }
    RoundTrip(ts);
  }

  /** Text at the end of the input is dropped: `tokenize("<p>Vue")` yields only the tag. */
  lemma TrailingTextDropped()
    ensures Run(InitialState, [], "<p>Vue") == Scan([TagToken("p")], "Vue")
  {
    assert AllAlpha("p") && AllAlpha("Vue") by { assert IsAlpha('p') && IsAlpha('V') && IsAlpha('u') && IsAlpha('e'); }
    assert "<p>Vue" == "<" + "p" + ">" + "Vue";
    TagOpen("p", "Vue");
    TextAtEnd("Vue");
    assert [TagToken("p")] + [] == [TagToken("p")];
  }

  /** A space is accepted by no state, so `tokenize("<p> </p>")` never ends. */
  lemma SpaceNeverConsumed()
    ensures Run(InitialState, [], "<p> </p>").Stuck?
  {
    RunStep(InitialState, [], "<p> </p>");
    RunStep(TagStartState, [], "p> </p>");
    RunStep(TagNameState, "p", "> </p>");
    RunStep(InitialState, [], " </p>");
  }
}
