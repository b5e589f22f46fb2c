/** The masker that blanks C++ comments and literals before the architecture
    checks look at a source text. */
module SourceMasker {
  import opened Wrappers

  datatype State = Code | InLine | InBlock | InLiteral(quote: char, escaped: bool)

  predicate IsQuote(c: char) { c == '"' || c == '\'' }

  function Spaces(n: nat): (r: string)
    ensures |r| == n && forall i :: 0 <= i < n ==> r[i] == ' '
  {
    seq(n, i => ' ')
  }

  /** What one step of the scanner does: blank two characters, or blank or keep one. */
  datatype Step = Pair(next: State) | Blank(next: State) | Keep(next: State)

  function StepAt(st: State, c: char, following: Option<char>): Step {
    match st
    case Code =>
      if c == '/' && following == Some('/') then Pair(InLine)
      else if c == '/' && following == Some('*') then Pair(InBlock)
      else if IsQuote(c) then Blank(InLiteral(c, false))
      else Keep(Code)
    case InLine => if c == '\n' then Keep(Code) else Blank(InLine)
    case InBlock =>
      if c == '*' && following == Some('/') then Pair(Code)
      else if c == '\n' then Keep(InBlock)
      else Blank(InBlock)
    case InLiteral(q, escaped) =>
      // A line break leaves a pending escape pending.
      if c == '\n' then Blank(InLiteral(q, escaped))
      else if escaped then Blank(InLiteral(q, false))
      else if c == '\\' then Blank(InLiteral(q, true))
      else if c == q then Blank(Code)
      else Blank(InLiteral(q, false))
  }

  function Second(s: string): Option<char> { if |s| > 1 then Some(s[1]) else None }

  /** The masked form of the rest of a text, read in a given state. */
  function MaskFrom(st: State, s: string): (r: string)
    ensures |r| == |s|
    decreases |s|
  {
    if s == "" then "" else
    match StepAt(st, s[0], Second(s))
    case Pair(next) => "  " + MaskFrom(next, s[2..])
    case Blank(next) => " " + MaskFrom(next, s[1..])
    case Keep(next) => [s[0]] + MaskFrom(next, s[1..])
  }

  // ----- the loop

  datatype Mode = ModeCode | ModeLine | ModeBlock | ModeString | ModeCharacter

  function StateOf(mode: Mode, quote: char, escaped: bool): State {
    match mode
    case ModeCode => Code
    case ModeLine => InLine
    case ModeBlock => InBlock
    case _ => InLiteral(quote, escaped)
  }

  /** What remains of the masked text is the masked form of what remains. */
  ghost predicate Remaining(full: string, source: string, index: nat, st: State) {
    |full| == |source| && index <= |source| && full[index..] == MaskFrom(st, source[index..])
  }

  lemma NextStep(full: string, source: string, index: nat, st: State)
    requires Remaining(full, source, index, st) && index < |source|
    ensures var step := StepAt(st, source[index], if index + 1 < |source| then Some(source[index + 1]) else None);
            var width := if step.Pair? then 2 else 1;
            && index + width <= |source| && Remaining(full, source, index + width, step.next)
            && full[index] == (if step.Keep? then source[index] else ' ')
            && (step.Pair? ==> full[index + 1] == ' ')
  {
    var s := source[index..];
    assert s[0] == source[index];
    var step := StepAt(st, s[0], Second(s));
    assert full[index] == full[index..][0];
    if step.Pair? {
      assert full[index + 1] == full[index..][1];
      assert full[index..][2..] == full[index + 2..] && s[2..] == source[index + 2..];
    } else {
      assert full[index..][1..] == full[index + 1..] && s[1..] == source[index + 1..];
    }
  }

  /** The mode switch of the loop body. */
  method ScanCharacter(mode: Mode, quote: char, escaped: bool, c: char, following: Option<char>)
    returns (blanks: nat, mode': Mode, quote': char, escaped': bool)
    ensures var step := StepAt(StateOf(mode, quote, escaped), c, following);
            && StateOf(mode', quote', escaped') == step.next
            && blanks == match step case Keep(_) => 0 case Blank(_) => 1 case Pair(_) => 2
  {
    blanks, mode', quote', escaped' := 0, mode, quote, escaped;
    if mode == ModeCode {
      if c == '/' && following == Some('/') {
        blanks, mode' := 2, ModeLine;
      } else if c == '/' && following == Some('*') {
        blanks, mode' := 2, ModeBlock;
      } else if c == '"' {
        blanks, mode', quote', escaped' := 1, ModeString, c, false;
      } else if c == '\'' {
        blanks, mode', quote', escaped' := 1, ModeCharacter, c, false;
      }
    } else if mode == ModeLine {
      if c == '\n' {
        mode' := ModeCode;
      } else {
        blanks := 1;
      }
    } else if mode == ModeBlock {
      if c == '*' && following == Some('/') {
        blanks, mode' := 2, ModeCode;
      } else if c != '\n' {
        blanks := 1;
      }
    } else {
      blanks := 1;
      if c == '\n' {
      } else if escaped {
        escaped' := false;
      } else if c == '\\' {
        escaped' := true;
      } else if c == quote {
        mode' := ModeCode;
      }
    }
  }

  /** The text so far: masked up to the index, untouched from there. */
  lemma CharacterDone(full: string, source: string, index: nat, before: string, after: string)
    requires |full| == |source| && index < |source| && before == full[..index] + source[index..]
    requires after == before[index := full[index]] || (after == before && full[index] == source[index])
    ensures after == full[..index + 1] + source[index + 1..]
  {
  }

  method MaskSource(source: string) returns (result: string)
    ensures result == MaskFrom(Code, source)
  {
    var masked := source;
    var mode, quote, escaped, index := ModeCode, ' ', false, 0;
    ghost var full := MaskFrom(Code, source);
    assert source[0..] == source && full[0..] == full;
    while index < |source|
      invariant index <= |source| == |masked|
      invariant Remaining(full, source, index, StateOf(mode, quote, escaped))
      invariant masked == full[..index] + source[index..]
    {
      NextStep(full, source, index, StateOf(mode, quote, escaped));
      var c := source[index];
      var following := if index + 1 < |source| then Some(source[index + 1]) else None;
      var blanks;
      blanks, mode, quote, escaped := ScanCharacter(mode, quote, escaped, c, following);
      ghost var before := masked;
      if blanks > 0 {
        masked := masked[index := ' '];
      }
      CharacterDone(full, source, index, before, masked);
      index := index + 1;
      if blanks > 1 {
        before, masked := masked, masked[index := ' '];
        CharacterDone(full, source, index, before, masked);
        index := index + 1;
      }
    }
    result := masked;
  }

  // ----- what survives

  /** A character is kept or blanked, never replaced by anything else. */
  lemma {:induction false} OnlyBlanks(st: State, s: string, i: nat)
    requires i < |s|
    ensures MaskFrom(st, s)[i] == s[i] || MaskFrom(st, s)[i] == ' '
    decreases |s|
  {
    var step := StepAt(st, s[0], Second(s));
    var width := if step.Pair? then 2 else 1;
    if i >= width {
      OnlyBlanks(step.next, s[width..], i - width);
    }
  }

  /** No quote, and no slash followed by a slash or a star. */
  predicate NoMarks(s: string) {
    forall i :: 0 <= i < |s| ==> !IsQuote(s[i]) && !(s[i] == '/' && i + 1 < |s| && s[i + 1] in "/*")
  }

  lemma {:induction false} NoMarksRemain(st: State, s: string)
    ensures NoMarks(MaskFrom(st, s))
    decreases |s|
  {
    if s != "" {
      var step := StepAt(st, s[0], Second(s));
      var width := if step.Pair? then 2 else 1;
      var tail := MaskFrom(step.next, s[width..]);
      NoMarksRemain(step.next, s[width..]);
      if tail != "" {
        OnlyBlanks(step.next, s[width..], 0);
      }
      forall i | 0 <= i < |s|
        ensures var r := MaskFrom(st, s);
                !IsQuote(r[i]) && !(r[i] == '/' && i + 1 < |r| && r[i + 1] in "/*")
      {
        if i >= width {
          assert MaskFrom(st, s)[i] == tail[i - width];
          assert i + 1 < |s| ==> MaskFrom(st, s)[i + 1] == tail[i + 1 - width];
        }
      }
    }
  }

  lemma {:induction false} UnmarkedIsKept(s: string)
    requires NoMarks(s)
    ensures MaskFrom(Code, s) == s
  {
    if s != "" {
      forall i | 0 <= i < |s[1..]|
        ensures !IsQuote(s[1..][i]) && !(s[1..][i] == '/' && i + 1 < |s[1..]| && s[1..][i + 1] in "/*")
      {
        assert s[1..][i] == s[i + 1];
      }
      UnmarkedIsKept(s[1..]);
    }
  }

  /** Masking a masked text changes nothing. */
  lemma MaskIsIdempotent(s: string)
    ensures MaskFrom(Code, MaskFrom(Code, s)) == MaskFrom(Code, s)
  {
    NoMarksRemain(Code, s);
    UnmarkedIsKept(MaskFrom(Code, s));
  }

  // ----- the lexical grammar the masker stands for

  datatype Token =
    | Plain(c: char)
    | LineComment(text: string)
    | BlockComment(text: string, closed: bool)
    | Literal(quote: char, text: string, closed: bool)

  function Text(t: Token): (r: string)
    ensures r != ""
  {
    match t
    case Plain(c) => [c]
    case LineComment(text) => "//" + text
    case BlockComment(text, closed) => "/*" + text + if closed then "*/" else ""
    case Literal(q, text, closed) => [q] + text + if closed then [q] else ""
  }

  function KeepBreaks(text: string): (r: string)
    ensures |r| == |text|
  {
    seq(|text|, i requires 0 <= i < |text| => if text[i] == '\n' then '\n' else ' ')
  }

  /** Code stays; a comment keeps its line breaks; a literal keeps nothing. */
  function MaskedToken(t: Token): (r: string)
    ensures |r| == |Text(t)|
  {
    match t
    case Plain(c) => [c]
    case LineComment(text) => Spaces(2 + |text|)
    case BlockComment(text, closed) => "  " + KeepBreaks(text) + if closed then "  " else ""
    case Literal(q, text, closed) => Spaces(1 + |text| + if closed then 1 else 0)
  }

  /** Whether an escape is pending behind this literal body; none if a quote ends it earlier. */
  function PendingAfter(q: char, pending: bool, text: string): Option<bool>
    decreases |text|
  {
    if text == "" then Some(pending)
    else if text[0] == '\n' then PendingAfter(q, pending, text[1..])
    else if pending then PendingAfter(q, false, text[1..])
    else if text[0] == q then None
    else PendingAfter(q, text[0] == '\\', text[1..])
  }

  predicate NoCommentEnd(text: string) {
    forall i :: 0 <= i < |text| - 1 ==> !(text[i] == '*' && text[i + 1] == '/')
  }

  /** The token is a longest one in front of `rest`; only the end of the text may leave it open. */
  predicate Stands(t: Token, rest: string) {
    match t
    case Plain(c) => !IsQuote(c) && !(c == '/' && rest != "" && rest[0] in "/*")
    case LineComment(text) => '\n' !in text && (rest == "" || rest[0] == '\n')
    case BlockComment(text, closed) => NoCommentEnd(text) && (closed || rest == "")
    case Literal(q, text, closed) =>
      && IsQuote(q) && PendingAfter(q, false, text).Some?
      && if closed then PendingAfter(q, false, text) == Some(false) else rest == ""
  }

  predicate Tokenizes(ts: seq<Token>, s: string) {
    if ts == [] then s == "" else
    && Text(ts[0]) <= s
    && var rest := s[|Text(ts[0])|..];
    && Stands(ts[0], rest) && Tokenizes(ts[1..], rest)
  }

  function MaskedTokens(ts: seq<Token>): string {
    if ts == [] then "" else MaskedToken(ts[0]) + MaskedTokens(ts[1..])
  }

  lemma {:induction false} MaskLineComment(text: string, rest: string)
    requires '\n' !in text && (rest == "" || rest[0] == '\n')
    ensures MaskFrom(InLine, text + rest) == Spaces(|text|) + MaskFrom(Code, rest)
  {
    if text == "" {
      assert text + rest == rest;
    } else {
      assert (text + rest)[1..] == text[1..] + rest;
      MaskLineComment(text[1..], rest);
      assert Spaces(|text|) == " " + Spaces(|text[1..]|);
    }
  }

  lemma {:induction false} MaskBlockComment(text: string, closed: bool, rest: string)
    requires NoCommentEnd(text) && (closed || rest == "")
    ensures MaskFrom(InBlock, text + (if closed then "*/" else "") + rest)
         == KeepBreaks(text) + (if closed then "  " else "") + MaskFrom(Code, rest)
  {
    var end, blank := if closed then "*/" else "", if closed then "  " else "";
    var s := text + end + rest;
    if text == "" {
      assert s == end + rest && s[|end|..] == rest;
    } else {
      assert NoCommentEnd(text[1..]) by {
        forall i | 0 <= i < |text[1..]| - 1 ensures !(text[1..][i] == '*' && text[1..][i + 1] == '/') {
          assert text[1..][i] == text[i + 1] && text[1..][i + 1] == text[i + 2];
        }
      }
      MaskBlockComment(text[1..], closed, rest);
      assert s[1..] == text[1..] + end + rest;
      var first := if text[0] == '\n' then "\n" else " ";
      assert !(s[0] == '*' && Second(s) == Some('/'));
      assert KeepBreaks(text) == first + KeepBreaks(text[1..]);
      assert first + (KeepBreaks(text[1..]) + blank + MaskFrom(Code, rest))
          == KeepBreaks(text) + blank + MaskFrom(Code, rest);
    }
  }

  lemma {:induction false} MaskLiteral(q: char, pending: bool, text: string, closed: bool, rest: string)
    requires IsQuote(q) && PendingAfter(q, pending, text).Some?
    requires if closed then PendingAfter(q, pending, text) == Some(false) else rest == ""
    ensures MaskFrom(InLiteral(q, pending), text + (if closed then [q] else "") + rest)
         == Spaces(|text| + if closed then 1 else 0) + MaskFrom(Code, rest)
    decreases |text|
  {
    var end := if closed then [q] else "";
    var s := text + end + rest;
    if text == "" {
      assert s == end + rest && s[|end|..] == rest;
      assert Spaces(1) == " ";
    } else {
      assert s[1..] == text[1..] + end + rest;
      MaskLiteral(q, if text[0] == '\n' then pending else if pending then false else text[0] == '\\',
                  text[1..], closed, rest);
      assert Spaces(|text| + |end|) == " " + Spaces(|text[1..]| + |end|);
    }
  }

  lemma Assoc(a: string, b: string, c: string)
    ensures (a + b) + c == a + (b + c)
  {
  }

  /** The first characters of a text in front of the others. */
  lemma StartOf(start: string, after: string)
    ensures (start + after)[|start|..] == after
    ensures |start| == 2 ==> (start + after)[0] == start[0] && Second(start + after) == Some(start[1])
    ensures |start| == 1 ==> (start + after)[0] == start[0]
  {
  }

  lemma MaskToken(t: Token, rest: string)
    requires Stands(t, rest)
    ensures MaskFrom(Code, Text(t) + rest) == MaskedToken(t) + MaskFrom(Code, rest)
  {
    match t
    case Plain(c) =>
      assert ([c] + rest)[1..] == rest;
    case LineComment(text) =>
      StartOf("//", text + rest);
      Assoc("//", text, rest);
      MaskLineComment(text, rest);
      Assoc("  ", Spaces(|text|), MaskFrom(Code, rest));
      assert MaskedToken(t) == "  " + Spaces(|text|);
    case BlockComment(text, closed) => MaskBlockToken(text, closed, rest);
    case Literal(q, text, closed) => MaskLiteralToken(q, text, closed, rest);
  }

  lemma MaskBlockToken(text: string, closed: bool, rest: string)
    requires Stands(BlockComment(text, closed), rest)
    ensures var t := BlockComment(text, closed);
            MaskFrom(Code, Text(t) + rest) == MaskedToken(t) + MaskFrom(Code, rest)
  {
    var end, blank := if closed then "*/" else "", if closed then "  " else "";
    StartOf("/*", text + end + rest);
    Assoc("/*" + text, end, rest);
    Assoc("/*", text, end + rest);
    Assoc(text, end, rest);
    MaskBlockComment(text, closed, rest);
    Assoc("  ", KeepBreaks(text) + blank, MaskFrom(Code, rest));
    Assoc("  ", KeepBreaks(text), blank);
  }

  lemma MaskLiteralToken(q: char, text: string, closed: bool, rest: string)
    requires Stands(Literal(q, text, closed), rest)
    ensures var t := Literal(q, text, closed);
            MaskFrom(Code, Text(t) + rest) == MaskedToken(t) + MaskFrom(Code, rest)
  {
    var end := if closed then [q] else "";
    StartOf([q], text + end + rest);
    Assoc([q] + text, end, rest);
    Assoc([q], text, end + rest);
    Assoc(text, end, rest);
    MaskLiteral(q, false, text, closed, rest);
    Assoc(" ", Spaces(|text| + |end|), MaskFrom(Code, rest));
    assert MaskedToken(Literal(q, text, closed)) == " " + Spaces(|text| + |end|);
  }

  /** The scanner masks a text token by token, however long. */
  lemma {:induction false} MaskIsTokenwise(ts: seq<Token>, s: string)
    requires Tokenizes(ts, s)
    ensures MaskFrom(Code, s) == MaskedTokens(ts)
  {
    if ts != [] {
      var rest := s[|Text(ts[0])|..];
      MaskToken(ts[0], rest);
      assert s == Text(ts[0]) + rest;
      MaskIsTokenwise(ts[1..], rest);
    }
  }

  predicate SameBreaks(s: string, r: string) {
    |s| == |r| && forall i :: 0 <= i < |s| ==> (s[i] == '\n' <==> r[i] == '\n')
  }

  lemma SameBreaksOfJoin(a: string, b: string, c: string, d: string)
    requires |a| == |c|
    ensures SameBreaks(a + b, c + d) <==> SameBreaks(a, c) && SameBreaks(b, d)
  {
    if SameBreaks(a + b, c + d) {
      forall i | 0 <= i < |a| ensures a[i] == '\n' <==> c[i] == '\n' {
        assert (a + b)[i] == a[i] && (c + d)[i] == c[i];
      }
      forall i | 0 <= i < |b| ensures b[i] == '\n' <==> d[i] == '\n' {
        assert (a + b)[|a| + i] == b[i] && (c + d)[|a| + i] == d[i];
      }
    }
  }

  lemma TokenBreaks(t: Token, rest: string)
    requires Stands(t, rest)
    ensures SameBreaks(Text(t), MaskedToken(t)) <==> (t.Literal? ==> '\n' !in t.text)
  {
    var s, r := Text(t), MaskedToken(t);
    match t
    case Plain(c) =>
    case LineComment(text) =>
      assert forall i :: 0 <= i < |s| ==> s[i] != '\n';
    case BlockComment(text, closed) =>
      SameBreaksOfJoin("/*" + text, if closed then "*/" else "", "  " + KeepBreaks(text), if closed then "  " else "");
    case Literal(q, text, closed) =>
      if i :| 0 <= i < |text| && text[i] == '\n' {
        assert s[i + 1] == '\n' && r[i + 1] == ' ';
      } else {
        assert forall i :: 0 <= i < |s| ==> s[i] != '\n';
      }
  }

  /** Line breaks survive exactly if no literal holds one. */
  lemma {:induction false} BreaksSurviveExactly(ts: seq<Token>, s: string)
    requires Tokenizes(ts, s)
    ensures SameBreaks(s, MaskFrom(Code, s)) <==> forall t :: t in ts && t.Literal? ==> '\n' !in t.text
  {
    if ts != [] {
      var rest := s[|Text(ts[0])|..];
      assert s == Text(ts[0]) + rest;
      MaskToken(ts[0], rest);
      TokenBreaks(ts[0], rest);
      SameBreaksOfJoin(Text(ts[0]), rest, MaskedToken(ts[0]), MaskFrom(Code, rest));
      BreaksSurviveExactly(ts[1..], rest);
      assert forall t :: t in ts <==> t == ts[0] || t in ts[1..];
    }
  }

  /** The promise that line breaks are preserved fails on a literal left open at a line end. */
  lemma OpenLiteralLosesBreak()
    ensures MaskFrom(Code, "'\n") == "  " && !SameBreaks("'\n", MaskFrom(Code, "'\n"))
  {
    assert "'\n"[1..] == "\n";
    assert MaskFrom(InLiteral('\'', false), "\n") == " " + MaskFrom(InLiteral('\'', false), "");
    assert "'\n"[1] == '\n' && MaskFrom(Code, "'\n")[1] == ' ';
  }

  // ----- every text has a tokenization

  lemma {:induction false} SplitLine(s: string) returns (text: string, rest: string)
    ensures s == text + rest && '\n' !in text && (rest == "" || rest[0] == '\n')
  {
    if s == "" || s[0] == '\n' {
      text, rest := "", s;
    } else {
      text, rest := SplitLine(s[1..]);
      text := [s[0]] + text;
    }
  }

  lemma {:induction false} SplitBlock(s: string) returns (text: string, closed: bool, rest: string)
    ensures s == text + (if closed then "*/" else "") + rest && NoCommentEnd(text) && (closed || rest == "")
    ensures text != "" && s[0] == '*' ==> Second(s) != Some('/')
  {
    if s == "" {
      text, closed, rest := "", false, "";
    } else if s[0] == '*' && Second(s) == Some('/') {
      text, closed, rest := "", true, s[2..];
    } else {
      text, closed, rest := SplitBlock(s[1..]);
      assert s[1..] == text + (if closed then "*/" else "") + rest;
      var longer := [s[0]] + text;
      assert |text| > 0 ==> text[0] == s[1];
      forall i | 0 <= i < |longer| - 1 ensures !(longer[i] == '*' && longer[i + 1] == '/') {
        assert longer[i + 1] == text[i] && (i > 0 ==> longer[i] == text[i - 1]);
      }
      text := longer;
    }
  }

  lemma {:induction false} SplitLiteral(q: char, pending: bool, s: string) returns (text: string, closed: bool, rest: string)
    ensures s == text + (if closed then [q] else "") + rest && PendingAfter(q, pending, text).Some?
    ensures if closed then PendingAfter(q, pending, text) == Some(false) else rest == ""
    decreases |s|
  {
    if s == "" {
      text, closed, rest := "", false, "";
    } else if s[0] == q && q != '\n' && !pending {
      text, closed, rest := "", true, s[1..];
    } else {
      var tail;
      tail, closed, rest :=
        SplitLiteral(q, if s[0] == '\n' then pending else if pending then false else s[0] == '\\', s[1..]);
      text := [s[0]] + tail;
      assert text[1..] == tail;
    }
  }

  lemma {:induction false} EveryTextTokenizes(s: string) returns (ts: seq<Token>)
    ensures Tokenizes(ts, s)
    decreases |s|
  {
    if s == "" {
      ts := [];
    } else {
      var t, rest := FirstToken(s);
      var more := EveryTextTokenizes(rest);
      ts := [t] + more;
      assert ts[1..] == more;
      assert s[|Text(t)|..] == rest;
    }
  }

  lemma FirstToken(s: string) returns (t: Token, rest: string)
    requires s != ""
    ensures s == Text(t) + rest && Stands(t, rest)
  {
    if s[0] == '/' && Second(s) == Some('/') {
      var text;
      text, rest := SplitLine(s[2..]);
      t := LineComment(text);
    } else if s[0] == '/' && Second(s) == Some('*') {
      var text, closed;
      text, closed, rest := SplitBlock(s[2..]);
      t := BlockComment(text, closed);
    } else if IsQuote(s[0]) {
      var text, closed;
      text, closed, rest := SplitLiteral(s[0], false, s[1..]);
      t := Literal(s[0], text, closed);
    } else {
      t, rest := Plain(s[0]), s[1..];
    }
  }
}
