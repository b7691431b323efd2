/** The terminal scrubbers of `terminal.py`: each pattern is a scanner that tries the pattern's
    alternatives in the pattern's order at the start of a text.
 */
module Terminal {
  import opened Wrappers

  const ESC: char := '\U{1B}'
  const BEL: char := '\U{07}'

  // ---- Character classes -------------------------------------------------------------

  predicate Digit(c: char) { '0' <= c <= '9' }
  predicate SgrParam(c: char) { Digit(c) || c == ';' }
  predicate CsiParam(c: char) { SgrParam(c) || c == '?' }
  predicate CsiIntermediate(c: char) { ' ' <= c <= '/' }
  predicate CsiFinal(c: char) { '@' <= c <= '~' }
  predicate OscBody(c: char) { c != BEL && c != ESC }
  predicate DcsBody(c: char) { c != ESC }

  /** The control characters that go: all but newline and tab, and the 8-bit ones with them. */
  predicate Control(c: char) {
    (c <= '\U{1F}' && c != '\t' && c != '\n') || '\U{7F}' <= c <= '\U{9F}'
  }

  /** The length of the longest prefix of characters in the class. */
  function Skip(s: string, class_: char -> bool): (n: nat)
    ensures n <= |s|
    ensures forall i :: 0 <= i < n ==> class_(s[i])
    ensures n < |s| ==> !class_(s[n])
  {
    if s == "" || !class_(s[0]) then 0 else 1 + Skip(s[1..], class_)
  }

  lemma SkipIs(s: string, class_: char -> bool, n: nat)
    requires n < |s| && !class_(s[n])
    requires forall i :: 0 <= i < n ==> class_(s[i])
    ensures Skip(s, class_) == n
  {
  }

  // ---- The patterns ------------------------------------------------------------------

  /** A control sequence: parameters, intermediates and a final byte; 0 when there is none. */
  function CsiLength(s: string): (n: nat)
    ensures n <= |s|
  {
    if |s| < 2 || s[0] != ESC || s[1] != '[' then 0
    else
      var p := 2 + Skip(s[2..], CsiParam);
      var q := p + Skip(s[p..], CsiIntermediate);
      if q < |s| && CsiFinal(s[q]) then q + 1 else 0
  }

  /** An operating system command, up to its terminator or to what cut it off. */
  function OscLength(s: string): (n: nat)
    requires |s| >= 2
    ensures 2 <= n <= |s|
  {
    var p := 2 + Skip(s[2..], OscBody);
    if p < |s| && s[p] == BEL then p + 1
    else if p + 1 < |s| && s[p] == ESC && s[p + 1] == '\\' then p + 2
    else p
  }

  /** A device control, start-of-string, privacy or application string. */
  function DcsLength(s: string): (n: nat)
    requires |s| >= 2
    ensures 2 <= n <= |s|
  {
    var p := 2 + Skip(s[2..], DcsBody);
    if p + 1 < |s| && s[p] == ESC && s[p + 1] == '\\' then p + 2 else p
  }

  function EscapeLength(s: string): (n: nat)
    ensures n <= |s|
    ensures n > 0 <==> |s| >= 2 && s[0] == ESC
  {
    if |s| < 2 || s[0] != ESC then 0
    else if CsiLength(s) > 0 then CsiLength(s)
    else if s[1] == ']' then OscLength(s)
    else if s[1] in "PX^_" then DcsLength(s)
    else 2
  }

  function ControlLength(s: string): (n: nat)
    ensures n <= |s|
    ensures n > 0 <==> s != "" && Control(s[0])
  {
    if EscapeLength(s) > 0 then EscapeLength(s)
    else if s != "" && Control(s[0]) then 1
    else 0
  }

  /** A parameter `8`, with any leading zeros, and what ends it. */
  predicate EightAhead(s: string) {
    var z := Skip(s, (c: char) => c == '0');
    z + 1 < |s| && s[z] == '8' && (s[z + 1] == ';' || s[z + 1] == 'm')
  }

  /** The look-ahead: such a parameter here, or past more digits and semicolons. */
  predicate ConcealAhead(s: string)
    decreases |s|
  {
    EightAhead(s) ||
    var j := Skip(s, Digit);
    j < |s| && s[j] == ';' && ConcealAhead(s[j + 1..])
  }

  /** A style sequence that passes; 0 when there is none. */
  function OwnLength(s: string): (n: nat)
    ensures n <= |s|
  {
    if |s| < 2 || s[0] != ESC || s[1] != '[' || ConcealAhead(s[2..]) then 0
    else
      var p := 2 + Skip(s[2..], SgrParam);
      if p < |s| && s[p] == 'm' then p + 1 else 0
  }

  // ---- The scrubbers -----------------------------------------------------------------

  function ScrubEscapes(s: string): string
    decreases |s|
  {
    if s == "" then ""
    else if EscapeLength(s) > 0 then ScrubEscapes(s[EscapeLength(s)..])
    else if s[0] == ESC then ScrubEscapes(s[1..])
    else [s[0]] + ScrubEscapes(s[1..])
  }

  function ScrubControls(s: string): string
    decreases |s|
  {
    if s == "" then ""
    else if ControlLength(s) > 0 then ScrubControls(s[ControlLength(s)..])
    else [s[0]] + ScrubControls(s[1..])
  }

  function ScrubOutput(s: string): string
    decreases |s|
  {
    if s == "" then ""
    else if OwnLength(s) > 0 then s[..OwnLength(s)] + ScrubOutput(s[OwnLength(s)..])
    else if ControlLength(s) > 0 then ScrubOutput(s[ControlLength(s)..])
    else [s[0]] + ScrubOutput(s[1..])
  }

  // ---- Text without controls ---------------------------------------------------------

  predicate Printable(s: string) {
    forall c :: c in s ==> !Control(c)
  }

  lemma PlainStep(c: char, s: string)
    requires !Control(c)
    ensures ScrubControls([c] + s) == [c] + ScrubControls(s)
  {
    assert ([c] + s)[1..] == s;
  }

  lemma MatchStep(m: string, s: string)
    requires m != "" && ControlLength(m + s) == |m|
    ensures ScrubControls(m + s) == ScrubControls(s)
  {
    assert (m + s)[|m|..] == s;
  }

  lemma {:induction false} ControlsLeaveNone(s: string)
    ensures Printable(ScrubControls(s))
    decreases |s|
  {
    if s != "" {
      ControlsLeaveNone(s[if ControlLength(s) > 0 then ControlLength(s) else 1..]);
    }
  }

  /** The texts that come out are exactly those that go through unchanged: the printable ones. */
  lemma {:induction false} ControlsKeepPrintable(s: string)
    ensures ScrubControls(s) == s <==> Printable(s)
    decreases |s|
  {
    ControlsLeaveNone(s);
    if s != "" && Printable(s) {
      assert s[0] in s;
      ControlsKeepPrintable(s[1..]);
      assert s == [s[0]] + s[1..];
    }
  }

  /** What may be shown: newline, tab, and everything from a space on but delete and the 8-bit controls. */
  predicate Showable(c: char) {
    var n := c as int; n == 9 || n == 10 || 32 <= n <= 126 || n >= 160
  }

  lemma ShowableIsNoControl(c: char)
    ensures Showable(c) <==> !Control(c)
  {
  }

  lemma AllShowable(s: string)
    ensures Printable(s) <==> forall i :: 0 <= i < |s| ==> Showable(s[i])
  {
    forall i | 0 <= i < |s|
      ensures Showable(s[i]) <==> !Control(s[i])
      ensures s[i] in s
    {
      ShowableIsNoControl(s[i]);
    }
  }

  /** Only such characters are left, and a text of nothing else is left as it is. */
  lemma ShowableIsLeft(s: string)
    ensures forall i :: 0 <= i < |ScrubControls(s)| ==> Showable(ScrubControls(s)[i])
    ensures ScrubControls(s) == s <==> forall i :: 0 <= i < |s| ==> Showable(s[i])
  {
    ControlsLeaveNone(s);
    ControlsKeepPrintable(s);
    AllShowable(s);
    AllShowable(ScrubControls(s));
  }

  lemma ControlsTwice(s: string)
    ensures ScrubControls(ScrubControls(s)) == ScrubControls(s)
  {
    ControlsLeaveNone(s);
    ControlsKeepPrintable(ScrubControls(s));
  }

  function WithoutControls(s: string): string {
    if s == "" then "" else (if Control(s[0]) then "" else [s[0]]) + WithoutControls(s[1..])
  }

  lemma WithoutControlsMore(c: char, s: string)
    ensures WithoutControls([c] + s) == (if Control(c) then "" else [c]) + WithoutControls(s)
  {
    assert ([c] + s)[1..] == s;
  }

  /** One step of either scrub: a sequence goes from both, a stray control from one alone. */
  function StepLength(s: string): (n: nat)
    requires s != ""
    ensures 1 <= n <= |s|
  {
    if EscapeLength(s) > 0 then EscapeLength(s) else 1
  }

  lemma ControlsStep(s: string)
    requires s != ""
    ensures ScrubControls(s) == (if Control(s[0]) then "" else [s[0]]) + ScrubControls(s[StepLength(s)..])
  {
  }

  lemma EscapesStep(s: string)
    requires s != ""
    ensures ScrubEscapes(s) == (if s[0] == ESC then "" else [s[0]]) + ScrubEscapes(s[StepLength(s)..])
  {
  }

  /** The rendering scrub is the command-text scrub less the stray controls, and neither leaves an
      escape character. */
  lemma {:induction false} ControlsAreEscapesThenControls(s: string)
    ensures ScrubControls(s) == WithoutControls(ScrubEscapes(s))
    ensures ESC !in ScrubEscapes(s)
    decreases |s|
  {
    if s != "" {
      var rest := s[StepLength(s)..];
      ControlsStep(s);
      EscapesStep(s);
      ControlsAreEscapesThenControls(rest);
      if s[0] != ESC {
        WithoutControlsMore(s[0], ScrubEscapes(rest));
      }
    }
  }

  // ---- The language of the CLI's output ----------------------------------------------

  /** A printable character, or a style sequence with its parameters. */
  datatype Token = Plain(c: char) | Style(params: seq<string>)

  /** Conceal: 8, with leading zeros (section 8.3.117 of ECMA-48). */
  predicate Conceals(p: string) {
    p != "" && p[|p| - 1] == '8' && forall i :: 0 <= i < |p| - 1 ==> p[i] == '0'
  }

  predicate Parameter(p: string) {
    forall i :: 0 <= i < |p| ==> Digit(p[i])
  }

  predicate ProperParams(params: seq<string>) {
    params != [] && forall p :: p in params ==> Parameter(p) && !Conceals(p)
  }

  predicate Proper(t: Token) {
    match t
    case Plain(c) => !Control(c)
    case Style(params) => ProperParams(params)
  }

  function Joined(params: seq<string>): string
    requires params != []
  {
    if |params| == 1 then params[0] else params[0] + ";" + Joined(params[1..])
  }

  function Show(t: Token): string
    requires Proper(t)
  {
    match t
    case Plain(c) => [c]
    case Style(params) => [ESC, '['] + Joined(params) + "m"
  }

  function ShowAll(tokens: seq<Token>): string
    requires forall t :: t in tokens ==> Proper(t)
  {
    if tokens == [] then "" else Show(tokens[0]) + ShowAll(tokens[1..])
  }

  /** What the look-ahead sees of `params`, once an `m` ends them. */
  lemma {:induction false} ConcealAheadIsConceal(params: seq<string>, s: string)
    requires params != [] && forall p :: p in params ==> Parameter(p)
    requires Joined(params) + "m" <= s
    ensures ConcealAhead(s) <==> exists p :: p in params && Conceals(p)
    decreases |params|
  {
    var p := params[0];
    FirstParam(params, s);
    EightAheadIsConceal(p, s);
    if |params| > 1 {
      ConcealAheadIsConceal(params[1..], s[|p| + 1..]);
      assert params == [p] + params[1..];
    }
  }

  /** The first parameter, what ends it, and the parameters behind it. */
  lemma FirstParam(params: seq<string>, s: string)
    requires params != [] && Parameter(params[0]) && Joined(params) + "m" <= s
    ensures var p := params[0];
            && p <= s && |p| < |s| && s[|p|] == (if |params| == 1 then 'm' else ';')
            && Skip(s, Digit) == |p|
            && (|params| > 1 ==> Joined(params[1..]) + "m" <= s[|p| + 1..])
  {
    var p := params[0];
    assert s[..|Joined(params)| + 1] == Joined(params) + "m";
    assert forall i :: 0 <= i < |p| ==> s[i] == p[i];
    SkipIs(s, Digit, |p|);
    if |params| > 1 {
      assert s[..|Joined(params)| + 1] == p + ";" + (Joined(params[1..]) + "m");
    }
  }

  lemma EightAheadIsConceal(p: string, s: string)
    requires p <= s && Parameter(p) && |p| < |s| && (s[|p|] == ';' || s[|p|] == 'm')
    ensures EightAhead(s) <==> Conceals(p)
  {
    var z := Skip(s, (c: char) => c == '0');
    if Conceals(p) {
      assert forall i :: 0 <= i < |p| - 1 ==> s[i] == '0';
      assert z == |p| - 1;
    }
  }

  lemma {:induction false} JoinedChars(params: seq<string>)
    requires params != [] && forall p :: p in params ==> Parameter(p)
    ensures forall i :: 0 <= i < |Joined(params)| ==> SgrParam(Joined(params)[i])
    decreases |params|
  {
    assert Parameter(params[0]);
    if |params| > 1 {
      JoinedChars(params[1..]);
    }
  }

  /** The style sequence of proper parameters is recognised whole, and so is any other scanner's
      match for it. */
  lemma StyleIsOwn(params: seq<string>, rest: string)
    requires params != [] && forall p :: p in params ==> Parameter(p)
    ensures var style := [ESC, '['] + Joined(params) + "m";
            && OwnLength(style + rest) == (if exists p :: p in params && Conceals(p) then 0 else |style|)
            && ControlLength(style + rest) == |style|
  {
    var run := Joined(params);
    var s := [ESC, '['] + run + "m" + rest;
    var t := s[2..];
    assert t == run + "m" + rest;
    JoinedChars(params);
    SkipIs(t, SgrParam, |run|);
    SkipIs(t, CsiParam, |run|);
    assert s[2 + |run|] == 'm';
    ConcealAheadIsConceal(params, t);
  }

  /** The parameters of a run of digits and semicolons. */
  function Params(run: string): (params: seq<string>)
    requires forall i :: 0 <= i < |run| ==> SgrParam(run[i])
    ensures params != [] && forall p :: p in params ==> Parameter(p)
    ensures Joined(params) == run
    decreases |run|
  {
    var j := Skip(run, Digit);
    if j == |run| then [run]
    else
      var params := [run[..j]] + Params(run[j + 1..]);
      assert params[1..] == Params(run[j + 1..]);
      assert SgrParam(run[j]);
      assert run == run[..j] + ";" + run[j + 1..];
      params
  }

  /** A passing style sequence shows proper parameters. */
  lemma OwnIsStyle(s: string)
    requires OwnLength(s) > 0
    ensures exists params :: ProperParams(params) && s[..OwnLength(s)] == Show(Style(params))
  {
    var n := OwnLength(s);
    var run := s[2..n - 1];
    assert run == s[2..][..n - 3];
    var params := Params(run);
    assert s[..n] == [ESC, '['] + run + "m";
    assert s == s[..n] + s[n..];
    StyleIsOwn(params, s[n..]);
    assert ProperParams(params) && s[..n] == Show(Style(params));
  }

  /** Whatever the text, what is written is printable characters, newlines, tabs and complete
      style sequences without conceal. */
  lemma {:induction false} OutputIsInTheLanguage(s: string)
    ensures exists tokens :: (forall t :: t in tokens ==> Proper(t)) && ScrubOutput(s) == ShowAll(tokens)
    decreases |s|
  {
    if s == "" {
      assert ScrubOutput(s) == ShowAll([]);
    } else if OwnLength(s) > 0 {
      OutputIsInTheLanguage(s[OwnLength(s)..]);
      OwnIsStyle(s);
      var params :| ProperParams(params) && s[..OwnLength(s)] == Show(Style(params));
      OneMoreToken(Style(params), ScrubOutput(s[OwnLength(s)..]));
    } else if ControlLength(s) > 0 {
      OutputIsInTheLanguage(s[ControlLength(s)..]);
    } else {
      OutputIsInTheLanguage(s[1..]);
      OneMoreToken(Plain(s[0]), ScrubOutput(s[1..]));
    }
  }

  lemma OneMoreToken(t: Token, s: string)
    requires Proper(t)
    requires exists tokens :: (forall t :: t in tokens ==> Proper(t)) && s == ShowAll(tokens)
    ensures exists tokens :: (forall t :: t in tokens ==> Proper(t)) && Show(t) + s == ShowAll(tokens)
  {
    var tokens :| (forall t :: t in tokens ==> Proper(t)) && s == ShowAll(tokens);
    assert ([t] + tokens)[1..] == tokens;
    assert Show(t) + s == ShowAll([t] + tokens);
  }

  /** And every such text is written unchanged. */
  lemma {:induction false} LanguageIsUnchanged(tokens: seq<Token>)
    requires forall t :: t in tokens ==> Proper(t)
    ensures ScrubOutput(ShowAll(tokens)) == ShowAll(tokens)
    decreases |tokens|
  {
    if tokens != [] {
      LanguageIsUnchanged(tokens[1..]);
      TokenPasses(tokens[0], ShowAll(tokens[1..]));
    }
  }

  lemma TokenPasses(t: Token, rest: string)
    requires Proper(t)
    ensures ScrubOutput(Show(t) + rest) == Show(t) + ScrubOutput(rest)
  {
    var s := Show(t) + rest;
    assert s[|Show(t)|..] == rest && s[..|Show(t)|] == Show(t);
    if t.Style? {
      StyleIsOwn(t.params, rest);
    }
  }

  lemma OutputTwice(s: string)
    ensures ScrubOutput(ScrubOutput(s)) == ScrubOutput(s)
  {
    OutputIsInTheLanguage(s);
    var tokens :| (forall t :: t in tokens ==> Proper(t)) && ScrubOutput(s) == ShowAll(tokens);
    LanguageIsUnchanged(tokens);
  }

  /** The output differs from the controls scrub only in the styling it keeps. */
  lemma {:induction false} OutputAddsOnlyStyle(s: string)
    ensures ScrubControls(ScrubOutput(s)) == ScrubControls(s)
    decreases |s|
  {
    if s == "" {
    } else if OwnLength(s) > 0 {
      StyledStep(s);
      OutputAddsOnlyStyle(s[OwnLength(s)..]);
    } else if ControlLength(s) > 0 {
      OutputAddsOnlyStyle(s[ControlLength(s)..]);
    } else {
      PlainStep(s[0], ScrubOutput(s[1..]));
      OutputAddsOnlyStyle(s[1..]);
    }
  }

  /** A kept style is dropped by the controls scrub, from the output and from the text. */
  lemma StyledStep(s: string)
    requires OwnLength(s) > 0
    ensures var rest := s[OwnLength(s)..];
            ScrubControls(ScrubOutput(s)) == ScrubControls(ScrubOutput(rest)) && ScrubControls(s) == ScrubControls(rest)
  {
    StyledOutput(s);
    StyledText(s);
  }

  lemma StyledOutput(s: string)
    requires OwnLength(s) > 0
    ensures ScrubControls(ScrubOutput(s)) == ScrubControls(ScrubOutput(s[OwnLength(s)..]))
  {
    StyleIsDropped(s, ScrubOutput(s[OwnLength(s)..]));
  }

  lemma StyledText(s: string)
    requires OwnLength(s) > 0
    ensures ScrubControls(s) == ScrubControls(s[OwnLength(s)..])
  {
    OwnIsControl(s);
  }

  lemma OwnIsControl(s: string)
    requires OwnLength(s) > 0
    ensures ControlLength(s) == OwnLength(s)
  {
    OwnIsStyle(s);
    var params :| ProperParams(params) && s[..OwnLength(s)] == Show(Style(params));
    StyleIsOwn(params, s[OwnLength(s)..]);
    assert s[..OwnLength(s)] + s[OwnLength(s)..] == s;
  }

  lemma StyleIsDropped(s: string, rest: string)
    requires OwnLength(s) > 0
    ensures ScrubControls(s[..OwnLength(s)] + rest) == ScrubControls(rest)
  {
    OwnIsStyle(s);
    var params :| ProperParams(params) && s[..OwnLength(s)] == Show(Style(params));
    StyleIsOwn(params, rest);
    MatchStep(s[..OwnLength(s)], rest);
  }

  // ---- What a sequence takes with it ---------------------------------------------------

  predicate All(s: string, class_: char -> bool) {
    forall i :: 0 <= i < |s| ==> class_(s[i])
  }

  /** A control sequence (section 5.4 of ECMA-48) goes whole, and nothing of what follows. */
  lemma ControlSequenceGoes(params: string, inter: string, final: char, rest: string)
    requires All(params, CsiParam) && All(inter, CsiIntermediate) && CsiFinal(final)
    ensures ScrubControls([ESC, '['] + params + inter + [final] + rest) == ScrubControls(rest)
  {
    var m := [ESC, '['] + params + inter + [final];
    var s := m + rest;
    var behind := s[2 + |params|..];
    assert s[2..] == params + (inter + [final] + rest);
    SkipIs(s[2..], CsiParam, |params|);
    assert behind == inter + ([final] + rest);
    SkipIs(behind, CsiIntermediate, |inter|);
    assert s[2 + |params| + |inter|] == final;
    MatchStep(m, rest);
  }

  /** A command goes with its payload and its terminator, and nothing of what follows. */
  lemma CommandGoes(body: string, end: string, rest: string)
    requires All(body, OscBody) && (end == [BEL] || end == [ESC, '\\'])
    ensures ScrubControls([ESC, ']'] + body + end + rest) == ScrubControls(rest)
  {
    var m := [ESC, ']'] + body + end;
    var s := m + rest;
    assert s[2..] == body + (end + rest);
    SkipIs(s[2..], OscBody, |body|);
    assert s[2 + |body|] == end[0];
    assert |end| == 2 ==> s[2 + |body| + 1] == end[1];
    MatchStep(m, rest);
  }

  /** So does a device control, start-of-string, privacy or application string. */
  lemma StringGoes(kind: char, body: string, rest: string)
    requires kind in "PX^_" && All(body, DcsBody)
    ensures ScrubControls([ESC, kind] + body + [ESC, '\\'] + rest) == ScrubControls(rest)
  {
    var m := [ESC, kind] + body + [ESC, '\\'];
    var s := m + rest;
    assert s[2..] == body + ([ESC, '\\'] + rest);
    SkipIs(s[2..], DcsBody, |body|);
    assert s[2 + |body|] == ESC && s[2 + |body| + 1] == '\\';
    MatchStep(m, rest);
  }

  predicate Within(s: string, low: int, high: int) {
    forall i :: 0 <= i < |s| ==> low <= s[i] as int <= high
  }

  /** The families by their codes: a control sequence with digits, semicolons and question marks, bytes
      from 20 to 2F, and a final byte from 40 to 7E; a command with anything but BEL and ESC; and a string
      with anything but ESC. */
  lemma FamiliesGo(params: string, inter: string, final: char, kind: char, body: string, rest: string)
    requires (forall i :: 0 <= i < |params| ==> params[i] == ';' || params[i] == '?' || 0x30 <= params[i] as int <= 0x39)
    requires Within(inter, 0x20, 0x2F) && 0x40 <= final as int <= 0x7E
    requires forall i :: 0 <= i < |body| ==> body[i] as int != 0x1B
    ensures ScrubControls([ESC, '['] + params + inter + [final] + rest) == ScrubControls(rest)
    ensures kind == 'P' || kind == 'X' || kind == '^' || kind == '_' ==>
              ScrubControls([ESC, kind] + body + [ESC, '\\'] + rest) == ScrubControls(rest)
    ensures (forall i :: 0 <= i < |body| ==> body[i] as int != 0x07) ==>
              && ScrubControls([ESC, ']'] + body + [BEL] + rest) == ScrubControls(rest)
              && ScrubControls([ESC, ']'] + body + [ESC, '\\'] + rest) == ScrubControls(rest)
  {
    ControlSequenceGoes(params, inter, final, rest);
    if kind == 'P' || kind == 'X' || kind == '^' || kind == '_' {
      StringGoes(kind, body, rest);
    }
    if forall i :: 0 <= i < |body| ==> body[i] as int != 0x07 {
      CommandGoes(body, [BEL], rest);
      CommandGoes(body, [ESC, '\\'], rest);
    }
  }

  /** Of any other escape the character behind it goes, whatever that is, and no more. */
  lemma OtherEscapeGoes(c: char, rest: string)
    requires c != '[' && c != ']' && c != 'P' && c != 'X' && c != '^' && c != '_'
    ensures ScrubControls([ESC, c] + rest) == ScrubControls(rest)
    ensures ScrubEscapes([ESC, c] + rest) == ScrubEscapes(rest)
  {
    var s := [ESC, c] + rest;
    assert c !in "PX^_" && s[2..] == rest;
    MatchStep([ESC, c], rest);
  }

  lemma SkipsAll(a: string, b: string, class_: char -> bool)
    requires All(a, class_) && (b == "" || !class_(b[0]))
    ensures Skip(a + b, class_) == |a|
  {
    var s := a + b;
    if b == "" {
      assert s == a;
      SkipsWhole(a, class_);
    } else {
      assert s[|a|] == b[0];
      SkipIs(s, class_, |a|);
    }
  }

  lemma {:induction false} SkipsWhole(a: string, class_: char -> bool)
    requires All(a, class_)
    ensures Skip(a, class_) == |a|
    decreases |a|
  {
    if a != "" {
      SkipsWhole(a[1..], class_);
    }
  }

  lemma BrokenLength(s: string, params: string, inter: string, rest: string)
    requires |s| >= 2 && s[0] == ESC && s[1] == '['
    requires s[2..] == params + (inter + rest) && s[2 + |params|..] == inter + rest
    requires All(params, CsiParam) && All(inter, CsiIntermediate)
    requires rest == "" || !(CsiIntermediate(rest[0]) || CsiFinal(rest[0]) || (inter == "" && CsiParam(rest[0])))
    ensures ControlLength(s) == 2
  {
    SkipsAll(params, inter + rest, CsiParam);
    SkipsAll(inter, rest, CsiIntermediate);
    var q := 2 + |params| + |inter|;
    assert rest != "" ==> s[q] == (inter + rest)[|inter|] == rest[0];
  }

  /** A control sequence that breaks off before its final byte loses its introducer alone. */
  lemma BrokenSequenceStays(params: string, inter: string, rest: string)
    requires All(params, CsiParam) && All(inter, CsiIntermediate)
    requires rest == "" || !(CsiIntermediate(rest[0]) || CsiFinal(rest[0]) || (inter == "" && CsiParam(rest[0])))
    ensures ScrubControls([ESC, '['] + (params + (inter + rest))) == ScrubControls(params + (inter + rest))
  {
    var tail := params + (inter + rest);
    var s := [ESC, '['] + tail;
    assert s[2..] == tail && tail[|params|..] == inter + rest;
    assert s[2 + |params|..] == s[2..][|params|..];
    BrokenLength(s, params, inter, rest);
    MatchStep([ESC, '['], tail);
  }

  /** What cuts a string off: the end of the text, or an escape that does not terminate it. */
  predicate CutsOff(rest: string) {
    rest == "" || (rest[0] == ESC && !(|rest| > 1 && rest[1] == '\\'))
  }

  /** A command or string that is cut off goes as far as it came. */
  lemma CutOffGoes(kind: char, body: string, rest: string)
    requires CutsOff(rest)
    requires (kind == ']' && All(body, OscBody)) || (kind in "PX^_" && All(body, DcsBody))
    ensures ScrubControls([ESC, kind] + body + rest) == ScrubControls(rest)
  {
    var m := [ESC, kind] + body;
    var s := m + rest;
    assert s[2..] == body + rest && s[2 + |body|..] == rest;
    if kind == ']' {
      SkipsAll(body, rest, OscBody);
    } else {
      SkipsAll(body, rest, DcsBody);
    }
    assert rest != "" ==> s[2 + |body|] == rest[0];
    assert |rest| > 1 ==> s[2 + |body| + 1] == rest[1];
    MatchStep(m, rest);
  }

  // ---- Accumulating a stream ---------------------------------------------------------

  /** The text stops inside its leading escape sequence: what comes next can belong to it. */
  predicate Open(s: string)
    requires s != "" && s[0] == ESC
  {
    if |s| == 1 then true
    else if s[1] == '[' then
      var p := 2 + Skip(s[2..], CsiParam);
      p + Skip(s[p..], CsiIntermediate) == |s|
    else if s[1] == ']' then
      var p := 2 + Skip(s[2..], OscBody);
      p == |s| || (s[p] == ESC && p + 1 == |s|)
    else if s[1] in "PX^_" then
      var p := 2 + Skip(s[2..], DcsBody);
      p == |s| || p + 1 == |s|
    else false
  }

  predicate EndsInside(s: string)
    decreases |s|
  {
    if s == "" then false
    else if s[0] == ESC && Open(s) then true
    else EndsInside(s[if ControlLength(s) > 0 then ControlLength(s) else 1..])
  }

  lemma SkipMore(s: string, more: string, class_: char -> bool)
    requires Skip(s, class_) < |s|
    ensures Skip(s + more, class_) == Skip(s, class_)
  {
    SkipIs(s + more, class_, Skip(s, class_));
  }

  lemma SkipAll(s: string, more: string, class_: char -> bool)
    requires Skip(s, class_) == |s| && (more == "" || !class_(more[0]))
    ensures Skip(s + more, class_) == |s|
  {
    if more == "" {
      assert s + more == s;
    } else {
      SkipIs(s + more, class_, |s|);
    }
  }

  lemma CsiMore(s: string, more: string)
    requires |s| >= 2 && s[0] == ESC && s[1] == '[' && !Open(s)
    ensures CsiLength(s + more) == CsiLength(s)
  {
    var p := 2 + Skip(s[2..], CsiParam);
    assert (s + more)[2..] == s[2..] + more;
    SkipMore(s[2..], more, CsiParam);
    assert (s + more)[p..] == s[p..] + more;
    SkipMore(s[p..], more, CsiIntermediate);
  }

  lemma StringMore(s: string, more: string)
    requires |s| >= 2 && s[0] == ESC && !Open(s)
    ensures s[1] == ']' ==> OscLength(s + more) == OscLength(s)
    ensures s[1] in "PX^_" ==> DcsLength(s + more) == DcsLength(s)
  {
    assert (s + more)[2..] == s[2..] + more;
    if s[1] == ']' {
      SkipMore(s[2..], more, OscBody);
    } else if s[1] in "PX^_" {
      SkipMore(s[2..], more, DcsBody);
    }
  }

  /** A finished match is the same whatever follows. */
  lemma MatchMore(s: string, more: string)
    requires s != "" && (s[0] == ESC ==> !Open(s))
    ensures ControlLength(s + more) == ControlLength(s)
  {
    if |s| >= 2 && s[0] == ESC {
      if s[1] == '[' {
        CsiMore(s, more);
      } else {
        assert CsiLength(s + more) == 0 && CsiLength(s) == 0;
        StringMore(s, more);
      }
    }
  }

  /** A character that an open sequence takes in. */
  function TakenIn(s: string): (c: char)
    requires s != "" && s[0] == ESC && Open(s)
    ensures !Control(c)
  {
    if |s| == 1 then 'c'
    else if s[1] == '[' then 'm'
    else '\\'
  }

  lemma OpenTakesIn(s: string)
    requires s != "" && s[0] == ESC && Open(s)
    ensures ControlLength(s + [TakenIn(s)]) == |s| + 1
  {
    var more := [TakenIn(s)];
    if |s| >= 2 {
      assert (s + more)[2..] == s[2..] + more;
      if s[1] == '[' {
        CsiTakesIn(s);
      } else if s[1] == ']' {
        StringTakesIn(s, OscBody);
      } else {
        StringTakesIn(s, DcsBody);
      }
    }
  }

  lemma CsiTakesIn(s: string)
    requires |s| >= 2 && s[0] == ESC && s[1] == '[' && Open(s)
    ensures CsiLength(s + "m") == |s| + 1
  {
    var p := 2 + Skip(s[2..], CsiParam);
    SkipBehind(s, 2, "m", CsiParam);
    SkipBehind(s, p, "m", CsiIntermediate);
  }

  /** A character of neither class ends a run wherever it stood. */
  lemma SkipBehind(s: string, from: nat, more: string, class_: char -> bool)
    requires from <= |s| && more != "" && !class_(more[0])
    ensures from <= |s + more| && Skip((s + more)[from..], class_) == Skip(s[from..], class_)
  {
    assert (s + more)[from..] == s[from..] + more;
    if Skip(s[from..], class_) < |s| - from {
      SkipMore(s[from..], more, class_);
    } else {
      SkipAll(s[from..], more, class_);
    }
  }

  lemma StringTakesIn(s: string, body: char -> bool)
    requires |s| >= 2 && body('\\')
    ensures var t := s + "\\"; var p := 2 + Skip(s[2..], body);
            2 + Skip(t[2..], body) == if p == |s| then |t| else p
  {
    assert (s + "\\")[2..] == s[2..] + "\\";
    if 2 + Skip(s[2..], body) == |s| {
      AllSkipped(s[2..] + "\\", body);
    } else {
      SkipMore(s[2..], "\\", body);
    }
  }

  lemma {:induction false} AllSkipped(s: string, class_: char -> bool)
    requires forall i :: 0 <= i < |s| ==> class_(s[i])
    ensures Skip(s, class_) == |s|
    decreases |s|
  {
    if s != "" {
      AllSkipped(s[1..], class_);
    }
  }

  /** A closed text's first token, whatever follows the text: plain, or a match. */
  lemma FirstToken(a: string, b: string)
    requires a != "" && (a[0] == ESC ==> !Open(a))
    ensures var n := ControlLength(a);
            && (n == 0 ==> ScrubControls(a + b) == [a[0]] + ScrubControls(a[1..] + b))
            && (n > 0 ==> ScrubControls(a + b) == ScrubControls(a[n..] + b))
  {
    var n := ControlLength(a);
    var m := if n > 0 then n else 1;
    MatchMore(a, b);
    assert a[..m] + a[m..] == a;
    Associative(a[..m], a[m..], b);
    if n > 0 {
      MatchStep(a[..n], a[n..] + b);
    } else {
      PlainStep(a[0], a[1..] + b);
    }
  }

  /** Scrubbing piece by piece, when no piece ends inside a sequence. */
  lemma {:induction false} ScrubPieces(a: string, b: string)
    requires !EndsInside(a)
    ensures ScrubControls(a + b) == ScrubControls(a) + ScrubControls(b)
    decreases |a|
  {
    if a == "" {
      assert a + b == b;
    } else {
      var n := if ControlLength(a) > 0 then ControlLength(a) else 1;
      FirstToken(a, b);
      ScrubPieces(a[n..], b);
      if ControlLength(a) == 0 {
        Associative([a[0]], ScrubControls(a[1..]), ScrubControls(b));
      }
    }
  }

  lemma ScrubAfterPrintable(p: string, b: string)
    requires Printable(p)
    ensures ScrubControls(p + b) == p + ScrubControls(b)
  {
    PrintableIsClosed(p);
    ScrubPieces(p, b);
    ControlsKeepPrintable(p);
  }

  lemma {:induction false} PrintableIsClosed(p: string)
    requires Printable(p)
    ensures !EndsInside(p)
    decreases |p|
  {
    if p != "" {
      assert p[0] in p;
      PrintableIsClosed(p[1..]);
    }
  }

  /** A text that ends inside a sequence, and the character the sequence would have taken in. */
  lemma {:induction false} ScrubSplitsSequence(a: string)
    requires EndsInside(a)
    ensures exists c :: !Control(c) && ScrubControls(a + [c]) != ScrubControls(a) + [c]
    decreases |a|
  {
    if a[0] == ESC && Open(a) {
      OpenIsTakenIn(a);
    } else {
      var n := if ControlLength(a) > 0 then ControlLength(a) else 1;
      ScrubSplitsSequence(a[n..]);
      var c :| !Control(c) && ScrubControls(a[n..] + [c]) != ScrubControls(a[n..]) + [c];
      FirstToken(a, [c]);
      if ControlLength(a) == 0 {
        SamePrefix(a[0], ScrubControls(a[1..]) + [c], ScrubControls(a[1..] + [c]));
        Associative([a[0]], ScrubControls(a[1..]), [c]);
      }
    }
  }

  lemma OpenIsTakenIn(a: string)
    requires a != "" && a[0] == ESC && Open(a)
    ensures exists c :: !Control(c) && ScrubControls(a + [c]) != ScrubControls(a) + [c]
  {
    var c := TakenIn(a);
    OpenTakesIn(a);
    assert a + [c] + "" == a + [c];
    MatchStep(a + [c], "");
    assert ScrubControls(a + [c]) == "";
  }

  lemma SamePrefix(c: char, s: string, t: string)
    requires s != t
    ensures [c] + s != [c] + t
  {
    assert ([c] + s)[1..] == s && ([c] + t)[1..] == t;
  }

  /** Re-scrubbing an accumulated tail gives what scrubbing the whole stream gives exactly when the
      tail so far did not end inside a sequence. */
  lemma RescrubbingIsExact(a: string)
    ensures (forall b :: ScrubControls(ScrubControls(a) + b) == ScrubControls(a + b)) <==> !EndsInside(a)
  {
    ControlsLeaveNone(a);
    forall b
      ensures ScrubControls(ScrubControls(a) + b) == ScrubControls(a) + ScrubControls(b)
    {
      ScrubAfterPrintable(ScrubControls(a), b);
    }
    if EndsInside(a) {
      ScrubSplitsSequence(a);
      var c :| !Control(c) && ScrubControls(a + [c]) != ScrubControls(a) + [c];
      ControlsKeepPrintable([c]);
      assert ScrubControls(ScrubControls(a) + [c]) != ScrubControls(a + [c]);
    } else {
      forall b
        ensures ScrubControls(a + b) == ScrubControls(a) + ScrubControls(b)
      {
        ScrubPieces(a, b);
      }
    }
  }
}
