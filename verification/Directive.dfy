/** The `/parallel [SPEC --] TASK ...` grammar of `directive.py`.  The two separator patterns are
    predicates on a position: a word delimited by whitespace or by the ends of the text.
 */
module Directive {
  import opened Wrappers

  /** What `str.strip` and `\s` take for whitespace. */
  predicate Space(c: char) {
    || '\U{09}' <= c <= '\U{0D}' || '\U{1C}' <= c <= '\U{20}' || c == '\U{85}' || c == '\U{A0}'
    || c == '\U{1680}' || '\U{2000}' <= c <= '\U{200A}' || c == '\U{2028}' || c == '\U{2029}'
    || c == '\U{202F}' || c == '\U{205F}' || c == '\U{3000}'
  }

  function Lower(c: char): char {
    if 'A' <= c <= 'Z' then (c as int + 32) as char else c
  }

  // ---- Tokens ------------------------------------------------------------------------

  /** A separator: not empty, without whitespace or capitals. */
  type Word = w: string | w != "" && forall k :: 0 <= k < |w| ==> !Space(w[k]) && Lower(w[k]) == w[k]
    witness "--"

  /** The word's letters, in any case, stand at the position. */
  predicate Spells(s: string, i: nat, w: string)
    decreases |w|
  {
    w == "" || (i < |s| && Lower(s[i]) == w[0] && Spells(s, i + 1, w[1..]))
  }

  /** The word stands at the position, delimited on both sides. */
  predicate TokenAt(s: string, i: nat, w: Word) {
    && i + |w| <= |s| && Spells(s, i, w)
    && (i == 0 || Space(s[i - 1]))
    && (i + |w| == |s| || Space(s[i + |w|]))
  }

  ghost predicate NoToken(s: string, w: Word) {
    forall i: nat :: !TokenAt(s, i, w)
  }

  /** The first token at or after the position; the length of the text when there is none. */
  function Find(s: string, w: Word, from: nat): (i: nat)
    requires from <= |s|
    ensures from <= i <= |s| && (i < |s| ==> i + |w| <= |s|)
    decreases |s| - from
  {
    if from == |s| || TokenAt(s, from, w) then from else Find(s, w, from + 1)
  }

  lemma {:induction false} FindIsFirst(s: string, w: Word, from: nat)
    requires from <= |s|
    ensures var i := Find(s, w, from);
            && (i < |s| ==> TokenAt(s, i, w))
            && forall j :: from <= j < i ==> !TokenAt(s, j, w)
    decreases |s| - from
  {
    if from < |s| && !TokenAt(s, from, w) {
      FindIsFirst(s, w, from + 1);
    }
  }

  lemma {:induction false} Found(s: string, w: Word, from: nat)
    requires from <= |s| && Find(s, w, from) < |s|
    ensures TokenAt(s, Find(s, w, from), w)
    decreases |s| - from
  {
    if !TokenAt(s, from, w) {
      Found(s, w, from + 1);
    }
  }

  lemma NoneFound(s: string, w: Word)
    requires Find(s, w, 0) == |s|
    ensures NoToken(s, w)
  {
    FindIsFirst(s, w, 0);
  }

  lemma FindFromIs(s: string, w: Word, from: nat, i: nat)
    requires from <= i <= |s| && (i < |s| ==> TokenAt(s, i, w))
    requires forall j :: from <= j < i ==> !TokenAt(s, j, w)
    ensures Find(s, w, from) == i
  {
    FindIsFirst(s, w, from);
  }

  /** Every token, as `finditer` finds them: each search resumes behind the last match. */
  function Starts(s: string, w: Word, from: nat): (r: seq<nat>)
    requires from <= |s|
    decreases |s| - from
  {
    var i := Find(s, w, from);
    if i == |s| then [] else [i] + Starts(s, w, i + |w|)
  }

  /** A word has no whitespace, so two tokens cannot overlap and none is passed over. */
  lemma {:induction false} StartsAreAll(s: string, w: Word, from: nat, j: nat)
    requires from <= j && TokenAt(s, j, w)
    ensures j in Starts(s, w, from)
    decreases |s| - from
  {
    var i := Find(s, w, from);
    FindIsFirst(s, w, from);
    if j != i {
      NoOverlap(s, i, j, w);
      StartsAreAll(s, w, i + |w|, j);
    }
  }

  lemma {:induction false} WordHasNoSpace(s: string, i: nat, w: Word)
    requires i + |w| <= |s| && Spells(s, i, w)
    ensures forall k :: i <= k < i + |w| ==> !Space(s[k])
    decreases |w|
  {
    assert !Space(s[i]) by { assert Lower(s[i]) == w[0]; }
    if |w| > 1 {
      WordHasNoSpace(s, i + 1, w[1..]);
    }
  }

  lemma NoOverlap(s: string, i: nat, j: nat, w: Word)
    requires i < j && TokenAt(s, i, w) && TokenAt(s, j, w)
    ensures i + |w| < j
  {
    assert Space(s[j - 1]);
    WordHasNoSpace(s, i, w);
  }

  lemma {:induction false} StartsAreTokens(s: string, w: Word, from: nat)
    requires from <= |s|
    ensures forall j :: j in Starts(s, w, from) ==> from <= j && TokenAt(s, j, w)
    decreases |s| - from
  {
    var i := Find(s, w, from);
    if i < |s| {
      FindIsFirst(s, w, from);
      StartsAreTokens(s, w, i + |w|);
    }
  }

  lemma {:induction false} StartsIncrease(s: string, w: Word, from: nat)
    requires from <= |s|
    ensures var r := Starts(s, w, from); forall a, b :: 0 <= a < b < |r| ==> r[a] < r[b]
    decreases |s| - from
  {
    var i := Find(s, w, from);
    if i < |s| {
      StartsIncrease(s, w, i + |w|);
      StartsAreTokens(s, w, i + |w|);
      StartsAgain(s, w, from);
      LeastFirst(i, Starts(s, w, i + |w|));
    }
  }

  lemma LeastFirst(i: nat, rest: seq<nat>)
    requires forall j :: j in rest ==> i < j
    requires forall a, b :: 0 <= a < b < |rest| ==> rest[a] < rest[b]
    ensures var r := [i] + rest; forall a, b :: 0 <= a < b < |r| ==> r[a] < r[b]
  {
    assert forall b :: 0 <= b < |rest| ==> rest[b] in rest;
  }

  /** Whitespace keeps tokens apart: those of the two sides are those of the whole. */
  lemma TokenAcross(a: string, c: char, b: string, i: nat, w: Word)
    requires Space(c)
    ensures TokenAt(a + [c] + b, i, w) <==>
              || TokenAt(a, i, w)
              || (i > |a| && TokenAt(b, i - |a| - 1, w))
  {
    var s := a + [c] + b;
    assert s[|a|] == c;
    if i <= |a| {
      if i + |w| <= |a| {
        SpellsInFront(a, [c] + b, i, w);
        assert s == a + ([c] + b);
      } else if i + |w| <= |s| && Spells(s, i, w) {
        WordHasNoSpace(s, i, w);
      }
    } else {
      SpellsInTail(a + [c], b, i - |a| - 1, w);
      assert |a| + 1 < i <= |s| ==> s[i - 1] == b[i - |a| - 2];
      assert i + |w| < |s| ==> s[i + |w|] == b[i - |a| - 1 + |w|];
    }
  }

  lemma {:induction false} SpellsInFront(a: string, b: string, i: nat, w: string)
    requires i + |w| <= |a|
    ensures Spells(a + b, i, w) <==> Spells(a, i, w)
    decreases |w|
  {
    if w != "" {
      SpellsInFront(a, b, i + 1, w[1..]);
    }
  }

  lemma {:induction false} SpellsInTail(a: string, b: string, i: nat, w: string)
    ensures Spells(a + b, |a| + i, w) <==> Spells(b, i, w)
    decreases |w|
  {
    if w != "" {
      SpellsInTail(a, b, i + 1, w[1..]);
    }
  }

  lemma NoTokenAcross(a: string, c: char, b: string, w: Word)
    requires Space(c)
    ensures NoToken(a + [c] + b, w) <==> NoToken(a, w) && NoToken(b, w)
  {
    forall i: nat
      ensures TokenAt(a + [c] + b, i, w) <==> TokenAt(a, i, w) || (i > |a| && TokenAt(b, i - |a| - 1, w))
    {
      TokenAcross(a, c, b, i, w);
    }
    if i: nat :| TokenAt(b, i, w) {
      assert TokenAt(a + [c] + b, |a| + 1 + i, w);
    }
  }

  /** The first token of the whole when the left side has none. */
  lemma FindAcross(a: string, c: char, b: string, w: Word)
    requires Space(c) && NoToken(a, w)
    ensures Find(a + [c] + b, w, 0) == |a| + 1 + Find(b, w, 0)
  {
    var s := a + [c] + b;
    forall i: nat
      ensures TokenAt(s, i, w) <==> (i > |a| && TokenAt(b, i - |a| - 1, w))
    {
      TokenAcross(a, c, b, i, w);
    }
    FindIsFirst(b, w, 0);
    FindFromIs(s, w, 0, |a| + 1 + Find(b, w, 0));
  }

  // ---- Any case ----------------------------------------------------------------------

  /** The letter or its capital. */
  predicate EitherCase(c: char, letter: char) {
    c == letter || ('a' <= letter <= 'z' && c as int + 32 == letter as int)
  }

  lemma {:induction false} SpellsAnyCase(s: string, i: nat, w: string)
    requires i + |w| <= |s| && forall k :: 0 <= k < |w| ==> !('A' <= w[k] <= 'Z')
    ensures Spells(s, i, w) <==> forall k :: 0 <= k < |w| ==> EitherCase(s[i + k], w[k])
    decreases |w|
  {
    if w != "" {
      SpellsAnyCase(s, i + 1, w[1..]);
      assert Lower(s[i]) == w[0] <==> EitherCase(s[i], w[0]);
      assert forall k :: 0 < k < |w| ==> w[k] == w[1..][k - 1] && s[i + k] == s[i + 1 + (k - 1)];
      if forall k :: 0 <= k < |w| ==> EitherCase(s[i + k], w[k]) {
        assert EitherCase(s[i + 0], w[0]);
        forall k | 0 <= k < |w[1..]|
          ensures EitherCase(s[i + 1 + k], w[1..][k])
        {
          assert EitherCase(s[i + (k + 1)], w[k + 1]);
        }
      }
    }
  }

  /** A separator is its letters in either case each, delimited by whitespace or the text's ends. */
  lemma TokenIsAnyCase(s: string, i: nat, w: Word)
    ensures TokenAt(s, i, w) <==>
              && i + |w| <= |s|
              && (forall k :: 0 <= k < |w| ==> EitherCase(s[i + k], w[k]))
              && (i == 0 || Space(s[i - 1])) && (i + |w| == |s| || Space(s[i + |w|]))
  {
    if i + |w| <= |s| {
      forall k | 0 <= k < |w|
        ensures !('A' <= w[k] <= 'Z')
      {
        assert Lower(w[k]) == w[k];
      }
      SpellsAnyCase(s, i, w);
    }
  }

  /** The whitespace characters of Python's `str`, by their codes. */
  lemma SpacesAreListed(c: char)
    ensures Space(c) <==>
              var n := c as int;
              || n in {0x09, 0x0A, 0x0B, 0x0C, 0x0D, 0x1C, 0x1D, 0x1E, 0x1F, 0x20, 0x85, 0xA0, 0x1680}
              || 0x2000 <= n <= 0x200A || n in {0x2028, 0x2029, 0x202F, 0x205F, 0x3000}
  {
  }

  // ---- Stripping ---------------------------------------------------------------------

  function LStrip(s: string): (r: string)
    ensures r != "" ==> !Space(r[0])
  {
    if s != "" && Space(s[0]) then LStrip(s[1..]) else s
  }

  function RStrip(s: string): (r: string)
    ensures r <= s
    ensures r != "" ==> !Space(r[|r| - 1])
  {
    if s != "" && Space(s[|s| - 1]) then RStrip(s[..|s| - 1]) else s
  }

  function Strip(s: string): (r: string)
    ensures Stripped(r)
  {
    RStrip(LStrip(s))
  }

  predicate Stripped(s: string) {
    s != "" ==> !Space(s[0]) && !Space(s[|s| - 1])
  }

  lemma {:induction false} LStripTokens(s: string, w: Word)
    requires NoToken(s, w)
    ensures NoToken(LStrip(s), w)
    decreases |s|
  {
    if s != "" && Space(s[0]) {
      assert s == "" + [s[0]] + s[1..];
      NoTokenAcross("", s[0], s[1..], w);
      LStripTokens(s[1..], w);
    }
  }

  lemma {:induction false} RStripTokens(s: string, w: Word)
    requires NoToken(s, w)
    ensures NoToken(RStrip(s), w)
    decreases |s|
  {
    if s != "" && Space(s[|s| - 1]) {
      assert s == s[..|s| - 1] + [s[|s| - 1]] + "";
      NoTokenAcross(s[..|s| - 1], s[|s| - 1], "", w);
      RStripTokens(s[..|s| - 1], w);
    }
  }

  lemma StripTokens(s: string, w: Word)
    requires NoToken(s, w)
    ensures NoToken(Strip(s), w)
  {
    LStripTokens(s, w);
    RStripTokens(LStrip(s), w);
  }

  lemma StripStripped(s: string)
    requires Stripped(s)
    ensures Strip(s) == s && Strip(" " + s) == s && Strip(s + " ") == s && Strip(" " + (s + " ")) == s
  {
    if s == "" {
      assert s + " " == " " && " " + s == " ";
      assert LStrip(" ") == "" && LStrip(" " + " ") == LStrip((" " + " ")[1..]);
      assert (" " + " ")[1..] == " ";
    } else {
      SpaceBefore(s);
      SpaceBefore(s + " ");
      SpaceAfter(s);
    }
  }

  lemma SpaceBefore(s: string)
    requires s != "" && !Space(s[0])
    ensures LStrip(" " + s) == s && LStrip(s) == s
  {
    assert (" " + s)[1..] == s;
  }

  lemma SpaceAfter(s: string)
    requires s != "" && !Space(s[|s| - 1])
    ensures RStrip(s + " ") == s
  {
    assert (s + " ")[..|s|] == s;
  }

  // ---- Segments ----------------------------------------------------------------------

  /** The two separators: the one that starts a segment, and the one that ends its spec. */
  datatype Grammar = Grammar(command: Word, dashes: Word)

  /** The source's separators. */
  const STEER := Grammar("/parallel", "--")

  /** `spec` is "" for one default lane. */
  datatype Segment = Segment(spec: string, task: string)

  datatype DirectiveError = NoTask | NoSpec | NoTaskAfter(spec: string)

  function ParseSegment(gr: Grammar, raw: string): Result<Segment, DirectiveError> {
    ParseBody(gr, Strip(raw))
  }

  function ParseBody(gr: Grammar, body: string): Result<Segment, DirectiveError> {
    if body == "" then Err(NoTask)
    else
      var at := Find(body, gr.dashes, 0);
      if at == |body| then Ok(Segment("", body))
      else
        var spec, task := Strip(body[..at]), Strip(body[at + |gr.dashes|..]);
        if spec == "" then Err(NoSpec)
        else if task == "" then Err(NoTaskAfter(spec))
        else Ok(Segment(spec, task))
  }

  /** What a segment that was parsed looks like. */
  ghost predicate Proper(gr: Grammar, g: Segment) {
    && g.task != "" && Stripped(g.task) && Stripped(g.spec)
    && NoToken(g.task, gr.command) && NoToken(g.spec, gr.command)
    && NoToken(if g.spec == "" then g.task else g.spec, gr.dashes)
  }

  function Body(gr: Grammar, g: Segment): string {
    if g.spec == "" then g.task else g.spec + " " + (gr.dashes + " " + g.task)
  }

  /** A spec separator is not taken for the start of a segment. */
  ghost predicate Apart(gr: Grammar) {
    NoToken(gr.dashes, gr.command)
  }

  lemma BodyIsOneSegment(gr: Grammar, g: Segment)
    requires Proper(gr, g) && Apart(gr)
    ensures Body(gr, g) != "" && Stripped(Body(gr, g)) && NoToken(Body(gr, g), gr.command)
  {
    if g.spec != "" {
      NoTokenAcross(g.spec, ' ', gr.dashes + [' '] + g.task, gr.command);
      NoTokenAcross(gr.dashes, ' ', g.task, gr.command);
      assert Body(gr, g)[0] == g.spec[0];
      assert Body(gr, g)[|Body(gr, g)| - 1] == g.task[|g.task| - 1];
    }
  }

  lemma TokenAtStart(w: Word, t: string)
    requires t == "" || Space(t[0])
    ensures TokenAt(w + t, 0, w)
  {
    SpellsItself(w, t, 0);
  }

  lemma {:induction false} SpellsItself(w: Word, t: string, i: nat)
    requires i <= |w|
    ensures Spells(w + t, i, w[i..])
    decreases |w| - i
  {
    if i < |w| {
      SpellsItself(w, t, i + 1);
      assert w[i..][1..] == w[i + 1..];
    }
  }

  lemma FindSpec(gr: Grammar, g: Segment)
    requires Proper(gr, g) && g.spec != ""
    ensures Find(Body(gr, g), gr.dashes, 0) == |g.spec| + 1
  {
    var rest := gr.dashes + " " + g.task;
    assert rest == gr.dashes + (" " + g.task);
    TokenAtStart(gr.dashes, " " + g.task);
    FindAcross(g.spec, ' ', rest, gr.dashes);
  }

  lemma BodySlices(gr: Grammar, g: Segment)
    requires g.spec != ""
    ensures Body(gr, g)[..|g.spec| + 1] == g.spec + " "
    ensures Body(gr, g)[|g.spec| + 1 + |gr.dashes|..] == " " + g.task
  {
    assert Body(gr, g) == (g.spec + " ") + (gr.dashes + (" " + g.task));
    Around(g.spec + " ", gr.dashes, " " + g.task);
  }

  lemma Around<T>(a: seq<T>, w: seq<T>, t: seq<T>)
    ensures (a + (w + t))[..|a|] == a && (a + (w + t))[|a| + |w|..] == t
  {
  }

  lemma SpecParts(gr: Grammar, g: Segment)
    requires Proper(gr, g) && g.spec != ""
    ensures Strip(Body(gr, g)[..|g.spec| + 1]) == g.spec
    ensures Strip(Body(gr, g)[|g.spec| + 1 + |gr.dashes|..]) == g.task
  {
    BodySlices(gr, g);
    StripStripped(g.spec);
    StripStripped(g.task);
  }

  lemma BodyRoundTrip(gr: Grammar, g: Segment)
    requires Proper(gr, g)
    ensures ParseBody(gr, Body(gr, g)) == Ok(g)
  {
    if g.spec != "" {
      FindSpec(gr, g);
      SpecParts(gr, g);
    } else {
      FindNone(g.task, gr.dashes, 0);
    }
  }

  lemma FindNone(s: string, w: Word, from: nat)
    requires NoToken(s, w) && from <= |s|
    ensures Find(s, w, from) == |s|
  {
    FindIsFirst(s, w, from);
  }

  lemma SegmentRoundTrip(gr: Grammar, g: Segment, raw: string)
    requires Proper(gr, g) && Strip(raw) == Body(gr, g)
    ensures ParseSegment(gr, raw) == Ok(g)
  {
    BodyRoundTrip(gr, g);
  }

  /** The part of a text before a token, and the part after it. */
  lemma AroundToken(s: string, i: nat, w: Word, v: Word)
    requires TokenAt(s, i, w)
    requires forall j :: 0 <= j < i ==> !TokenAt(s, j, v)
    ensures NoToken(s[..i], v)
    ensures NoToken(s, v) ==> NoToken(s[i + |w|..], v)
  {
    if i > 0 {
      BeforeToken(s, i, v);
    }
    if i + |w| < |s| && NoToken(s, v) {
      AfterSpace(s, i + |w|, v);
    }
  }

  lemma BeforeToken(s: string, i: nat, v: Word)
    requires 0 < i <= |s| && Space(s[i - 1])
    requires forall j :: 0 <= j < i ==> !TokenAt(s, j, v)
    ensures NoToken(s[..i], v)
  {
    var a, c, b := s[..i - 1], s[i - 1], s[i..];
    assert s == a + [c] + b;
    forall j: nat
      ensures !TokenAt(a, j, v)
    {
      TokenAcross(a, c, b, j, v);
    }
    assert s[..i] == a + [c] + "";
    NoTokenAcross(a, c, "", v);
  }

  lemma AfterSpace(s: string, i: nat, v: Word)
    requires i < |s| && Space(s[i]) && NoToken(s, v)
    ensures NoToken(s[i..], v)
  {
    assert s == s[..i] + [s[i]] + s[i + 1..];
    NoTokenAcross(s[..i], s[i], s[i + 1..], v);
    assert s[i..] == "" + [s[i]] + s[i + 1..];
    NoTokenAcross("", s[i], s[i + 1..], v);
  }

  lemma ParsedIsProper(gr: Grammar, raw: string)
    requires NoToken(raw, gr.command) && ParseSegment(gr, raw).Ok?
    ensures Proper(gr, ParseSegment(gr, raw).value)
  {
    StripTokens(raw, gr.command);
    ParsedBodyIsProper(gr, Strip(raw));
  }

  lemma ParsedBodyIsProper(gr: Grammar, body: string)
    requires NoToken(body, gr.command) && Stripped(body) && ParseBody(gr, body).Ok?
    ensures Proper(gr, ParseBody(gr, body).value)
  {
    var at := Find(body, gr.dashes, 0);
    if at < |body| {
      PartsAreProper(gr, body, at);
    } else {
      NoneFound(body, gr.dashes);
    }
  }

  lemma PartsAreProper(gr: Grammar, body: string, at: nat)
    requires NoToken(body, gr.command) && at == Find(body, gr.dashes, 0) && at < |body|
    ensures NoToken(Strip(body[..at]), gr.command) && NoToken(Strip(body[..at]), gr.dashes)
    ensures NoToken(Strip(body[at + |gr.dashes|..]), gr.command)
  {
    FindIsFirst(body, gr.dashes, 0);
    AroundToken(body, at, gr.dashes, gr.command);
    AroundToken(body, at, gr.dashes, gr.dashes);
    StripTokens(body[..at], gr.command);
    StripTokens(body[..at], gr.dashes);
    StripTokens(body[at + |gr.dashes|..], gr.command);
  }

  // ---- Directives --------------------------------------------------------------------

  /** A stretch of the text. */
  datatype Span = Span(from: nat, end: nat)

  function Cut(s: string, span: Span): string {
    if span.from <= span.end <= |s| then s[span.from..span.end] else ""
  }

  /** What follows each token, up to the next; `from` is where the first of them ends. */
  function Pieces(s: string, w: Word, from: nat): (r: seq<Span>)
    requires from <= |s|
    ensures r != []
    decreases |s| - from
  {
    var i := Find(s, w, from);
    [Span(from, i)] + (if i == |s| then [] else Pieces(s, w, i + |w|))
  }

  /** All or nothing: the first piece that does not parse decides. */
  function ParseAll<T>(parse: Span -> Result<T, DirectiveError>, pieces: seq<Span>): (r: Result<seq<T>, DirectiveError>)
    ensures r.Ok? ==> |r.value| == |pieces|
  {
    if pieces == [] then Ok([]) else Cons(parse(pieces[0]), ParseAll(parse, pieces[1..]))
  }

  function Cons<T>(g: Result<T, DirectiveError>, rest: Result<seq<T>, DirectiveError>): Result<seq<T>, DirectiveError>
  {
    if g.Err? then Err(g.error) else if rest.Err? then rest else Ok([g.value] + rest.value)
  }

  function Parser(gr: Grammar, s: string): Span -> Result<Segment, DirectiveError> {
    span => ParseSegment(gr, Cut(s, span))
  }

  /** None when the text is not a directive. */
  function Parse(gr: Grammar, text: string): Result<Option<seq<Segment>>, DirectiveError> {
    var body := LStrip(text);
    if !TokenAt(body, 0, gr.command) then Ok(None)
    else
      var segments := ParseAll(Parser(gr, body), Pieces(body, gr.command, |gr.command|));
      if segments.Ok? then Ok(Some(segments.value)) else Err(segments.error)
  }

  function Print(gr: Grammar, segments: seq<Segment>): string
    requires segments != []
  {
    gr.command + Tail(gr, segments)
  }

  /** What follows the first token of the printed directive. */
  function Tail(gr: Grammar, segments: seq<Segment>): (t: string)
    requires segments != []
    ensures t != "" && Space(t[0])
  {
    if |segments| == 1 then " " + Body(gr, segments[0])
    else (" " + (Body(gr, segments[0]) + " ")) + (gr.command + Tail(gr, segments[1..]))
  }

  ghost predicate AllProper(gr: Grammar, segments: seq<Segment>) {
    forall g :: g in segments ==> Proper(gr, g)
  }

  /** Where the printed segments stand, when they stand from `from` to the end of a text. */
  function Places(gr: Grammar, from: nat, segments: seq<Segment>): (places: seq<Span>)
    requires segments != []
    ensures |places| == |segments|
    decreases |segments|
  {
    var size := |Body(gr, segments[0])|;
    if |segments| == 1 then [Span(from, from + 1 + size)]
    else [Span(from, from + 2 + size)] + Places(gr, NextPlace(gr, from, segments[0]), segments[1..])
  }

  /** Where the text behind a printed segment and the next token starts. */
  function NextPlace(gr: Grammar, from: nat, g: Segment): nat {
    from + 2 + |Body(gr, g)| + |gr.command|
  }

  lemma {:induction false} PlacesFollow(gr: Grammar, from: nat, segments: seq<Segment>)
    requires segments != []
    ensures Follow(Places(gr, from, segments), from, from + |Tail(gr, segments)|, |gr.command|)
    decreases |segments|
  {
    if |segments| > 1 {
      PlacesFollow(gr, NextPlace(gr, from, segments[0]), segments[1..]);
      OneMoreFollows(Span(from, from + 2 + |Body(gr, segments[0])|),
                     Places(gr, NextPlace(gr, from, segments[0]), segments[1..]), from + |Tail(gr, segments)|, |gr.command|);
    }
  }

  /** Stretches with a gap of `n` between each and the next. */
  ghost predicate Follow(places: seq<Span>, from: nat, end: nat, n: nat) {
    && places != [] && places[0].from == from && places[|places| - 1].end == end
    && forall i, j {:trigger places[i], places[j]} ::
         0 <= i < j < |places| && j == i + 1 ==> places[j].from == places[i].end + n
  }

  lemma OneMoreFollows(place: Span, places: seq<Span>, end: nat, n: nat)
    requires Follow(places, place.end + n, end, n)
    ensures Follow([place] + places, place.from, end, n)
  {
  }

  /** Each place ends at the first token behind its start. */
  lemma {:induction false} FindAtPlace(gr: Grammar, s: string, from: nat, segments: seq<Segment>, i: nat)
    requires i < |segments| && AllProper(gr, segments) && Apart(gr)
    requires from <= |s| && s[from..] == Tail(gr, segments)
    ensures var place := Places(gr, from, segments)[i];
            place.from <= |s| && Find(s, gr.command, place.from) == place.end
    decreases |segments|
  {
    if i > 0 {
      var next := NextPlace(gr, from, segments[0]);
      RestOfTail(gr, s, from, segments);
      FindAtPlace(gr, s, next, segments[1..], i - 1);
      PlaceAgain(gr, from, segments, i);
    } else {
      FirstPlace(gr, from, segments);
      FindAtFirst(gr, s, from, segments);
    }
  }

  lemma FirstPlace(gr: Grammar, from: nat, segments: seq<Segment>)
    requires segments != []
    ensures Places(gr, from, segments)[0] ==
              Span(from, from + |Body(gr, segments[0])| + if |segments| == 1 then 1 else 2)
  {
  }

  lemma PlaceAgain(gr: Grammar, from: nat, segments: seq<Segment>, i: nat)
    requires 0 < i < |segments|
    ensures Places(gr, from, segments)[i] == Places(gr, NextPlace(gr, from, segments[0]), segments[1..])[i - 1]
  {
  }

  lemma FindAtFirst(gr: Grammar, s: string, from: nat, segments: seq<Segment>)
    requires segments != [] && Proper(gr, segments[0]) && Apart(gr)
    requires from <= |s| && s[from..] == Tail(gr, segments)
    ensures Find(s, gr.command, from) == from + |Body(gr, segments[0])| + if |segments| == 1 then 1 else 2
  {
    BodyIsOneSegment(gr, segments[0]);
    if |segments| == 1 {
      FindLast(s, from, Body(gr, segments[0]), gr.command);
    } else {
      FindPiece(s, from, Body(gr, segments[0]), gr.command, Tail(gr, segments[1..]));
    }
  }

  /** Stretches that each end at the first token behind their start, one behind the other to the end. */
  predicate Chain(s: string, w: Word, places: seq<Span>)
    decreases |places|
  {
    && places != [] && places[0].from <= |s| && Find(s, w, places[0].from) == places[0].end
    && if |places| == 1 then places[0].end == |s|
       else places[1].from == places[0].end + |w| && Chain(s, w, places[1..])
  }

  lemma {:induction false} ChainFrom(s: string, w: Word, places: seq<Span>, i: nat)
    requires i < |places| && Follow(places, places[0].from, |s|, |w|)
    requires forall k :: 0 <= k < |places| ==> places[k].from <= |s| && Find(s, w, places[k].from) == places[k].end
    ensures Chain(s, w, places[i..])
    decreases |places| - i
  {
    var rest := places[i..];
    assert rest[0] == places[i];
    if i + 1 < |places| {
      assert places[i + 1].from == places[i].end + |w|;
      assert rest[1] == places[i + 1] && rest[1..] == places[i + 1..];
      ChainFrom(s, w, places, i + 1);
    }
  }

  lemma {:induction false} ChainIsPieces(s: string, w: Word, places: seq<Span>)
    requires Chain(s, w, places)
    ensures Pieces(s, w, places[0].from) == places
    decreases |places|
  {
    var place := places[0];
    assert place == Span(place.from, place.end);
    if |places| == 1 {
      LastAgain(s, w, place.from);
      assert places == [place];
    } else {
      ChainIsPieces(s, w, places[1..]);
      PiecesAgain(s, w, place.from);
      assert places == [place] + places[1..];
    }
  }

  /** Such stretches are the pieces. */
  lemma PiecesAre(s: string, w: Word, places: seq<Span>)
    requires places != [] && Follow(places, places[0].from, |s|, |w|)
    requires forall k :: 0 <= k < |places| ==> places[k].from <= |s| && Find(s, w, places[k].from) == places[k].end
    ensures Pieces(s, w, places[0].from) == places
  {
    ChainFrom(s, w, places, 0);
    assert places[0..] == places;
    ChainIsPieces(s, w, places);
  }

  /** The tokens of such a text cut it at those places. */
  lemma PiecesOfTail(gr: Grammar, s: string, from: nat, segments: seq<Segment>)
    requires segments != [] && AllProper(gr, segments) && Apart(gr)
    requires from <= |s| && s[from..] == Tail(gr, segments)
    ensures Pieces(s, gr.command, from) == Places(gr, from, segments)
  {
    var places := Places(gr, from, segments);
    forall i | 0 <= i < |places|
      ensures places[i].from <= |s| && Find(s, gr.command, places[i].from) == places[i].end
    {
      FindAtPlace(gr, s, from, segments, i);
    }
    PlacesFollow(gr, from, segments);
    PiecesAre(s, gr.command, places);
  }

  /** And the texts at those places are the segments' own. */
  lemma {:induction false} TextAtPlace(gr: Grammar, s: string, from: nat, segments: seq<Segment>, i: nat)
    requires i < |segments| && from <= |s| && s[from..] == Tail(gr, segments)
    ensures Cut(s, Places(gr, from, segments)[i]) == Text(gr, segments[i], i == |segments| - 1)
    decreases |segments|
  {
    if i > 0 {
      RestOfTail(gr, s, from, segments);
      TextAtPlace(gr, s, NextPlace(gr, from, segments[0]), segments[1..], i - 1);
      TextAgain(gr, s, from, segments, i);
    } else {
      TextAtFirst(gr, s, from, segments);
    }
  }

  lemma TextAgain(gr: Grammar, s: string, from: nat, segments: seq<Segment>, i: nat)
    requires 0 < i < |segments|
    requires var places := Places(gr, NextPlace(gr, from, segments[0]), segments[1..]);
             Cut(s, places[i - 1]) == Text(gr, segments[1..][i - 1], i == |segments| - 1)
    ensures Cut(s, Places(gr, from, segments)[i]) == Text(gr, segments[i], i == |segments| - 1)
  {
    PlaceAgain(gr, from, segments, i);
  }

  lemma TextAtFirst(gr: Grammar, s: string, from: nat, segments: seq<Segment>)
    requires segments != [] && from <= |s| && s[from..] == Tail(gr, segments)
    ensures Cut(s, Places(gr, from, segments)[0]) == Text(gr, segments[0], |segments| == 1)
  {
    FirstPlace(gr, from, segments);
    if |segments| == 1 {
      LastText(gr, s, from, segments[0]);
    } else {
      FirstText(gr, s, from, segments);
    }
  }

  function Text(gr: Grammar, g: Segment, last: bool): string {
    if last then " " + Body(gr, g) else " " + (Body(gr, g) + " ")
  }

  lemma LastText(gr: Grammar, s: string, from: nat, g: Segment)
    requires from <= |s| && s[from..] == " " + Body(gr, g)
    ensures Cut(s, Span(from, from + 1 + |Body(gr, g)|)) == " " + Body(gr, g)
  {
    assert s[from..|s|] == s[from..];
  }

  lemma FirstText(gr: Grammar, s: string, from: nat, segments: seq<Segment>)
    requires |segments| > 1 && from <= |s| && s[from..] == Tail(gr, segments)
    ensures var g := segments[0]; Cut(s, Span(from, from + 2 + |Body(gr, g)|)) == Text(gr, g, false)
  {
    AfterPiece(s, from, " " + (Body(gr, segments[0]) + " "), gr.command, Tail(gr, segments[1..]));
  }

  lemma RestOfTail(gr: Grammar, s: string, from: nat, segments: seq<Segment>)
    requires |segments| > 1 && from <= |s| && s[from..] == Tail(gr, segments)
    ensures var next := NextPlace(gr, from, segments[0]); next <= |s| && s[next..] == Tail(gr, segments[1..])
  {
    AfterPiece(s, from, " " + (Body(gr, segments[0]) + " "), gr.command, Tail(gr, segments[1..]));
  }

  lemma PlacesParse(gr: Grammar, s: string, from: nat, segments: seq<Segment>)
    requires segments != [] && AllProper(gr, segments) && Apart(gr)
    requires from <= |s| && s[from..] == Tail(gr, segments)
    ensures ParseAll(Parser(gr, s), Places(gr, from, segments)) == Ok(segments)
  {
    forall i | 0 <= i < |segments|
      ensures Parser(gr, s)(Places(gr, from, segments)[i]) == Ok(segments[i])
    {
      TextAtPlace(gr, s, from, segments, i);
      PieceParses(gr, segments[i]);
    }
    EachParses(Parser(gr, s), Places(gr, from, segments), segments);
  }

  lemma {:induction false} EachParses<T>(parse: Span -> Result<T, DirectiveError>, pieces: seq<Span>, parsed: seq<T>)
    requires |pieces| == |parsed| && forall i :: 0 <= i < |pieces| ==> parse(pieces[i]) == Ok(parsed[i])
    ensures ParseAll(parse, pieces) == Ok(parsed)
    decreases |pieces|
  {
    if pieces != [] {
      EachParses(parse, pieces[1..], parsed[1..]);
      assert parsed == [parsed[0]] + parsed[1..];
    }
  }

  lemma PieceParses(gr: Grammar, g: Segment)
    requires Proper(gr, g) && Apart(gr)
    ensures ParseSegment(gr, " " + Body(gr, g)) == Ok(g)
    ensures ParseSegment(gr, " " + (Body(gr, g) + " ")) == Ok(g)
  {
    BodyIsOneSegment(gr, g);
    StripStripped(Body(gr, g));
    SegmentRoundTrip(gr, g, " " + Body(gr, g));
    SegmentRoundTrip(gr, g, " " + (Body(gr, g) + " "));
  }

  lemma ParseAllMore<T>(parse: Span -> Result<T, DirectiveError>, piece: Span, pieces: seq<Span>)
    ensures ParseAll(parse, [piece] + pieces) == Cons(parse(piece), ParseAll(parse, pieces))
  {
    assert ([piece] + pieces)[1..] == pieces;
  }

  /** The first token behind a space. */
  lemma FindAfter(a: string, c: char, b: string, w: Word)
    requires Space(c)
    ensures Find(a + [c] + b, w, |a|) == |a| + 1 + Find(b, w, 0)
  {
    TokenAcross(a, c, b, |a|, w);
    FindShifted(a, c, b, w, 0);
  }

  lemma {:induction false} FindShifted(a: string, c: char, b: string, w: Word, k: nat)
    requires Space(c) && k <= |b|
    ensures Find(a + [c] + b, w, |a| + 1 + k) == |a| + 1 + Find(b, w, k)
    decreases |b| - k
  {
    if k < |b| {
      TokenAcross(a, c, b, |a| + 1 + k, w);
      FindShifted(a, c, b, w, k + 1);
    }
  }

  lemma FindLast(s: string, from: nat, body: string, w: Word)
    requires from <= |s| && s[from..] == " " + body && NoToken(body, w)
    ensures Find(s, w, from) == |s|
  {
    FindNone(body, w, 0);
    FindAfter(s[..from], ' ', body, w);
    assert s == s[..from] + [' '] + body;
  }

  lemma FindPiece(s: string, from: nat, body: string, w: Word, t: string)
    requires from <= |s| && s[from..] == " " + (body + " ") + (w + t)
    requires NoToken(body, w) && t != "" && Space(t[0])
    ensures Find(s, w, from) == from + |body| + 2
  {
    var b := body + [' '] + (w + t);
    FindInPiece(body, w, t);
    FindAfter(s[..from], ' ', b, w);
    assert s == s[..from] + [' '] + b;
  }

  lemma FindInPiece(body: string, w: Word, t: string)
    requires NoToken(body, w) && t != "" && Space(t[0])
    ensures Find(body + [' '] + (w + t), w, 0) == |body| + 1
  {
    TokenAtStart(w, t);
    FindAcross(body, ' ', w + t, w);
  }

  lemma AfterPiece(s: string, from: nat, piece: string, w: string, t: string)
    requires from <= |s| && s[from..] == piece + (w + t)
    ensures Cut(s, Span(from, from + |piece|)) == piece
    ensures from + |piece| + |w| <= |s| && s[from + |piece| + |w|..] == t
  {
    var rest := piece + (w + t);
    assert rest[..|piece|] == piece && rest[|piece| + |w|..] == t;
    assert s[from..][..|piece|] == s[from..from + |piece|];
    assert s[from..][|piece| + |w|..] == s[from + |piece| + |w|..];
  }

  lemma LastAgain(s: string, w: Word, from: nat)
    requires from <= |s| && Find(s, w, from) == |s|
    ensures Pieces(s, w, from) == [Span(from, |s|)]
  {
    assert [Span(from, |s|)] + [] == [Span(from, |s|)];
  }

  lemma PiecesAgain(s: string, w: Word, from: nat)
    requires from <= |s| && Find(s, w, from) < |s|
    ensures var end := Find(s, w, from); Pieces(s, w, from) == [Span(from, end)] + Pieces(s, w, end + |w|)
  {
  }

  /** Printing any proper segments and parsing them back gives the same segments. */
  lemma PrintParse(gr: Grammar, segments: seq<Segment>)
    requires segments != [] && AllProper(gr, segments) && Apart(gr)
    ensures Parse(gr, Print(gr, segments)) == Ok(Some(segments))
  {
    var t := Tail(gr, segments);
    var s := gr.command + t;
    TokenAtStart(gr.command, t);
    assert LStrip(s) == s;
    assert s[|gr.command|..] == t;
    PiecesOfTail(gr, s, |gr.command|, segments);
    PlacesParse(gr, s, |gr.command|, segments);
  }

  lemma {:induction false} SpellsInside(s: string, from: nat, end: nat, i: nat, w: string)
    requires from <= end <= |s| && i + |w| <= end - from && Spells(s[from..end], i, w)
    ensures Spells(s, from + i, w)
    decreases |w|
  {
    if w != "" {
      SpellsInside(s, from, end, i + 1, w[1..]);
    }
  }

  /** Between the end of a token and the next token, or the end of the text, there is none. */
  lemma NoTokenBetween(s: string, from: nat, end: nat, w: Word)
    requires from <= end <= |s| && (from == end || Space(s[from]))
    requires end == |s| || TokenAt(s, end, w)
    requires forall j :: from <= j < end ==> !TokenAt(s, j, w)
    ensures NoToken(s[from..end], w)
  {
    forall j: nat
      ensures !TokenAt(s[from..end], j, w)
    {
      if TokenAt(s[from..end], j, w) {
        TokenInside(s, from, end, j, w);
      }
    }
  }

  lemma TokenInside(s: string, from: nat, end: nat, j: nat, w: Word)
    requires from <= end <= |s| && (from == end || Space(s[from]))
    requires end == |s| || TokenAt(s, end, w)
    requires TokenAt(s[from..end], j, w)
    ensures from + j < end && TokenAt(s, from + j, w)
  {
    SpellsInside(s, from, end, j, w);
    WordEnds(s, from + j, w);
  }

  lemma WordEnds(s: string, i: nat, w: Word)
    requires i + |w| <= |s| && Spells(s, i, w)
    ensures !Space(s[i]) && !Space(s[i + |w| - 1])
  {
    WordHasNoSpace(s, i, w);
  }

  lemma HeadPiece(s: string, w: Word, from: nat)
    requires from <= |s|
    ensures Pieces(s, w, from)[0] == Span(from, Find(s, w, from))
  {
  }

  lemma LaterPiece(s: string, w: Word, from: nat, i: nat) returns (next: nat)
    requires from <= |s| && 0 < i < |Pieces(s, w, from)|
    ensures from < next <= |s| && (next == |s| || Space(s[next]))
    ensures i - 1 < |Pieces(s, w, next)| && Pieces(s, w, from)[i] == Pieces(s, w, next)[i - 1]
  {
    next := Find(s, w, from) + |w|;
    Found(s, w, from);
    PiecesAgain(s, w, from);
  }

  /** Each piece starts behind a token, or where the first does, and ends at the first token from there. */
  lemma {:induction false} PieceStarts(s: string, w: Word, from: nat, i: nat) returns (start: nat)
    requires from <= |s| && (from == |s| || Space(s[from])) && i < |Pieces(s, w, from)|
    ensures start <= |s| && (start == |s| || Space(s[start]))
    ensures Pieces(s, w, from)[i] == Pieces(s, w, start)[0]
    decreases i
  {
    if i == 0 {
      start := from;
    } else {
      var next := LaterPiece(s, w, from, i);
      start := PieceStarts(s, w, next, i - 1);
    }
  }

  lemma PiecesHaveNoToken(s: string, w: Word, from: nat, i: nat)
    requires from <= |s| && (from == |s| || Space(s[from])) && i < |Pieces(s, w, from)|
    ensures NoToken(Cut(s, Pieces(s, w, from)[i]), w)
  {
    var start := PieceStarts(s, w, from, i);
    HeadPiece(s, w, start);
    PieceHasNoToken(s, w, start);
  }

  lemma PieceHasNoToken(s: string, w: Word, from: nat)
    requires from <= |s| && (from == |s| || Space(s[from]))
    ensures NoToken(Cut(s, Span(from, Find(s, w, from))), w)
  {
    FindIsFirst(s, w, from);
    NoTokenBetween(s, from, Find(s, w, from), w);
  }

  lemma {:induction false} AllParsedAreProper(gr: Grammar, s: string, pieces: seq<Span>)
    requires ParseAll(Parser(gr, s), pieces).Ok?
    requires forall p :: p in pieces ==> NoToken(Cut(s, p), gr.command)
    ensures AllProper(gr, ParseAll(Parser(gr, s), pieces).value)
    decreases |pieces|
  {
    if pieces != [] {
      ParsedIsProper(gr, Cut(s, pieces[0]));
      AllParsedAreProper(gr, s, pieces[1..]);
    }
  }

  lemma ParsedAreProper(gr: Grammar, text: string)
    requires Parse(gr, text).Ok? && Parse(gr, text).value.Some?
    ensures var segments := Parse(gr, text).value.value; segments != [] && AllProper(gr, segments)
  {
    var body := LStrip(text);
    var pieces := Pieces(body, gr.command, |gr.command|);
    forall p | p in pieces
      ensures NoToken(Cut(body, p), gr.command)
    {
      var i :| 0 <= i < |pieces| && pieces[i] == p;
      PiecesHaveNoToken(body, gr.command, |gr.command|, i);
    }
    AllParsedAreProper(gr, body, Pieces(body, gr.command, |gr.command|));
  }

  /** What parses are the lists of proper segments and no other, and a parsed list prints to a
      text that parses to it again. */
  lemma ParsedListsAreProper(gr: Grammar, segments: seq<Segment>)
    requires Apart(gr) && segments != []
    ensures (exists text :: Parse(gr, text) == Ok(Some(segments))) <==> AllProper(gr, segments)
    ensures AllProper(gr, segments) <==> Parse(gr, Print(gr, segments)) == Ok(Some(segments))
  {
    if AllProper(gr, segments) {
      PrintParse(gr, segments);
    }
    forall text | Parse(gr, text) == Ok(Some(segments))
      ensures AllProper(gr, segments)
    {
      ParsedAreProper(gr, text);
    }
  }

  lemma {:induction false} SpacesGo(spaces: string, s: string)
    requires forall k :: 0 <= k < |spaces| ==> Space(spaces[k])
    ensures LStrip(spaces + s) == LStrip(s)
    decreases |spaces|
  {
    if spaces == "" {
      assert spaces + s == s;
    } else {
      assert (spaces + s)[0] == spaces[0] && (spaces + s)[1..] == spaces[1..] + s;
      SpacesGo(spaces[1..], s);
    }
  }

  /** Whitespace before a text makes no difference. */
  lemma LeadingSpaceIsNothing(gr: Grammar, spaces: string, text: string)
    requires forall k :: 0 <= k < |spaces| ==> Space(spaces[k])
    ensures Parse(gr, spaces + text) == Parse(gr, text)
  {
    SpacesGo(spaces, text);
  }

  /** A text is a directive exactly when it starts, but for whitespace, with the command in any case
      and whitespace or its end behind it. */
  lemma DirectivesStartWithTheCommand(gr: Grammar, spaces: string, text: string)
    requires (forall k :: 0 <= k < |spaces| ==> Space(spaces[k])) && (text == "" || !Space(text[0]))
    ensures Parse(gr, spaces + text) != Ok(None) <==>
              && |gr.command| <= |text|
              && (forall k :: 0 <= k < |gr.command| ==> EitherCase(text[k], gr.command[k]))
              && (|gr.command| == |text| || Space(text[|gr.command|]))
  {
    SpacesGo(spaces, text);
    assert LStrip(text) == text;
    TokenIsAnyCase(text, 0, gr.command);
    assert forall k :: 0 <= k < |gr.command| && |gr.command| <= |text| ==> text[0 + k] == text[k];
  }

  lemma SteerIsApart()
    ensures Apart(STEER)
  {
    forall i: nat
      ensures !TokenAt(STEER.dashes, i, STEER.command)
    {
      assert |STEER.dashes| == 2 && |STEER.command| == 9;
    }
  }

  /** The round trip, for the source's separators. */
  lemma SteerRoundTrip(segments: seq<Segment>)
    requires segments != []
    ensures AllProper(STEER, segments) <==> Parse(STEER, Print(STEER, segments)) == Ok(Some(segments))
  {
    SteerIsApart();
    ParsedListsAreProper(STEER, segments);
  }

  lemma {:induction false} FirstStays(s: string)
    requires s != "" && !Space(s[0])
    ensures LStrip(s) == s && RStrip(s) != ""
    decreases |s|
  {
    if Space(s[|s| - 1]) {
      FirstStays(s[..|s| - 1]);
    }
  }

  lemma FrontIsNotBlank(body: string, at: nat)
    requires body != "" && Stripped(body) && 0 < at <= |body|
    ensures Strip(body[..at]) != ""
  {
    FirstStays(body[..at]);
  }

  lemma NoSpecError(gr: Grammar, body: string)
    requires body != "" && Find(body, gr.dashes, 0) == 0
    ensures ParseBody(gr, body) == Err(NoSpec)
  {
    assert body[..0] == "" && Strip("") == "";
  }

  lemma NoTaskError(gr: Grammar, body: string, at: nat)
    requires body != "" && Stripped(body) && at == Find(body, gr.dashes, 0)
    requires 0 < at < |body| && at + |gr.dashes| == |body|
    ensures ParseBody(gr, body) == Err(NoTaskAfter(Strip(body[..at])))
  {
    FrontIsNotBlank(body, at);
    assert body[at + |gr.dashes|..] == "" && Strip("") == "";
  }

  /** Which pieces are no segment: nothing but whitespace; what begins with a spec separator; and what
      ends with its first one. */
  lemma SegmentErrors(gr: Grammar, raw: string)
    ensures var body, r := Strip(raw), ParseSegment(gr, raw);
            var at := Find(body, gr.dashes, 0);
            && (body == "" ==> r == Err(NoTask))
            && (body != "" && at == 0 ==> r == Err(NoSpec))
            && (0 < at < |body| && at + |gr.dashes| == |body| ==> r == Err(NoTaskAfter(Strip(body[..at]))))
  {
    var body := Strip(raw);
    var at := Find(body, gr.dashes, 0);
    if body != "" && at == 0 {
      NoSpecError(gr, body);
    } else if 0 < at < |body| && at + |gr.dashes| == |body| {
      NoTaskError(gr, body, at);
    }
  }

  // ---- The parser's loop -------------------------------------------------------------

  function Prepend<T>(done: seq<T>, r: Result<seq<T>, DirectiveError>): Result<seq<T>, DirectiveError> {
    if r.Ok? then Ok(done + r.value) else r
  }

  lemma PrependCons<T>(done: seq<T>, g: Result<T, DirectiveError>, rest: Result<seq<T>, DirectiveError>)
    ensures Prepend(done, Cons(g, rest)) == if g.Err? then Err(g.error) else Prepend(done + [g.value], rest)
  {
    if g.Ok? && rest.Ok? {
      assert done + ([g.value] + rest.value) == done + [g.value] + rest.value;
    }
  }

  lemma PrependNone<T>(r: Result<seq<T>, DirectiveError>)
    ensures Prepend([], r) == r
  {
    assert r.Ok? ==> [] + r.value == r.value;
  }

  /** The loop's next step: one piece, then the others. */
  lemma NextPiece<T>(parse: Span -> Result<T, DirectiveError>, done: seq<T>, pieces: seq<Span>, i: nat)
    requires i < |pieces|
    ensures var r := parse(pieces[i]);
            Prepend(done, ParseAll(parse, pieces[i..])) ==
              if r.Err? then Err(r.error) else Prepend(done + [r.value], ParseAll(parse, pieces[i + 1..]))
  {
    assert pieces[i..] == [pieces[i]] + pieces[i + 1..];
    ParseAllMore(parse, pieces[i], pieces[i + 1..]);
    PrependCons(done, parse(pieces[i]), ParseAll(parse, pieces[i + 1..]));
  }

  lemma NoPieceLeft<T>(parse: Span -> Result<T, DirectiveError>, done: seq<T>, pieces: seq<Span>)
    ensures Prepend(done, ParseAll(parse, pieces[|pieces|..])) == Ok(done)
  {
    assert done + [] == done;
  }

  /** Where the text between two tokens ends. */
  function EndOf(size: nat, matches: seq<nat>, i: nat): nat
    requires i < |matches|
  {
    if i + 1 < |matches| then matches[i + 1] else size
  }

  /** The stretches behind the matches, each up to the next. */
  function Behind(size: nat, n: nat, matches: seq<nat>): (places: seq<Span>)
    ensures |places| == |matches|
    ensures forall i :: 0 <= i < |matches| ==> places[i] == Span(matches[i] + n, EndOf(size, matches, i))
  {
    seq(|matches|, i requires 0 <= i < |matches| => Span(matches[i] + n, EndOf(size, matches, i)))
  }

  lemma BehindFollows(size: nat, n: nat, matches: seq<nat>)
    requires matches != []
    ensures Follow(Behind(size, n, matches), matches[0] + n, size, n)
  {
  }

  /** Each match is the first token behind the one before it, and none is behind the last. */
  lemma {:induction false} FindBehind(s: string, w: Word, from: nat, i: nat)
    requires from <= |s| && i < |Starts(s, w, from)|
    ensures var matches := Starts(s, w, from);
            matches[i] + |w| <= |s| && Find(s, w, matches[i] + |w|) == EndOf(|s|, matches, i)
    decreases i
  {
    var first := Find(s, w, from);
    StartsAgain(s, w, from);
    if i > 0 {
      FindBehind(s, w, first + |w|, i - 1);
    }
  }

  lemma PiecesAreBehind(s: string, w: Word)
    requires TokenAt(s, 0, w)
    ensures Pieces(s, w, |w|) == Behind(|s|, |w|, Starts(s, w, 0))
  {
    var matches := Starts(s, w, 0);
    FirstStart(s, w);
    var places := Behind(|s|, |w|, matches);
    forall i | 0 <= i < |places|
      ensures places[i].from <= |s| && Find(s, w, places[i].from) == places[i].end
    {
      FindBehind(s, w, 0, i);
    }
    BehindFollows(|s|, |w|, matches);
    PiecesAre(s, w, places);
  }

  lemma StartsAgain(body: string, w: Word, from: nat)
    requires from <= |body| && Starts(body, w, from) != []
    ensures var end := Find(body, w, from);
            end < |body| && Starts(body, w, from) == [end] + Starts(body, w, end + |w|)
  {
  }

  lemma FirstStart(body: string, w: Word)
    ensures TokenAt(body, 0, w) <==> Starts(body, w, 0) != [] && Starts(body, w, 0)[0] == 0
  {
    if Starts(body, w, 0) != [] {
      Found(body, w, 0);
    }
  }

  /** One segment per token of the text, or the error of the first piece that is none. */
  method ParseDirective(gr: Grammar, text: string) returns (r: Result<Option<seq<Segment>>, DirectiveError>)
    ensures r == Parse(gr, text)
    ensures r.Ok? && r.value.Some? ==> |r.value.value| == |Starts(LStrip(text), gr.command, 0)|
  {
    var body := LStrip(text);
    var matches := Starts(body, gr.command, 0);
    FirstStart(body, gr.command);
    if matches == [] || matches[0] != 0 {
      return Ok(None);
    }
    PiecesAreBehind(body, gr.command);
    var parsed := ParseEach(Parser(gr, body), |body|, |gr.command|, matches);
    return if parsed.Ok? then Ok(Some(parsed.value)) else Err(parsed.error);
  }

  /** The loop over the matches of a text; `n` is the length of a match. */
  method ParseEach<T>(parse: Span -> Result<T, DirectiveError>, size: nat, n: nat, matches: seq<nat>)
    returns (r: Result<seq<T>, DirectiveError>)
    ensures r == ParseAll(parse, Behind(size, n, matches))
  {
    var segments: seq<T> := [];
    ghost var pieces := Behind(size, n, matches);
    PrependNone(ParseAll(parse, pieces));
    assert pieces[0..] == pieces;
    for i := 0 to |matches|
      invariant ParseAll(parse, pieces) == Prepend(segments, ParseAll(parse, pieces[i..]))
    {
      NextPiece(parse, segments, pieces, i);
      var parsed := parse(Span(matches[i] + n, EndOf(size, matches, i)));
      if parsed.Err? {
        return Err(parsed.error);
      }
      segments := segments + [parsed.value];
    }
    NoPieceLeft(parse, segments, pieces);
    return Ok(segments);
  }
}
