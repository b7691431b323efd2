/** Substrings and `str.replace`. */
module Text {
  import opened Wrappers

  predicate OccursAt(w: string, s: string, i: nat) {
    i + |w| <= |s| && s[i..i + |w|] == w
  }

  ghost predicate Occurs(w: string, s: string) {
    exists i: nat :: OccursAt(w, s, i)
  }

  /** The first occurrence; the length of the text when there is none. */
  function IndexOf(w: string, s: string): (i: nat)
    requires w != ""
    ensures i <= |s|
    decreases |s|
  {
    if s == "" || OccursAt(w, s, 0) then 0 else 1 + IndexOf(w, s[1..])
  }

  /** `s.replace(e, m)`: the leftmost occurrences that do not overlap; for an empty `e`, before
      every character and at the end. */
  function Replace(s: string, e: string, m: string): string
    decreases |s|
  {
    if e == "" then
      if s == "" then m else m + [s[0]] + Replace(s[1..], e, m)
    else
      var i := IndexOf(e, s);
      if i == |s| then s
      else
        IndexIsFirst(e, s);
        s[..i] + m + Replace(s[i + |e|..], e, m)
  }

  lemma {:induction false} IndexIsFirst(w: string, s: string)
    requires w != ""
    ensures var i := IndexOf(w, s);
            && (i < |s| ==> OccursAt(w, s, i))
            && forall j: nat :: j < i ==> !OccursAt(w, s, j)
    decreases |s|
  {
    if s != "" && !OccursAt(w, s, 0) {
      IndexIsFirst(w, s[1..]);
      forall j: nat | 0 < j
        ensures OccursAt(w, s, j) <==> OccursAt(w, s[1..], j - 1)
      {
        OccursShifted(w, s, j);
      }
    }
  }

  lemma OccursShifted(w: string, s: string, j: nat)
    requires s != "" && 0 < j
    ensures OccursAt(w, s, j) <==> OccursAt(w, s[1..], j - 1)
  {
    if j + |w| <= |s| {
      assert s[j..j + |w|] == s[1..][j - 1..j - 1 + |w|];
    }
  }

  // ---- Occurrences in a concatenation ------------------------------------------------

  predicate Without(w: string, c: char) {
    forall i :: 0 <= i < |w| ==> w[i] != c
  }

  lemma OccursInFront(w: string, a: string, b: string, i: nat)
    requires i + |w| <= |a|
    ensures OccursAt(w, a + b, i) <==> OccursAt(w, a, i)
  {
    assert (a + b)[i..i + |w|] == a[i..i + |w|];
  }

  lemma OccursBehind(w: string, a: string, b: string, i: nat)
    ensures OccursAt(w, a + b, |a| + i) <==> OccursAt(w, b, i)
  {
    if i + |w| <= |b| {
      assert (a + b)[|a| + i..|a| + i + |w|] == b[i..i + |w|];
    }
  }

  lemma NoSpan(w: string, a: string, c: char, b: string, i: nat)
    requires Without(w, c)
    ensures OccursAt(w, a + [c] + b, i) ==> i + |w| <= |a| || i > |a|
  {
    var s := a + [c] + b;
    if i <= |a| < i + |w| <= |s| {
      assert s[i..i + |w|][|a| - i] == c;
    }
  }

  /** A text without the character in it cannot reach across that character. */
  lemma OccursAcross(w: string, a: string, c: char, b: string)
    requires Without(w, c) && Occurs(w, a + [c] + b)
    ensures Occurs(w, a) || Occurs(w, b)
  {
    var i: nat :| OccursAt(w, a + [c] + b, i);
    NoSpan(w, a, c, b, i);
    if i > |a| {
      OccursBehind(w, a + [c], b, i - |a| - 1);
      assert OccursAt(w, b, i - |a| - 1);
    } else {
      assert a + [c] + b == a + ([c] + b);
      OccursInFront(w, a, [c] + b, i);
      assert OccursAt(w, a, i);
    }
  }

  lemma NothingInEmpty(w: string)
    requires w != ""
    ensures !Occurs(w, "")
  {
  }

  lemma OccursInWhole(w: string, a: string, b: string, c: string)
    requires Occurs(w, b)
    ensures Occurs(w, a + b + c)
  {
    var i: nat :| OccursAt(w, b, i);
    OccursBehind(w, a, b, i);
    OccursInFront(w, a + b, c, |a| + i);
    assert OccursAt(w, a + b + c, |a| + i);
  }

  // ---- Replacing by a bracketed marker -----------------------------------------------

  /** A marker between brackets. */
  predicate Bracketed(m: string) {
    |m| >= 2 && m[0] == '[' && m[|m| - 1] == ']'
  }

  /** Not empty, without brackets, and no part of the marker. */
  ghost predicate Foreign(w: string, m: string) {
    w != "" && Without(w, '[') && Without(w, ']') && !Occurs(w, m)
  }

  lemma OccursAcrossMarker(w: string, a: string, m: string, b: string)
    requires Bracketed(m) && Foreign(w, m) && Occurs(w, a + m + b)
    ensures Occurs(w, a) || Occurs(w, b)
  {
    var rest := m[1..] + b;
    var inner := m[1..|m| - 1];
    assert a + m + b == a + ['['] + rest;
    OccursAcross(w, a, '[', rest);
    if Occurs(w, rest) {
      assert rest == inner + [']'] + b;
      OccursAcross(w, inner, ']', b);
      if Occurs(w, inner) {
        OccursInWhole(w, "[", inner, "]");
        assert m == "[" + inner + "]";
      }
    }
  }

  lemma NotInOne(w: string, c: char, m: string, b: string)
    requires Bracketed(m) && Foreign(w, m) && Occurs(w, m + [c] + b)
    requires b == m || exists rest :: b == m + rest
    ensures Occurs(w, [c]) || Occurs(w, b)
  {
    NothingInEmpty(w);
    assert m + [c] + b == "" + m + ([c] + b);
    OccursAcrossMarker(w, "", m, [c] + b);
    var rest := b[|m|..];
    assert b == m + rest;
    assert [c] + b == [c] + m + rest;
    OccursAcrossMarker(w, [c], m, rest);
    if Occurs(w, rest) {
      OccursInWhole(w, m, rest, "");
      assert m + rest + "" == b;
    }
  }

  /** The text that replacing leaves cannot hold a foreign word that was not there before. */
  lemma {:induction false} ReplaceAddsNothing(w: string, s: string, e: string, m: string)
    requires Bracketed(m) && Foreign(w, m) && Occurs(w, Replace(s, e, m))
    ensures Occurs(w, s)
    decreases |s|
  {
    if e == "" {
      if s != "" {
        EmptyReplaceStarts(s[1..], m);
        NotInOne(w, s[0], m, Replace(s[1..], e, m));
        if Occurs(w, Replace(s[1..], e, m)) {
          ReplaceAddsNothing(w, s[1..], e, m);
        }
        OccursInParts(w, s, 1);
        assert s[..1] == [s[0]];
      }
    } else if IndexOf(e, s) < |s| {
      var i := IndexOf(e, s);
      IndexIsFirst(e, s);
      OccursAcrossMarker(w, s[..i], m, Replace(s[i + |e|..], e, m));
      if Occurs(w, Replace(s[i + |e|..], e, m)) {
        ReplaceAddsNothing(w, s[i + |e|..], e, m);
      }
      OccursInParts(w, s, i);
      OccursInParts(w, s, i + |e|);
    }
  }

  lemma OccursInParts(w: string, s: string, i: nat)
    requires i <= |s|
    ensures Occurs(w, s[..i]) || Occurs(w, s[i..]) ==> Occurs(w, s)
  {
    assert "" + s[..i] + s[i..] == s && s[..i] + s[i..] + "" == s;
    if Occurs(w, s[..i]) {
      OccursInWhole(w, "", s[..i], s[i..]);
    } else if Occurs(w, s[i..]) {
      OccursInWhole(w, s[..i], s[i..], "");
    }
  }

  lemma EmptyReplaceStarts(s: string, m: string)
    ensures var b := Replace(s, "", m); b == m || exists rest :: b == m + rest
  {
    if s != "" {
      assert Replace(s, "", m) == m + ([s[0]] + Replace(s[1..], "", m));
    }
  }

  lemma NoneBeforeFirst(e: string, s: string)
    requires e != ""
    ensures !Occurs(e, s[..IndexOf(e, s)])
  {
    var i := IndexOf(e, s);
    IndexIsFirst(e, s);
    forall j: nat
      ensures !OccursAt(e, s[..i], j)
    {
      if j + |e| <= i {
        OccursInFront(e, s[..i], s[i..], j);
        assert s[..i] + s[i..] == s;
      }
    }
  }

  lemma NoneAcrossMarker(w: string, a: string, m: string, b: string)
    requires Bracketed(m) && Foreign(w, m) && !Occurs(w, a) && !Occurs(w, b)
    ensures !Occurs(w, a + m + b)
  {
    if Occurs(w, a + m + b) {
      OccursAcrossMarker(w, a, m, b);
    }
  }

  lemma IndexFits(w: string, s: string)
    requires w != "" && IndexOf(w, s) < |s|
    ensures IndexOf(w, s) + |w| <= |s|
  {
    IndexIsFirst(w, s);
  }

  /** The part before the first occurrence, and what is behind it. */
  lemma SplitAtFirst(e: string, s: string, m: string) returns (a: string, rest: string)
    requires e != "" && IndexOf(e, s) < |s|
    ensures s == a + e + rest && Replace(s, e, m) == a + m + Replace(rest, e, m)
    ensures |rest| < |s| && Occurs(e, s) && !Occurs(e, a)
  {
    var i := IndexOf(e, s);
    IndexIsFirst(e, s);
    NoneBeforeFirst(e, s);
    a, rest := s[..i], s[i + |e|..];
    assert s == s[..i] + s[i..i + |e|] + s[i + |e|..];
    assert OccursAt(e, s, i);
  }

  /** Replacing a foreign word leaves no occurrence of it. */
  lemma {:induction false} ReplaceRemoves(s: string, e: string, m: string)
    requires Bracketed(m) && Foreign(e, m)
    ensures !Occurs(e, Replace(s, e, m))
    decreases |s|
  {
    if IndexOf(e, s) < |s| {
      var a, rest := SplitAtFirst(e, s, m);
      ReplaceRemoves(rest, e, m);
      NoneAcrossMarker(e, a, m, Replace(rest, e, m));
    } else {
      ReplaceNothing(s, e, m);
    }
  }

  lemma ReplaceNothing(s: string, e: string, m: string)
    requires e != "" && IndexOf(e, s) == |s|
    ensures Replace(s, e, m) == s && !Occurs(e, s)
  {
    NoneBeforeFirst(e, s);
    assert s[..|s|] == s;
  }

  /** A replacement that takes place leaves a bracket: a text without one was not touched, nor was
      the part of a text before its first. */
  lemma ReplaceShows(s: string, e: string, m: string, p: string)
    requires Bracketed(m)
    ensures Without(Replace(s, e, m), '[') ==> Replace(s, e, m) == s
    ensures Without(p, '[') && p <= Replace(s, e, m) ==> p <= s
  {
    var r := Replace(s, e, m);
    if e == "" {
      EmptyReplaceStarts(s, m);
      assert r[0] == '[';
    } else if IndexOf(e, s) < |s| {
      IndexIsFirst(e, s);
      assert r[IndexOf(e, s)] == '[';
      assert r[..IndexOf(e, s)] == s[..IndexOf(e, s)];
    }
  }

  lemma ReplaceItself(e: string, m: string)
    requires e != ""
    ensures Replace(e, e, m) == m
  {
    assert OccursAt(e, e, 0);
    assert IndexOf(e, e) == 0;
    assert e[|e|..] == "";
    assert IndexOf(e, "") == 0;
    assert "" + m + "" == m;
  }

  // ---- Which texts a replacement changes ---------------------------------------------

  /** How many brackets the text opens. */
  function Opens(s: string): nat {
    if s == "" then 0 else (if s[0] == '[' then 1 else 0) + Opens(s[1..])
  }

  lemma {:induction false} OpensBoth(a: string, b: string)
    ensures Opens(a + b) == Opens(a) + Opens(b)
    decreases |a|
  {
    if a == "" {
      assert a + b == b;
    } else {
      assert (a + b)[1..] == a[1..] + b;
      OpensBoth(a[1..], b);
    }
  }

  lemma {:induction false} OpensNone(w: string)
    requires Without(w, '[')
    ensures Opens(w) == 0
    decreases |w|
  {
    if w != "" {
      assert Without(w[1..], '[');
      OpensNone(w[1..]);
    }
  }

  lemma OpensMarked(a: string, m: string, b: string)
    requires Bracketed(m)
    ensures Opens(a + m + b) > Opens(a) + Opens(b)
  {
    OpensBoth(a, m);
    OpensBoth(a + m, b);
  }

  /** The marker in the place of a word without brackets, and no fewer brackets after it. */
  lemma OpensReplaced(a: string, w: string, b: string, m: string, c: string)
    requires Bracketed(m) && Without(w, '[') && Opens(c) >= Opens(b)
    ensures Opens(a + m + c) > Opens(a + w + b)
  {
    OpensMarked(a, m, c);
    OpensNone(w);
    OpensBoth(a, w);
    OpensBoth(a + w, b);
  }

  /** Replacing a word without brackets leaves a text as it is exactly when the word does not occur
      in it; otherwise it opens more of them. */
  lemma {:induction false} ReplaceOpens(s: string, e: string, m: string)
    requires Bracketed(m) && Without(e, '[')
    ensures if Occurs(e, s) then Opens(Replace(s, e, m)) > Opens(s) else Replace(s, e, m) == s
    decreases |s|
  {
    if e == "" {
      EmptyReplaceOpens(s, m);
    } else if IndexOf(e, s) < |s| {
      var a, rest := SplitAtFirst(e, s, m);
      ReplaceOpens(rest, e, m);
      OpensReplaced(a, e, rest, m, Replace(rest, e, m));
    } else {
      ReplaceNothing(s, e, m);
    }
  }

  lemma EmptyReplaceStep(s: string, m: string)
    requires s != ""
    ensures Replace(s, "", m) == m + ([s[0]] + Replace(s[1..], "", m))
  {
    Associative(m, [s[0]], Replace(s[1..], "", m));
  }

  lemma OpensFirst(c: char, r: string, s: string)
    requires Opens(r) > Opens(s)
    ensures Opens([c] + r) > Opens([c] + s)
  {
    OpensBoth([c], r);
    OpensBoth([c], s);
  }

  lemma {:induction false} EmptyReplaceOpens(s: string, m: string)
    requires Bracketed(m)
    ensures Opens(Replace(s, "", m)) > Opens(s) && Occurs("", s)
    decreases |s|
  {
    assert OccursAt("", s, 0);
    if s == "" {
      assert "" + m + "" == m;
      OpensMarked("", m, "");
    } else {
      var c, tail, rest := s[0], s[1..], Replace(s[1..], "", m);
      EmptyReplaceOpens(tail, m);
      OpensFirst(c, rest, tail);
      assert s == [c] + tail;
      OpensBoth(m, [c] + rest);
      EmptyReplaceStep(s, m);
    }
  }

  /** The length of `k` characters, each with the marker before it. */
  function Spread(m: string, k: nat): nat {
    if k == 0 then 0 else Spread(m, k - 1) + |m| + 1
  }

  /** The empty word is replaced before every character and at the end. */
  lemma {:induction false} EmptyReplaceAt(s: string, m: string, k: nat)
    requires k <= |s|
    ensures var r, at := Replace(s, "", m), Spread(m, k);
            && OccursAt(m, r, at)
            && if k == |s| then |r| == at + |m| else at + |m| < |r| && r[at + |m|] == s[k]
    decreases |s|
  {
    if s != "" {
      var rest := Replace(s[1..], "", m);
      var r := m + [s[0]] + rest;
      if k == 0 {
        assert r[0..|m|] == m;
      } else {
        EmptyReplaceAt(s[1..], m, k - 1);
        OccursBehind(m, m + [s[0]], rest, Spread(m, k - 1));
      }
    }
  }
}
