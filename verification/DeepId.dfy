/** Paths of more than fifty one-letter components: exactly when such a path's id is another's too. */
module DeepId {
  import opened Wrappers
  import opened Utf8
  import opened Ids = RepoId
  import opened ElidedId

  /** `n` characters, every other one the given separator. */
  function Alternating(n: nat, c: char): string {
    seq(n, i requires 0 <= i < n => if i % 2 == 0 then 'a' else c)
  }

  lemma {:induction false} DashesAppend(a: string, b: string)
    ensures Dashes(a + b) == Dashes(a) + Dashes(b)
    decreases |a|
  {
    if a == "" {
      assert a + b == b;
    } else {
      DashesAppend(a[1..], b);
      assert (a + b)[1..] == a[1..] + b;
    }
  }

  lemma {:induction false} DashesOfAlternating(n: nat)
    ensures Dashes(Alternating(n, '-')) == n / 2
    decreases n
  {
    if n > 0 {
      var last := if n % 2 == 1 then 'a' else '-';
      DashesOfAlternating(n - 1);
      DashesAppend(Alternating(n - 1, '-'), [last]);
      assert Alternating(n, '-') == Alternating(n - 1, '-') + [last];
      assert Dashes([last]) == (if last == '-' then 1 else 0) + Dashes([last][1..]);
    }
  }

  lemma {:induction false} FlatAt(bare: string, i: nat)
    requires i < |bare|
    ensures Flat(bare)[i] == if bare[i] == '/' then '-' else bare[i]
    decreases |bare|
  {
    if i > 0 {
      FlatAt(bare[1..], i - 1);
    }
  }

  lemma FlatOfAlternating(n: nat)
    ensures Flat(Alternating(n, '/')) == Alternating(n, '-')
  {
    var bare := Alternating(n, '/');
    forall i | 0 <= i < n
      ensures Flat(bare)[i] == Alternating(n, '-')[i]
    {
      FlatAt(bare, i);
    }
  }

  lemma AsciiHead(flat: string)
    requires Ascii(flat) && |flat| > HEAD_BYTES
    ensures HeadBytes(flat, HEAD_BYTES) == flat[..HEAD_BYTES]
  {
    var head := HeadBytes(flat, HEAD_BYTES);
    HeadIsLongestPrefix(flat, HEAD_BYTES);
    EncodedSize(flat[..HEAD_BYTES]);
    LongestPrefixIsLongest(flat, HEAD_BYTES, head, flat[..HEAD_BYTES]);
    EncodedSize(head);
  }

  lemma AsciiTail(flat: string)
    requires Ascii(flat) && |flat| > TAIL_BYTES
    ensures Tail(flat) == flat[|flat| - TAIL_BYTES..]
  {
    var at := TailStart(flat, TAIL_BYTES);
    TailStartIsLongest(flat, TAIL_BYTES);
    EncodedSize(flat[|flat| - TAIL_BYTES..]);
    LongestSuffixIsLongest(flat, TAIL_BYTES, at, |flat| - TAIL_BYTES);
    EncodedSize(flat[at..]);
  }

  lemma AlternatingPart(n: nat, from: nat, m: nat, c: char)
    requires from % 2 == 0 && from + m <= n
    ensures Alternating(n, c)[from..from + m] == Alternating(m, c)
  {
  }

  lemma DashesBetween(head: string, tail: string)
    ensures Dashes(head + "--" + tail) == Dashes(head) + 2 + Dashes(tail)
  {
    DashesAppend(head + "--", tail);
    DashesAppend(head, "--");
    assert "--"[1..] == "-" && "-"[1..] == "";
    assert Dashes("-") == 1 + Dashes("");
  }

  /** A path of one-letter components, more than fifty. */
  predicate Deep(bare: string) {
    |bare| > ID_BYTES_MAX && |bare| % 2 == 1 && bare == Alternating(|bare|, '/')
  }

  lemma FlatOfDeep(bare: string)
    requires Deep(bare)
    ensures Flat(bare) == Alternating(|bare|, '-') && Ascii(Flat(bare)) && !Fits(bare)
  {
    FlatOfAlternating(|bare|);
    EncodedSize(Flat(bare));
  }

  lemma EndsOfDeep(bare: string)
    requires Deep(bare)
    ensures Ends(bare) == Alternating(33, '-') + "--" + Alternating(65, '-')
  {
    var n, flat := |bare|, Flat(bare);
    FlatOfDeep(bare);
    AsciiHead(flat);
    AsciiTail(flat);
    AlternatingPart(n, 0, 33, '-');
    AlternatingPart(n, n - 65, 65, '-');
    assert flat[0..33] == flat[..33] && flat[n - 65..n - 65 + 65] == flat[n - 65..];
  }

  lemma DashesOfDeep(bare: string)
    requires Deep(bare)
    ensures Dashes(Ends(bare)) == 50
  {
    EndsOfDeep(bare);
    DashesOfAlternating(33);
    DashesOfAlternating(65);
    DashesBetween(Alternating(33, '-'), Alternating(65, '-'));
  }

  lemma {:induction false} RestoredAt(flat: string, marks: string, i: nat)
    requires Dashes(flat) == |marks| && i < |flat| && flat[i] != '-'
    ensures |Restored(flat, marks)| == |flat| && Restored(flat, marks)[i] == flat[i]
    decreases |flat|
  {
    var rest := if flat[0] == '-' then marks[1..] else marks;
    RestoredSize(flat[1..], rest);
    if i > 0 {
      RestoredAt(flat[1..], rest, i - 1);
    }
  }

  lemma {:induction false} RestoredSize(flat: string, marks: string)
    requires Dashes(flat) == |marks|
    ensures |Restored(flat, marks)| == |flat|
    decreases |flat|
  {
    if flat != "" {
      RestoredSize(flat[1..], if flat[0] == '-' then marks[1..] else marks);
    }
  }

  /** The mark of a dash: the one as many dashes further on as stand before it. */
  lemma {:induction false} RestoredDashAt(flat: string, marks: string, i: nat)
    requires Dashes(flat) == |marks| && i < |flat| && flat[i] == '-'
    ensures |Restored(flat, marks)| == |flat| && Dashes(flat[..i]) < |marks|
    ensures Restored(flat, marks)[i] == if marks[Dashes(flat[..i])] == '1' then '/' else '-'
    decreases |flat|
  {
    RestoredSize(flat, marks);
    if i > 0 {
      var rest := if flat[0] == '-' then marks[1..] else marks;
      RestoredDashAt(flat[1..], rest, i - 1);
      assert flat[..i][1..] == flat[1..][..i - 1];
    }
  }

  // ---- The middle marks --------------------------------------------------------------

  lemma ProductGrows(a: nat, b: nat, p: nat)
    requires a < b
    ensures a * p + p <= b * p
  {
    assert (b - a - 1) * p >= 0;
    assert b * p == a * p + p + (b - a - 1) * p;
  }

  /** A number's high part is determined by where the low part ends. */
  lemma SameHighPart(a: nat, r: nat, b: nat, t: nat, p: nat)
    requires r < p && t < p && a * p + r == b * p + t
    ensures a == b
  {
    if a < b {
      ProductGrows(a, b, p);
    } else if a > b {
      ProductGrows(b, a, p);
    }
  }

  /** A binary number without its last digits, and what they stand for. */
  lemma {:induction false} ValueSplits(m: string, k: nat) returns (r: nat)
    requires k <= |m|
    ensures r < Pow2(k) && Value(m) == Value(m[..|m| - k]) * Pow2(k) + r
    decreases k
  {
    if k == 0 {
      assert m[..|m|] == m;
      r := 0;
    } else {
      var front := m[..|m| - 1];
      var low := ValueSplits(front, k - 1);
      assert front[..|front| - (k - 1)] == m[..|m| - k];
      r := 2 * low + if m[|m| - 1] == '1' then 1 else 0;
      Scaled(Value(m[..|m| - k]), Pow2(k - 1), 2);
    }
  }

  lemma Scaled(v: nat, p: nat, c: nat)
    ensures c * (v * p) == v * (c * p)
  {
  }

  lemma {:induction false} ParseHexSplits(s: string, k: nat) returns (r: nat)
    requires HexDigits(s) && k <= |s|
    ensures ParseHex(s).Some? && ParseHex(s[..|s| - k]).Some?
    ensures r < Pow2(4 * k) && ParseHex(s).value == ParseHex(s[..|s| - k]).value * Pow2(4 * k) + r
    decreases k
  {
    ParseHexDigits(s);
    ParseHexDigits(s[..|s| - k]);
    if k == 0 {
      assert s[..|s|] == s;
      r := 0;
    } else {
      var front := s[..|s| - 1];
      var low := ParseHexSplits(front, k - 1);
      assert front[..|front| - (k - 1)] == s[..|s| - k];
      assert front + [s[|s| - 1]] == s;
      ParseHexOneMore(front, s[|s| - 1]);
      r := 16 * low + DigitValue(s[|s| - 1]);
      Sixteen(4 * (k - 1));
      Scaled(ParseHex(s[..|s| - k]).value, Pow2(4 * (k - 1)), 16);
    }
  }

  lemma LastTwoMarks(m: string)
    requires Bits(m) && |m| >= 2
    ensures m[|m| - 2] == '1' && m[|m| - 1] == '1' <==> Value(m) % 4 == 3
  {
    var front := m[..|m| - 1];
    var a, b := if m[|m| - 2] == '1' then 1 else 0, if m[|m| - 1] == '1' then 1 else 0;
    assert Value(m) == 2 * Value(front) + b;
    assert Value(front) == 2 * Value(front[..|front| - 1]) + a;
    TwoBits(Value(front[..|front| - 1]), a, b);
  }

  lemma TwoBits(v: nat, a: nat, b: nat)
    requires a < 2 && b < 2
    ensures (2 * (2 * v + a) + b) % 4 == 2 * a + b
  {
  }

  lemma LastDigit(s: string)
    requires s != "" && HexDigits(s)
    ensures ParseHex(s).Some? && ParseHex(s).value % 4 == DigitValue(s[|s| - 1]) % 4
  {
    var front := s[..|s| - 1];
    assert front + [s[|s| - 1]] == s;
    ParseHexDigits(front);
    ParseHexOneMore(front, s[|s| - 1]);
  }

  /** The first eighteen of fifty marks are the first four of twelve digits. */
  lemma FirstMarks(digest: string, marks: string)
    requires |digest| == HASH_LENGTH && HexDigits(digest) && |marks| == 50
    requires ParseHex(digest) == Some(Value(marks))
    ensures ParseHex(digest[..4]) == Some(Value(marks[..18]))
  {
    var r := ValueSplits(marks, 32);
    var t := ParseHexSplits(digest, 8);
    SameHighPart(Value(marks[..18]), r, ParseHex(digest[..4]).value, t, Pow2(32));
  }

  /** So the two middle marks are the low half of the fourth digit. */
  lemma MiddleMarks(digest: string, marks: string)
    requires |digest| == HASH_LENGTH && HexDigits(digest) && |marks| == 50 && Bits(marks)
    requires ParseHex(digest) == Some(Value(marks))
    ensures marks[16] == '1' && marks[17] == '1' <==> DigitValue(digest[3]) % 4 == 3
  {
    FirstMarks(digest, marks);
    LastTwoMarks(marks[..18]);
    LastDigit(digest[..4]);
  }

  // ---- When what the id spells is a path ---------------------------------------------

  /** No empty name, told by the characters. */
  predicate NoEmptyName(s: string) {
    && s != "" && s[0] != '/' && s[|s| - 1] != '/'
    && forall i :: 0 < i < |s| ==> !(s[i - 1] == '/' && s[i] == '/')
  }

  lemma NoDots(s: string)
    requires '.' !in s
    ensures s != "." && s != ".."
  {
    assert "."[0] == '.' && ".."[0] == '.';
  }

  lemma {:induction false} UndottedPath(s: string)
    requires '.' !in s
    ensures PathForm(s) <==> NoEmptyName(s)
    decreases |s|
  {
    var i := SlashFrom(s, 0);
    if i == |s| {
      OnlyName(s);
    } else {
      UndottedPath(s[i + 1..]);
      FirstName(s, i);
      NoEmptyNameSplits(s, i);
    }
  }

  lemma OnlyName(s: string)
    requires '.' !in s && SlashFrom(s, 0) == |s|
    ensures PathForm(s) <==> s != ""
    ensures NoEmptyName(s) <==> s != ""
  {
    var all := Components(s);
    assert all == [s] && all[0] == s;
    NoDots(s);
    assert PathForm(s) ==> ProperName(all[0]);
  }

  lemma FirstName(s: string, i: nat)
    requires '.' !in s && i == SlashFrom(s, 0) && i < |s|
    ensures PathForm(s) <==> i > 0 && PathForm(s[i + 1..])
  {
    var names := Components(s[i + 1..]);
    var all := Components(s);
    assert all == [s[..i]] + names;
    NoDots(s[..i]);
    assert all[0] == s[..i] && forall k :: 0 < k < |all| ==> all[k] == names[k - 1];
    if PathForm(s) {
      forall k | 0 <= k < |names|
        ensures ProperName(names[k])
      {
        assert ProperName(all[k + 1]);
      }
    }
  }

  lemma NoEmptyNameSplits(s: string, i: nat)
    requires i == SlashFrom(s, 0) && i < |s|
    ensures NoEmptyName(s) <==> i > 0 && NoEmptyName(s[i + 1..])
  {
    var rest := s[i + 1..];
    assert forall k :: 0 <= k < |rest| ==> rest[k] == s[i + 1 + k];
    if i > 0 && NoEmptyName(rest) {
      forall k | 0 < k < |s|
        ensures !(s[k - 1] == '/' && s[k] == '/')
      {
        if k > i + 1 {
          assert s[k - 1] == rest[k - i - 2] && s[k] == rest[k - i - 1];
        }
      }
    }
    if NoEmptyName(s) && i + 1 < |s| {
      forall k | 0 < k < |rest|
        ensures !(rest[k - 1] == '/' && rest[k] == '/')
      {
        assert rest[k - 1] == s[i + k] && rest[k] == s[i + 1 + k];
      }
    }
  }

  /** Where the ends of a deep path have letters. */
  lemma EndsOfDeepAt(bare: string)
    requires Deep(bare)
    ensures var ends := Ends(bare);
            && |ends| == 100 && ends[33] == '-' && ends[34] == '-'
            && (forall i :: 0 <= i < 33 ==> ends[i] == if i % 2 == 0 then 'a' else '-')
            && (forall i :: 35 <= i < 100 ==> ends[i] == if i % 2 == 1 then 'a' else '-')
  {
    EndsOfDeep(bare);
    JoinedAt(Alternating(33, '-'), Alternating(65, '-'));
    assert forall i :: 35 <= i < 100 ==> Ends(bare)[i] == Alternating(65, '-')[i - 35];
  }

  lemma JoinedAt(head: string, tail: string)
    requires |head| == 33
    ensures var s := head + "--" + tail;
            && s[33] == '-' && s[34] == '-' && s[..33] == head && s[..34] == head + "-"
            && (forall i :: 0 <= i < 33 ==> s[i] == head[i])
            && (forall i :: 35 <= i < |s| ==> s[i] == tail[i - 35])
  {
  }

  /** And how many dashes stand before the two in the middle. */
  lemma DashesBeforeMiddle(bare: string)
    requires Deep(bare)
    ensures |Ends(bare)| == 100 && Dashes(Ends(bare)[..33]) == 16 && Dashes(Ends(bare)[..34]) == 17
  {
    var head := Alternating(33, '-');
    EndsOfDeep(bare);
    JoinedAt(head, Alternating(65, '-'));
    DashesOfAlternating(33);
    DashesAppend(head, "-");
    assert "-"[1..] == "" && Dashes("-") == 1 + Dashes("");
  }

  lemma RestoredCharacter(flat: string, marks: string, i: nat)
    requires Dashes(flat) == |marks| && i < |flat| && (flat[i] == 'a' || flat[i] == '-')
    ensures |Restored(flat, marks)| == |flat|
    ensures flat[i] == 'a' ==> Restored(flat, marks)[i] == 'a'
    ensures Restored(flat, marks)[i] != '.'
  {
    if flat[i] == 'a' {
      RestoredAt(flat, marks, i);
    } else {
      RestoredDashAt(flat, marks, i);
    }
  }

  /** What fifty marks make of those ends: letters where there were letters, and two slashes side by
      side exactly when both middle marks are set. */
  lemma RestoredDeep(bare: string, marks: string)
    requires Deep(bare) && |marks| == 50 && Dashes(Ends(bare)) == 50
    ensures var x := Restored(Ends(bare), marks);
            && '.' !in x && (NoEmptyName(x) <==> !(marks[16] == '1' && marks[17] == '1'))
  {
    var ends, x := Ends(bare), Restored(Ends(bare), marks);
    EndsOfDeepAt(bare);
    RestoredSize(ends, marks);
    forall i | 0 <= i < 100
      ensures ends[i] == 'a' ==> x[i] == 'a'
      ensures x[i] != '.'
    {
      RestoredCharacter(ends, marks, i);
    }
    RestoredMiddle(bare, marks);
    SlashesMeetInTheMiddle(x);
  }

  lemma RestoredMiddle(bare: string, marks: string)
    requires Deep(bare) && |marks| == 50 && Dashes(Ends(bare)) == 50
    ensures var x := Restored(Ends(bare), marks);
            |x| == 100 && (x[33] == '/' <==> marks[16] == '1') && (x[34] == '/' <==> marks[17] == '1')
  {
    EndsOfDeepAt(bare);
    DashesBeforeMiddle(bare);
    RestoredDashAt(Ends(bare), marks, 33);
    RestoredDashAt(Ends(bare), marks, 34);
  }

  lemma SlashesMeetInTheMiddle(x: string)
    requires |x| == 100
    requires forall i :: 0 <= i < 33 && i % 2 == 0 ==> x[i] == 'a'
    requires forall i :: 35 <= i < 100 && i % 2 == 1 ==> x[i] == 'a'
    ensures NoEmptyName(x) <==> !(x[33] == '/' && x[34] == '/')
  {
    assert x[0] == 'a' && x[99] == 'a' && x[32] == 'a' && x[35] == 'a';
    forall i | 0 < i < 100 && i != 34
      ensures x[i - 1] == 'a' || x[i] == 'a'
    {
      if i < 33 {
        assert i % 2 == 0 || (i - 1) % 2 == 0;
      } else if i > 35 {
        assert i % 2 == 1 || (i - 1) % 2 == 1;
      }
    }
  }

  /** Fifty dashes have marks for any twelve digits. */
  lemma DeepDecodes(pl: Platform, bare: string)
    requires Sound(pl) && Deep(bare)
    ensures |pl.digest(bare)| == HASH_LENGTH && HexDigits(pl.digest(bare))
    ensures Decodes(pl, bare) <==> pl.digest(bare)[0] != '0'
  {
    DigestDigits(pl, bare);
    DashesOfDeep(bare);
    ParseHexDigits(pl.digest(bare));
    Pow2Grows(48, 50);
  }

  lemma DeepMisread(pl: Platform, bare: string)
    requires Sound(pl) && Deep(bare) && |pl.digest(bare)| == HASH_LENGTH && HexDigits(pl.digest(bare))
    requires Decodes(pl, bare)
    ensures PathForm(Misread(pl, bare)) <==> DigitValue(pl.digest(bare)[3]) % 4 != 3
  {
    DashesOfDeep(bare);
    var n := ParseHex(pl.digest(bare)).value;
    var marks := MarksOf(n, Dashes(Ends(bare)));
    MarksOfValue(n, Dashes(Ends(bare)));
    MiddleMarks(pl.digest(bare), marks);
    RestoredDeep(bare, marks);
    UndottedPath(Misread(pl, bare));
  }

  /** Whatever the hash function, such a path shares its id with another path unless its hash starts
      with a zero, or the fourth digit sets both marks between the ends: then the id spells an
      empty name. */
  lemma DeepIdIsShared(pl: Platform, bare: string)
    requires Sound(pl) && Deep(bare)
    ensures !Fits(bare) && |pl.digest(bare)| == HASH_LENGTH && HexDigits(pl.digest(bare))
    ensures (exists x :: Fits(x) && PathForm(x) && Name(pl, x) == Name(pl, bare)) <==>
              pl.digest(bare)[0] != '0' && DigitValue(pl.digest(bare)[3]) % 4 != 3
  {
    FlatOfDeep(bare);
    DeepDecodes(pl, bare);
    SharedByPath(pl, bare);
    if Decodes(pl, bare) {
      DeepMisread(pl, bare);
    }
  }
}
