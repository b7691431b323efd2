/** Ids of paths too long for one component: when such an id can be mistaken for another root's. */
module ElidedId {
  import opened Wrappers
  import opened Utf8
  import opened Ids = RepoId

  /** What an elided id keeps of the flat form. */
  function Ends(bare: string): string {
    HeadBytes(Flat(bare), HEAD_BYTES) + "--" + Tail(Flat(bare))
  }

  lemma EndsFit(bare: string)
    ensures NoSlash(Ends(bare)) && |Encode(Ends(bare))| <= ID_BYTES_MAX
  {
    ElidedParts(Flat(bare));
    DashSize();
    var head := HeadBytes(Flat(bare), HEAD_BYTES);
    EncodeAppend(head + "--", Tail(Flat(bare)));
    EncodeAppend(head, "--");
  }

  lemma ElidedNameSplits(pl: Platform, bare: string)
    requires Sound(pl) && !Fits(bare)
    ensures Name(pl, bare) == Ends(bare) + "-" + pl.digest(bare)
    ensures FlatPart(Name(pl, bare)) == Ends(bare) && TagPart(Name(pl, bare)) == pl.digest(bare)
  {
    var digest := pl.digest(bare);
    assert |digest| == HASH_LENGTH && forall i :: 0 <= i < HASH_LENGTH ==> HexDigit(digest[i]);
    LastDashOf(Ends(bare), digest);
  }

  // ---- Which ids are equal -----------------------------------------------------------

  /** A path that fits and one that does not have one id exactly when the first flattens to the ends
      of the second and its marks spell the hash. */
  lemma FittingAndElidedIds(pl: Platform, fitting: string, elided: string)
    requires Sound(pl) && Fits(fitting) && !Fits(elided)
    ensures Name(pl, fitting) == Name(pl, elided) <==>
              Flat(fitting) == Ends(elided) && Tag(fitting) == pl.digest(elided)
  {
    NameSplits(pl, fitting);
    ElidedNameSplits(pl, elided);
    if Flat(fitting) == Ends(elided) {
      assert |Ends(elided)| >= 2;
    }
  }

  /** Two paths that do not fit have one id exactly when their ends and their hashes agree. */
  lemma ElidedIds(pl: Platform, a: string, b: string)
    requires Sound(pl) && !Fits(a) && !Fits(b)
    ensures Name(pl, a) == Name(pl, b) <==> Ends(a) == Ends(b) && pl.digest(a) == pl.digest(b)
  {
    ElidedNameSplits(pl, a);
    ElidedNameSplits(pl, b);
  }

  lemma {:induction false} HexStart(n: nat)
    ensures |Hex(n)| > 1 ==> Hex(n)[0] != '0' && n >= Pow2(4 * (|Hex(n)| - 1))
    decreases n
  {
    if n >= 16 {
      HexStart(n / 16);
      assert Hex(n) == Hex(n / 16) + [Digit(n % 16)];
      Sixteen(4 * (|Hex(n / 16)| - 1));
      if n / 16 < 16 {
        assert Hex(n / 16) == [Digit(n / 16)];
        assert Pow2(4) == 16 * Pow2(0);
      }
    }
  }

  /** An elided id is no fitting path's when its hash starts with a zero, or when its ends have
      fewer than 45 dashes: too few marks for twelve digits. */
  lemma FewDashesNeverCollide(pl: Platform, fitting: string, elided: string)
    requires Sound(pl) && Fits(fitting) && !Fits(elided)
    requires pl.digest(elided)[0] == '0' || Dashes(Ends(elided)) < 45
    ensures Name(pl, fitting) != Name(pl, elided)
  {
    FittingAndElidedIds(pl, fitting, elided);
    HexStart(Value(Marks(fitting)));
    ValueIsBelow(Marks(fitting));
    RestoredIsBare(fitting);
    if Flat(fitting) == Ends(elided) && Dashes(Ends(elided)) < 45 {
      Pow2Grows(|Marks(fitting)|, 44);
    }
  }

  // ---- Which elided ids read as roots ------------------------------------------------

  lemma {:induction false} FlatOfRestored(flat: string, marks: string)
    requires NoSlash(flat) && Bits(marks) && Dashes(flat) == |marks|
    ensures Flat(Restored(flat, marks)) == flat && Marks(Restored(flat, marks)) == marks
    decreases |flat|
  {
    if flat != "" {
      var rest := if flat[0] == '-' then marks[1..] else marks;
      FlatOfRestored(flat[1..], rest);
      FlatOneMore(flat, marks, rest);
    } else {
      assert marks == "";
    }
  }

  lemma FlatOneMore(flat: string, marks: string, rest: string)
    requires flat != "" && NoSlash(flat) && Bits(marks) && Dashes(flat) == |marks|
    requires rest == if flat[0] == '-' then marks[1..] else marks
    requires Flat(Restored(flat[1..], rest)) == flat[1..] && Marks(Restored(flat[1..], rest)) == rest
    ensures Flat(Restored(flat, marks)) == flat && Marks(Restored(flat, marks)) == marks
  {
    var s := Restored(flat, marks);
    assert s[1..] == Restored(flat[1..], rest);
    assert flat == [flat[0]] + flat[1..];
    if flat[0] == '-' {
      assert marks == [marks[0]] + rest;
    } else {
      assert "" + rest == marks;
    }
  }

  lemma {:induction false} BinaryValue(n: nat)
    ensures Value(Binary(n)) == n
    decreases n
  {
    var m := Binary(n);
    if n >= 2 {
      BinaryValue(n / 2);
      assert m[..|m| - 1] == Binary(n / 2);
    } else {
      assert m[..0] == "";
    }
  }

  lemma {:induction false} ZerosValue(k: nat, m: string)
    ensures Value(Zeros(k) + m) == Value(m)
    decreases k + |m|
  {
    var s := Zeros(k) + m;
    if m != "" {
      assert s[..|s| - 1] == Zeros(k) + m[..|m| - 1];
      ZerosValue(k, m[..|m| - 1]);
    } else if k > 0 {
      assert s[..|s| - 1] == Zeros(k - 1) + "";
      ZerosValue(k - 1, "");
    }
  }

  lemma MarksOfValue(bits: nat, dashes: nat)
    requires bits < Pow2(dashes)
    ensures Value(MarksOf(bits, dashes)) == bits && Bits(MarksOf(bits, dashes))
  {
    if dashes > 0 {
      PaddedSize(bits, dashes);
      BinaryValue(bits);
      if |Binary(bits)| < dashes {
        ZerosValue(dashes - |Binary(bits)|, Binary(bits));
      }
    }
  }

  predicate HexDigits(s: string) {
    forall i :: 0 <= i < |s| ==> HexDigit(s[i])
  }

  lemma ParseHexOneMore(front: string, last: char)
    requires ParseHex(front).Some? && HexDigit(last)
    ensures ParseHex(front + [last]) == Some(16 * ParseHex(front).value + DigitValue(last))
  {
    assert (front + [last])[..|front|] == front;
  }

  lemma HexOneMore(v: nat, last: char)
    requires v > 0 && HexDigit(last)
    ensures Hex(16 * v + DigitValue(last)) == Hex(v) + [last]
  {
    var n := 16 * v + DigitValue(last);
    assert n / 16 == v && n % 16 == DigitValue(last);
    assert Digit(DigitValue(last)) == last;
  }

  lemma {:induction false} ParseHexDigits(s: string)
    requires HexDigits(s)
    ensures ParseHex(s).Some? && ParseHex(s).value < Pow2(4 * |s|)
    decreases |s|
  {
    if s != "" {
      var front, last := s[..|s| - 1], s[|s| - 1];
      assert s == front + [last];
      ParseHexDigits(front);
      ParseHexOneMore(front, last);
      Sixteen(4 * |front|);
    }
  }

  lemma HexOfParsedMore(front: string, last: char)
    requires HexDigit(last) && ParseHex(front).Some?
    requires if front == "" then last != '0' else ParseHex(front).value > 0 && Hex(ParseHex(front).value) == front
    ensures var n := ParseHex(front + [last]); n.Some? && n.value > 0 && Hex(n.value) == front + [last]
  {
    ParseHexOneMore(front, last);
    if front == "" {
      assert Digit(DigitValue(last)) == last;
    } else {
      HexOneMore(ParseHex(front).value, last);
    }
  }

  /** Digits without a leading zero are those of the number they read as. */
  lemma {:induction false} HexOfParsed(s: string)
    requires s != "" && HexDigits(s) && s[0] != '0'
    ensures ParseHex(s).Some? && ParseHex(s).value > 0 && Hex(ParseHex(s).value) == s
    decreases |s|
  {
    var front := s[..|s| - 1];
    ParseHexDigits(front);
    if front != "" {
      HexOfParsed(front);
    }
    HexOfParsedMore(front, s[|s| - 1]);
    assert front + [s[|s| - 1]] == s;
  }

  /** The hash reads as marks for the dashes of the ends. */
  predicate Decodes(pl: Platform, bare: string)
    requires pl.digest(bare) != ""
  {
    var bits := ParseHex(pl.digest(bare));
    pl.digest(bare)[0] != '0' && bits.Some? && bits.value < Pow2(Dashes(Ends(bare)))
  }

  /** The other path that an elided id spells. */
  function Misread(pl: Platform, bare: string): string
    requires pl.digest(bare) != "" && Decodes(pl, bare)
  {
    Restored(Ends(bare), MarksOf(ParseHex(pl.digest(bare)).value, Dashes(Ends(bare))))
  }

  lemma DigestDigits(pl: Platform, bare: string)
    requires Sound(pl)
    ensures |pl.digest(bare)| == HASH_LENGTH && HexDigits(pl.digest(bare))
  {
  }

  lemma MisreadFits(pl: Platform, bare: string)
    requires Sound(pl) && pl.digest(bare) != "" && Decodes(pl, bare)
    ensures Fits(Misread(pl, bare)) && Flat(Misread(pl, bare)) == Ends(bare)
    ensures Tag(Misread(pl, bare)) == pl.digest(bare)
  {
    var bits := ParseHex(pl.digest(bare)).value;
    EndsFit(bare);
    DigestDigits(pl, bare);
    HexOfParsed(pl.digest(bare));
    MarksOfValue(bits, Dashes(Ends(bare)));
    FlatOfRestored(Ends(bare), MarksOf(bits, Dashes(Ends(bare))));
  }

  lemma SpelledIsMisread(pl: Platform, bare: string, x: string)
    requires Sound(pl) && Flat(x) == Ends(bare) && Tag(x) == pl.digest(bare)
    ensures pl.digest(bare) != "" && Decodes(pl, bare) && x == Misread(pl, bare)
  {
    DigestDigits(pl, bare);
    HexStart(Value(Marks(x)));
    ParseHexReads(Value(Marks(x)));
    RestoredIsBare(x);
    MarksAreRecovered(x);
  }

  /** The paths that fit and share an elided path's id: just the one that the id spells, and none
      unless the hash has no leading zero and reads as marks for the dashes of the ends. */
  lemma OnlyMisreadShares(pl: Platform, elided: string, fitting: string)
    requires Sound(pl) && !Fits(elided) && Fits(fitting)
    ensures pl.digest(elided) != ""
    ensures Name(pl, fitting) == Name(pl, elided) <==> Decodes(pl, elided) && fitting == Misread(pl, elided)
  {
    DigestDigits(pl, elided);
    FittingAndElidedIds(pl, fitting, elided);
    if Decodes(pl, elided) {
      MisreadFits(pl, elided);
    }
    if Name(pl, fitting) == Name(pl, elided) {
      SpelledIsMisread(pl, elided, fitting);
    }
  }

  /** The path that the id spells does not lead, over links, to one too long for a component. */
  ghost predicate NoLongLink(pl: Platform, name: string) {
    Candidate(pl, name).Some? ==> Fits(WithoutSlashes(pl.resolve(Candidate(pl, name).value)))
  }

  lemma MisreadIsCandidate(pl: Platform, bare: string)
    requires Sound(pl) && !Fits(bare) && pl.digest(bare) != "" && Decodes(pl, bare)
    ensures Candidate(pl, Name(pl, bare)) == Some(pl.path("/" + Misread(pl, bare)))
  {
    ElidedNameSplits(pl, bare);
    DigestDigits(pl, bare);
    HexOfParsed(pl.digest(bare));
    assert pl.parseHex(Hex(ParseHex(pl.digest(bare)).value)) == ParseHex(pl.digest(bare));
  }

  lemma ReadIsMisread(pl: Platform, bare: string)
    requires Sound(pl) && !Fits(bare) && NoLongLink(pl, Name(pl, bare)) && RootOf(pl, Name(pl, bare)).Some?
    ensures pl.digest(bare) != "" && Decodes(pl, bare)
    ensures WithoutSlashes(pl.resolve(pl.path("/" + Misread(pl, bare)))) == Misread(pl, bare)
    ensures RootOf(pl, Name(pl, bare)) == Some(pl.path("/" + Misread(pl, bare)))
  {
    OnlyMisreadShares(pl, bare, WithoutSlashes(pl.resolve(Candidate(pl, Name(pl, bare)).value)));
    MisreadIsCandidate(pl, bare);
  }

  /** Exactly when an elided id reads as a root: its hash has no leading zero and reads as marks for
      the dashes of the ends, and the path so spelled is a real path's own form.  What is read is then
      another path, which fits and has the same id. */
  lemma ElidedIdReads(pl: Platform, bare: string)
    requires Sound(pl) && !Fits(bare) && NoLongLink(pl, Name(pl, bare))
    ensures pl.digest(bare) != ""
    ensures RootOf(pl, Name(pl, bare)).Some? <==>
              && Decodes(pl, bare)
              && WithoutSlashes(pl.resolve(pl.path("/" + Misread(pl, bare)))) == Misread(pl, bare)
    ensures RootOf(pl, Name(pl, bare)).Some? ==>
              var other := RootOf(pl, Name(pl, bare)).value;
              var read := WithoutSlashes(pl.resolve(other));
              RepoId(pl, other) == Name(pl, bare) && Fits(read) && read != bare
  {
    DigestDigits(pl, bare);
    if RootOf(pl, Name(pl, bare)).Some? {
      ReadIsMisread(pl, bare);
    }
    if Decodes(pl, bare) && WithoutSlashes(pl.resolve(pl.path("/" + Misread(pl, bare)))) == Misread(pl, bare) {
      MisreadFits(pl, bare);
      OnlyMisreadShares(pl, bare, Misread(pl, bare));
      MisreadIsCandidate(pl, bare);
    }
  }

  // ---- Paths -------------------------------------------------------------------------

  /** The names between the slashes. */
  function Components(s: string): (r: seq<string>)
    ensures r != []
    decreases |s|
  {
    var i := SlashFrom(s, 0);
    if i == |s| then [s] else [s[..i]] + Components(s[i + 1..])
  }

  function SlashFrom(s: string, from: nat): (i: nat)
    requires from <= |s|
    ensures from <= i <= |s| && (i < |s| ==> s[i] == '/')
    ensures forall k :: from <= k < i ==> s[k] != '/'
    decreases |s| - from
  {
    if from == |s| || s[from] == '/' then from else SlashFrom(s, from + 1)
  }

  predicate ProperName(name: string) {
    name != "" && name != "." && name != ".."
  }

  /** A resolved path without its first slash: no empty name and no dots. */
  predicate PathForm(s: string) {
    forall i :: 0 <= i < |Components(s)| ==> ProperName(Components(s)[i])
  }

  /** Some path that fits shares an elided path's id exactly when what the id spells is one. */
  lemma SharedByPath(pl: Platform, elided: string)
    requires Sound(pl) && !Fits(elided)
    ensures pl.digest(elided) != ""
    ensures (exists x :: Fits(x) && PathForm(x) && Name(pl, x) == Name(pl, elided)) <==>
              Decodes(pl, elided) && PathForm(Misread(pl, elided))
  {
    DigestDigits(pl, elided);
    forall x | Fits(x) && PathForm(x) && Name(pl, x) == Name(pl, elided)
      ensures Decodes(pl, elided) && x == Misread(pl, elided)
    {
      OnlyMisreadShares(pl, elided, x);
    }
    if Decodes(pl, elided) && PathForm(Misread(pl, elided)) {
      MisreadFits(pl, elided);
      OnlyMisreadShares(pl, elided, Misread(pl, elided));
    }
  }
}
