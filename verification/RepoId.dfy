/** Reversible repository ids: `repo_id` and `repo_root_of_id` of `paths.py`. */
module RepoId {
  import opened Wrappers
  import opened Utf8

  const ID_BYTES_MAX: nat := 100
  const HEAD_BYTES: nat := 33
  const TAIL_BYTES: nat := 65
  const HASH_LENGTH: nat := 12

  /** What the source takes from its surroundings: path resolution, the normal form a path gets,
      the hash (already cut to its length) and `int(tag, 16)`, None where that raises. */
  datatype Platform = Platform(
    resolve: string -> string,
    path: string -> string,
    digest: string -> string,
    parseHex: string -> Option<nat>)

  ghost predicate Sound(pl: Platform) {
    && (forall n: nat :: pl.parseHex(Hex(n)) == Some(n))
    && (forall s :: |pl.digest(s)| == HASH_LENGTH && forall i :: 0 <= i < HASH_LENGTH ==> HexDigit(pl.digest(s)[i]))
  }

  // ---- Digits ------------------------------------------------------------------------

  predicate HexDigit(c: char) {
    '0' <= c <= '9' || 'a' <= c <= 'f'
  }

  function Digit(n: nat): (c: char)
    requires n < 16
    ensures HexDigit(c)
  {
    if n < 10 then '0' + n as char else 'a' + (n - 10) as char
  }

  function Hex(n: nat): (s: string)
    ensures s != "" && forall i :: 0 <= i < |s| ==> HexDigit(s[i])
  {
    if n < 16 then [Digit(n)] else Hex(n / 16) + [Digit(n % 16)]
  }

  predicate Bits(m: string) {
    forall i :: 0 <= i < |m| ==> m[i] == '0' || m[i] == '1'
  }

  /** `int(m, 2)`; 0 for no digits. */
  function Value(m: string): nat {
    if m == "" then 0 else 2 * Value(m[..|m| - 1]) + if m[|m| - 1] == '1' then 1 else 0
  }

  function Binary(n: nat): (m: string)
    ensures m != "" && Bits(m)
  {
    if n < 2 then [Digit(n)] else Binary(n / 2) + [Digit(n % 2)]
  }

  function Zeros(n: nat): (m: string)
    ensures |m| == n && Bits(m)
  {
    seq(n, _ => '0')
  }

  /** `format(n, "0<width>b")`. */
  function Padded(n: nat, width: nat): string {
    var m := Binary(n);
    if |m| < width then Zeros(width - |m|) + m else m
  }

  function Pow2(n: nat): (p: nat)
    ensures p >= 1
  {
    if n == 0 then 1 else 2 * Pow2(n - 1)
  }

  lemma {:induction false} ValueIsBelow(m: string)
    ensures Value(m) < Pow2(|m|)
    decreases |m|
  {
    if m != "" {
      ValueIsBelow(m[..|m| - 1]);
    }
  }

  lemma {:induction false} Pow2Grows(a: nat, b: nat)
    requires a <= b
    ensures Pow2(a) <= Pow2(b)
    decreases b
  {
    if a < b {
      Pow2Grows(a, b - 1);
    }
  }

  lemma {:induction false} BinarySize(n: nat, width: nat)
    requires n < Pow2(width) && width > 0
    ensures |Binary(n)| <= width
    decreases width
  {
    if n >= 2 {
      BinarySize(n / 2, width - 1);
    }
  }

  lemma {:induction false} HexSize(n: nat, k: nat)
    requires n < Pow2(4 * k) && k > 0
    ensures |Hex(n)| <= k
    decreases k
  {
    assert Pow2(4 * k) == 16 * Pow2(4 * (k - 1)) by { Sixteen(4 * (k - 1)); }
    if n >= 16 {
      HexSize(n / 16, k - 1);
    }
  }

  lemma Sixteen(n: nat)
    ensures Pow2(n + 4) == 16 * Pow2(n)
  {
    assert Pow2(n + 4) == 2 * Pow2(n + 3) && Pow2(n + 3) == 2 * Pow2(n + 2) && Pow2(n + 2) == 2 * Pow2(n + 1);
  }

  lemma PaddedSize(n: nat, width: nat)
    requires n < Pow2(width) && width > 0
    ensures |Padded(n, width)| == width && Bits(Padded(n, width))
  {
    BinarySize(n, width);
  }

  lemma PaddedDigit(b: nat, width: nat)
    requires b < 2 && width > 0
    ensures Padded(b, width) == Zeros(width - 1) + [Digit(b)]
  {
    assert Binary(b) == [Digit(b)];
    assert Zeros(0) + [Digit(b)] == [Digit(b)];
  }

  lemma PaddedPositive(v: nat, b: nat, width: nat)
    requires v > 0 && b < 2
    ensures Padded(2 * v + b, width + 1) == Padded(v, width) + [Digit(b)]
  {
    assert (2 * v + b) / 2 == v && (2 * v + b) % 2 == b;
    assert Binary(2 * v + b) == Binary(v) + [Digit(b)];
    if |Binary(v)| < width {
      Associative(Zeros(width - |Binary(v)|), Binary(v), [Digit(b)]);
    }
  }

  lemma PaddedOneMore(v: nat, b: nat, width: nat)
    requires b < 2 && width > 0
    ensures Padded(2 * v + b, width + 1) == Padded(v, width) + [Digit(b)]
  {
    if v == 0 {
      PaddedDigit(b, width + 1);
      PaddedDigit(0, width);
      ZerosOneMore(width);
    } else {
      PaddedPositive(v, b, width);
    }
  }

  lemma ZerosOneMore(n: nat)
    requires n > 0
    ensures Zeros(n) == Zeros(n - 1) + [Digit(0)]
  {
  }

  /** The leading zeros a number loses are recovered from the width. */
  lemma {:induction false} PaddedValue(m: string)
    requires m != "" && Bits(m)
    ensures Padded(Value(m), |m|) == m
    decreases |m|
  {
    var front, last := m[..|m| - 1], m[|m| - 1];
    var b := if last == '1' then 1 else 0;
    assert Digit(b) == last;
    assert m == front + [last];
    if front == "" {
      assert Binary(b) == [last];
    } else {
      PaddedValue(front);
      PaddedOneMore(Value(front), b, |front|);
    }
  }

  // ---- Paths and names ---------------------------------------------------------------

  function LeftStripped(s: string): string {
    if s != "" && s[0] == '/' then LeftStripped(s[1..]) else s
  }

  function RightStripped(s: string): string {
    if s != "" && s[|s| - 1] == '/' then RightStripped(s[..|s| - 1]) else s
  }

  function WithoutSlashes(s: string): string {
    RightStripped(LeftStripped(s))
  }

  /** Every slash becomes a dash. */
  function Flat(bare: string): (flat: string)
    ensures |flat| == |bare| && forall i :: 0 <= i < |flat| ==> flat[i] != '/'
  {
    if bare == "" then "" else [if bare[0] == '/' then '-' else bare[0]] + Flat(bare[1..])
  }

  /** One mark per dash of the flat form: whether it was a slash. */
  function Marks(bare: string): (m: string)
    ensures Bits(m)
  {
    if bare == "" then ""
    else (if bare[0] == '/' then "1" else if bare[0] == '-' then "0" else "") + Marks(bare[1..])
  }

  function Dashes(flat: string): (n: nat)
    ensures n <= |flat|
  {
    if flat == "" then 0 else (if flat[0] == '-' then 1 else 0) + Dashes(flat[1..])
  }

  predicate Fits(bare: string) {
    |Encode(Flat(bare))| <= ID_BYTES_MAX
  }

  function Tail(s: string): string {
    s[TailStart(s, TAIL_BYTES)..]
  }

  function Tag(bare: string): string {
    Hex(Value(Marks(bare)))
  }

  function Name(pl: Platform, bare: string): string {
    var flat := Flat(bare);
    if !Fits(bare) then HeadBytes(flat, HEAD_BYTES) + "--" + Tail(flat) + "-" + pl.digest(bare)
    else if flat != "" then flat + "-" + Tag(bare)
    else Tag(bare)
  }

  function RepoId(pl: Platform, root: string): string {
    Name(pl, WithoutSlashes(pl.resolve(root)))
  }

  /** `repo_id`, as it computes. */
  method ComputeRepoId(pl: Platform, root: string) returns (name: string)
    ensures name == RepoId(pl, root)
  {
    var bare := WithoutSlashes(pl.resolve(root));
    var flat := Flat(bare);
    if |Encode(flat)| > ID_BYTES_MAX {
      var tail := TailBytes(flat, ID_BYTES_MAX - ID_BYTES_MAX / 3 - 2);
      return HeadBytes(flat, ID_BYTES_MAX / 3) + "--" + tail + "-" + pl.digest(bare);
    }
    return if flat != "" then flat + "-" + Tag(bare) else Tag(bare);
  }

  // ---- Reading a name back -----------------------------------------------------------

  /** The flat form with its marked dashes turned back into slashes. */
  function Restored(flat: string, marks: string): string
    requires Dashes(flat) == |marks|
  {
    if flat == "" then ""
    else if flat[0] == '-' then [if marks[0] == '1' then '/' else '-'] + Restored(flat[1..], marks[1..])
    else [flat[0]] + Restored(flat[1..], marks)
  }

  /** Where the last dash before `end` is, or -1. */
  function LastDashBefore(s: string, end: nat): (k: int)
    requires end <= |s|
    ensures -1 <= k < end
    ensures k >= 0 ==> s[k] == '-'
    ensures forall i :: k < i < end ==> s[i] != '-'
  {
    if end == 0 then -1 else if s[end - 1] == '-' then end - 1 else LastDashBefore(s, end - 1)
  }

  function LastDash(s: string): (k: int)
    ensures -1 <= k < |s|
  {
    LastDashBefore(s, |s|)
  }

  function FlatPart(name: string): string {
    var k := LastDash(name);
    if k < 0 then "" else name[..k]
  }

  function TagPart(name: string): string {
    name[LastDash(name) + 1..]
  }

  function MarksOf(bits: nat, dashes: nat): (m: string)
    requires bits < Pow2(dashes)
    ensures |m| == dashes
  {
    PaddedSizeOrNone(bits, dashes);
    if dashes == 0 then "" else Padded(bits, dashes)
  }

  lemma PaddedSizeOrNone(bits: nat, dashes: nat)
    requires bits < Pow2(dashes)
    ensures dashes > 0 ==> |Padded(bits, dashes)| == dashes
  {
    if dashes > 0 {
      PaddedSize(bits, dashes);
    }
  }

  /** The root a name reads as, before the check that it is one. */
  function Candidate(pl: Platform, name: string): Option<string> {
    var flat := FlatPart(name);
    var bits := pl.parseHex(TagPart(name));
    if bits.None? || bits.value >= Pow2(Dashes(flat)) then None
    else Some(pl.path("/" + Restored(flat, MarksOf(bits.value, Dashes(flat)))))
  }

  function RootOf(pl: Platform, name: string): Option<string> {
    var candidate := Candidate(pl, name);
    if candidate.Some? && RepoId(pl, candidate.value) == name then candidate else None
  }

  lemma RestoredDash(flat: string, marks: string, out: string)
    requires flat != "" && flat[0] == '-' && Dashes(flat) == |marks|
    ensures marks != "" && out + Restored(flat, marks)
                           == out + [if marks[0] == '1' then '/' else '-'] + Restored(flat[1..], marks[1..])
  {
    Associative(out, [if marks[0] == '1' then '/' else '-'], Restored(flat[1..], marks[1..]));
  }

  lemma RestoredOther(flat: string, marks: string, out: string)
    requires flat != "" && flat[0] != '-' && Dashes(flat) == |marks|
    ensures out + Restored(flat, marks) == out + [flat[0]] + Restored(flat[1..], marks)
  {
    Associative(out, [flat[0]], Restored(flat[1..], marks));
  }

  lemma Rest<T>(s: seq<T>, i: nat)
    requires i < |s|
    ensures s[i..] != [] && s[i..][0] == s[i] && s[i..][1..] == s[i + 1..]
  {
  }

  /** A pass over the flat form with an iterator on the marks beside it. */
  method Restore(flat: string, marks: string) returns (out: string)
    requires Dashes(flat) == |marks|
    ensures out == Restored(flat, marks)
  {
    out := "";
    var next := 0;
    assert marks[0..] == marks && flat[0..] == flat && "" + Restored(flat, marks) == Restored(flat, marks);
    for i := 0 to |flat|
      invariant next <= |marks| && Dashes(flat[i..]) == |marks| - next
      invariant out + Restored(flat[i..], marks[next..]) == Restored(flat, marks)
    {
      Rest(flat, i);
      if flat[i] == '-' {
        RestoredDash(flat[i..], marks[next..], out);
        Rest(marks, next);
        out := out + [if marks[next] == '1' then '/' else '-'];
        next := next + 1;
      } else {
        RestoredOther(flat[i..], marks[next..], out);
        out := out + [flat[i]];
      }
    }
    assert out + "" == out;
  }

  /** `repo_root_of_id`. */
  method RepoRootOfId(pl: Platform, name: string) returns (root: Option<string>)
    ensures root == RootOf(pl, name)
  {
    var flat, tag := FlatPart(name), TagPart(name);
    var bits := pl.parseHex(tag);
    if bits.None? {
      return None;
    }
    if bits.value >= Pow2(Dashes(flat)) {
      return None;
    }
    var out := Restore(flat, MarksOf(bits.value, Dashes(flat)));
    var candidate := pl.path("/" + out);
    return if RepoId(pl, candidate) == name then Some(candidate) else None;
  }

  // ---- The round trip ----------------------------------------------------------------

  lemma {:induction false} RestoredIsBare(bare: string)
    ensures Dashes(Flat(bare)) == |Marks(bare)|
    ensures Restored(Flat(bare), Marks(bare)) == bare
    decreases |bare|
  {
    if bare != "" {
      RestoredIsBare(bare[1..]);
      RestoredOneMore(bare[0], bare[1..]);
      assert bare == [bare[0]] + bare[1..];
    }
  }

  lemma RestoredOneMore(c: char, rest: string)
    requires Dashes(Flat(rest)) == |Marks(rest)|
    ensures var bare := [c] + rest;
            && Dashes(Flat(bare)) == |Marks(bare)|
            && Restored(Flat(bare), Marks(bare)) == [c] + Restored(Flat(rest), Marks(rest))
  {
    var bare := [c] + rest;
    assert bare[1..] == rest;
    assert Flat(bare)[1..] == Flat(rest);
    if c == '/' || c == '-' {
      assert Marks(bare)[1..] == Marks(rest);
    } else {
      assert Marks(bare) == Marks(rest);
    }
  }

  lemma MarksAreRecovered(bare: string)
    ensures Value(Marks(bare)) < Pow2(|Marks(bare)|)
    ensures MarksOf(Value(Marks(bare)), |Marks(bare)|) == Marks(bare)
  {
    ValueIsBelow(Marks(bare));
    if Marks(bare) != "" {
      PaddedValue(Marks(bare));
    }
  }

  lemma LastDashOf(flat: string, tag: string)
    requires forall i :: 0 <= i < |tag| ==> tag[i] != '-'
    ensures LastDash(flat + "-" + tag) == |flat|
    ensures FlatPart(flat + "-" + tag) == flat && TagPart(flat + "-" + tag) == tag
    ensures FlatPart(tag) == "" && TagPart(tag) == tag
  {
    LastDashInside(flat, tag);
    Sides(flat, '-', tag);
    assert tag[0..] == tag;
  }

  lemma LastDashInside(flat: string, tag: string)
    requires forall i :: 0 <= i < |tag| ==> tag[i] != '-'
    ensures LastDash(flat + "-" + tag) == |flat|
  {
    Sides(flat, '-', tag);
    LastDashIs(flat + "-" + tag, |flat|);
  }

  lemma Sides<T>(a: seq<T>, c: T, b: seq<T>)
    ensures var s := a + [c] + b;
            && s[|a|] == c && s[..|a|] == a && s[|a| + 1..] == b
            && forall i :: |a| < i < |s| ==> s[i] == b[i - |a| - 1]
  {
  }

  lemma LastDashIs(s: string, k: nat)
    requires k < |s| && s[k] == '-' && forall i :: k < i < |s| ==> s[i] != '-'
    ensures LastDash(s) == k
  {
  }

  lemma NameSplits(pl: Platform, bare: string)
    requires Fits(bare)
    ensures FlatPart(Name(pl, bare)) == Flat(bare) && TagPart(Name(pl, bare)) == Tag(bare)
  {
    LastDashOf(Flat(bare), Tag(bare));
  }

  /** A resolved path: a slash and the components, no slash at the end. */
  predicate Canonical(pl: Platform, root: string) {
    pl.resolve(root) == root && pl.path(root) == root && root == "/" + WithoutSlashes(root)
  }

  /** Every canonical path whose name is not elided reads back as itself, the file system's root
      among them. */
  lemma RepoIdRoundTrip(pl: Platform, root: string)
    requires Sound(pl) && Canonical(pl, root) && |Encode(Flat(WithoutSlashes(root)))| <= 100
    ensures RootOf(pl, RepoId(pl, root)) == Some(root)
  {
    var bare := WithoutSlashes(root);
    NameSplits(pl, bare);
    RestoredIsBare(bare);
    MarksAreRecovered(bare);
  }

  lemma RepoIdIsInjective(pl: Platform, a: string, b: string)
    requires Sound(pl) && Canonical(pl, a) && Canonical(pl, b)
    requires Fits(WithoutSlashes(a)) && Fits(WithoutSlashes(b)) && RepoId(pl, a) == RepoId(pl, b)
    ensures a == b
  {
    RepoIdRoundTrip(pl, a);
    RepoIdRoundTrip(pl, b);
  }

  /** A name reads as a canonical path that fits exactly when it is that path's id; and whatever
      a name reads as, it is the id of that. */
  lemma NameReadsAsItsRoot(pl: Platform, name: string, root: string)
    requires Sound(pl) && Canonical(pl, root) && Fits(WithoutSlashes(root))
    ensures RootOf(pl, name) == Some(root) <==> RepoId(pl, root) == name
    ensures RootOf(pl, name).Some? ==> RepoId(pl, RootOf(pl, name).value) == name
  {
    RepoIdRoundTrip(pl, root);
  }

  lemma OneMoreCharacter(c: char, rest: string)
    ensures Flat([c] + rest) == [if c == '/' then '-' else c] + Flat(rest)
    ensures Marks([c] + rest) == (if c == '/' then "1" else if c == '-' then "0" else "") + Marks(rest)
  {
    assert ([c] + rest)[1..] == rest;
  }

  lemma ThreeLetters(first: char, second: char)
    requires (first == '/' || first == '-') && (second == '/' || second == '-')
    ensures var bare := ['a', first, 'b', second, 'c'];
            Flat(bare) == "a-b-c" && Marks(bare) == [if first == '/' then '1' else '0', if second == '/' then '1' else '0']
  {
    OneMoreCharacter('c', "");
    OneMoreCharacter(second, ['c']);
    OneMoreCharacter('b', [second, 'c']);
    OneMoreCharacter(first, ['b', second, 'c']);
    OneMoreCharacter('a', [first, 'b', second, 'c']);
    assert ['c'] + "" == ['c'] && [second] + ['c'] == [second, 'c'] && ['b'] + [second, 'c'] == ['b', second, 'c'];
    assert [first] + ['b', second, 'c'] == [first, 'b', second, 'c'];
    assert ['a'] + [first, 'b', second, 'c'] == ['a', first, 'b', second, 'c'];
  }

  lemma TwoMarks(m: string)
    requires |m| == 2 && m[0] == '1' && (m[1] == '0' || m[1] == '1')
    ensures Hex(Value(m)) == if m[1] == '1' then "3" else "2"
  {
    var front := m[..1];
    assert front == "1" && front[..0] == "";
    assert Value("") == 0 && Value(front) == 1;
    assert Digit(3) == '3' && Digit(2) == '2';
    assert Value(m) == if m[1] == '1' then 3 else 2;
  }

  /** The examples of the documentation: `/a/b/c` is `a-b-c-3`, and `/a/b-c` is `a-b-c-2`. */
  lemma DocumentedIds(pl: Platform)
    ensures Name(pl, "a/b/c") == "a-b-c-3" && Name(pl, "a/b-c") == "a-b-c-2"
  {
    var flat := "a-b-c";
    EncodedSize(flat);
    ThreeLetters('/', '/');
    ThreeLetters('/', '-');
    TwoMarks("11");
    TwoMarks("10");
    assert "a/b/c" == ['a', '/', 'b', '/', 'c'] && "a/b-c" == ['a', '/', 'b', '-', 'c'];
    assert flat + "-" + "3" == "a-b-c-3" && flat + "-" + "2" == "a-b-c-2";
  }

  // ---- Size --------------------------------------------------------------------------

  predicate NoSlash(s: string) {
    forall i :: 0 <= i < |s| ==> s[i] != '/'
  }

  lemma HexIsAscii(s: string)
    requires forall i :: 0 <= i < |s| ==> HexDigit(s[i])
    ensures |Encode(s)| == |s| && NoSlash(s)
  {
    EncodedSize(s);
  }

  lemma {:induction false} AsManyMarks(bare: string)
    ensures |Marks(bare)| <= |bare|
    decreases |bare|
  {
    if bare != "" {
      AsManyMarks(bare[1..]);
    }
  }

  lemma TagSize(bare: string)
    requires Fits(bare)
    ensures 1 <= |Tag(bare)| <= 25 && |Encode(Tag(bare))| == |Tag(bare)| && NoSlash(Tag(bare))
  {
    EncodedSize(Flat(bare));
    AsManyMarks(bare);
    ValueIsBelow(Marks(bare));
    Pow2Grows(|Marks(bare)|, 4 * 25);
    HexSize(Value(Marks(bare)), 25);
    HexIsAscii(Tag(bare));
  }

  lemma DashSize()
    ensures |Encode("-")| == 1 && |Encode("--")| == 2
  {
    EncodedSize("-");
    EncodedSize("--");
  }

  lemma FittingNameSize(pl: Platform, bare: string)
    requires Fits(bare)
    ensures var name := Name(pl, bare); name != "" && NoSlash(name) && |Encode(name)| <= 126
  {
    TagSize(bare);
    DashSize();
    EncodeAppend(Flat(bare) + "-", Tag(bare));
    EncodeAppend(Flat(bare), "-");
  }

  lemma ElidedNameSize(pl: Platform, bare: string)
    requires Sound(pl) && !Fits(bare)
    ensures var name := Name(pl, bare); name != "" && NoSlash(name) && |Encode(name)| <= 113
  {
    ElidedParts(Flat(bare));
    HexIsAscii(pl.digest(bare));
    PartsSize(HeadBytes(Flat(bare), HEAD_BYTES), Tail(Flat(bare)), pl.digest(bare));
  }

  lemma ElidedParts(flat: string)
    requires NoSlash(flat)
    ensures var head := HeadBytes(flat, HEAD_BYTES); NoSlash(head) && |Encode(head)| <= HEAD_BYTES
    ensures NoSlash(Tail(flat)) && |Encode(Tail(flat))| <= TAIL_BYTES
  {
    HeadIsLongestPrefix(flat, HEAD_BYTES);
    TailStartIsLongest(flat, TAIL_BYTES);
  }

  /** Ends that meet cover the text. */
  lemma MeetingEnds(flat: string, head: string, at: nat)
    requires head <= flat && at <= |flat|
    ensures at <= |head| ==> |Encode(flat)| <= |Encode(head)| + |Encode(flat[at..])|
  {
    if at <= |head| {
      EncodeAppend(flat[..at], flat[at..]);
      EncodeAppend(flat[..at], head[at..]);
      assert flat[..at] + flat[at..] == flat && flat[..at] + head[at..] == head;
    }
  }

  /** An elided name keeps as many whole characters of either end as fit, and they do not meet. */
  lemma ElidedNameKeepsEnds(pl: Platform, bare: string)
    requires !Fits(bare)
    ensures var flat := Flat(bare);
            var head, at := HeadBytes(flat, HEAD_BYTES), TailStart(flat, TAIL_BYTES);
            && LongestPrefix(flat, HEAD_BYTES, head) && LongestSuffixAt(flat, TAIL_BYTES, at) && |head| < at
            && Name(pl, bare) == head + "--" + flat[at..] + "-" + pl.digest(bare)
  {
    var flat := Flat(bare);
    HeadIsLongestPrefix(flat, HEAD_BYTES);
    TailStartIsLongest(flat, TAIL_BYTES);
    MeetingEnds(flat, HeadBytes(flat, HEAD_BYTES), TailStart(flat, TAIL_BYTES));
  }

  lemma PartsSize(head: string, tail: string, digest: string)
    requires NoSlash(head) && NoSlash(tail) && NoSlash(digest)
    ensures var name := head + "--" + tail + "-" + digest;
            && name != "" && NoSlash(name)
            && |Encode(name)| == |Encode(head)| + |Encode(tail)| + |Encode(digest)| + 3
  {
    DashSize();
    SizeOfParts(head, "--", tail, "-", digest);
  }

  lemma SizeOfParts(a: string, b: string, c: string, d: string, e: string)
    ensures |Encode(a + b + c + d + e)| == |Encode(a)| + |Encode(b)| + |Encode(c)| + |Encode(d)| + |Encode(e)|
  {
    EncodeAppend(a + b + c + d, e);
    EncodeAppend(a + b + c, d);
    EncodeAppend(a + b, c);
    EncodeAppend(a, b);
  }

  /** Every id is a usable file name: not empty, without a slash, and well below the 255 bytes a
      component may have. */
  lemma RepoIdSize(pl: Platform, root: string)
    requires Sound(pl)
    ensures var name := RepoId(pl, root); name != "" && NoSlash(name) && |Encode(name)| <= 126
  {
    var bare := WithoutSlashes(pl.resolve(root));
    if Fits(bare) {
      FittingNameSize(pl, bare);
    } else {
      ElidedNameSize(pl, bare);
    }
  }

  // ---- The hexadecimal reader exists -------------------------------------------------

  function DigitValue(c: char): nat
    requires HexDigit(c)
  {
    if c <= '9' then (c - '0') as nat else 10 + (c - 'a') as nat
  }

  /** A reader of lower-case digits alone; `int` takes more, none of which survives the check. */
  function ParseHex(s: string): Option<nat> {
    if s == "" then Some(0)
    else
      var front := ParseHex(s[..|s| - 1]);
      if front.None? || !HexDigit(s[|s| - 1]) then None
      else Some(16 * front.value + DigitValue(s[|s| - 1]))
  }

  lemma {:induction false} ParseHexReads(n: nat)
    ensures ParseHex(Hex(n)) == Some(n)
    decreases n
  {
    if n >= 16 {
      ParseHexReads(n / 16);
      assert Hex(n)[..|Hex(n)| - 1] == Hex(n / 16);
    } else {
      assert Hex(n)[..0] == "";
    }
  }
}
