/** UTF-8 (RFC 3629, section 3): the encoding of a text, the strict decoder, and the decoder that
    leaves out the bytes that are no character.
 */
module Utf8 {
  import opened Wrappers

  function Enc(c: char): Bytes {
    var v := c as int;
    if v < 0x80 then [v]
    else if v < 0x800 then [0xC0 + v / 64, 0x80 + v % 64]
    else if v < 0x10000 then [0xE0 + v / 4096, 0x80 + v / 64 % 64, 0x80 + v % 64]
    else [0xF0 + v / 262144, 0x80 + v / 4096 % 64, 0x80 + v / 64 % 64, 0x80 + v % 64]
  }

  function Encode(s: string): Bytes {
    if s == "" then [] else Enc(s[0]) + Encode(s[1..])
  }

  predicate Continuation(b: byte) {
    0x80 <= b < 0xC0
  }

  /** How many bytes a character that starts with this byte has; 0 when none does. */
  function Length(b: byte): nat {
    if b < 0x80 then 1 else if b < 0xC0 then 0 else if b < 0xE0 then 2 else if b < 0xF0 then 3
    else if b < 0xF8 then 4 else 0
  }

  /** The payload of a byte that is no continuation, less `mark`, or of one that is. */
  function Payload(b: byte, mark: int): int {
    b as int - mark
  }

  function CodePoint(b: Bytes): int
    requires 1 <= |b| <= 4
  {
    if |b| == 1 then Payload(b[0], 0)
    else if |b| == 2 then Payload(b[0], 0xC0) * 64 + Payload(b[1], 0x80)
    else if |b| == 3 then Payload(b[0], 0xE0) * 4096 + Payload(b[1], 0x80) * 64 + Payload(b[2], 0x80)
    else Payload(b[0], 0xF0) * 262144 + Payload(b[1], 0x80) * 4096 + Payload(b[2], 0x80) * 64 + Payload(b[3], 0x80)
  }

  predicate Scalar(v: int) {
    0 <= v < 0xD800 || 0xE000 <= v < 0x110000
  }

  /** The character the bytes start with; only its own encoding is accepted for it. */
  function DecodeOne(b: Bytes): Option<char> {
    if b == [] then None
    else
      var n := Length(b[0]);
      if n == 0 || n > |b| then None
      else
        var v := CodePoint(b[..n]);
        if Scalar(v) && Enc(v as char) == b[..n] then Some(v as char) else None
  }

  function Decode(b: Bytes): Option<string>
    decreases |b|
  {
    if b == [] then Some("")
    else
      var c := DecodeOne(b);
      if c.None? then None
      else
        ShapeOf(c.value);
        var rest := Decode(b[|Enc(c.value)|..]);
        if rest.None? then None else Some([c.value] + rest.value)
  }

  /** `errors="ignore"`: a byte that starts no character is skipped. */
  function DecodeIgnoring(b: Bytes): string
    decreases |b|
  {
    if b == [] then ""
    else
      var c := DecodeOne(b);
      if c.None? then DecodeIgnoring(b[1..])
      else
        ShapeOf(c.value);
        [c.value] + DecodeIgnoring(b[|Enc(c.value)|..])
  }

  // ---- The shape of a character ------------------------------------------------------

  /** The first byte tells the length, and the others cannot be taken for a first byte. */
  predicate Shape(e: Bytes) {
    1 <= |e| <= 4 && Length(e[0]) == |e| && forall i :: 1 <= i < |e| ==> Continuation(e[i])
  }

  lemma ShapeOf(c: char)
    ensures Shape(Enc(c))
    ensures c as int < 0x80 ==> |Enc(c)| == 1
  {
  }

  /** The digits of a number to the base 64. */
  lemma Digits(v: nat)
    ensures v == v / 64 * 64 + v % 64
    ensures v == v / 4096 * 4096 + v / 64 % 64 * 64 + v % 64
    ensures v == v / 262144 * 262144 + v / 4096 % 64 * 4096 + v / 64 % 64 * 64 + v % 64
  {
    assert v / 64 / 64 == v / 4096;
    assert v / 4096 / 64 == v / 262144;
  }

  lemma CodePointOf(c: char)
    ensures |Enc(c)| <= 4 && CodePoint(Enc(c)) == c as int
  {
    Digits(c as int);
  }

  lemma DecodeOneOf(c: char, t: Bytes)
    ensures DecodeOne(Enc(c) + t) == Some(c)
    ensures (Enc(c) + t)[|Enc(c)|..] == t
  {
    ShapeOf(c);
    CodePointOf(c);
    assert (Enc(c) + t)[..|Enc(c)|] == Enc(c);
  }

  lemma {:induction false} DecodeEncode(s: string)
    ensures Decode(Encode(s)) == Some(s)
    decreases |s|
  {
    if s != "" {
      ShapeOf(s[0]);
      DecodeOneOf(s[0], Encode(s[1..]));
      DecodeEncode(s[1..]);
      assert s == [s[0]] + s[1..];
    }
  }

  lemma {:induction false} EncodeAppend(a: string, b: string)
    ensures Encode(a + b) == Encode(a) + Encode(b)
    decreases |a|
  {
    if a == "" {
      assert a + b == b;
    } else {
      EncodeAppend(a[1..], b);
      assert (a + b)[1..] == a[1..] + b;
      assert Enc(a[0]) + (Encode(a[1..]) + Encode(b)) == Enc(a[0]) + Encode(a[1..]) + Encode(b);
    }
  }

  predicate Ascii(s: string) {
    forall i :: 0 <= i < |s| ==> s[i] as int < 0x80
  }

  lemma {:induction false} EncodedSize(s: string)
    ensures |s| <= |Encode(s)|
    ensures Ascii(s) ==> |Encode(s)| == |s|
    decreases |s|
  {
    if s != "" {
      ShapeOf(s[0]);
      EncodedSize(s[1..]);
    }
  }

  // ---- The longest prefix ------------------------------------------------------------

  /** The prefix whose encoding fits and whose extension by one character does not. */
  predicate LongestPrefix(s: string, limit: nat, r: string) {
    && r <= s && |Encode(r)| <= limit
    && (|r| == |s| || |Encode(s[..|r| + 1])| > limit)
  }

  /** No prefix that fits is longer. */
  lemma LongestPrefixIsLongest(s: string, limit: nat, r: string, p: string)
    requires LongestPrefix(s, limit, r) && p <= s && |Encode(p)| <= limit
    ensures p <= r
  {
    if |p| > |r| {
      assert p == s[..|r| + 1] + p[|r| + 1..];
      EncodeAppend(s[..|r| + 1], p[|r| + 1..]);
    }
  }

  function First(b: Bytes, n: nat): Bytes {
    if n < |b| then b[..n] else b
  }

  /** `_head_bytes`. */
  function HeadBytes(s: string, limit: nat): string {
    DecodeIgnoring(First(Encode(s), limit))
  }

  lemma {:induction false} ContinuationsAreNoText(t: Bytes)
    requires forall i :: 0 <= i < |t| ==> Continuation(t[i])
    ensures DecodeIgnoring(t) == ""
    decreases |t|
  {
    if t != [] {
      ContinuationsAreNoText(t[1..]);
    }
  }

  lemma CutCharacterIsNoText(c: char, n: nat)
    requires n < |Enc(c)|
    ensures DecodeIgnoring(Enc(c)[..n]) == ""
  {
    ShapeOf(c);
    if n > 0 {
      assert Length(Enc(c)[..n][0]) > n;
      ContinuationsAreNoText(Enc(c)[..n][1..]);
    }
  }

  lemma FirstAcross(a: Bytes, b: Bytes, n: nat)
    ensures n < |a| ==> First(a + b, n) == a[..n]
    ensures n >= |a| ==> First(a + b, n) == a + First(b, n - |a|)
  {
  }

  lemma {:induction false} HeadIsLongestPrefix(s: string, limit: nat)
    ensures LongestPrefix(s, limit, HeadBytes(s, limit))
    decreases |s|
  {
    if s != "" {
      var c, rest := s[0], s[1..];
      var e := Enc(c);
      ShapeOf(c);
      FirstAcross(e, Encode(rest), limit);
      if limit < |e| {
        CutCharacterIsNoText(c, limit);
        assert s[..1] == [c];
        assert Encode([c]) == e + Encode([]);
      } else {
        HeadIsLongestPrefix(rest, limit - |e|);
        DecodeOneOf(c, First(Encode(rest), limit - |e|));
        LongerByOne(c, rest, limit, HeadBytes(rest, limit - |e|));
        assert s == [c] + rest;
      }
    }
  }

  lemma LongerByOne(c: char, rest: string, limit: nat, r: string)
    requires |Enc(c)| <= limit && LongestPrefix(rest, limit - |Enc(c)|, r)
    ensures LongestPrefix([c] + rest, limit, [c] + r)
  {
    assert ([c] + r)[1..] == r;
    if |r| < |rest| {
      var longer := ([c] + rest)[..|r| + 2];
      assert longer == [c] + rest[..|r| + 1];
      assert longer[1..] == rest[..|r| + 1];
    }
  }

  // ---- The longest suffix ------------------------------------------------------------

  /** The suffix from the index on fits, and one character more does not. */
  predicate LongestSuffixAt(s: string, limit: nat, at: nat) {
    && at <= |s| && |Encode(s[at..])| <= limit
    && (at == 0 || |Encode(s[at - 1..])| > limit)
  }

  lemma LongestSuffixIsLongest(s: string, limit: nat, at: nat, other: nat)
    requires LongestSuffixAt(s, limit, at) && other <= |s| && |Encode(s[other..])| <= limit
    ensures at <= other
  {
    if other < at {
      assert s[other..] == s[other..at - 1] + s[at - 1..];
      EncodeAppend(s[other..at - 1], s[at - 1..]);
    }
  }

  /** A negative slice: the last `n` elements, but all of them when `n` is 0. */
  function Last(b: Bytes, n: nat): Bytes {
    if 0 < n <= |b| then b[|b| - n..] else b
  }

  /** What a slice leaves: the end of a cut character, then whole characters. */
  predicate Cut(raw: Bytes, kept: Bytes) {
    && |kept| <= |raw| && raw[|raw| - |kept|..] == kept
    && forall i :: 0 <= i < |raw| - |kept| ==> Continuation(raw[i])
  }

  /** The longest suffix that fits. */
  function TailStart(s: string, limit: nat): (at: nat)
    ensures at <= |s|
  {
    if |Encode(s)| <= limit || s == "" then 0 else 1 + TailStart(s[1..], limit)
  }

  lemma {:induction false} TailStartIsLongest(s: string, limit: nat)
    ensures LongestSuffixAt(s, limit, TailStart(s, limit))
    decreases |s|
  {
    var at := TailStart(s, limit);
    if at == 0 {
      assert s[0..] == s;
    } else {
      TailStartIsLongest(s[1..], limit);
      assert s[at..] == s[1..][at - 1..];
      if at == 1 {
        assert s[0..] == s;
      } else {
        assert s[at - 1..] == s[1..][at - 2..];
      }
    }
  }

  lemma {:induction false} LastIsCut(s: string, limit: nat)
    requires limit > 0
    ensures Cut(Last(Encode(s), limit), Encode(s[TailStart(s, limit)..]))
    decreases |s|
  {
    if |Encode(s)| <= limit {
      assert s[0..] == s;
    } else {
      var b := Encode(s[1..]);
      assert s[TailStart(s, limit)..] == s[1..][TailStart(s[1..], limit)..];
      if |b| <= limit {
        assert s[1..][0..] == s[1..];
        CutInFirst(Enc(s[0]), b, limit);
        ShapeOf(s[0]);
      } else {
        LastIsCut(s[1..], limit);
        assert Last(Enc(s[0]) + b, limit) == Last(b, limit);
      }
    }
  }

  lemma CutInFirst(e: Bytes, b: Bytes, limit: nat)
    requires Shape(e) && 0 < limit && |b| <= limit < |e| + |b|
    ensures Cut(Last(e + b, limit), b)
  {
    var n := |e| + |b| - limit;
    assert Last(e + b, limit) == e[n..] + b;
  }

  lemma ContinuationDoesNotDecode(b: Bytes)
    requires b != [] && Continuation(b[0])
    ensures Decode(b) == None
  {
  }

  /** `_tail_bytes`: the longest suffix whose encoding fits, for a positive limit.  For limit 0
      the slice is the whole text. */
  method TailBytes(s: string, limit: nat) returns (r: string)
    ensures r == s[if limit > 0 then TailStart(s, limit) else 0..]
  {
    var raw := Last(Encode(s), limit);
    ghost var text := s[if limit > 0 then TailStart(s, limit) else 0..];
    if limit > 0 {
      LastIsCut(s, limit);
    } else {
      assert s[0..] == s;
    }
    DecodeEncode(text);
    while raw != []
      invariant Cut(raw, Encode(text))
    {
      var decoded := Decode(raw);
      if decoded.Some? {
        if |raw| > |Encode(text)| {
          ContinuationDoesNotDecode(raw);
        }
        assert raw == Encode(text);
        return decoded.value;
      }
      assert raw != Encode(text);
      raw := raw[1..];
    }
    EncodedSize(text);
    return "";
  }

  /** A suffix so found keeps to its limit unless the limit is 0 and the text is not empty. */
  lemma TailKeepsLimit(s: string, limit: nat)
    ensures var r := s[if limit > 0 then TailStart(s, limit) else 0..];
            |Encode(r)| <= limit <==> limit > 0 || s == ""
  {
    TailStartIsLongest(s, limit);
    EncodedSize(s);
    assert s[0..] == s;
  }
}
