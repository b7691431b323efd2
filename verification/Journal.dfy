/** An append-only journal of newline-terminated records: `heal_torn_tail` of `journal_tail.py`, and
    the writer and readers of `machine/journal.py` that rely on it.
 */
module Journal {
  import opened Wrappers

  const NEWLINE: byte := 10
  const CHUNK: nat := 1048576

  // ---- The committed part ------------------------------------------------------------

  predicate Complete(s: Bytes) {
    s == [] || s[|s| - 1] == NEWLINE
  }

  /** No newline from the index on. */
  predicate NoneFrom(s: Bytes, k: nat) {
    forall j :: k <= j < |s| ==> s[j] != NEWLINE
  }

  /** The longest prefix that ends in a newline, or nothing. */
  function Committed(s: Bytes): (r: Bytes)
    ensures r <= s && Complete(r)
    ensures NoneFrom(s, |r|)
    decreases |s|
  {
    if Complete(s) then s else
      Committed(s[..|s| - 1])
  }

  /** Every other newline-terminated prefix is a prefix of it. */
  lemma CommittedIsLongest(s: Bytes, p: Bytes)
    requires p <= s
    ensures Complete(p) && NoneFrom(s, |p|) <==> p == Committed(s)
    ensures Complete(p) ==> p <= Committed(s)
  {
    var r := Committed(s);
    if |p| < |r| {
      assert s[|r| - 1] == NEWLINE;
    }
  }

  lemma CommittedTwice(s: Bytes)
    ensures Committed(Committed(s)) == Committed(s)
  {
  }

  /** Bytes past the last newline are not committed. */
  lemma CommittedOf(c: Bytes, t: Bytes)
    requires Complete(c) && NoneFrom(t, 0)
    ensures Committed(c + t) == c
  {
    CommittedIsLongest(c + t, c);
  }

  // ---- Lines and records -------------------------------------------------------------

  /** `bytes.split` at the newlines. */
  function Split(s: Bytes): (r: seq<Bytes>)
    ensures r != []
    decreases |s|
  {
    if s == [] then [[]]
    else Extend(Split(s[..|s| - 1]), s[|s| - 1])
  }

  function Extend(lines: seq<Bytes>, b: byte): (r: seq<Bytes>)
    requires lines != []
    ensures r != []
  {
    if b == NEWLINE then lines + [[]] else lines[..|lines| - 1] + [lines[|lines| - 1] + [b]]
  }

  lemma ExtendAfter(before: seq<Bytes>, lines: seq<Bytes>, b: byte)
    requires lines != []
    ensures Extend(before + lines, b) == before + Extend(lines, b)
  {
    assert (before + lines)[..|before + lines| - 1] == before + lines[..|lines| - 1];
  }

  lemma SplitOneMore(s: Bytes, b: byte)
    ensures Split(s + [b]) == Extend(Split(s), b)
  {
    assert (s + [b])[..|s|] == s;
  }

  lemma {:induction false} SplitAtNewline(a: Bytes, b: Bytes)
    ensures Split(a + [NEWLINE] + b) == Split(a) + Split(b)
    decreases |b|
  {
    var x := a + [NEWLINE];
    if b == [] {
      SplitOneMore(a, NEWLINE);
      assert x + b == x;
    } else {
      SplitAtNewline(a, b[..|b| - 1]);
      SplitStep(x, b, Split(a));
    }
  }

  lemma SplitStep(x: Bytes, b: Bytes, lines: seq<Bytes>)
    requires b != [] && Split(x + b[..|b| - 1]) == lines + Split(b[..|b| - 1])
    ensures Split(x + b) == lines + Split(b)
  {
    assert x + b == (x + b[..|b| - 1]) + [b[|b| - 1]];
    SplitOneMore(x + b[..|b| - 1], b[|b| - 1]);
    ExtendAfter(lines, Split(b[..|b| - 1]), b[|b| - 1]);
  }

  lemma {:induction false} SplitOneLine(s: Bytes)
    requires NoneFrom(s, 0)
    ensures Split(s) == [s]
    decreases |s|
  {
    if s != [] {
      SplitOneLine(s[..|s| - 1]);
      assert s[..|s| - 1] + [s[|s| - 1]] == s;
    }
  }

  /** What `bytes.strip` leaves empty. */
  predicate Blank(s: Bytes) {
    forall b :: b in s ==> b == 32 || 9 <= b <= 13
  }

  function NonBlank(lines: seq<Bytes>): seq<Bytes> {
    if lines == [] then []
    else
      NonBlank(lines[..|lines| - 1]) + (if Blank(lines[|lines| - 1]) then [] else [lines[|lines| - 1]])
  }

  lemma {:induction false} NonBlankAppend(a: seq<Bytes>, b: seq<Bytes>)
    ensures NonBlank(a + b) == NonBlank(a) + NonBlank(b)
    decreases |b|
  {
    if b == [] {
      assert a + b == a;
    } else {
      assert (a + b)[..|a + b| - 1] == a + b[..|b| - 1];
      NonBlankAppend(a, b[..|b| - 1]);
    }
  }

  /** The lines without an unfinished last one. */
  function WholeLines(lines: seq<Bytes>): seq<Bytes> {
    if lines != [] && lines[|lines| - 1] != [] then lines[..|lines| - 1] else lines
  }

  /** What a reader takes the journal to hold. */
  function Records(s: Bytes): seq<Bytes> {
    NonBlank(WholeLines(Split(s)))
  }

  lemma WholeLinesNonBlank(lines: seq<Bytes>)
    requires lines != []
    ensures NonBlank(WholeLines(lines)) == NonBlank(lines[..|lines| - 1])
  {
  }

  /** The records before a newline, whatever unfinished line follows it. */
  lemma RecordsBefore(a: Bytes, t: Bytes)
    requires NoneFrom(t, 0)
    ensures Records(a + [NEWLINE] + t) == NonBlank(Split(a))
  {
    SplitAtNewline(a, t);
    SplitOneLine(t);
    WholeLinesNonBlank(Split(a) + [t]);
    assert (Split(a) + [t])[..|Split(a)|] == Split(a);
  }

  lemma RecordsOfTorn(t: Bytes)
    requires NoneFrom(t, 0)
    ensures Records(t) == []
  {
    SplitOneLine(t);
    WholeLinesNonBlank([t]);
  }

  /** Healing changes no reader's answer. */
  lemma RecordsAreCommitted(s: Bytes)
    ensures Records(Committed(s)) == Records(s)
  {
    var c := Committed(s);
    var t := s[|c|..];
    assert s == c + t;
    if c == [] {
      assert s == t;
      RecordsOfTorn(t);
      RecordsOfTorn([]);
    } else {
      var a := c[..|c| - 1];
      assert c == a + [NEWLINE] + [];
      assert s == a + [NEWLINE] + t;
      RecordsBefore(a, t);
      RecordsBefore(a, []);
    }
  }

  /** The line of a record. */
  function Line(record: Bytes): Bytes {
    record + [NEWLINE]
  }

  /** A finished line adds its record and changes no other. */
  lemma RecordsGrow(c: Bytes, record: Bytes)
    requires Complete(c) && NoneFrom(record, 0)
    ensures Records(c + Line(record)) == Records(c) + NonBlank([record])
  {
    LinesGrow(c, record);
    RecordsOfLines(c + record);
    Associative(c, record, [NEWLINE]);
  }

  /** What `bytes.strip` takes away: space, and tab to carriage return. */
  predicate Whitespace(b: byte) {
    b in [9, 10, 11, 12, 13, 32]
  }

  lemma BlankIsWhitespace(line: Bytes)
    ensures Blank(line) <==> forall i :: 0 <= i < |line| ==> Whitespace(line[i])
  {
    if Blank(line) {
      forall i | 0 <= i < |line|
        ensures Whitespace(line[i])
      {
        assert line[i] in line;
      }
    }
  }

  lemma NonBlankOfOne(line: Bytes)
    ensures NonBlank([line]) == if Blank(line) then [] else [line]
  {
    assert [line][..0] == [] && NonBlank([]) == [];
  }

  /** A finished line is read exactly when it has a byte that is no whitespace. */
  lemma LineIsRead(c: Bytes, record: Bytes)
    requires Complete(c) && NoneFrom(record, 0)
    ensures Records(c + Line(record)) ==
            Records(c) + if forall i :: 0 <= i < |record| ==> Whitespace(record[i]) then [] else [record]
  {
    RecordsGrow(c, record);
    NonBlankOfOne(record);
    BlankIsWhitespace(record);
  }

  lemma RecordsOfLines(a: Bytes)
    ensures Records(a + [NEWLINE]) == NonBlank(Split(a))
  {
    RecordsBefore(a, []);
    assert a + [NEWLINE] + [] == a + [NEWLINE];
  }

  lemma LinesGrow(c: Bytes, record: Bytes)
    requires Complete(c) && NoneFrom(record, 0)
    ensures NonBlank(Split(c + record)) == Records(c) + NonBlank([record])
  {
    if c == [] {
      FirstLine(record);
      assert c + record == record;
    } else {
      LastByte(c);
      SecondLine(c[..|c| - 1], record);
    }
  }

  lemma LastByte(c: Bytes)
    requires Complete(c) && c != []
    ensures c[..|c| - 1] + [NEWLINE] == c
  {
  }

  lemma SecondLine(a: Bytes, record: Bytes)
    requires NoneFrom(record, 0)
    ensures NonBlank(Split(a + [NEWLINE] + record)) == Records(a + [NEWLINE]) + NonBlank([record])
  {
    RecordsOfLines(a);
    LinesAfterNewline(a, record);
  }

  lemma FirstLine(record: Bytes)
    requires NoneFrom(record, 0)
    ensures NonBlank(Split(record)) == Records([]) + NonBlank([record])
  {
    SplitOneLine(record);
    RecordsOfTorn([]);
  }

  lemma LinesAfterNewline(a: Bytes, record: Bytes)
    requires NoneFrom(record, 0)
    ensures NonBlank(Split(a + [NEWLINE] + record)) == NonBlank(Split(a)) + NonBlank([record])
  {
    SplitAtNewline(a, record);
    SplitOneLine(record);
    NonBlankAppend(Split(a), [record]);
  }

  // ---- Runs of appends ---------------------------------------------------------------

  /** One attempt to append: it dies before it repairs the file, or repairs it and gets the first
      `landed` bytes of the record and its newline out. */
  datatype Attempt = DiesFirst | Append(record: Bytes, landed: nat)

  predicate Proper(a: Attempt) {
    a.Append? ==> NoneFrom(a.record, 0) && a.landed <= |a.record| + 1
  }

  predicate Lands(a: Attempt) {
    a.Append? && a.landed > |a.record|
  }

  function Written(s: Bytes, a: Attempt): Bytes
    requires Proper(a)
  {
    if a.DiesFirst? then s else Committed(s) + Line(a.record)[..a.landed]
  }

  function After(s: Bytes, run: seq<Attempt>): Bytes
    requires forall a :: a in run ==> Proper(a)
  {
    if run == [] then s else Written(After(s, run[..|run| - 1]), run[|run| - 1])
  }

  function LandedLine(a: Attempt): Bytes {
    if Lands(a) then Line(a.record) else []
  }

  /** The lines of the attempts whose newline reached the file. */
  function Landed(run: seq<Attempt>): Bytes {
    if run == [] then []
    else
      Landed(run[..|run| - 1]) + LandedLine(run[|run| - 1])
  }

  function LandedRecord(a: Attempt): seq<Bytes> {
    if Lands(a) then NonBlank([a.record]) else []
  }

  function LandedRecords(run: seq<Attempt>): seq<Bytes> {
    if run == [] then []
    else
      LandedRecords(run[..|run| - 1]) + LandedRecord(run[|run| - 1])
  }

  lemma AttemptCommits(s: Bytes, a: Attempt)
    requires Proper(a)
    ensures Committed(Written(s, a)) == Committed(s) + LandedLine(a)
    ensures Committed(s) <= Written(s, a)
  {
    if a.Append? {
      LineCommits(Committed(s), a.record, a.landed);
    }
  }

  lemma LineCommits(c: Bytes, record: Bytes, landed: nat)
    requires Complete(c) && NoneFrom(record, 0) && landed <= |record| + 1
    ensures Committed(c + Line(record)[..landed]) == c + (if landed > |record| then Line(record) else [])
  {
    if landed > |record| {
      assert Line(record)[..landed] == Line(record);
    } else {
      assert Line(record)[..landed] == record[..landed];
      CommittedOf(c, record[..landed]);
    }
  }

  lemma AttemptRecords(s: Bytes, a: Attempt)
    requires Proper(a)
    ensures Records(Written(s, a)) == Records(s) + LandedRecord(a)
  {
    AttemptCommits(s, a);
    RecordsAreCommitted(Written(s, a));
    RecordsAreCommitted(s);
    if Lands(a) {
      RecordsGrow(Committed(s), a.record);
    } else {
      assert Committed(s) + [] == Committed(s);
    }
  }

  /** However a run of appends is cut short, the committed part is what was committed at the start
      followed by exactly the records whose newline landed. */
  lemma {:induction false} AppendsAreAllOrNothing(s: Bytes, run: seq<Attempt>)
    requires forall a :: a in run ==> Proper(a)
    ensures Committed(After(s, run)) == Committed(s) + Landed(run)
    decreases |run|
  {
    if run != [] {
      var before, a := run[..|run| - 1], run[|run| - 1];
      AppendsAreAllOrNothing(s, before);
      AttemptCommits(After(s, before), a);
      Associative(Committed(s), Landed(before), LandedLine(a));
    }
  }

  /** And a reader sees just those, torn tail or not. */
  lemma {:induction false} ReadersSeeLandedRecords(s: Bytes, run: seq<Attempt>)
    requires forall a :: a in run ==> Proper(a)
    ensures Records(After(s, run)) == Records(s) + LandedRecords(run)
    decreases |run|
  {
    if run == [] {
      assert After(s, run) == s;
    } else {
      var before, a := run[..|run| - 1], run[|run| - 1];
      ReadersSeeLandedRecords(s, before);
      AttemptRecords(After(s, before), a);
      Associative(Records(s), LandedRecords(before), LandedRecord(a));
    }
  }

  /** A reader with the file open never sees a committed byte go. */
  lemma {:induction false} CommittedNeverShrinks(s: Bytes, run: seq<Attempt>, n: nat)
    requires n <= |run| && forall a :: a in run ==> Proper(a)
    ensures Committed(After(s, run[..n])) <= After(s, run)
    ensures Committed(After(s, run[..n])) <= Committed(After(s, run))
    decreases |run|
  {
    if n == |run| {
      assert run[..n] == run;
    } else {
      var before := run[..|run| - 1];
      CommittedNeverShrinks(s, before, n);
      assert before[..n] == run[..n];
      AttemptCommits(After(s, before), run[|run| - 1]);
    }
  }

  // ---- The end of the journal --------------------------------------------------------

  /** The lines a window on the file's last bytes shows whole. */
  function WindowRecords(s: Bytes, start: nat): seq<Bytes>
    requires start <= |s|
  {
    if start > 0 then TailRecords(s[start..]) else Records(s)
  }

  /** The window opens mid-line, so its first line is dropped. */
  function TailRecords(w: Bytes): seq<Bytes> {
    NonBlank(WholeLines(Split(w)[1..]))
  }

  lemma TailAfterNewline(u: Bytes, v: Bytes)
    requires NoneFrom(u, 0)
    ensures TailRecords(u + [NEWLINE] + v) == Records(v)
  {
    SplitAtNewline(u, v);
    SplitOneLine(u);
    assert ([u] + Split(v))[1..] == Split(v);
  }

  function FirstNewline(s: Bytes): (k: nat)
    ensures k <= |s| && NoneFrom(s[..k], 0)
    ensures k < |s| ==> s[k] == NEWLINE
  {
    if s == [] || s[0] == NEWLINE then 0
    else
      var k := FirstNewline(s[1..]);
      assert s[..k + 1] == [s[0]] + s[1..][..k];
      k + 1
  }

  /** A window opening anywhere shows the last records of the journal and no other. */
  lemma WindowShowsTheEnd(s: Bytes, start: nat)
    requires start <= |s|
    ensures |WindowRecords(s, start)| <= |Records(s)|
    ensures WindowRecords(s, start) == Records(s)[|Records(s)| - |WindowRecords(s, start)|..]
  {
    if start > 0 {
      TailShowsTheEnd(s[..start], s[start..]);
      assert s[..start] + s[start..] == s;
    }
  }

  lemma TailShowsTheEnd(early: Bytes, w: Bytes)
    ensures |TailRecords(w)| <= |Records(early + w)|
    ensures TailRecords(w) == Records(early + w)[|Records(early + w)| - |TailRecords(w)|..]
  {
    var k := FirstNewline(w);
    if k == |w| {
      TailOfOneLine(w);
    } else {
      assert w == w[..k] + [NEWLINE] + w[k + 1..];
      WindowAfterNewline(early, w[..k], w[k + 1..]);
    }
  }

  lemma TailOfOneLine(w: Bytes)
    requires FirstNewline(w) == |w|
    ensures TailRecords(w) == []
  {
    assert w[..FirstNewline(w)] == w;
    SplitOneLine(w);
  }

  lemma WindowAfterNewline(early: Bytes, u: Bytes, v: Bytes)
    requires NoneFrom(u, 0)
    ensures Records(early + (u + [NEWLINE] + v)) ==
            NonBlank(Split(early + u)) + TailRecords(u + [NEWLINE] + v)
  {
    TailAfterNewline(u, v);
    Associative(early, u + [NEWLINE], v);
    Associative(early, u, [NEWLINE]);
    RecordsAcross(early + u, v);
  }

  lemma RecordsAcross(x: Bytes, v: Bytes)
    ensures Records(x + [NEWLINE] + v) == NonBlank(Split(x)) + Records(v)
  {
    var lines := Split(x) + Split(v);
    var last := Split(v)[..|Split(v)| - 1];
    SplitAtNewline(x, v);
    WholeLinesNonBlank(Split(v));
    WholeLinesNonBlank(lines);
    assert lines[..|lines| - 1] == Split(x) + last;
    NonBlankAppend(Split(x), last);
  }

  // ---- The journal file --------------------------------------------------------------

  /** The last newline of a chunk, or -1: `bytes.rfind`. */
  function RFind(s: Bytes): (k: int)
    ensures -1 <= k < |s|
    ensures k >= 0 ==> s[k] == NEWLINE
    ensures NoneFrom(s, k + 1)
    decreases |s|
  {
    if s == [] then -1
    else if s[|s| - 1] == NEWLINE then |s| - 1
    else
      RFind(s[..|s| - 1])
  }

  lemma NoNewlineFrom(s: Bytes, start: nat, k: nat, end: nat)
    requires start <= k <= end <= |s|
    requires NoneFrom(s[start..end], k - start) && NoneFrom(s, end)
    ensures NoneFrom(s, k)
  {
    assert forall j :: k <= j < end ==> s[j] == s[start..end][j - start];
  }

  lemma HealedIsCommitted(s: Bytes, end: nat)
    requires end <= |s| && Complete(s[..end]) && NoneFrom(s, end)
    ensures s[..end] == Committed(s)
  {
    CommittedIsLongest(s, s[..end]);
  }

  datatype JournalError = CorruptLine(number: nat) | CorruptTail

  /** Lines count from one. */
  predicate FirstCorrupt(lines: seq<Bytes>, valid: Bytes -> bool, number: nat) {
    && 0 < number <= |lines| && !Blank(lines[number - 1]) && !valid(lines[number - 1])
    && forall m :: 0 <= m < number - 1 ==> Blank(lines[m]) || valid(lines[m])
  }

  lemma LineIsRecord(lines: seq<Bytes>, i: nat)
    requires i < |lines| && !Blank(lines[i])
    ensures lines[i] in NonBlank(lines)
  {
    assert lines[..i + 1] + lines[i + 1..] == lines;
    NonBlankAppend(lines[..i + 1], lines[i + 1..]);
    assert lines[..i + 1][..i] == lines[..i];
  }

  class JournalFile {
    /** None while the file does not exist. */
    var file: Option<Bytes>

    constructor ()
      ensures file == None
    {
      file := None;
    }

    /** What the file holds; a missing file reads as empty. */
    function Content(): Bytes
      reads this
    {
      if file.Some? then file.value else []
    }

    /** Cut the file back to its committed part, in place. */
    method HealTornTail()
      modifies this
      ensures old(file).None? ==> file == None
      ensures old(file).Some? ==> file == Some(Committed(old(file).value))
    {
      if file.None? {
        return;
      }
      var size := |file.value|;
      if size == 0 {
        return;
      }
      if file.value[size - 1] == NEWLINE {
        return;
      }
      var end := CommittedEnd();
      assert Committed(file.value) == file.value[..end];
      file := Some(file.value[..end]);
    }

    /** Scan backwards, a chunk at a time, for the last newline. */
    method CommittedEnd() returns (end: nat)
      requires file.Some?
      ensures end == |Committed(file.value)|
    {
      ghost var s := file.value;
      end := |file.value|;
      while end > 0
        invariant end <= |s|
        invariant NoneFrom(s, end)
      {
        var start := if end > CHUNK then end - CHUNK else 0;
        var cut := RFind(file.value[start..end]);
        NoNewlineFrom(s, start, start + cut + 1, end);
        if cut >= 0 {
          end := start + cut + 1;
          break;
        }
        end := start;
      }
      HealedIsCommitted(s, end);
    }

    /** One attempt to append, of which `landed` bytes get out. */
    method Append(record: Bytes, landed: nat)
      requires NoneFrom(record, 0) && landed <= |record| + 1
      modifies this
      ensures file == Some(Written(old(Content()), Attempt.Append(record, landed)))
    {
      HealTornTail();
      file := Some(Content() + Line(record)[..landed]);
    }

    /** Every record in order, or the first line `valid` rejects. */
    method Read(valid: Bytes -> bool) returns (r: Result<seq<Bytes>, JournalError>)
      ensures r.Ok? <==> forall x :: x in Records(Content()) ==> valid(x)
      ensures r.Ok? ==> r.value == Records(Content())
      ensures r.Err? ==> r.error.CorruptLine? && FirstCorrupt(WholeLines(Split(Content())), valid, r.error.number)
    {
      if file.None? {
        RecordsOfTorn([]);
        return Ok([]);
      }
      r := ReadLines(WholeLines(Split(file.value)), valid);
    }

    method ReadLines(lines: seq<Bytes>, valid: Bytes -> bool) returns (r: Result<seq<Bytes>, JournalError>)
      ensures r.Ok? <==> forall x :: x in NonBlank(lines) ==> valid(x)
      ensures r.Ok? ==> r.value == NonBlank(lines)
      ensures r.Err? ==> r.error.CorruptLine? && FirstCorrupt(lines, valid, r.error.number)
    {
      var events := [];
      for i := 0 to |lines|
        invariant events == NonBlank(lines[..i])
        invariant forall x :: x in events ==> valid(x)
        invariant forall m :: 0 <= m < i ==> Blank(lines[m]) || valid(lines[m])
      {
        assert lines[..i + 1][..i] == lines[..i];
        if !Blank(lines[i]) {
          if !valid(lines[i]) {
            LineIsRecord(lines, i);
            return Err(CorruptLine(i + 1));
          }
          events := events + [lines[i]];
        }
      }
      assert lines[..|lines|] == lines;
      return Ok(events);
    }

    /** The last record when it is a terminal one, reading only a window on the file's end if that
        holds a record: whenever the whole journal reads, its last record decides. */
    method EndEvent(valid: Bytes -> bool, isEnd: Bytes -> bool, window: nat)
      returns (r: Result<Option<Bytes>, JournalError>)
      ensures var records := Records(Content());
              && (records == [] ==> r == Ok(None))
              && (records != [] ==>
                    var last := records[|records| - 1];
                    && ((forall x :: x in records ==> valid(x)) ==> r.Ok?)
                    && (r.Ok? ==> valid(last) && r.value == if isEnd(last) then Some(last) else None))
    {
      if file.None? {
        RecordsOfTorn([]);
        return Ok(None);
      }
      var size := |file.value|;
      var start := if size > window then size - window else 0;
      var lines := Split(file.value[start..]);
      if start > 0 {
        lines := lines[1..];
      } else {
        assert file.value[start..] == file.value;
      }
      var whole := NonBlank(WholeLines(lines));
      WindowShowsTheEnd(file.value, start);
      if whole == [] {
        var read := Read(valid);
        if read.Err? {
          return Err(read.error);
        }
        var last := if read.value == [] then None else Some(read.value[|read.value| - 1]);
        return Ok(if last.Some? && isEnd(last.value) then last else None);
      }
      var last := whole[|whole| - 1];
      assert last == Records(Content())[|Records(Content())| - 1];
      if !valid(last) {
        return Err(CorruptTail);
      }
      return Ok(if isEnd(last) then Some(last) else None);
    }
  }
}
