/**
 A chat's log as files (agents/src/memory/store.rs): what a text of lines reads as, what an append
 adds to it, and what is left of it after a crash. Files are byte strings; a closed segment is kept
 as its bytes (compression is the identity here).
 */
module Log {
  import opened Events

  datatype ReadLog = ReadLog(events: seq<Event>, skipped: nat)

  /** What a delete of a chat removed. */
  datatype DeleteReport = DeleteReport(files: nat, bytes: nat)

  const EMPTY_LOG: ReadLog := ReadLog([], 0)

  function Plus(a: ReadLog, b: ReadLog): ReadLog { ReadLog(a.events + b.events, a.skipped + b.skipped) }

  // ----- reading lines -----

  predicate AsciiWhitespace(c: char) {
    c == ' ' || c == '\t' || c == '\n' || c == '\r' || c == 12 as char
  }

  predicate Blank(line: string) { forall i | 0 <= i < |line| :: AsciiWhitespace(line[i]) }

  function ReadLine(log: ReadLog, line: string): ReadLog {
    if Blank(line) then log
    else match Decode(line)
      case Some(e) => ReadLog(log.events + [e], log.skipped)
      case None => ReadLog(log.events, log.skipped + 1)
  }

  /** The length of the first line, without its line break. */
  function LineLength(text: string): (n: nat)
    ensures n <= |text|
    ensures forall i | 0 <= i < n :: text[i] != '\n'
    ensures n < |text| ==> text[n] == '\n'
  {
    if text == [] || text[0] == '\n' then 0 else 1 + LineLength(text[1..])
  }

  /** Lines are read one by one; a last line needs no line break, and none follows a final one. */
  function ReadText(log: ReadLog, text: string): ReadLog
    decreases |text|
  {
    if text == [] then log
    else
      var n := LineLength(text);
      var next := ReadLine(log, text[..n]);
      if n == |text| then next else ReadText(next, text[n + 1..])
  }

  predicate EndsLine(text: string) { text == [] || text[|text| - 1] == '\n' }

  lemma LineLengthIs(text: string, n: nat)
    requires n <= |text| && (forall i | 0 <= i < n :: text[i] != '\n') && (n < |text| ==> text[n] == '\n')
    ensures LineLength(text) == n
  {
  }

  /** Blanks by the code of the character: tab, line feed, form feed, carriage return, space. */
  ghost predicate OnlyBlanks(line: string) { forall c | c in line :: c as int in {9, 10, 12, 13, 32} }

  /** What reading makes of a line: nothing of blanks, an event of an event's line, else one more line skipped. */
  ghost predicate LineRead(line: string, before: ReadLog, after: ReadLog) {
    if OnlyBlanks(line) then after == before
    else if Decode(line).Some?
    then after.events == before.events + [Decode(line).value] && after.skipped == before.skipped
    else after.events == before.events && after.skipped == before.skipped + 1
  }

  /** The lines of a text are read in their order, each by itself; the last one needs no line break. */
  lemma LineByLine(log: ReadLog, line: string, rest: string)
    requires forall i | 0 <= i < |line| :: line[i] != '\n'
    ensures exists next :: LineRead(line, log, next) && ReadText(log, line + "\n" + rest) == ReadText(next, rest)
    ensures LineRead(line, log, ReadText(log, line))
  {
    var next := ReadLine(log, line);
    assert Blank(line) <==> OnlyBlanks(line) by {
      if OnlyBlanks(line) {
        forall i | 0 <= i < |line| ensures AsciiWhitespace(line[i]) { assert line[i] in line; }
      }
    }
    assert LineRead(line, log, next);
    var text := line + "\n" + rest;
    LineLengthIs(text, |line|);
    assert text[..|line|] == line && text[|line| + 1..] == rest;
    if line != [] {
      LineLengthIs(line, |line|);
      assert line[..|line|] == line;
    }
  }

  /** A text that ends its last line can be read first, and what follows after it. */
  lemma {:induction false} ReadConcat(log: ReadLog, a: string, b: string)
    requires EndsLine(a)
    ensures ReadText(log, a + b) == ReadText(ReadText(log, a), b)
    decreases |a|
  {
    hide ReadLine;
    if a == [] {
      assert a + b == b;
    } else {
      var n := LineLength(a);
      assert n < |a|;
      LineLengthIs(a + b, n);
      assert (a + b)[..n] == a[..n];
      assert (a + b)[n + 1..] == a[n + 1..] + b;
      ReadConcat(ReadLine(log, a[..n]), a[n + 1..], b);
    }
  }

  /** Ending a cut last line with a line break changes nothing that is read. */
  lemma {:induction false} ReadRepaired(log: ReadLog, a: string)
    requires !EndsLine(a)
    ensures ReadText(log, a + "\n") == ReadText(log, a)
    decreases |a|
  {
    var n := LineLength(a);
    LineLengthIs(a + "\n", n);
    assert (a + "\n")[..n] == a[..n];
    if n < |a| {
      assert (a + "\n")[n + 1..] == a[n + 1..] + "\n";
      ReadRepaired(ReadLine(log, a[..n]), a[n + 1..]);
    }
  }

  lemma {:induction false} ReadShift(log: ReadLog, text: string)
    ensures ReadText(log, text) == Plus(log, ReadText(EMPTY_LOG, text))
    decreases |text|
  {
    if text != [] {
      var line := text[..LineLength(text)];
      var one := ReadLine(EMPTY_LOG, line);
      assert ReadLine(log, line) == Plus(log, one);
      if |line| < |text| {
        var rest := text[|line| + 1..];
        ReadShift(Plus(log, one), rest);
        ReadShift(one, rest);
        PlusAssociates(log, one, ReadText(EMPTY_LOG, rest));
      }
    } else {
      assert Plus(log, EMPTY_LOG) == log;
    }
  }

  lemma PlusAssociates(a: ReadLog, b: ReadLog, c: ReadLog)
    ensures Plus(Plus(a, b), c) == Plus(a, Plus(b, c))
  {
  }

  // ----- what an append writes -----

  /** One line per event, each with its line break. */
  function Buffer(es: seq<Event>): string {
    if es == [] then "" else Line(es[0]) + "\n" + Buffer(es[1..])
  }

  /** What an append puts before its lines: the line break that a cut line lacks. */
  function Repair(text: string): string { if EndsLine(text) then "" else "\n" }

  ghost predicate ValidEvents(es: seq<Event>) { forall i | 0 <= i < |es| :: ValidEvent(es[i]) }

  /** How many of the events have their whole line among the first `k` bytes of the buffer. */
  function Complete(es: seq<Event>, k: nat): (n: nat)
    ensures n <= |es|
  {
    if es == [] || k < |Line(es[0])| then 0
    else if k == |Line(es[0])| then 1
    else 1 + Complete(es[1..], k - |Line(es[0])| - 1)
  }

  /** Whether the first `k` bytes of the buffer end inside a line. */
  predicate Torn(es: seq<Event>, k: nat) {
    if es == [] then false
    else if k <= |Line(es[0])| then 0 < k < |Line(es[0])|
    else Torn(es[1..], k - |Line(es[0])| - 1)
  }

  lemma ReadOneLine(log: ReadLog, e: Event, rest: string)
    requires ValidEvent(e)
    ensures ReadText(log, Line(e) + "\n" + rest) == ReadText(ReadLog(log.events + [e], log.skipped), rest)
    ensures ReadText(log, Line(e)) == ReadLog(log.events + [e], log.skipped)
  {
    var n, text := |Line(e)|, Line(e) + "\n" + rest;
    LineShape(e);
    DecodeLine(e);
    assert text[n] == '\n';
    LineLengthIs(text, n);
    LineLengthIs(Line(e), n);
    assert text[..n] == Line(e) && Line(e)[..n] == Line(e);
    assert text[n + 1..] == rest;
    assert !AsciiWhitespace(Line(e)[0]);
  }

  lemma ReadCutLine(log: ReadLog, e: Event, k: nat)
    requires ValidEvent(e) && 0 < k < |Line(e)|
    ensures ReadText(log, Line(e)[..k]) == ReadLog(log.events, log.skipped + 1)
  {
    var part := Line(e)[..k];
    LineShape(e);
    LineLengthIs(part, k);
    assert part[..k] == part;
    assert !AsciiWhitespace(part[0]);
    CutLineUnreadable(e, k);
  }

  /** What a log read as `log` reads as, once the first `k` bytes of the buffer follow. */
  function CutLog(log: ReadLog, es: seq<Event>, k: nat): ReadLog {
    ReadLog(log.events + es[..Complete(es, k)], log.skipped + if Torn(es, k) then 1 else 0)
  }

  lemma CutInFirst(log: ReadLog, es: seq<Event>, k: nat)
    requires ValidEvents(es) && es != [] && k <= |Line(es[0])|
    ensures ReadText(log, Line(es[0])[..k]) == CutLog(log, es, k)
  {
    var line := Line(es[0]);
    if 0 < k < |line| {
      ReadCutLine(log, es[0], k);
    } else if k == |line| {
      ReadOneLine(log, es[0], "");
      assert line[..k] == line && es[..1] == [es[0]];
    }
  }

  lemma CutLogNext(log: ReadLog, es: seq<Event>, k: nat)
    requires es != [] && k > |Line(es[0])|
    ensures CutLog(log, es, k) == CutLog(ReadLog(log.events + [es[0]], log.skipped), es[1..], k - |Line(es[0])| - 1)
  {
    var n := Complete(es[1..], k - |Line(es[0])| - 1);
    assert es[..n + 1] == [es[0]] + es[1..][..n];
    assert log.events + [es[0]] + es[1..][..n] == log.events + es[..n + 1];
  }

  lemma BufferPrefix(es: seq<Event>, k: nat)
    requires es != [] && k <= |Buffer(es)|
    ensures k <= |Line(es[0])| ==> Buffer(es)[..k] == Line(es[0])[..k]
    ensures k > |Line(es[0])| ==>
      var j := k - |Line(es[0])| - 1;
      j <= |Buffer(es[1..])| && Buffer(es)[..k] == Line(es[0]) + "\n" + Buffer(es[1..])[..j]
  {
  }

  lemma CutLater(log: ReadLog, es: seq<Event>, k: nat, rest: string)
    requires es != [] && ValidEvent(es[0]) && |Line(es[0])| < k
    requires var j, next := k - |Line(es[0])| - 1, ReadLog(log.events + [es[0]], log.skipped);
      ReadText(next, rest) == CutLog(next, es[1..], j)
    ensures ReadText(log, Line(es[0]) + "\n" + rest) == CutLog(log, es, k)
  {
    ReadOneLine(log, es[0], rest);
    CutLogNext(log, es, k);
  }

  /** Any prefix of what an append writes reads as its complete events and at most one cut line. */
  lemma {:induction false} ReadCutBuffer(log: ReadLog, es: seq<Event>, k: nat)
    requires ValidEvents(es) && k <= |Buffer(es)|
    ensures ReadText(log, Buffer(es)[..k]) == CutLog(log, es, k)
    decreases |es|
  {
    if es == [] {
      assert Buffer(es)[..k] == "" && es[..0] == [];
    } else {
      hide ReadText, Line, CutLog;
      BufferPrefix(es, k);
      if k <= |Line(es[0])| {
        CutInFirst(log, es, k);
      } else {
        var j := k - |Line(es[0])| - 1;
        ReadCutBuffer(ReadLog(log.events + [es[0]], log.skipped), es[1..], j);
        CutLater(log, es, k, Buffer(es[1..])[..j]);
      }
    }
  }

  lemma {:induction false} WholeBuffer(es: seq<Event>)
    ensures Complete(es, |Buffer(es)|) == |es| && !Torn(es, |Buffer(es)|)
  {
    if es != [] { WholeBuffer(es[1..]); }
  }

  /** What the log reads as when an append to `text` was cut after `k` bytes of its write. */
  function CutRead(before: ReadLog, text: string, es: seq<Event>, k: nat): ReadLog {
    if k < |Repair(text)| then before else CutLog(before, es, k - |Repair(text)|)
  }

  /**
   A crash while an append writes: whatever prefix of the write reaches the file, the log reads as
   all earlier events and the complete new ones, with at most one more line skipped.
   */
  lemma CrashReads(text: string, es: seq<Event>, k: nat)
    requires ValidEvents(es) && k <= |Repair(text) + Buffer(es)|
    ensures ReadText(EMPTY_LOG, text + (Repair(text) + Buffer(es))[..k]) ==
            CutRead(ReadText(EMPTY_LOG, text), text, es, k)
  {
    hide ReadText, Buffer, CutLog;
    var repair := Repair(text);
    CutWrite(repair, Buffer(es), k);
    if k < |repair| {
      assert text + "" == text;
    } else {
      CrashReadsLate(text, es, k - |repair|);
    }
  }

  lemma CutWrite(repair: string, buffer: string, k: nat)
    requires |repair| <= 1 && k <= |repair + buffer|
    ensures (repair + buffer)[..k] == if k < |repair| then "" else repair + buffer[..k - |repair|]
  {
  }

  lemma CrashReadsLate(text: string, es: seq<Event>, j: nat)
    requires ValidEvents(es) && j <= |Buffer(es)|
    ensures ReadText(EMPTY_LOG, text + (Repair(text) + Buffer(es)[..j])) == CutLog(ReadText(EMPTY_LOG, text), es, j)
  {
    hide ReadText, Buffer, CutLog, Repair;
    var whole, cut := text + Repair(text), Buffer(es)[..j];
    RepairedEndsLine(text);
    assert text + (Repair(text) + cut) == whole + cut;
    ReadConcat(EMPTY_LOG, whole, cut);
    ReadCutBuffer(ReadText(EMPTY_LOG, text), es, j);
  }

  lemma RepairedEndsLine(text: string)
    ensures EndsLine(text + Repair(text))
    ensures ReadText(EMPTY_LOG, text + Repair(text)) == ReadText(EMPTY_LOG, text)
  {
    if EndsLine(text) {
      assert text + Repair(text) == text;
    } else {
      ReadRepaired(EMPTY_LOG, text);
    }
  }
}
