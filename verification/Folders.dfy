/**
 The folder of a chat (agents/src/memory/store.rs): the open segment, the numbered closed ones, and
 the order their names give them.
 */
module Folders {
  import opened Text
  import opened Sorting
  import opened Events
  import opened Log

  /** File names and contents. */
  type Folder = map<string, string>

  const OPEN: string := "events.jsonl"
  const PREFIX: string := "events-"
  const SUFFIX: string := ".jsonl.zst"

  /** The highest number that four digits hold. */
  const MAX_SEGMENTS: nat := 9999

  function Zeros(n: nat): string { seq(n, _ => '0') }

  /** `{n:04}`. */
  function Pad(n: nat): string {
    var d := Decimal(n);
    if |d| >= 4 then d else Zeros(4 - |d|) + d
  }

  function ClosedName(n: nat): string { PREFIX + Pad(n) + SUFFIX }

  predicate IsClosedName(name: string) {
    && |PREFIX| <= |name| && name[..|PREFIX|] == PREFIX
    && |SUFFIX| <= |name| && name[|name| - |SUFFIX|..] == SUFFIX
  }

  function ClosedNames(f: Folder): set<string> { set name | name in f && IsClosedName(name) }

  ghost function Listed(names: set<string>): seq<string> {
    if names == {} then [] else
      var name :| name in names;
      [name] + Listed(names - {name})
  }

  /** Closed segments in the order of their names. */
  ghost function Segments(f: Folder): seq<string> { Sort(Less, Listed(ClosedNames(f))) }

  function OpenText(f: Folder): string { FileText(f, OPEN) }

  function FileText(f: Folder, name: string): string { if name in f then f[name] else "" }

  function ReadSegments(f: Folder, names: seq<string>): ReadLog {
    if names == [] then EMPTY_LOG
    else ReadText(ReadSegments(f, names[..|names| - 1]), FileText(f, names[|names| - 1]))
  }

  lemma {:induction false} ListedAre(names: set<string>)
    ensures forall x :: x in Listed(names) <==> x in names
    ensures forall i, j | 0 <= i < j < |Listed(names)| :: Listed(names)[i] != Listed(names)[j]
    ensures |Listed(names)| == |names|
    decreases |names|
  {
    if names != {} {
      var name :| name in names && Listed(names) == [name] + Listed(names - {name});
      ListedAre(names - {name});
      assert forall x :: x in Listed(names) <==> x == name || x in Listed(names - {name});
      forall j | 0 <= j < |Listed(names - {name})| ensures Listed(names - {name})[j] != name {
        assert Listed(names - {name})[j] in Listed(names - {name});
      }
    }
  }

  lemma SegmentsAre(f: Folder)
    ensures Ascending(Less, Segments(f))
    ensures forall x :: x in Segments(f) <==> x in ClosedNames(f)
    ensures |Segments(f)| == |ClosedNames(f)|
  {
    var listed := Listed(ClosedNames(f));
    ListedAre(ClosedNames(f));
    LessIsStrict();
    forall i, j | 0 <= i < j < |listed| ensures Less(listed[i], listed[j]) || Less(listed[j], listed[i]) {
      LessTotal(listed[i], listed[j]);
    }
    SortAscending(Less, listed);
    SameMembers(Segments(f), listed);
  }

  /** What a fresh read of the chat gives. */
  ghost function ReadFolder(f: Folder): ReadLog {
    ReadText(ReadSegments(f, Segments(f)), OpenText(f))
  }

  // ----- four digits sort in creation order -----

  lemma {:induction false} ZerosKeepNumber(k: nat, s: string)
    requires AllDigits(s)
    ensures AllDigits(Zeros(k) + s) && NumberOf(Zeros(k) + s) == NumberOf(s)
    decreases |s|
  {
    var t := Zeros(k) + s;
    if s == [] {
      ZerosAreZero(k);
      assert t == Zeros(k);
    } else {
      ZerosKeepNumber(k, s[..|s| - 1]);
      assert t[..|t| - 1] == Zeros(k) + s[..|s| - 1];
    }
  }

  lemma {:induction false} ZerosAreZero(k: nat)
    ensures NumberOf(Zeros(k)) == 0
  {
    if k > 0 {
      ZerosAreZero(k - 1);
      assert Zeros(k)[..k - 1] == Zeros(k - 1);
    }
  }

  lemma PadIs(n: nat)
    ensures AllDigits(Pad(n)) && NumberOf(Pad(n)) == n
    ensures n <= MAX_SEGMENTS ==> |Pad(n)| == 4
  {
    NumberOfDecimal(n);
    ZerosKeepNumber(if |Decimal(n)| >= 4 then 0 else 4 - |Decimal(n)|, Decimal(n));
    if n <= MAX_SEGMENTS {
      assert n >= 10 ==> |Decimal(n)| == |Decimal(n / 10)| + 1;
      assert n >= 100 ==> |Decimal(n / 10)| == |Decimal(n / 10 / 10)| + 1;
      assert n >= 1000 ==> |Decimal(n / 10 / 10)| == |Decimal(n / 10 / 10 / 10)| + 1;
    }
  }

  lemma {:induction false} SameNumberSameDigits(a: string, b: string)
    requires |a| == |b| && AllDigits(a) && AllDigits(b) && NumberOf(a) == NumberOf(b)
    ensures a == b
  {
    if a != [] {
      SameNumberSameDigits(a[..|a| - 1], b[..|b| - 1]);
      assert a == a[..|a| - 1] + [a[|a| - 1]] && b == b[..|b| - 1] + [b[|b| - 1]];
    }
  }

  lemma {:induction false} LessBefore(a: string, b: string, x: string, y: string)
    requires |a| == |b| && Less(a, b)
    ensures Less(a + x, b + y)
  {
    assert (a + x)[1..] == a[1..] + x && (b + y)[1..] == b[1..] + y;
    if a[0] == b[0] { LessBefore(a[1..], b[1..], x, y); }
  }

  lemma {:induction false} LessAfter(p: string, a: string, b: string)
    requires Less(a, b)
    ensures Less(p + a, p + b)
  {
    if p == [] {
      assert p + a == a && p + b == b;
    } else {
      assert (p + a)[1..] == p[1..] + a && (p + b)[1..] == p[1..] + b;
      LessAfter(p[1..], a, b);
    }
  }

  lemma {:induction false} SmallerNumberLess(a: string, b: string)
    requires |a| == |b| && AllDigits(a) && AllDigits(b) && NumberOf(a) < NumberOf(b)
    ensures Less(a, b)
  {
    var n := |a| - 1;
    var fa, fb := a[..n], b[..n];
    assert a == fa + [a[n]] && b == fb + [b[n]];
    if NumberOf(fa) < NumberOf(fb) {
      SmallerNumberLess(fa, fb);
      LessBefore(fa, fb, [a[n]], [b[n]]);
    } else {
      SameNumberSameDigits(fa, fb);
      LessAfter(fa, [a[n]], [b[n]]);
    }
  }

  lemma ClosedNameLess(i: nat, j: nat)
    requires i < j <= MAX_SEGMENTS
    ensures Less(ClosedName(i), ClosedName(j))
  {
    PadIs(i);
    PadIs(j);
    SmallerNumberLess(Pad(i), Pad(j));
    LessBefore(Pad(i), Pad(j), SUFFIX, SUFFIX);
    LessAfter(PREFIX, Pad(i) + SUFFIX, Pad(j) + SUFFIX);
    NameText(i);
    NameText(j);
  }

  lemma {:induction false} DecimalGrows(n: nat, d: nat)
    requires n > 0 && d < 10
    ensures |Decimal(n * 10 + d)| == |Decimal(n)| + 1 && Decimal(n * 10 + d)[0] == Decimal(n)[0]
  {
  }

  lemma FiveDigitsSortFirst()
    ensures Less(ClosedName(10000), ClosedName(9999))
  {
    DecimalGrows(1, 0);
    DecimalGrows(10, 0);
    DecimalGrows(100, 0);
    DecimalGrows(1000, 0);
    DecimalGrows(9, 9);
    DecimalGrows(99, 9);
    DecimalGrows(999, 9);
    var a, b := Pad(10000) + SUFFIX, Pad(9999) + SUFFIX;
    assert a[0] == '1' && b[0] == '9';
    LessAfter(PREFIX, a, b);
    NameText(10000);
    NameText(9999);
  }

  lemma NameText(n: nat)
    ensures PREFIX + (Pad(n) + SUFFIX) == ClosedName(n)
  {
  }

  /** The names of the first `n` segments, in creation order. */
  function NamesUpTo(n: nat): (r: seq<string>)
    ensures |r| == n && forall i | 0 <= i < n :: r[i] == ClosedName(i + 1)
  {
    seq(n, i requires 0 <= i < n => ClosedName(i + 1))
  }

  /** Sorting by name gives creation order for 9,999 closed segments and no more. */
  lemma NamesSortInCreationOrder(n: nat)
    ensures Ascending(Less, NamesUpTo(n)) <==> n <= MAX_SEGMENTS
  {
    if n <= MAX_SEGMENTS {
      forall i, j | 0 <= i < j < n ensures Less(NamesUpTo(n)[i], NamesUpTo(n)[j]) {
        ClosedNameLess(i + 1, j + 1);
      }
    } else {
      FiveDigitsSortFirst();
      LessIsStrict();
      assert NamesUpTo(n)[9998] == ClosedName(9999) && NamesUpTo(n)[9999] == ClosedName(10000);
    }
  }

  // ----- folders the store makes -----

  /** The closed segments are numbered from 1 without gaps, and four digits are enough. */
  ghost predicate Good(f: Folder) { Numbered(ClosedNames(f)) }

  ghost predicate Numbered(names: set<string>) {
    |names| <= MAX_SEGMENTS && forall name :: name in names <==> name in NamesUpTo(|names|)
  }

  lemma NumberedNext(names: set<string>, name: string)
    requires Numbered(names) && |names| < MAX_SEGMENTS && name !in names && name == ClosedName(|names| + 1)
    ensures Numbered(names + {name})
  {
    hide ClosedName;
    assert NamesUpTo(|names| + 1) == NamesUpTo(|names|) + [name];
  }

  lemma GoodSegments(f: Folder)
    requires Good(f)
    ensures Segments(f) == NamesUpTo(|ClosedNames(f)|)
  {
    var n := |ClosedNames(f)|;
    SegmentsAre(f);
    NamesSortInCreationOrder(n);
    LessIsStrict();
    AscendingUnique(Less, Segments(f), NamesUpTo(n));
  }

  lemma ClosedNameIsClosed(n: nat)
    ensures IsClosedName(ClosedName(n)) && ClosedName(n) != OPEN && !IsClosedName(OPEN)
  {
    var name := ClosedName(n);
    assert name[..|PREFIX|] == PREFIX;
    assert name[|name| - |SUFFIX|..] == SUFFIX;
    assert OPEN[..|PREFIX|][6] == '.' && PREFIX[6] == '-';
  }

  /** The names as they look: the number in decimal, with four digits at least and no more zeros than that takes. */
  lemma NamesLookLike(n: nat) returns (digits: string)
    ensures OPEN == "events.jsonl" && ClosedName(n) == "events-" + digits + ".jsonl.zst"
    ensures AllDigits(digits) && NumberOf(digits) == n
    ensures |digits| >= 4 && (|digits| > 4 ==> digits[0] != '0')
  {
    digits := Pad(n);
    PadIs(n);
    NoLeadingZero(n);
  }

  /** The open segment becomes the next closed one. */
  function Rotated(f: Folder): Folder
    requires OPEN in f
  {
    f[ClosedName(|ClosedNames(f)| + 1) := f[OPEN]] - {OPEN}
  }

  lemma {:induction false} ReadSegmentsFrame(f: Folder, g: Folder, names: seq<string>)
    requires forall i | 0 <= i < |names| :: FileText(f, names[i]) == FileText(g, names[i])
    ensures ReadSegments(f, names) == ReadSegments(g, names)
  {
    if names != [] { ReadSegmentsFrame(f, g, names[..|names| - 1]); }
  }

  /** A closed name is new when it sorts after all others. */
  lemma NextNameIsNew(f: Folder)
    requires Good(f) && |ClosedNames(f)| < MAX_SEGMENTS
    ensures ClosedName(|ClosedNames(f)| + 1) !in f
  {
    var n := |ClosedNames(f)|;
    var name := ClosedName(n + 1);
    LessIsStrict();
    ClosedNameIsClosed(n + 1);
    forall i | 0 <= i < n ensures NamesUpTo(n)[i] != name { ClosedNameLess(i + 1, n + 1); }
    assert name !in NamesUpTo(n);
  }

  lemma AddedName(f: Folder, name: string, text: string)
    requires IsClosedName(name) && !IsClosedName(OPEN)
    ensures ClosedNames(f[name := text] - {OPEN}) == ClosedNames(f) + {name}
  {
  }

  lemma RotatedNames(f: Folder)
    requires Good(f) && OPEN in f && |ClosedNames(f)| < MAX_SEGMENTS
    ensures Good(Rotated(f)) && |ClosedNames(Rotated(f))| == |ClosedNames(f)| + 1 && OPEN !in Rotated(f)
  {
    var n := |ClosedNames(f)|;
    NextNameIsNew(f);
    ClosedNameIsClosed(n + 1);
    AddedName(f, ClosedName(n + 1), f[OPEN]);
    NumberedNext(ClosedNames(f), ClosedName(n + 1));
  }

  lemma RotatedFiles(f: Folder)
    requires Good(f) && OPEN in f && |ClosedNames(f)| < MAX_SEGMENTS
    ensures var n, g := |ClosedNames(f)|, Rotated(f);
      && (forall i | 0 <= i < n :: FileText(g, NamesUpTo(n)[i]) == FileText(f, NamesUpTo(n)[i]))
      && FileText(g, ClosedName(n + 1)) == f[OPEN]
  {
    var n := |ClosedNames(f)|;
    NextNameIsNew(f);
    ClosedNameIsClosed(n + 1);
    hide ClosedName, IsClosedName, OPEN;
    forall i | 0 <= i < n
      ensures FileText(Rotated(f), NamesUpTo(n)[i]) == FileText(f, NamesUpTo(n)[i])
    {
      assert NamesUpTo(n)[i] in ClosedNames(f);
    }
  }

  /** Closing a segment changes nothing that is read. */
  lemma RotationReadsSame(f: Folder)
    requires Good(f) && OPEN in f && |ClosedNames(f)| < MAX_SEGMENTS
    ensures ReadFolder(Rotated(f)) == ReadFolder(f)
  {
    var n, g := |ClosedNames(f)|, Rotated(f);
    RotatedNames(f);
    RotatedFiles(f);
    GoodSegments(f);
    GoodSegments(g);
    var names := NamesUpTo(n + 1);
    assert names[..n] == NamesUpTo(n);
    ReadSegmentsFrame(f, g, NamesUpTo(n));
    assert ReadSegments(g, names) == ReadText(ReadSegments(g, NamesUpTo(n)), f[OPEN]);
    assert OpenText(g) == "";
  }

  // ----- writing to a folder -----

  /** The folder an append writes to: the open segment is closed first when it is full. */
  function Ready(f: Folder, segmentBytes: nat): Folder
    requires segmentBytes > 0
  {
    if |OpenText(f)| >= segmentBytes then Rotated(f) else f
  }

  /** An append that closes a segment has a four-digit number left for it. */
  predicate HasRoom(f: Folder, segmentBytes: nat) {
    |OpenText(f)| >= segmentBytes ==> |ClosedNames(f)| < MAX_SEGMENTS
  }

  /** The first `k` bytes of what the append writes have reached the open segment. */
  function Written(f: Folder, es: seq<Event>, k: nat): Folder
    requires k <= |Repair(OpenText(f)) + Buffer(es)|
  {
    f[OPEN := OpenText(f) + (Repair(OpenText(f)) + Buffer(es))[..k]]
  }

  function WriteLength(f: Folder, es: seq<Event>): nat { |Repair(OpenText(f)) + Buffer(es)| }

  lemma WrittenNames(f: Folder, text: string)
    ensures ClosedNames(f[OPEN := text]) == ClosedNames(f)
    ensures Good(f) ==> Good(f[OPEN := text])
  {
    ClosedNameIsClosed(1);
  }

  /** The part of the log in closed segments, which writing to the open one leaves alone. */
  ghost function ClosedLog(f: Folder): ReadLog { ReadSegments(f, Segments(f)) }

  lemma ClosedLogFrame(f: Folder, text: string)
    ensures ClosedLog(f[OPEN := text]) == ClosedLog(f)
  {
    var g := f[OPEN := text];
    WrittenNames(f, text);
    SegmentsAre(f);
    ClosedNameIsClosed(1);
    forall i | 0 <= i < |Segments(f)| ensures FileText(f, Segments(f)[i]) == FileText(g, Segments(f)[i]) {
      assert Segments(f)[i] in Segments(f);
    }
    ReadSegmentsFrame(f, g, Segments(f));
  }

  lemma OpenReads(f: Folder)
    ensures ReadFolder(f) == Plus(ClosedLog(f), ReadText(EMPTY_LOG, OpenText(f)))
  {
    ReadShift(ClosedLog(f), OpenText(f));
  }

  lemma WrittenReads(f: Folder, es: seq<Event>, k: nat)
    requires Good(f) && ValidEvents(es) && k <= WriteLength(f, es)
    ensures Good(Written(f, es, k))
    ensures ReadFolder(Written(f, es, k)) == CutRead(ReadFolder(f), OpenText(f), es, k)
  {
    var text := OpenText(f) + (Repair(OpenText(f)) + Buffer(es))[..k];
    WrittenNames(f, text);
    ClosedLogFrame(f, text);
    OpenReads(f);
    OpenReads(f[OPEN := text]);
    CrashReads(OpenText(f), es, k);
    CutShift(ClosedLog(f), ReadText(EMPTY_LOG, OpenText(f)), OpenText(f), es, k);
  }

  lemma CutShift(a: ReadLog, b: ReadLog, text: string, es: seq<Event>, k: nat)
    ensures Plus(a, CutRead(b, text, es, k)) == CutRead(Plus(a, b), text, es, k)
  {
    if k >= |Repair(text)| {
      var n := Complete(es, k - |Repair(text)|);
      assert a.events + (b.events + es[..n]) == a.events + b.events + es[..n];
    }
  }

  /** An append that is not interrupted adds its events behind all that was read before. */
  lemma AppendedReads(f: Folder, es: seq<Event>)
    requires Good(f) && ValidEvents(es)
    ensures Good(Written(f, es, WriteLength(f, es)))
    ensures var before := ReadFolder(f);
      ReadFolder(Written(f, es, WriteLength(f, es))) == ReadLog(before.events + es, before.skipped)
  {
    WrittenReads(f, es, WriteLength(f, es));
    WholeBuffer(es);
    assert es[..|es|] == es;
  }
}
