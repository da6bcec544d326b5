/**
 Text as the engine writes it: dictionary order, decimal numbers, and the quoted strings of
 JSON (RFC 8259 section 7, with the escapes serde_json chooses). A text is a `string`; where the
 engine works on bytes, one `char` stands for one byte.
 */
module Text {
  import opened Wrappers
  import opened Sorting

  /** Dictionary order, the order of `str` and of paths made of plain names. */
  predicate Less(a: string, b: string) {
    if b == [] then false
    else if a == [] then true
    else a[0] < b[0] || (a[0] == b[0] && Less(a[1..], b[1..]))
  }

  lemma LessTransitive(a: string, b: string, c: string)
    requires Less(a, b) && Less(b, c)
    ensures Less(a, c)
  {
  }

  lemma LessTotal(a: string, b: string)
    ensures a == b || Less(a, b) || Less(b, a)
  {
    if a != [] && b != [] && a[0] == b[0] {
      LessTotal(a[1..], b[1..]);
      assert a == [a[0]] + a[1..] && b == [b[0]] + b[1..];
    }
  }

  lemma LessIsStrict()
    ensures StrictOrder(Less)
  {
    forall x: string ensures !Less(x, x) { LessIrreflexive(x); }
    forall x, y, z | Less(x, y) && Less(y, z) ensures Less(x, z) { LessTransitive(x, y, z); }
  }

  /** The texts are alike up to some place, and there the first one ends or has the lesser character. */
  ghost predicate LexBefore(a: string, b: string) {
    exists k: nat :: k <= |a| && k < |b| && a[..k] == b[..k] && (k < |a| ==> a[k] < b[k])
  }

  lemma {:induction false} LessIs(a: string, b: string)
    ensures Less(a, b) <==> LexBefore(a, b)
  {
    if a == [] && b != [] {
      assert a[..0] == b[..0];
    } else if a != [] && b != [] {
      LessIs(a[1..], b[1..]);
      if a[0] < b[0] { assert a[..0] == b[..0]; }
      if a[0] == b[0] && LexBefore(a[1..], b[1..]) {
        var k: nat :| k <= |a[1..]| && k < |b[1..]| && a[1..][..k] == b[1..][..k]
                      && (k < |a[1..]| ==> a[1..][k] < b[1..][k]);
        assert a[..k + 1] == [a[0]] + a[1..][..k] && b[..k + 1] == [b[0]] + b[1..][..k];
      }
      if LexBefore(a, b) {
        var k: nat :| k <= |a| && k < |b| && a[..k] == b[..k] && (k < |a| ==> a[k] < b[k]);
        if k > 0 {
          assert a[..k][0] == b[..k][0];
          assert a[1..][..k - 1] == a[..k][1..] && b[1..][..k - 1] == b[..k][1..];
        }
      }
    }
  }

  lemma LessIrreflexive(a: string)
    ensures !Less(a, a)
  {
  }

  // ----- blanks -----

  /** Unicode's White_Space, which `trim` removes. */
  predicate White(c: char) {
    var n := c as int;
    || 9 <= n <= 13 || n == 32 || n == 0x85 || n == 0xA0 || n == 0x1680 || 0x2000 <= n <= 0x200A
    || n == 0x2028 || n == 0x2029 || n == 0x202F || n == 0x205F || n == 0x3000
  }

  function TrimStart(s: string): string {
    if s != [] && White(s[0]) then TrimStart(s[1..]) else s
  }

  function TrimEnd(s: string): string {
    if s != [] && White(s[|s| - 1]) then TrimEnd(s[..|s| - 1]) else s
  }

  function Trim(s: string): string { TrimEnd(TrimStart(s)) }

  /** The code points that count as blanks, one by one. */
  predicate BlankCode(n: int) {
    n in {9, 10, 11, 12, 13, 32, 0x85, 0xA0, 0x1680, 0x2000, 0x2001, 0x2002, 0x2003, 0x2004, 0x2005, 0x2006, 0x2007,
          0x2008, 0x2009, 0x200A, 0x2028, 0x2029, 0x202F, 0x205F, 0x3000}
  }

  ghost predicate AllBlank(s: string) { forall i | 0 <= i < |s| :: BlankCode(s[i] as int) }

  /** What is left of a text between the blanks around it. */
  ghost predicate Between(s: string, before: string, t: string, after: string) {
    && s == before + t + after && AllBlank(before) && AllBlank(after)
    && (t != "" ==> !BlankCode(t[0] as int) && !BlankCode(t[|t| - 1] as int))
  }

  lemma WhiteCodes(c: char)
    ensures White(c) <==> BlankCode(c as int)
  {
  }

  lemma {:induction false} StartTrimmed(s: string) returns (before: string)
    ensures s == before + TrimStart(s) && AllBlank(before)
    ensures TrimStart(s) != "" ==> !BlankCode(TrimStart(s)[0] as int)
  {
    before := "";
    if s != [] {
      WhiteCodes(s[0]);
      hide White, BlankCode;
      if White(s[0]) {
        before := StartTrimmed(s[1..]);
        before := [s[0]] + before;
      }
    }
  }

  lemma {:induction false} EndTrimmed(s: string) returns (after: string)
    ensures s == TrimEnd(s) + after && AllBlank(after)
    ensures TrimEnd(s) != "" ==> !BlankCode(TrimEnd(s)[|TrimEnd(s)| - 1] as int)
  {
    after := "";
    if s != [] {
      WhiteCodes(s[|s| - 1]);
      hide White, BlankCode;
      if White(s[|s| - 1]) {
        after := EndTrimmed(s[..|s| - 1]);
        after := after + [s[|s| - 1]];
      }
    }
  }

  /** Trimming leaves exactly what stands between the blanks around a text. */
  lemma TrimIs(s: string) returns (before: string, after: string)
    ensures Between(s, before, Trim(s), after)
  {
    before := StartTrimmed(s);
    after := EndTrimmed(TrimStart(s));
    hide TrimStart, TrimEnd, BlankCode, AllBlank;
    assert Trim(s) != "" ==> Trim(s)[0] == TrimStart(s)[0];
    assert s == before + (Trim(s) + after);
  }

  // ----- decimal numbers -----

  predicate IsDigit(c: char) { '0' <= c <= '9' }

  predicate AllDigits(s: string) {
    forall i | 0 <= i < |s| :: IsDigit(s[i])
  }

  function Digit(d: nat): (c: char)
    requires d < 10
    ensures IsDigit(c)
  {
    '0' + d as char
  }

  function Decimal(n: nat): (s: string)
    ensures s != [] && AllDigits(s)
  {
    if n < 10 then [Digit(n)] else Decimal(n / 10) + [Digit(n % 10)]
  }

  /** The number a run of digits stands for. */
  function NumberOf(s: string): (n: nat)
    requires AllDigits(s)
  {
    if s == [] then 0
    else NumberOf(s[..|s| - 1]) * 10 + (s[|s| - 1] - '0') as nat
  }

  lemma {:induction false} NumberOfDecimal(n: nat)
    ensures NumberOf(Decimal(n)) == n
  {
    if n >= 10 {
      NumberOfDecimal(n / 10);
      var s := Decimal(n);
      assert s[..|s| - 1] == Decimal(n / 10);
      assert s[|s| - 1] == Digit(n % 10);
    }
  }

  /** A number is written without leading zeros. */
  lemma {:induction false} NoLeadingZero(n: nat)
    ensures Decimal(n)[0] == '0' <==> n == 0
    ensures n == 0 ==> Decimal(n) == "0"
  {
    if n >= 10 { NoLeadingZero(n / 10); }
  }

  function ParseNat(s: string): (r: Option<nat>) {
    if s != [] && AllDigits(s) then Some(NumberOf(s)) else None
  }

  // ----- JSON strings -----

  function Hex(d: nat): char
    requires d < 16
  {
    if d < 10 then '0' + d as char else 'a' + (d - 10) as char
  }

  function HexValue(c: char): (r: Option<nat>)
    ensures r.Some? ==> r.value < 16
  {
    if '0' <= c <= '9' then Some((c - '0') as nat)
    else if 'a' <= c <= 'f' then Some((c - 'a') as nat + 10)
    else None
  }

  /** serde_json's escape of one character. */
  function EscapeChar(c: char): (s: string)
    ensures s != []
  {
    if c == '\"' then "\\\""
    else if c == '\\' then "\\\\"
    else if c == '\n' then "\\n"
    else if c == '\r' then "\\r"
    else if c == '\t' then "\\t"
    else if c == 8 as char then "\\b"
    else if c == 12 as char then "\\f"
    else if c < ' ' then "\\u00" + [Hex(c as nat / 16), Hex(c as nat % 16)]
    else [c]
  }

  /** A backslash stands before a quote and a backslash; five controls have a letter, the others a number. */
  ghost predicate IsEscape(c: char, e: string) {
    var n, letters := c as int, map[8 := 'b', 9 := 't', 10 := 'n', 12 := 'f', 13 := 'r'];
    if n == 34 || n == 92 then e == ['\\', c]
    else if n in letters then e == ['\\', letters[n]]
    else if n < 32 then
      && |e| == 6 && e[..4] == "\\u00" && HexValue(e[4]).Some? && HexValue(e[5]).Some?
      && 16 * HexValue(e[4]).value + HexValue(e[5]).value == n
    else e == [c]
  }

  lemma EscapeIs(c: char)
    ensures IsEscape(c, EscapeChar(c))
  {
    if c < ' ' {
      assert HexValue(Hex(c as nat / 16)) == Some(c as nat / 16);
      assert HexValue(Hex(c as nat % 16)) == Some(c as nat % 16);
    }
  }

  /** A quoted text stands between quotes, character by character. */
  lemma {:induction false} QuoteIs(s: string) returns (parts: seq<string>)
    ensures |parts| == |s| && forall i | 0 <= i < |s| :: IsEscape(s[i], parts[i])
    ensures Quote(s) == "\"" + Concat(parts) + "\""
  {
    parts := [];
    if s != [] {
      hide IsEscape, EscapeChar;
      parts := QuoteIs(s[1..]);
      EscapeIs(s[0]);
      parts := [EscapeChar(s[0])] + parts;
      assert Quote(s[1..])[1..|Quote(s[1..])| - 1] == Escape(s[1..]);
    }
  }

  function Concat(parts: seq<string>): string { if parts == [] then "" else parts[0] + Concat(parts[1..]) }

  function Escape(s: string): string {
    if s == [] then [] else EscapeChar(s[0]) + Escape(s[1..])
  }

  function Quote(s: string): string { "\"" + Escape(s) + "\"" }

  datatype Parsed<+T> = Fail | Done(value: T, rest: string)

  /** One character of a quoted string, escaped or not. */
  function ParseChar(t: string): (r: Parsed<char>)
    ensures r.Done? ==> |r.rest| < |t|
  {
    if t == [] || t[0] < ' ' then Fail
    else if t[0] != '\\' then Done(t[0], t[1..])
    else if |t| < 2 then Fail
    else match t[1]
      case '\"' => Done('\"', t[2..])
      case '\\' => Done('\\', t[2..])
      case 'n' => Done('\n', t[2..])
      case 'r' => Done('\r', t[2..])
      case 't' => Done('\t', t[2..])
      case 'b' => Done(8 as char, t[2..])
      case 'f' => Done(12 as char, t[2..])
      case 'u' =>
        if |t| < 6 || t[2..4] != "00" then Fail
        else
          var high, low := HexValue(t[4]), HexValue(t[5]);
          if high.Some? && low.Some? then Done((high.value * 16 + low.value) as char, t[6..]) else Fail
      case _ => Fail
  }

  /** The rest of a quoted string, after its opening quote. */
  function ParseBody(t: string): (r: Parsed<string>)
    ensures r.Done? ==> |r.rest| < |t|
    decreases |t|
  {
    if t == [] then Fail
    else if t[0] == '\"' then Done([], t[1..])
    else match ParseChar(t)
      case Fail => Fail
      case Done(c, rest) =>
        match ParseBody(rest)
        case Fail => Fail
        case Done(s, after) => Done([c] + s, after)
  }

  function ParseQuoted(t: string): (r: Parsed<string>)
    ensures r.Done? ==> |r.rest| < |t|
  {
    if t == [] || t[0] != '\"' then Fail else ParseBody(t[1..])
  }

  lemma CharRoundTrip(c: char, r: string)
    ensures ParseChar(EscapeChar(c) + r) == Done(c, r)
    ensures EscapeChar(c)[0] != '\"'
  {
    var e := EscapeChar(c);
    assert (e + r)[|e|..] == r;
    if c < ' ' && |e| == 6 {
      assert (e + r)[2..4] == "00";
      assert HexValue(Hex(c as nat / 16)) == Some(c as nat / 16);
      assert HexValue(Hex(c as nat % 16)) == Some(c as nat % 16);
    }
  }

  lemma {:induction false} BodyRoundTrip(s: string, r: string)
    ensures ParseBody(Escape(s) + "\"" + r) == Done(s, r)
  {
    if s == [] {
      assert Escape(s) + "\"" + r == "\"" + r;
    } else {
      var rest := Escape(s[1..]) + "\"" + r;
      assert Escape(s) + "\"" + r == EscapeChar(s[0]) + rest;
      CharRoundTrip(s[0], rest);
      hide ParseChar, EscapeChar;
      BodyRoundTrip(s[1..], r);
      assert [s[0]] + s[1..] == s;
    }
  }

  /** Reading a quoted string gives the string back and stops right behind it. */
  lemma QuoteRoundTrip(s: string, r: string)
    ensures ParseQuoted(Quote(s) + r) == Done(s, r)
  {
    BodyRoundTrip(s, r);
    var body := Escape(s) + "\"" + r;
    assert ("\"" + body)[1..] == body;
    assert Quote(s) + r == "\"" + body;
  }

  /** What follows a complete quoted string does not change how it is read. */
  lemma {:induction false} BodyLocal(t: string, x: string)
    requires ParseBody(t).Done?
    ensures ParseBody(t + x) == Done(ParseBody(t).value, ParseBody(t).rest + x)
    decreases |t|
  {
    if t[0] == '\"' {
      assert (t + x)[1..] == t[1..] + x;
    } else {
      CharLocal(t, x);
      BodyLocal(ParseChar(t).rest, x);
    }
  }

  lemma CharLocal(t: string, x: string)
    requires ParseChar(t).Done?
    ensures ParseChar(t + x) == Done(ParseChar(t).value, ParseChar(t).rest + x)
  {
    assert (t + x)[1..] == t[1..] + x;
    if |t| >= 2 { assert (t + x)[2..] == t[2..] + x; }
    if |t| >= 6 {
      assert (t + x)[6..] == t[6..] + x;
      assert (t + x)[2..4] == t[2..4];
    }
  }

  lemma QuotedLocal(t: string, x: string)
    requires ParseQuoted(t).Done?
    ensures ParseQuoted(t + x) == Done(ParseQuoted(t).value, ParseQuoted(t).rest + x)
  {
    assert (t + x)[1..] == t[1..] + x;
    BodyLocal(t[1..], x);
  }

  /** A quoted string holds no control character, so in particular no line break. */
  lemma {:induction false} EscapePrintable(s: string)
    ensures forall c | c in Escape(s) :: c >= ' '
  {
    if s != [] { EscapePrintable(s[1..]); }
  }
}
