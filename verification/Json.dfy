/**
 JSON values with the compact text serde_json writes for them, and a reader that undoes it.
 The members of an object stand in the order the map iterates; a number is its printed token.
 The reader takes the compact form only: no blanks between tokens.
 */
module Json {
  import opened Text

  datatype Value =
    | Null
    | Bool(b: bool)
    | Num(token: string)
    | Str(s: string)
    | Arr(items: seq<Value>)
    | Obj(members: seq<Member>)

  datatype Member = Member(key: string, value: Value)

  predicate NumChar(c: char) {
    IsDigit(c) || c == '-' || c == '+' || c == '.' || c == 'e' || c == 'E'
  }

  predicate Token(t: string) {
    t != [] && forall i | 0 <= i < |t| :: NumChar(t[i])
  }

  predicate UniqueKeys(ms: seq<Member>) {
    forall i, j | 0 <= i < j < |ms| :: ms[i].key != ms[j].key
  }

  /** What holds of every value serde_json builds: printable numbers, one member a key. */
  predicate Valid(v: Value) {
    match v
    case Num(t) => Token(t)
    case Arr(items) => forall i | 0 <= i < |items| :: Valid(items[i])
    case Obj(ms) => UniqueKeys(ms) && forall i | 0 <= i < |ms| :: Valid(ms[i].value)
    case _ => true
  }

  predicate ValidMembers(ms: seq<Member>) {
    UniqueKeys(ms) && forall i | 0 <= i < |ms| :: Valid(ms[i].value)
  }

  // ----- writing -----

  function Print(v: Value): string
    decreases v, 0
  {
    match v
    case Null => "null"
    case Bool(b) => if b then "true" else "false"
    case Num(t) => t
    case Str(s) => Quote(s)
    case Arr(items) => "[" + PrintItems(items) + "]"
    case Obj(ms) => "{" + PrintMembers(ms) + "}"
  }

  function PrintItems(items: seq<Value>): string
    decreases items, 1
  {
    if items == [] then ""
    else if |items| == 1 then Print(items[0])
    else Print(items[0]) + "," + PrintItems(items[1..])
  }

  function PrintMember(m: Member): string
    decreases m, 1
  {
    Quote(m.key) + ":" + Print(m.value)
  }

  function PrintMembers(ms: seq<Member>): string
    decreases ms, 2
  {
    if ms == [] then ""
    else if |ms| == 1 then PrintMember(ms[0])
    else PrintMember(ms[0]) + "," + PrintMembers(ms[1..])
  }

  /** The parts with a comma between any two. */
  ghost function Joined(parts: seq<string>): string {
    if parts == [] then "" else if |parts| == 1 then parts[0] else parts[0] + "," + Joined(parts[1..])
  }

  /** A value's text: items in order between brackets, members between braces, each key before a colon. */
  lemma PrintIs(v: Value)
    ensures match v
      case Null => Print(v) == "null"
      case Bool(b) => Print(v) == (if b then "true" else "false")
      case Num(t) => Print(v) == t
      case Str(s) => Print(v) == Quote(s)
      case Arr(items) =>
        Print(v) == "[" + Joined(seq(|items|, i requires 0 <= i < |items| => Print(items[i]))) + "]"
      case Obj(ms) =>
        Print(v) ==
        "{" + Joined(seq(|ms|, i requires 0 <= i < |ms| => Quote(ms[i].key) + ":" + Print(ms[i].value))) + "}"
  {
    match v
    case Arr(items) => ItemsJoined(items);
    case Obj(ms) => MembersJoined(ms);
    case _ =>
  }

  lemma {:induction false} ItemsJoined(items: seq<Value>)
    ensures PrintItems(items) == Joined(seq(|items|, i requires 0 <= i < |items| => Print(items[i])))
  {
    var parts := seq(|items|, i requires 0 <= i < |items| => Print(items[i]));
    if |items| > 1 {
      ItemsJoined(items[1..]);
      assert parts[1..] == seq(|items[1..]|, i requires 0 <= i < |items[1..]| => Print(items[1..][i]));
    }
  }

  lemma {:induction false} MembersJoined(ms: seq<Member>)
    ensures PrintMembers(ms) ==
      Joined(seq(|ms|, i requires 0 <= i < |ms| => Quote(ms[i].key) + ":" + Print(ms[i].value)))
  {
    var parts := seq(|ms|, i requires 0 <= i < |ms| => Quote(ms[i].key) + ":" + Print(ms[i].value));
    if |ms| > 1 {
      MembersJoined(ms[1..]);
      assert parts[1..] ==
        seq(|ms[1..]|, i requires 0 <= i < |ms[1..]| => Quote(ms[1..][i].key) + ":" + Print(ms[1..][i].value));
    }
  }

  // ----- reading -----

  /** The length of the number token `t` starts with. */
  function TokenLength(t: string): (n: nat)
    ensures n <= |t|
    ensures forall i | 0 <= i < n :: NumChar(t[i])
    ensures n < |t| ==> !NumChar(t[n])
  {
    if t != [] && NumChar(t[0]) then 1 + TokenLength(t[1..]) else 0
  }

  predicate StartsWith(t: string, word: string) {
    |word| <= |t| && t[..|word|] == word
  }

  function Parse(t: string): (r: Parsed<Value>)
    ensures r.Done? ==> |r.rest| < |t|
    decreases |t|, 0
  {
    if t == [] then Fail
    else if t[0] == '{' then
      if |t| > 1 && t[1] == '}' then Done(Obj([]), t[2..])
      else match ParseMembers(t[1..])
        case Fail => Fail
        case Done(ms, rest) => Done(Obj(ms), rest)
    else if t[0] == '[' then
      if |t| > 1 && t[1] == ']' then Done(Arr([]), t[2..])
      else match ParseItems(t[1..])
        case Fail => Fail
        case Done(items, rest) => Done(Arr(items), rest)
    else if t[0] == '\"' then
      match ParseQuoted(t)
      case Fail => Fail
      case Done(s, rest) => Done(Str(s), rest)
    else if StartsWith(t, "null") then Done(Null, t[4..])
    else if StartsWith(t, "true") then Done(Bool(true), t[4..])
    else if StartsWith(t, "false") then Done(Bool(false), t[5..])
    else
      var n := TokenLength(t);
      if n == 0 then Fail else Done(Num(t[..n]), t[n..])
  }

  /** The items of an array that has some, up to and including its closing bracket. */
  function ParseItems(t: string): (r: Parsed<seq<Value>>)
    ensures r.Done? ==> |r.rest| < |t|
    decreases |t|, 1
  {
    match Parse(t)
    case Fail => Fail
    case Done(v, rest) =>
      if rest == [] then Fail
      else if rest[0] == ']' then Done([v], rest[1..])
      else if rest[0] != ',' then Fail
      else match ParseItems(rest[1..])
        case Fail => Fail
        case Done(vs, after) => Done([v] + vs, after)
  }

  function ParseMember(t: string): (r: Parsed<Member>)
    ensures r.Done? ==> |r.rest| < |t|
    decreases |t|, 1
  {
    match ParseQuoted(t)
    case Fail => Fail
    case Done(key, rest) =>
      if rest == [] || rest[0] != ':' then Fail
      else match Parse(rest[1..])
        case Fail => Fail
        case Done(v, after) => Done(Member(key, v), after)
  }

  function ParseMembers(t: string): (r: Parsed<seq<Member>>)
    ensures r.Done? ==> |r.rest| < |t|
    decreases |t|, 2
  {
    match ParseMember(t)
    case Fail => Fail
    case Done(m, rest) =>
      if rest == [] then Fail
      else if rest[0] == '}' then Done([m], rest[1..])
      else if rest[0] != ',' then Fail
      else match ParseMembers(rest[1..])
        case Fail => Fail
        case Done(ms, after) => Done([m] + ms, after)
  }

  // ----- reading undoes writing -----

  /** Where a number token may end. */
  predicate Ends(r: string) { r == [] || !NumChar(r[0]) }

  lemma {:induction false} TokenLengthOf(t: string, r: string)
    requires forall i | 0 <= i < |t| :: NumChar(t[i])
    requires Ends(r)
    ensures TokenLength(t + r) == |t|
  {
    if t != [] {
      assert (t + r)[1..] == t[1..] + r;
      TokenLengthOf(t[1..], r);
    } else {
      assert t + r == r;
    }
  }

  /** The text of a value starts with a character that tells its kind. */
  lemma PrintStarts(v: Value)
    requires Valid(v)
    ensures Print(v) != []
    ensures var c := Print(v)[0];
      match v
      case Null => c == 'n'
      case Bool(b) => c == (if b then 't' else 'f')
      case Num(_) => NumChar(c)
      case Str(_) => c == '\"'
      case Arr(_) => c == '['
      case Obj(_) => c == '{'
  {
  }

  lemma {:induction false} ParsePrint(v: Value, r: string)
    requires Valid(v) && Ends(r)
    ensures Parse(Print(v) + r) == Done(v, r)
    decreases v, 0
  {
    match v {
      case Num(token) => NumberRoundTrip(token, r);
      case Str(s) => QuoteRoundTrip(s, r);
      case Arr(items) => if items == [] { EmptyRoundTrip(r); } else { ParsePrintArray(items, r); }
      case Obj(ms) => if ms == [] { EmptyRoundTrip(r); } else { ParsePrintObject(ms, r); }
      case _ => WordRoundTrip(v, r);
    }
  }

  lemma NumberRoundTrip(token: string, r: string)
    requires Valid(Num(token)) && Ends(r)
    ensures Parse(Print(Num(token)) + r) == Done(Num(token), r)
  {
    TokenLengthOf(token, r);
    assert (token + r)[..|token|] == token;
  }

  lemma EmptyRoundTrip(r: string)
    ensures Parse(Print(Arr([])) + r) == Done(Arr([]), r)
    ensures Parse(Print(Obj([])) + r) == Done(Obj([]), r)
  {
    assert Print(Arr([])) + r == "[]" + r;
    assert Print(Obj([])) + r == "{}" + r;
  }

  lemma {:induction false} ParsePrintArray(items: seq<Value>, r: string)
    requires items != [] && forall i | 0 <= i < |items| :: Valid(items[i])
    ensures Parse(Print(Arr(items)) + r) == Done(Arr(items), r)
    decreases items, 3
  {
    ParsePrintItems(items, r);
    ItemsStart(items);
    ArrayStep(PrintItems(items) + "]" + r, items, r);
    BracketText('[', PrintItems(items), ']', r);
  }

  lemma {:induction false} ParsePrintObject(ms: seq<Member>, r: string)
    requires ms != [] && forall i | 0 <= i < |ms| :: Valid(ms[i].value)
    ensures Parse(Print(Obj(ms)) + r) == Done(Obj(ms), r)
    decreases ms, 3
  {
    ParsePrintMembers(ms, r);
    MembersStart(ms);
    ObjectStep(PrintMembers(ms) + "}" + r, ms, r);
    BracketText('{', PrintMembers(ms), '}', r);
  }

  lemma WordRoundTrip(v: Value, r: string)
    requires v.Null? || v.Bool?
    ensures Parse(Print(v) + r) == Done(v, r)
  {
    var t := Print(v) + r;
    assert t[..|Print(v)|] == Print(v);
  }

  lemma ArrayStep(body: string, items: seq<Value>, r: string)
    requires body != [] && body[0] != ']' && ParseItems(body) == Done(items, r)
    ensures Parse("[" + body) == Done(Arr(items), r)
  {
    assert ("[" + body)[1..] == body;
  }

  lemma ObjectStep(body: string, ms: seq<Member>, r: string)
    requires body != [] && body[0] != '}' && ParseMembers(body) == Done(ms, r)
    ensures Parse("{" + body) == Done(Obj(ms), r)
  {
    assert ("{" + body)[1..] == body;
  }

  /** What stands behind the first member of an object's text. */
  function MembersTail(ms: seq<Member>, r: string): string
    requires ms != []
  {
    if |ms| == 1 then "}" + r else "," + (PrintMembers(ms[1..]) + "}" + r)
  }

  lemma MembersText(ms: seq<Member>, r: string)
    requires ms != []
    ensures PrintMembers(ms) + "}" + r == PrintMember(ms[0]) + MembersTail(ms, r)
    ensures MembersTail(ms, r)[1..] == if |ms| == 1 then r else PrintMembers(ms[1..]) + "}" + r
    ensures ms == if |ms| == 1 then [ms[0]] else [ms[0]] + ms[1..]
  {
    if |ms| > 1 {
      JoinText(PrintMember(ms[0]), PrintMembers(ms[1..]), '}', r);
      assert PrintMembers(ms) == PrintMember(ms[0]) + "," + PrintMembers(ms[1..]);
    } else {
      assert PrintMembers(ms) == PrintMember(ms[0]);
      OnlyText(PrintMember(ms[0]), '}', r);
    }
  }

  lemma OnlyText(first: string, close: char, r: string)
    ensures first + [close] + r == first + ([close] + r) && ([close] + r)[1..] == r
  {
  }

  lemma JoinText(first: string, others: string, close: char, r: string)
    ensures first + "," + others + [close] + r == first + ("," + (others + [close] + r))
    ensures ("," + (others + [close] + r))[1..] == others + [close] + r
  {
  }

  lemma BracketText(open: char, body: string, close: char, r: string)
    ensures [open] + body + [close] + r == [open] + (body + [close] + r)
  {
  }

  lemma MembersStep(t: string, m: Member, rest: string)
    requires ParseMember(t) == Done(m, rest) && rest != []
    requires rest[0] == ',' ==> ParseMembers(rest[1..]).Done?
    ensures rest[0] == '}' ==> ParseMembers(t) == Done([m], rest[1..])
    ensures rest[0] == ',' ==>
      var r := ParseMembers(rest[1..]); ParseMembers(t) == Done([m] + r.value, r.rest)
  {
  }

  lemma ItemsStart(items: seq<Value>)
    requires items != [] && Valid(items[0])
    ensures PrintItems(items) != [] && PrintItems(items)[0] != ']'
  {
    PrintStarts(items[0]);
  }

  lemma MembersStart(ms: seq<Member>)
    requires ms != []
    ensures PrintMembers(ms) != [] && PrintMembers(ms)[0] == '\"'
  {
    assert PrintMember(ms[0])[0] == '\"';
  }

  lemma {:induction false} ParsePrintItems(items: seq<Value>, r: string)
    requires items != [] && forall i | 0 <= i < |items| :: Valid(items[i])
    ensures ParseItems(PrintItems(items) + "]" + r) == Done(items, r)
    decreases items, 1
  {
    if |items| == 1 {
      assert PrintItems(items) + "]" + r == Print(items[0]) + ("]" + r);
      ParsePrint(items[0], "]" + r);
      assert items == [items[0]];
    } else {
      var rest := PrintItems(items[1..]) + "]" + r;
      assert PrintItems(items) + "]" + r == Print(items[0]) + ("," + rest);
      ParsePrint(items[0], "," + rest);
      assert ("," + rest)[1..] == rest;
      ParsePrintItems(items[1..], r);
      assert items == [items[0]] + items[1..];
    }
  }

  lemma MemberText(m: Member, r: string)
    ensures PrintMember(m) + r == Quote(m.key) + (":" + (Print(m.value) + r))
    ensures (":" + (Print(m.value) + r))[1..] == Print(m.value) + r
  {
  }

  lemma MemberStep(t: string, key: string, rest: string, v: Value, r: string)
    requires ParseQuoted(t) == Done(key, rest) && rest != [] && rest[0] == ':' && Parse(rest[1..]) == Done(v, r)
    ensures ParseMember(t) == Done(Member(key, v), r)
  {
  }

  lemma {:induction false} ParsePrintMember(m: Member, r: string)
    requires Valid(m.value) && Ends(r)
    ensures ParseMember(PrintMember(m) + r) == Done(m, r)
    decreases m, 1
  {
    var rest := ":" + (Print(m.value) + r);
    MemberText(m, r);
    QuoteRoundTrip(m.key, rest);
    ParsePrint(m.value, r);
    MemberStep(PrintMember(m) + r, m.key, rest, m.value, r);
  }

  lemma {:induction false} ParsePrintMembers(ms: seq<Member>, r: string)
    requires ms != [] && forall i | 0 <= i < |ms| :: Valid(ms[i].value)
    ensures ParseMembers(PrintMembers(ms) + "}" + r) == Done(ms, r)
    decreases ms, 2
  {
    var tail := MembersTail(ms, r);
    MembersText(ms, r);
    ParsePrintMember(ms[0], tail);
    if |ms| > 1 { ParsePrintMembers(ms[1..], r); }
    MembersStep(PrintMember(ms[0]) + tail, ms[0], tail);
  }

  // ----- what follows a finished value does not change how it is read -----

  lemma {:induction false} TokenLengthLocal(t: string, x: string)
    requires TokenLength(t) < |t|
    ensures TokenLength(t + x) == TokenLength(t)
  {
    if NumChar(t[0]) {
      assert (t + x)[1..] == t[1..] + x;
      TokenLengthLocal(t[1..], x);
    }
  }

  lemma WordLocal(t: string, x: string)
    requires Parse(t).Done? && (Parse(t).value.Null? || Parse(t).value.Bool?)
    ensures Parse(t + x) == Done(Parse(t).value, Parse(t).rest + x)
  {
    var n := if Parse(t).value == Bool(false) then 5 else 4;
    Cut(t, x, n);
    assert (t + x)[0] == t[0] && !NumChar(t[0]);
  }

  lemma Cut(t: string, x: string, n: nat)
    requires n <= |t|
    ensures (t + x)[..n] == t[..n] && (t + x)[n..] == t[n..] + x
  {
  }

  lemma NumberLocal(t: string, x: string)
    requires t != [] && NumChar(t[0]) && TokenLength(t) < |t|
    ensures Parse(t + x) == Done(Num(t[..TokenLength(t)]), t[TokenLength(t)..] + x)
  {
    hide TokenLength, ParseMembers, ParseItems;
    TokenLengthLocal(t, x);
    Cut(t, x, TokenLength(t));
    assert (t + x)[0] == t[0];
  }

  predicate Bare(t: string) {
    |t| > 1 && ((t[0] == '[' && t[1] == ']') || (t[0] == '{' && t[1] == '}'))
  }

  lemma EmptyLocal(t: string, x: string)
    requires Bare(t)
    ensures Parse(t + x) == Done(if t[0] == '[' then Arr([]) else Obj([]), t[2..] + x)
  {
    Cut(t, x, 2);
    assert (t + x)[0] == t[0] && (t + x)[1] == t[1];
  }

  lemma {:induction false} ArrayLocal(t: string, x: string)
    requires Parse(t).Done? && t[0] == '[' && !Bare(t)
    ensures Parse(t + x) == Done(Parse(t).value, Parse(t).rest + x)
    decreases |t|, 0
  {
    Cut(t, x, 1);
    ItemsLocal(t[1..], x);
    assert t[1..] != [] && (t + x)[0] == t[0] && (t + x)[1] == t[1];
  }

  lemma {:induction false} ObjectLocal(t: string, x: string)
    requires Parse(t).Done? && t[0] == '{' && !Bare(t)
    ensures Parse(t + x) == Done(Parse(t).value, Parse(t).rest + x)
    decreases |t|, 0
  {
    Cut(t, x, 1);
    MembersLocal(t[1..], x);
    assert t[1..] != [] && (t + x)[0] == t[0] && (t + x)[1] == t[1];
  }

  /** A value that is read leaves the same rest, and only that, whatever comes later. */
  lemma {:induction false} ParseLocal(t: string, x: string)
    requires Parse(t).Done?
    requires Parse(t).value.Num? ==> Parse(t).rest != []
    ensures Parse(t + x) == Done(Parse(t).value, Parse(t).rest + x)
    decreases |t|, 1
  {
    if Bare(t) {
      EmptyLocal(t, x);
    } else if t[0] == '{' {
      ObjectLocal(t, x);
    } else if t[0] == '[' {
      ArrayLocal(t, x);
    } else if t[0] == '\"' {
      QuotedLocal(t, x);
      assert (t + x)[0] == t[0];
    } else if NumChar(t[0]) {
      NumberLocal(t, x);
    } else {
      WordLocal(t, x);
    }
  }

  lemma {:induction false} ItemsLocal(t: string, x: string)
    requires ParseItems(t).Done?
    ensures ParseItems(t + x) == Done(ParseItems(t).value, ParseItems(t).rest + x)
    decreases |t|, 2
  {
    var rest := Parse(t).rest;
    ParseLocal(t, x);
    Cut(rest, x, 1);
    if rest[0] == ',' { ItemsLocal(rest[1..], x); }
  }

  lemma {:induction false} MemberLocal(t: string, x: string)
    requires ParseMember(t).Done? && ParseMember(t).rest != []
    ensures ParseMember(t + x) == Done(ParseMember(t).value, ParseMember(t).rest + x)
    decreases |t|, 2
  {
    var key, rest := ParseQuoted(t).value, ParseQuoted(t).rest;
    QuotedLocal(t, x);
    Cut(rest, x, 1);
    ParseLocal(rest[1..], x);
    MemberStep(t + x, key, rest + x, Parse(rest[1..]).value, Parse(rest[1..]).rest + x);
  }

  lemma {:induction false} MembersLocal(t: string, x: string)
    requires ParseMembers(t).Done?
    ensures ParseMembers(t + x) == Done(ParseMembers(t).value, ParseMembers(t).rest + x)
    decreases |t|, 3
  {
    var m, rest := ParseMember(t).value, ParseMember(t).rest;
    MemberLocal(t, x);
    Cut(rest, x, 1);
    if rest[0] == ',' { MembersLocal(rest[1..], x); }
    MembersStep(t + x, m, rest + x);
  }

  /** No proper prefix of an object's text reads as a whole value. */
  lemma PrefixUnreadable(ms: seq<Member>, k: nat)
    requires Valid(Obj(ms)) && k < |Print(Obj(ms))|
    ensures var r := Parse(Print(Obj(ms))[..k]); r.Done? ==> r.rest != []
  {
    var whole := Print(Obj(ms));
    var part, x := whole[..k], whole[k..];
    assert whole == part + x && whole == whole + [];
    ParsePrint(Obj(ms), []);
    var r := Parse(part);
    if r.Done? && r.rest == [] {
      assert part[0] == '{';
      assert r.value.Obj?;
      ParseLocal(part, x);
      assert false;
    }
  }

  // ----- no line breaks -----

  predicate Printable(t: string) {
    forall i | 0 <= i < |t| :: t[i] >= ' '
  }

  lemma {:induction false} PrintPrintable(v: Value)
    requires Valid(v)
    ensures Printable(Print(v))
    decreases v, 0
  {
    match v {
      case Str(s) => QuotePrintable(s);
      case Arr(items) => ItemsPrintable(items);
      case Obj(ms) => MembersPrintable(ms);
      case _ =>
    }
  }

  lemma QuotePrintable(s: string)
    ensures Printable(Quote(s))
  {
    EscapePrintable(s);
    assert forall i | 0 <= i < |Escape(s)| :: Escape(s)[i] in Escape(s);
  }

  lemma {:induction false} ItemsPrintable(items: seq<Value>)
    requires forall i | 0 <= i < |items| :: Valid(items[i])
    ensures Printable(PrintItems(items))
    decreases items, 1
  {
    if items != [] {
      PrintPrintable(items[0]);
      ItemsPrintable(items[1..]);
    }
  }

  lemma {:induction false} MembersPrintable(ms: seq<Member>)
    requires forall i | 0 <= i < |ms| :: Valid(ms[i].value)
    ensures Printable(PrintMembers(ms))
    decreases ms, 2
  {
    if ms != [] {
      QuotePrintable(ms[0].key);
      PrintPrintable(ms[0].value);
      MembersPrintable(ms[1..]);
    }
  }
}
