/** The documents the reader accepts, spelled out place by place in the text, and what each of them says. */
module JsonGrammar {
  import opened Bytes
  import opened JsonText
  import opened Options
  import Encoding = Utf8

  // --- Strings ---

  /** The eight signs that may follow a backslash, and what each stands for. */
  const SIGNS: string := "\"\\/bfnrt"
  const MEANINGS: string := ['"', '\\', '/', 8 as char, 12 as char, '\n', '\r', '\t']

  type Sign = n: nat | n < 8
  type Code = n: nat | n < 0x1_0000
  type Cases = s: seq<bool> | |s| == 4 witness [false, false, false, false]

  /** A character as it is, a sign behind a backslash, or a code in four hexadecimal digits of either case. */
  datatype Mark = Plain(c: char) | Named(n: Sign) | Coded(cp: Code, capital: Cases)

  function Digit(d: nat, capital: bool): char
    requires d < 16
  {
    if capital then "0123456789ABCDEF"[d] else "0123456789abcdef"[d]
  }

  function Size(m: Mark): nat {
    match m
    case Plain(_) => 1
    case Named(_) => 2
    case Coded(_, _) => 6
  }

  predicate MarkAt(text: string, a: nat, m: Mark) {
    && a + Size(m) <= |text|
    && match m
       case Plain(c) => text[a] == c && c != '"' && c != '\\'
       case Named(n) => text[a] == '\\' && text[a + 1] == SIGNS[n]
       case Coded(cp, capital) =>
         && text[a] == '\\' && text[a + 1] == 'u'
         && text[a + 2] == Digit(cp / 4096, capital[0]) && text[a + 3] == Digit(cp / 256 % 16, capital[1])
         && text[a + 4] == Digit(cp / 16 % 16, capital[2]) && text[a + 5] == Digit(cp % 16, capital[3])
  }

  function Chars(bytes: seq<Byte>): string {
    seq(|bytes|, i requires 0 <= i < |bytes| => bytes[i] as char)
  }

  /** What a surrogate becomes: three bytes after the pattern of the scalar values around it. */
  function SurrogateBytes(cp: Code): seq<Byte>
    requires !Encoding.IsScalar(cp)
  {
    [0xED, 0x80 + cp / 64 % 64, 0x80 + cp % 64]
  }

  function Said(m: Mark): string {
    match m
    case Plain(c) => [c]
    case Named(n) => [MEANINGS[n]]
    case Coded(cp, _) => Chars(if Encoding.IsScalar(cp) then Encoding.Encode(cp) else SurrogateBytes(cp))
  }

  function SaidAll(marks: seq<Mark>): string {
    if marks == [] then "" else Said(marks[0]) + SaidAll(marks[1..])
  }

  /** The marks stand one behind the other from `a` to `b`. */
  predicate MarksAt(text: string, a: nat, b: nat, marks: seq<Mark>)
    decreases |marks|
  {
    if marks == [] then a == b <= |text|
    else MarkAt(text, a, marks[0]) && MarksAt(text, a + Size(marks[0]), b, marks[1..])
  }

  predicate Quoted(text: string, a: nat, b: nat, marks: seq<Mark>) {
    a + 2 <= b <= |text| && text[a] == '"' && text[b - 1] == '"' && MarksAt(text, a + 1, b - 1, marks)
  }

  // --- Values ---

  /** A value in the text, with the places where it starts and ends. */
  datatype Tree = Tree(from: nat, to: nat, form: Form)

  datatype Form =
    | Word(v: Json)
    | Figure(token: string)
    | Text(marks: seq<Mark>)
    | Group(keyed: bool, members: seq<Member>)

  /** An item, its key if it has one, and the place of the comma or bracket behind it. */
  datatype Member = Member(key: Key, value: Tree, end: nat)

  datatype Key = NoKey | Key(from: nat, to: nat, marks: seq<Mark>, colon: nat)

  predicate Blank(text: string, a: nat, b: nat) {
    a <= b <= |text| && forall i :: a <= i < b ==> text[i] in " \t\n\r"
  }

  predicate WordAt(text: string, a: nat, b: nat, v: Json) {
    && a <= b <= |text|
    && match v
       case Null => text[a..b] == "null"
       case Bool(x) => text[a..b] == (if x then "true" else "false")
       case _ => false
  }

  predicate KeyAt(text: string, a: nat, key: Key, keyed: bool) {
    match key
    case NoKey => !keyed
    case Key(from, to, marks, colon) =>
      && keyed && Blank(text, a, from) && Quoted(text, from, to, marks)
      && Blank(text, to, colon) && colon < |text| && text[colon] == ':'
  }

  /** Where the value behind a key begins. */
  function AfterKey(a: nat, key: Key): nat {
    if key.NoKey? then a else key.colon + 1
  }

  /** The value stands behind nothing but blanks from `a` on. A number is whatever the scanner takes for one at a
      character that starts nothing else. */
  predicate ValueAt(scan: Scan, text: string, a: nat, t: Tree)
    decreases t, 0
  {
    && Blank(text, a, t.from) && t.from < t.to <= |text|
    && match t.form
       case Word(v) => WordAt(text, t.from, t.to, v)
       case Figure(token) =>
         text[t.from] !in " \t\n\r\"{[tfn" && scan(text, t.from) == t.to && token == text[t.from..t.to]
       case Text(marks) => Quoted(text, t.from, t.to, marks)
       case Group(keyed, members) =>
         && t.from + 2 <= t.to && text[t.from] == (if keyed then '{' else '[')
         && text[t.to - 1] == (if keyed then '}' else ']')
         && if members == [] then Blank(text, t.from + 1, t.to - 1)
            else
              && MembersAt(scan, text, t.from + 1, t.to - 1, keyed, members)
              && (keyed || At(text, members[0].value.from) != ']')
  }

  /** The members stand from `a` on, a comma behind each but the last, behind which the bracket stands at `b`. */
  predicate MembersAt(scan: Scan, text: string, a: nat, b: nat, keyed: bool, members: seq<Member>)
    requires members != []
    decreases members, 1
  {
    && MemberAt(scan, text, a, keyed, members[0])
    && var end := members[0].end;
       if |members| == 1 then end == b
       else end < |text| && text[end] == ',' && MembersAt(scan, text, end + 1, b, keyed, members[1..])
  }

  predicate MemberAt(scan: Scan, text: string, a: nat, keyed: bool, m: Member)
    decreases m, 0
  {
    && KeyAt(text, a, m.key, keyed) && ValueAt(scan, text, AfterKey(a, m.key), m.value)
    && Blank(text, m.value.to, m.end)
  }

  function Meaning(t: Tree): Json
    decreases t, 0
  {
    match t.form
    case Word(v) => v
    case Figure(token) => Number(token)
    case Text(marks) => Str(SaidAll(marks))
    case Group(keyed, members) => if keyed then Object(Meanings(members)) else Array(Meanings(members))
  }

  function Meanings(members: seq<Member>): (items: seq<Item>)
    ensures |items| == |members|
    decreases members, 1
  {
    if members == [] then [] else [MeantItem(members[0])] + Meanings(members[1..])
  }

  function MeantItem(m: Member): Item
    decreases m, 0
  {
    Item(if m.key.NoKey? then "" else SaidAll(m.key.marks), Meaning(m.value))
  }

  /** A value with blanks around it and nothing else. */
  predicate DocumentAt(scan: Scan, text: string, t: Tree) {
    ValueAt(scan, text, 0, t) && Blank(text, t.to, |text|)
  }

  // --- Strings are read as they are spelled ---

  lemma DigitsReadBack(d: nat, capital: bool)
    requires d < 16
    ensures HexDigit(Digit(d, capital)) == Some(d)
  {
  }

  lemma DigitOf(c: char)
    requires HexDigit(c).Some?
    ensures Digit(HexDigit(c).value, 'A' <= c <= 'F') == c
  {
  }

  /** Four digits one by one. */
  lemma RunOfFour(text: string, p: nat, d: seq<nat>)
    requires p + 4 <= |text| && |d| == 4 && forall k :: 0 <= k < 4 ==> HexDigit(text[p + k]) == Some(d[k])
    ensures HexRun(text, p, 4) == Some(((d[0] * 16 + d[1]) * 16 + d[2]) * 16 + d[3])
  {
    hide HexDigit;
    assert HexRun(text, p, 0) == Some(0);
    assert text[p + 0] == At(text, p + 0) && text[p + 1] == At(text, p + 1);
    assert text[p + 2] == At(text, p + 2) && text[p + 3] == At(text, p + 3);
    assert HexRun(text, p, 1) == Some(d[0]);
    assert HexRun(text, p, 2) == Some(d[0] * 16 + d[1]);
    assert HexRun(text, p, 3) == Some((d[0] * 16 + d[1]) * 16 + d[2]);
  }

  lemma FourDigits(text: string, p: nat) returns (d: seq<nat>)
    requires HexRun(text, p, 4).Some?
    ensures |d| == 4 && p + 4 <= |text|
    ensures forall k :: 0 <= k < 4 ==> d[k] < 16 && HexDigit(text[p + k]) == Some(d[k])
  {
    hide HexDigit;
    assert HexRun(text, p, 3).Some? && HexRun(text, p, 2).Some? && HexRun(text, p, 1).Some?;
    d := [HexDigit(text[p]).value, HexDigit(text[p + 1]).value, HexDigit(text[p + 2]).value,
          HexDigit(text[p + 3]).value];
    assert HexDigit(text[p + 0]) == Some(d[0]);
  }

  lemma CodeDigits(cp: Code)
    ensures ((cp / 4096 * 16 + cp / 256 % 16) * 16 + cp / 16 % 16) * 16 + cp % 16 == cp && cp / 4096 < 16
  {
  }

  lemma LastDigit(x: nat, d: nat)
    requires d < 16
    ensures (x * 16 + d) / 16 == x && (x * 16 + d) % 16 == d
  {
  }

  lemma DigitsOfCode(d: seq<nat>)
    requires |d| == 4 && forall k :: 0 <= k < 4 ==> d[k] < 16
    ensures var cp := ((d[0] * 16 + d[1]) * 16 + d[2]) * 16 + d[3];
            && cp < 0x1_0000 && cp / 4096 == d[0] && cp / 256 % 16 == d[1] && cp / 16 % 16 == d[2] && cp % 16 == d[3]
  {
    var d0, d1, d2, d3 := d[0], d[1], d[2], d[3];
    LastDigit(d0, d1);
    LastDigit(d0 * 16 + d1, d2);
    LastDigit((d0 * 16 + d1) * 16 + d2, d3);
    Sixteenths(((d0 * 16 + d1) * 16 + d2) * 16 + d3);
  }

  lemma Sixteenths(n: nat)
    ensures n / 256 == n / 16 / 16 && n / 4096 == n / 16 / 16 / 16
  {
  }

  /** The bytes of a code: those of its encoding, or of the pattern if it is a surrogate. */
  lemma CodeBytes(cp: Code, capital: Cases)
    ensures JsonText.Utf8(cp) == Said(Coded(cp, capital))
  {
    if 0xD800 <= cp <= 0xDFFF { assert cp / 4096 == 13; }
    var bytes: seq<Byte> := if Encoding.IsScalar(cp) then Encoding.Encode(cp) else SurrogateBytes(cp);
    assert |bytes| == |JsonText.Utf8(cp)|;
    assert Chars(bytes) == JsonText.Utf8(cp);
  }

  lemma MarkIsRead(text: string, a: nat, m: Mark)
    requires MarkAt(text, a, m)
    ensures text[a] != '"' && DecodeOne(text, a) == Some((Said(m), a + Size(m)))
  {
    match m
    case Plain(_) =>
    case Named(n) =>
      hide HexRun;
      assert SIGNS[n] != 'u' && Unescaped(SIGNS[n]) == Some(MEANINGS[n]);
    case Coded(cp, capital) => CodeIsRead(text, a, cp, capital);
  }

  lemma CodeIsRead(text: string, a: nat, cp: Code, capital: Cases)
    requires MarkAt(text, a, Coded(cp, capital))
    ensures text[a] != '"' && DecodeOne(text, a) == Some((Said(Coded(cp, capital)), a + 6))
  {
    hide HexDigit, HexRun, Digit, Said, JsonText.Utf8;
    var d := [cp / 4096, cp / 256 % 16, cp / 16 % 16, cp % 16];
    CodeDigits(cp);
    assert text[a + 2 + 0] == text[a + 2];
    forall k | 0 <= k < 4 ensures HexDigit(text[a + 2 + k]) == Some(d[k]) { DigitsReadBack(d[k], capital[k]); }
    RunOfFour(text, a + 2, d);
    CodeBytes(cp, capital);
  }

  lemma ReadIsMark(text: string, a: nat) returns (m: Mark)
    requires a < |text| && text[a] != '"' && DecodeOne(text, a).Some?
    ensures MarkAt(text, a, m) && DecodeOne(text, a) == Some((Said(m), a + Size(m)))
  {
    if text[a] != '\\' {
      m := Plain(text[a]);
    } else if At(text, a + 1) == 'u' {
      m := CodeIsMark(text, a);
    } else {
      hide HexRun;
      var c := At(text, a + 1);
      var n: Sign := if c == '"' then 0 else if c == '\\' then 1 else if c == '/' then 2 else if c == 'b' then 3
      else if c == 'f' then 4 else if c == 'n' then 5 else if c == 'r' then 6 else 7;
      m := Named(n);
      assert c == SIGNS[n];
    }
  }

  lemma CodeIsMark(text: string, a: nat) returns (m: Mark)
    requires a < |text| && text[a] == '\\' && At(text, a + 1) == 'u' && DecodeOne(text, a).Some?
    ensures MarkAt(text, a, m) && DecodeOne(text, a) == Some((Said(m), a + Size(m)))
  {
    hide HexDigit, HexRun, Digit, Said, JsonText.Utf8;
    var d := FourDigits(text, a + 2);
    RunOfFour(text, a + 2, d);
    DigitsOfCode(d);
    var cp: Code := ((d[0] * 16 + d[1]) * 16 + d[2]) * 16 + d[3];
    var capital := seq(4, k requires 0 <= k < 4 => 'A' <= text[a + 2 + k] <= 'F');
    forall k | 0 <= k < 4 ensures text[a + 2 + k] == Digit(d[k], capital[k]) { DigitOf(text[a + 2 + k]); }
    m := Coded(cp, capital);
    assert text[a + 2 + 0] == Digit(d[0], capital[0]);
    CodeBytes(cp, capital);
  }

  lemma {:induction false} MarksAreRead(text: string, a: nat, b: nat, marks: seq<Mark>)
    requires MarksAt(text, a, b, marks) && b < |text| && text[b] == '"'
    ensures a <= b && DecodeBody(text, a) == Some((SaidAll(marks), b + 1))
    decreases |marks|
  {
    hide MarkAt, Said, DecodeOne, Size;
    if marks != [] {
      MarksAreRead(text, a + Size(marks[0]), b, marks[1..]);
      MarkIsRead(text, a, marks[0]);
      MarkFits(text, a, marks[0]);
    }
  }

  lemma MarkFits(text: string, a: nat, m: Mark)
    requires MarkAt(text, a, m)
    ensures a < a + Size(m) <= |text|
  {
  }

  lemma {:induction false} ReadIsMarks(text: string, a: nat) returns (marks: seq<Mark>)
    requires a <= |text| && DecodeBody(text, a).Some?
    ensures var b := DecodeBody(text, a).value.1 - 1;
            && a <= b < |text| && text[b] == '"' && MarksAt(text, a, b, marks)
            && SaidAll(marks) == DecodeBody(text, a).value.0
    decreases |text| - a
  {
    hide MarkAt, Said, DecodeOne, Size;
    if text[a] == '"' {
      marks := [];
    } else {
      var m := ReadIsMark(text, a);
      var rest := ReadIsMarks(text, DecodeOne(text, a).value.1);
      marks := [m] + rest;
      assert marks[1..] == rest;
    }
  }

  // --- Values are read as they are spelled ---

  lemma SpaceIs(c: char)
    ensures IsSpace(c) <==> c in " \t\n\r"
  {
    var s := " \t\n\r";
    assert s[0] == ' ' && s[1] == '\t' && s[2] == '\n' && s[3] == '\r';
  }

  lemma {:induction false} BlankIsSkipped(text: string, a: nat, b: nat)
    requires Blank(text, a, b) && (b < |text| ==> !IsSpace(text[b]))
    ensures SkipWs(text, a) == b
    decreases b - a
  {
    if a < b {
      SpaceIs(text[a]);
      hide IsSpace;
      BlankIsSkipped(text, a + 1, b);
    }
  }

  lemma {:induction false} SkippedIsBlank(text: string, a: nat)
    requires a <= |text|
    ensures Blank(text, a, SkipWs(text, a))
    decreases |text| - a
  {
    if a < |text| && IsSpace(text[a]) {
      SpaceIs(text[a]);
      hide IsSpace;
      SkippedIsBlank(text, a + 1);
    }
  }

  lemma SkipTwice(text: string, a: nat)
    requires a <= |text|
    ensures SkipWs(text, SkipWs(text, a)) == SkipWs(text, a)
  {
  }

  lemma ValueBehindBlanks(scan: Scan, text: string, a: nat, depth: nat)
    requires a <= |text|
    ensures ReadValue(scan, text, SkipWs(text, a), depth) == ReadValue(scan, text, a, depth)
  {
    SkipTwice(text, a);
    hide SkipWs, ReadItems, DecodeBody, StartsAt;
  }

  lemma KeyBehindBlanks(text: string, a: nat)
    requires a <= |text|
    ensures ReadKey(text, SkipWs(text, a), true) == ReadKey(text, a, true)
  {
    SkipTwice(text, a);
    hide SkipWs, DecodeBody;
  }

  /** What is read from two places is the same if keys and first values are. */
  lemma SameItems(scan: Scan, text: string, p: nat, q: nat, depth: nat, keyed: bool)
    requires p <= |text| && q <= |text|
    requires ReadKey(text, p, keyed) == ReadKey(text, q, keyed)
             || (ReadKey(text, p, keyed) == Some(("", p)) && ReadKey(text, q, keyed) == Some(("", q))
                 && ReadValue(scan, text, p, depth + 1) == ReadValue(scan, text, q, depth + 1))
    ensures ReadItems(scan, text, p, depth, keyed) == ReadItems(scan, text, q, depth, keyed)
  {
    hide SkipWs, ReadValue, ReadKey, Closer;
  }

  lemma ItemsBehindBlanks(scan: Scan, text: string, a: nat, depth: nat, keyed: bool)
    requires a <= |text|
    ensures ReadItems(scan, text, SkipWs(text, a), depth, keyed) == ReadItems(scan, text, a, depth, keyed)
  {
    hide ReadItems, SkipWs, ReadValue, DecodeBody;
    KeyBehindBlanks(text, a);
    ValueBehindBlanks(scan, text, a, depth + 1);
    SameItems(scan, text, SkipWs(text, a), a, depth, keyed);
  }

  lemma StartIs(scan: Scan, text: string, a: nat, t: Tree)
    requires ValueAt(scan, text, a, t)
    ensures t.from < |text| && text[t.from] !in " \t\n\r"
  {
    hide Blank, MembersAt, MarksAt;
    if t.form.Word? { WordStart(text, t.from, t.to, t.form.v); }
  }

  lemma WordStart(text: string, a: nat, b: nat, v: Json)
    requires WordAt(text, a, b, v)
    ensures a < b <= |text| && text[a] == (if v.Null? then 'n' else if v == Bool(true) then 't' else 'f')
  {
    assert text[a..b][0] == text[a];
  }

  lemma ValueStart(scan: Scan, text: string, a: nat, t: Tree)
    requires ValueAt(scan, text, a, t)
    ensures a <= t.from < t.to <= |text| && SkipWs(text, a) == t.from
  {
    hide SkipWs, MembersAt, MarksAt, IsSpace, WordAt;
    StartIs(scan, text, a, t);
    SpaceIs(text[t.from]);
    BlankIsSkipped(text, a, t.from);
  }

  lemma FigureIsRead(scan: Scan, text: string, a: nat, t: Tree, depth: nat)
    requires ValueAt(scan, text, a, t) && t.form.Figure? && depth <= MAX_DEPTH
    ensures a <= |text| && ReadValue(scan, text, a, depth) == Some((Meaning(t), t.to))
  {
    ValueStart(scan, text, a, t);
    hide SkipWs, Blank, ReadItems, DecodeBody, StartsAt;
    OtherStart(text[t.from]);
  }

  lemma OtherStart(c: char)
    ensures c !in " \t\n\r\"{[tfn" <==>
              !IsSpace(c) && c != '"' && c != '{' && c != '[' && c != 't' && c != 'f' && c != 'n'
  {
    var s := " \t\n\r\"{[tfn";
    assert s[0] == ' ' && s[1] == '\t' && s[2] == '\n' && s[3] == '\r';
    assert s[4] == '"' && s[5] == '{' && s[6] == '[' && s[7] == 't' && s[8] == 'f' && s[9] == 'n';
  }

  lemma WordIsRead(scan: Scan, text: string, a: nat, t: Tree, depth: nat)
    requires ValueAt(scan, text, a, t) && t.form.Word? && depth <= MAX_DEPTH
    ensures a <= |text| && ReadValue(scan, text, a, depth) == Some((Meaning(t), t.to))
  {
    ValueStart(scan, text, a, t);
    WordStart(text, t.from, t.to, t.form.v);
    hide SkipWs, Blank, ReadItems, DecodeBody;
  }

  /** One unfolding of `ReadValue` at a quote. */
  lemma TextStep(scan: Scan, text: string, p: nat, depth: nat, from: nat)
    requires p <= |text| && from < |text| && SkipWs(text, p) == from && depth <= MAX_DEPTH && text[from] == '"'
    ensures var r := DecodeBody(text, from + 1);
            ReadValue(scan, text, p, depth) == if r.Some? then Some((Str(r.value.0), r.value.1)) else None
  {
    hide SkipWs, ReadItems, DecodeBody, StartsAt;
  }

  lemma QuotedIsRead(text: string, from: nat, to: nat, marks: seq<Mark>)
    requires Quoted(text, from, to, marks)
    ensures from + 1 < to <= |text| && text[from] == '"' && DecodeBody(text, from + 1) == Some((SaidAll(marks), to))
  {
    hide MarksAt, DecodeBody, SaidAll;
    MarksAreRead(text, from + 1, to - 1, marks);
  }

  lemma TextIsRead(scan: Scan, text: string, a: nat, t: Tree, depth: nat)
    requires ValueAt(scan, text, a, t) && t.form.Text? && depth <= MAX_DEPTH
    ensures a <= |text| && ReadValue(scan, text, a, depth) == Some((Meaning(t), t.to))
  {
    hide Blank, Quoted, SkipWs, ReadValue, DecodeBody, SaidAll;
    ValueStart(scan, text, a, t);
    QuotedIsRead(text, t.from, t.to, t.form.marks);
    TextStep(scan, text, a, depth, t.from);
  }

  /** One unfolding of `ReadKey` at a key. */
  lemma KeyStep(text: string, p: nat, from: nat)
    requires p <= |text| && SkipWs(text, p) == from < |text| && text[from] == '"' && DecodeBody(text, from + 1).Some?
    ensures var r := DecodeBody(text, from + 1).value; var colon := SkipWs(text, r.1);
            ReadKey(text, p, true) == if At(text, colon) == ':' then Some((r.0, colon + 1)) else None
  {
    hide SkipWs, DecodeBody;
  }

  lemma NamedKeyIsRead(text: string, a: nat, from: nat, to: nat, marks: seq<Mark>, colon: nat)
    requires Blank(text, a, from) && Quoted(text, from, to, marks) && Blank(text, to, colon)
    requires colon < |text| && text[colon] == ':'
    ensures a <= |text| && ReadKey(text, a, true) == Some((SaidAll(marks), colon + 1))
  {
    hide *;
    assert a <= from <= |text| && to <= colon by { BlankOrder(text, a, from); BlankOrder(text, to, colon); }
    QuotedIsRead(text, from, to, marks);
    assert !IsSpace('"') && !IsSpace(':') by { SpaceIs('"'); SpaceIs(':'); }
    BlankIsSkipped(text, a, from);
    BlankIsSkipped(text, to, colon);
    KeyStep(text, a, from);
    assert At(text, colon) == ':' by { AtIs(text, colon); }
  }

  lemma BlankOrder(text: string, a: nat, b: nat)
    requires Blank(text, a, b)
    ensures a <= b <= |text|
  {
  }

  lemma AtIs(text: string, p: nat)
    requires p < |text|
    ensures At(text, p) == text[p]
  {
  }

  lemma KeyIsRead(text: string, a: nat, key: Key, keyed: bool)
    requires a <= |text| && KeyAt(text, a, key, keyed)
    ensures AfterKey(a, key) <= |text|
    ensures ReadKey(text, a, keyed) == Some((if key.NoKey? then "" else SaidAll(key.marks), AfterKey(a, key)))
  {
    hide Quoted, Blank, SkipWs, DecodeBody, SaidAll;
    if key.Key? {
      NamedKeyIsRead(text, a, key.from, key.to, key.marks, key.colon);
    }
  }

  /** One unfolding of `ReadItems` at a member. */
  lemma ItemsStep(scan: Scan, text: string, p: nat, depth: nat, keyed: bool, item: Item, k: nat, to: nat, end: nat)
    requires p <= |text| && k <= |text| && to <= |text| && end < |text|
    requires ReadKey(text, p, keyed) == Some((item.key, k))
             && ReadValue(scan, text, k, depth + 1) == Some((item.value, to)) && SkipWs(text, to) == end
    ensures text[end] == Closer(keyed) ==> ReadItems(scan, text, p, depth, keyed) == Some(([item], end + 1))
    ensures text[end] == ',' && ReadItems(scan, text, end + 1, depth, keyed).Some? ==>
              ReadItems(scan, text, p, depth, keyed)
              == Some(([item] + ReadItems(scan, text, end + 1, depth, keyed).value.0,
                       ReadItems(scan, text, end + 1, depth, keyed).value.1))
  {
    hide ReadKey, ReadValue, SkipWs;
  }

  /** One unfolding of `ReadValue` at an opening bracket. */
  lemma OpenStep(scan: Scan, text: string, p: nat, depth: nat, keyed: bool, from: nat, first: nat)
    requires p <= |text| && from < |text| && SkipWs(text, p) == from && depth <= MAX_DEPTH
    requires text[from] == (if keyed then '{' else '[') && first == SkipWs(text, from + 1)
    ensures At(text, first) == Closer(keyed) ==>
              ReadValue(scan, text, p, depth) == Some((Container(keyed, []), first + 1))
    ensures At(text, first) != Closer(keyed) ==>
              var r := ReadItems(scan, text, first, depth, keyed);
              ReadValue(scan, text, p, depth)
              == if r.Some? then Some((Container(keyed, r.value.0), r.value.1)) else None
  {
    hide ReadItems, SkipWs, DecodeBody, StartsAt, Closer, Container;
  }

  lemma GroupStep(scan: Scan, text: string, p: nat, depth: nat, keyed: bool, from: nat)
    requires p <= |text| && from < |text| && SkipWs(text, p) == from && depth <= MAX_DEPTH
    requires text[from] == (if keyed then '{' else '[')
    ensures var first := SkipWs(text, from + 1);
            && (At(text, first) == Closer(keyed) ==>
                  ReadValue(scan, text, p, depth) == Some((Container(keyed, []), first + 1)))
            && (At(text, first) != Closer(keyed) ==>
                  var r := ReadItems(scan, text, from + 1, depth, keyed);
                  ReadValue(scan, text, p, depth)
                  == if r.Some? then Some((Container(keyed, r.value.0), r.value.1)) else None)
  {
    hide *;
    OpenStep(scan, text, p, depth, keyed, from, SkipWs(text, from + 1));
    ItemsBehindBlanks(scan, text, from + 1, depth, keyed);
  }

  lemma {:induction false} MemberIsRead(scan: Scan, text: string, a: nat, keyed: bool, m: Member, depth: nat)
    requires a <= |text| && MemberAt(scan, text, a, keyed, m)
    requires ValueAt(scan, text, AfterKey(a, m.key), m.value) && depth + 1 + Depth(Meaning(m.value)) <= MAX_DEPTH
    requires m.end < |text| && (text[m.end] == ',' || text[m.end] == Closer(keyed))
    ensures AfterKey(a, m.key) <= |text| && m.value.to <= |text|
    ensures ReadKey(text, a, keyed) == Some((MeantItem(m).key, AfterKey(a, m.key)))
    ensures ReadValue(scan, text, AfterKey(a, m.key), depth + 1) == Some((MeantItem(m).value, m.value.to))
    ensures SkipWs(text, m.value.to) == m.end
    decreases m, 0
  {
    hide ReadKey, ReadValue, SkipWs, Blank, KeyAt, ValueAt, SaidAll, Meaning, AfterKey, Depth;
    ValueIsRead(scan, text, AfterKey(a, m.key), m.value, depth + 1);
    KeyIsRead(text, a, m.key, keyed);
    BlankOrder(text, m.value.to, m.end);
    BlankIsSkipped(text, m.value.to, m.end);
  }

  lemma {:induction false} ValueIsRead(scan: Scan, text: string, a: nat, t: Tree, depth: nat)
    requires ValueAt(scan, text, a, t) && depth + Depth(Meaning(t)) <= MAX_DEPTH
    ensures a <= |text| && ReadValue(scan, text, a, depth) == Some((Meaning(t), t.to))
    decreases t, 0
  {
    hide ValueAt, ReadValue, Depth, Meaning;
    match t.form
    case Word(_) => WordIsRead(scan, text, a, t, depth);
    case Figure(_) => FigureIsRead(scan, text, a, t, depth);
    case Text(_) => TextIsRead(scan, text, a, t, depth);
    case Group(_, _) => GroupIsRead(scan, text, a, t, depth);
  }

  lemma {:induction false} GroupIsRead(scan: Scan, text: string, a: nat, t: Tree, depth: nat)
    requires ValueAt(scan, text, a, t) && t.form.Group? && depth + Depth(Meaning(t)) <= MAX_DEPTH
    ensures a <= |text| && ReadValue(scan, text, a, depth) == Some((Meaning(t), t.to))
    decreases t.form
  {
    hide *;
    var keyed, members, b := t.form.keyed, t.form.members, t.to - 1;
    ValueStart(scan, text, a, t);
    GroupParts(scan, text, a, t);
    GroupStep(scan, text, a, depth, keyed, t.from);
    if members == [] {
      BlankIsSkipped(text, t.from + 1, b);
    } else {
      FirstStart(scan, text, t.from + 1, b, keyed, members);
      MembersAreRead(scan, text, t.from + 1, b, keyed, members, depth);
    }
  }

  /** What stands where in a container. */
  lemma GroupParts(scan: Scan, text: string, a: nat, t: Tree)
    requires ValueAt(scan, text, a, t) && t.form.Group?
    ensures var keyed, members, b := t.form.keyed, t.form.members, t.to - 1;
            && t.from + 1 <= b < |text| && text[t.from] == (if keyed then '{' else '[')
            && text[b] == Closer(keyed) && !IsSpace(text[b]) && At(text, b) == text[b]
            && Meaning(t) == Container(keyed, Meanings(members))
            && (members == [] ==> Blank(text, t.from + 1, b) && Meaning(t) == Container(keyed, []))
            && (members != [] ==> MembersAt(scan, text, t.from + 1, b, keyed, members)
                                  && (keyed || At(text, members[0].value.from) != ']'))
            && Depth(Meaning(t)) == DepthItems(Meanings(members))
  {
    hide MembersAt, Blank, DepthItems;
  }

  /** The first item does not start with the closing bracket. */
  lemma FirstStart(scan: Scan, text: string, a: nat, b: nat, keyed: bool, members: seq<Member>)
    requires members != [] && a <= |text| && MembersAt(scan, text, a, b, keyed, members)
    requires keyed || At(text, members[0].value.from) != ']'
    ensures At(text, SkipWs(text, a)) != Closer(keyed)
  {
    var m := members[0];
    if keyed {
      hide MarksAt, ValueAt, SkipWs, MembersAt;
      BlankIsSkipped(text, a, m.key.from);
    } else {
      hide ValueAt, SkipWs, MembersAt;
      ValueStart(scan, text, a, m.value);
    }
  }

  lemma {:induction false} MembersAreRead(scan: Scan, text: string, a: nat, b: nat, keyed: bool, members: seq<Member>,
                                          depth: nat)
    requires members != [] && a <= |text| && MembersAt(scan, text, a, b, keyed, members)
    requires b < |text| && text[b] == Closer(keyed) && depth + DepthItems(Meanings(members)) <= MAX_DEPTH
    ensures ReadItems(scan, text, a, depth, keyed) == Some((Meanings(members), b + 1))
    decreases members, 1
  {
    hide *;
    var m := members[0];
    MembersParts(scan, text, a, b, keyed, members);
    FirstMeant(members, depth);
    MemberIsRead(scan, text, a, keyed, members[0], depth);
    if |members| > 1 { MembersAreRead(scan, text, m.end + 1, b, keyed, members[1..], depth); }
    ItemsStep(scan, text, a, depth, keyed, MeantItem(m), AfterKey(a, m.key), m.value.to, m.end);
  }

  lemma MembersParts(scan: Scan, text: string, a: nat, b: nat, keyed: bool, members: seq<Member>)
    requires members != [] && a <= |text| && MembersAt(scan, text, a, b, keyed, members)
    requires b < |text| && text[b] == Closer(keyed)
    ensures var m := members[0];
            && MemberAt(scan, text, a, keyed, m) && ValueAt(scan, text, AfterKey(a, m.key), m.value)
            && m.end < |text| && (text[m.end] == ',' || text[m.end] == Closer(keyed))
            && (if |members| == 1 then m.end == b
                else text[m.end] == ',' && MembersAt(scan, text, m.end + 1, b, keyed, members[1..]))
  {
    hide ValueAt, KeyAt, Blank, Closer, AfterKey;
  }

  lemma FirstMeant(members: seq<Member>, depth: nat)
    requires members != []
    ensures var d := DepthItems(Meanings(members));
            d >= 1 + Depth(Meaning(members[0].value)) && d >= DepthItems(Meanings(members[1..]))
    ensures Meanings(members) == [MeantItem(members[0])] + Meanings(members[1..])
    ensures |members| == 1 ==> Meanings(members) == [MeantItem(members[0])]
  {
  }

  // --- What is read is spelled there ---

  lemma ReadIsFigure(scan: Scan, text: string, a: nat, depth: nat) returns (t: Tree)
    requires a <= |text| && ReadValue(scan, text, a, depth).Some? && OtherChar(At(text, SkipWs(text, a)))
    ensures ValueAt(scan, text, a, t) && ReadValue(scan, text, a, depth) == Some((Meaning(t), t.to))
    ensures Depth(Meaning(t)) == 0 && depth <= MAX_DEPTH
  {
    SkippedIsBlank(text, a);
    hide SkipWs, Blank, ReadItems, DecodeBody, StartsAt;
    var from := SkipWs(text, a);
    var to := ReadValue(scan, text, a, depth).value.1;
    assert from < |text| && to == scan(text, from);
    OtherStart(text[from]);
    t := Tree(from, to, Figure(text[from..to]));
  }

  /** A character that starts neither a string nor a container nor a word. */
  predicate OtherChar(c: char) {
    c != '"' && c != '{' && c != '[' && c != 't' && c != 'f' && c != 'n'
  }

  lemma ReadIsWord(scan: Scan, text: string, a: nat, depth: nat) returns (t: Tree)
    requires a <= |text| && ReadValue(scan, text, a, depth).Some?
    requires At(text, SkipWs(text, a)) == 't' || At(text, SkipWs(text, a)) == 'f' || At(text, SkipWs(text, a)) == 'n'
    ensures ValueAt(scan, text, a, t) && ReadValue(scan, text, a, depth) == Some((Meaning(t), t.to))
    ensures Depth(Meaning(t)) == 0 && depth <= MAX_DEPTH
  {
    SkippedIsBlank(text, a);
    hide SkipWs, Blank, ReadItems, DecodeBody;
    var r := ReadValue(scan, text, a, depth).value;
    t := Tree(SkipWs(text, a), r.1, Word(r.0));
  }

  lemma ReadIsText(scan: Scan, text: string, a: nat, depth: nat) returns (t: Tree)
    requires a <= |text| && ReadValue(scan, text, a, depth).Some? && At(text, SkipWs(text, a)) == '"'
    ensures ValueAt(scan, text, a, t) && ReadValue(scan, text, a, depth) == Some((Meaning(t), t.to))
    ensures Depth(Meaning(t)) == 0 && depth <= MAX_DEPTH
  {
    var from := SkipWs(text, a);
    assert a <= from < |text| && text[from] == '"';
    hide *;
    ShallowIfRead(scan, text, a, depth);
    SkippedIsBlank(text, a);
    TextStep(scan, text, a, depth, from);
    var marks := ReadIsQuoted(text, from);
    t := TextTree(scan, text, a, from, DecodeBody(text, from + 1).value.1, marks);
  }

  lemma ReadIsQuoted(text: string, from: nat) returns (marks: seq<Mark>)
    requires from < |text| && text[from] == '"' && DecodeBody(text, from + 1).Some?
    ensures var r := DecodeBody(text, from + 1).value; Quoted(text, from, r.1, marks) && SaidAll(marks) == r.0
  {
    hide MarksAt, SaidAll, DecodeBody;
    marks := ReadIsMarks(text, from + 1);
  }

  lemma TextTree(scan: Scan, text: string, a: nat, from: nat, to: nat, marks: seq<Mark>) returns (t: Tree)
    requires Blank(text, a, from) && Quoted(text, from, to, marks)
    ensures ValueAt(scan, text, a, t) && t.to == to && Meaning(t) == Str(SaidAll(marks)) && Depth(Meaning(t)) == 0
  {
    hide MarksAt, SaidAll, Blank;
    t := Tree(from, to, Text(marks));
  }

  lemma ShallowIfRead(scan: Scan, text: string, a: nat, depth: nat)
    requires a <= |text| && ReadValue(scan, text, a, depth).Some?
    ensures depth <= MAX_DEPTH
  {
  }

  lemma {:induction false} ReadIsTree(scan: Scan, text: string, a: nat, depth: nat) returns (t: Tree)
    requires a <= |text| && ReadValue(scan, text, a, depth).Some?
    ensures ValueAt(scan, text, a, t) && ReadValue(scan, text, a, depth) == Some((Meaning(t), t.to))
    ensures depth + Depth(Meaning(t)) <= MAX_DEPTH
    decreases |text| - a, 0
  {
    hide ReadValue, SkipWs, ValueAt, Meaning, Depth;
    var c := At(text, SkipWs(text, a));
    if c == '{' || c == '[' {
      t := ReadIsGroup(scan, text, a, depth, c == '{');
    } else if c == '"' {
      t := ReadIsText(scan, text, a, depth);
    } else if c == 't' || c == 'f' || c == 'n' {
      t := ReadIsWord(scan, text, a, depth);
    } else {
      t := ReadIsFigure(scan, text, a, depth);
    }
  }

  lemma OpenedAt(text: string, a: nat, keyed: bool)
    requires a <= |text| && At(text, SkipWs(text, a)) == (if keyed then '{' else '[')
    ensures a <= SkipWs(text, a) < |text| && text[SkipWs(text, a)] == (if keyed then '{' else '[')
  {
  }

  lemma {:induction false} ReadIsGroup(scan: Scan, text: string, a: nat, depth: nat, keyed: bool) returns (t: Tree)
    requires a <= |text| && ReadValue(scan, text, a, depth).Some?
    requires At(text, SkipWs(text, a)) == (if keyed then '{' else '[')
    ensures ValueAt(scan, text, a, t) && ReadValue(scan, text, a, depth) == Some((Meaning(t), t.to))
    ensures depth + Depth(Meaning(t)) <= MAX_DEPTH
    decreases |text| - a, 0, 0
  {
    hide *;
    var from := SkipWs(text, a);
    OpenedAt(text, a, keyed);
    ShallowIfRead(scan, text, a, depth);
    SkippedIsBlank(text, a);
    GroupStep(scan, text, a, depth, keyed, from);
    var first := SkipWs(text, from + 1);
    if At(text, first) == Closer(keyed) {
      t := EmptyGroup(scan, text, a, keyed, from, first);
    } else {
      var members := ReadIsMembers(scan, text, from + 1, depth, keyed);
      var b := ReadItems(scan, text, from + 1, depth, keyed).value.1 - 1;
      t := FullGroup(scan, text, a, keyed, from, members, b);
    }
  }

  lemma EmptyGroup(scan: Scan, text: string, a: nat, keyed: bool, from: nat, b: nat) returns (t: Tree)
    requires Blank(text, a, from) && from < |text| && text[from] == (if keyed then '{' else '[')
    requires b == SkipWs(text, from + 1) && At(text, b) == Closer(keyed)
    ensures ValueAt(scan, text, a, t) && Meaning(t) == Container(keyed, []) && t.to == b + 1
    ensures Depth(Meaning(t)) == 0
  {
    SkippedIsBlank(text, from + 1);
    hide SkipWs, Blank;
    t := Tree(from, b + 1, Group(keyed, []));
    BlankOrder(text, a, from);
    BlankOrder(text, from + 1, b);
  }

  lemma FullGroup(scan: Scan, text: string, a: nat, keyed: bool, from: nat, members: seq<Member>, b: nat)
      returns (t: Tree)
    requires Blank(text, a, from) && from < b < |text| && text[from] == (if keyed then '{' else '[')
    requires members != [] && MembersAt(scan, text, from + 1, b, keyed, members) && text[b] == Closer(keyed)
    requires At(text, SkipWs(text, from + 1)) != Closer(keyed)
    ensures ValueAt(scan, text, a, t) && Meaning(t) == Container(keyed, Meanings(members)) && t.to == b + 1
    ensures Depth(Meaning(t)) == DepthItems(Meanings(members))
  {
    t := Tree(from, b + 1, Group(keyed, members));
    if !keyed {
      MembersParts(scan, text, from + 1, b, keyed, members);
      assert AfterKey(from + 1, members[0].key) == from + 1;
      ValueStart(scan, text, from + 1, members[0].value);
    }
    hide SkipWs, Blank, MembersAt, Meanings;
  }

  /** What reading one item has read. */
  lemma ItemParts(scan: Scan, text: string, p: nat, depth: nat, keyed: bool)
    requires p <= |text| && ReadItems(scan, text, p, depth, keyed).Some?
    ensures ReadKey(text, p, keyed).Some?
    ensures var k := ReadKey(text, p, keyed).value;
            && ReadValue(scan, text, k.1, depth + 1).Some?
            && var v := ReadValue(scan, text, k.1, depth + 1).value; var end := SkipWs(text, v.1);
               && end < |text| && (text[end] == ',' || text[end] == Closer(keyed))
               && (text[end] == ',' ==> ReadItems(scan, text, end + 1, depth, keyed).Some?)
  {
    hide ReadKey, ReadValue, SkipWs;
  }

  /** One unfolding of `ReadKey`, backwards. */
  lemma KeyParts(text: string, p: nat)
    requires p <= |text| && ReadKey(text, p, true).Some?
    ensures var from := SkipWs(text, p);
            && from < |text| && text[from] == '"' && DecodeBody(text, from + 1).Some?
            && var r := DecodeBody(text, from + 1).value; var colon := SkipWs(text, r.1);
               colon < |text| && text[colon] == ':' && ReadKey(text, p, true) == Some((r.0, colon + 1))
  {
    hide SkipWs, DecodeBody;
  }

  lemma ReadIsKey(text: string, a: nat, keyed: bool) returns (key: Key)
    requires a <= |text| && ReadKey(text, a, keyed).Some?
    ensures KeyAt(text, a, key, keyed) && AfterKey(a, key) == ReadKey(text, a, keyed).value.1
    ensures (if key.NoKey? then "" else SaidAll(key.marks)) == ReadKey(text, a, keyed).value.0
  {
    hide Quoted, SaidAll, DecodeBody, SkipWs, Blank;
    if !keyed {
      key := NoKey;
    } else {
      hide ReadKey;
      var from := SkipWs(text, a);
      KeyParts(text, a);
      var marks := ReadIsQuoted(text, from);
      var to := DecodeBody(text, from + 1).value.1;
      SkippedIsBlank(text, a);
      SkippedIsBlank(text, to);
      key := Key.Key(from, to, marks, SkipWs(text, to));
    }
  }

  lemma MemberStands(scan: Scan, text: string, a: nat, keyed: bool, m: Member)
    requires KeyAt(text, a, m.key, keyed) && ValueAt(scan, text, AfterKey(a, m.key), m.value)
    requires Blank(text, m.value.to, m.end)
    ensures MemberAt(scan, text, a, keyed, m)
    ensures MeantItem(m) == Item(if m.key.NoKey? then "" else SaidAll(m.key.marks), Meaning(m.value))
  {
  }

  lemma LastMember(scan: Scan, text: string, a: nat, keyed: bool, m: Member, depth: nat)
    requires MemberAt(scan, text, a, keyed, m) && depth + 1 + Depth(Meaning(m.value)) <= MAX_DEPTH
    ensures MembersAt(scan, text, a, m.end, keyed, [m]) && Meanings([m]) == [MeantItem(m)]
    ensures depth + DepthItems([MeantItem(m)]) <= MAX_DEPTH
  {
    hide MemberAt, Depth;
    assert [m][1..] == [];
    assert Meanings([]) == [];
  }

  lemma MembersJoin(scan: Scan, text: string, a: nat, b: nat, keyed: bool, m: Member, rest: seq<Member>, depth: nat)
    requires MemberAt(scan, text, a, keyed, m) && depth + 1 + Depth(Meaning(m.value)) <= MAX_DEPTH
    requires m.end < |text| && text[m.end] == ','
    requires rest != [] && MembersAt(scan, text, m.end + 1, b, keyed, rest)
             && depth + DepthItems(Meanings(rest)) <= MAX_DEPTH
    ensures MembersAt(scan, text, a, b, keyed, [m] + rest) && Meanings([m] + rest) == [MeantItem(m)] + Meanings(rest)
    ensures depth + DepthItems([MeantItem(m)] + Meanings(rest)) <= MAX_DEPTH
  {
    hide MemberAt, Depth;
    assert ([m] + rest)[0] == m && ([m] + rest)[1..] == rest;
    assert ([MeantItem(m)] + Meanings(rest))[1..] == Meanings(rest);
  }

  lemma {:induction false} ReadIsMembers(scan: Scan, text: string, a: nat, depth: nat, keyed: bool)
      returns (members: seq<Member>)
    requires a <= |text| && ReadItems(scan, text, a, depth, keyed).Some?
    ensures var r := ReadItems(scan, text, a, depth, keyed).value; var b := r.1 - 1;
            && members != [] && a <= b < |text| && MembersAt(scan, text, a, b, keyed, members)
            && text[b] == Closer(keyed) && Meanings(members) == r.0
            && depth + DepthItems(r.0) <= MAX_DEPTH
    decreases |text| - a, 1
  {
    hide *;
    ItemParts(scan, text, a, depth, keyed);
    var key := ReadIsKey(text, a, keyed);
    var at := ReadKey(text, a, keyed).value.1;
    var value := ReadIsTree(scan, text, at, depth + 1);
    var end := SkipWs(text, value.to);
    var m := Member(key, value, end);
    SkippedIsBlank(text, value.to);
    MemberStands(scan, text, a, keyed, m);
    ItemsStep(scan, text, a, depth, keyed, MeantItem(m), at, value.to, end);
    if text[end] == ',' {
      var rest := ReadIsMembers(scan, text, end + 1, depth, keyed);
      members := [m] + rest;
      MembersJoin(scan, text, a, ReadItems(scan, text, end + 1, depth, keyed).value.1 - 1, keyed, m, rest, depth);
    } else {
      members := [m];
      LastMember(scan, text, a, keyed, m, depth);
    }
  }

  // --- Whole documents ---

  /** The text says `v`: it is the spelling of a document that means it. */
  ghost predicate Says(scan: Scan, text: string, v: Json) {
    exists t :: DocumentAt(scan, text, t) && Meaning(t) == v
  }

  /** A text is read as a value iff it says that value and the value is nested at most 32 deep. */
  lemma ReadsIffSays(scan: Scan, text: string, v: Json)
    ensures ReadDocument(scan, text) == Some(v) <==> Says(scan, text, v) && Depth(v) <= MAX_DEPTH
  {
    hide ReadValue, ValueAt, Meaning, Depth, Blank, SkipWs;
    if ReadDocument(scan, text) == Some(v) {
      var t := ReadIsTree(scan, text, 0, 0);
      SkippedIsBlank(text, t.to);
      assert DocumentAt(scan, text, t);
    }
    if Says(scan, text, v) && Depth(v) <= MAX_DEPTH {
      var t :| DocumentAt(scan, text, t) && Meaning(t) == v;
      ValueIsRead(scan, text, 0, t, 0);
      BlankIsSkipped(text, t.to, |text|);
    }
  }
}
