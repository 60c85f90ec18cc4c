/** JSON values, their compact rendering, and the grammar the parser accepts, stated as functions
    on positions of a NUL-free text. */
module JsonText {
  import opened Options

  const MAX_DEPTH: nat := 32

  /** A JSON value. Elements of an array are members without a key; a number is the token it is
      written as. */
  datatype Json =
    | Null
    | Bool(b: bool)
    | Number(token: string)
    | Str(s: string)
    | Array(items: seq<Item>)
    | Object(items: seq<Item>)

  datatype Item = Item(key: string, value: Json)

  // --- Rendering ---

  /** The two-character escape of a character that has one. */
  function Escaped(c: char): string {
    if c == '"' then "\\\"" else if c == '\\' then "\\\\"
    else if c == '\n' then "\\n" else if c == '\r' then "\\r" else if c == '\t' then "\\t"
    else if c == 8 as char then "\\b" else if c == 12 as char then "\\f"
    else [c]
  }

  function RenderChars(s: string): string {
    if s == "" then "" else Escaped(s[0]) + RenderChars(s[1..])
  }

  function RenderString(s: string): string {
    "\"" + RenderChars(s) + "\""
  }

  function Render(v: Json): string
    decreases v, 0
  {
    match v
    case Null => "null"
    case Bool(b) => if b then "true" else "false"
    case Number(token) => token
    case Str(s) => RenderString(s)
    case Array(items) => "[" + RenderItems(items, false) + "]"
    case Object(items) => "{" + RenderItems(items, true) + "}"
  }

  /** Siblings with commas exactly between them. */
  function RenderItems(items: seq<Item>, keyed: bool): string
    decreases items, 1
  {
    if items == [] then ""
    else
      RenderItem(items[0], keyed) + (if |items| > 1 then "," + RenderItems(items[1..], keyed) else "")
  }

  function RenderItem(item: Item, keyed: bool): string
    decreases item, 0
  {
    (if keyed then RenderString(item.key) + ":" else "") + Render(item.value)
  }

  // --- Measures ---

  /** Nesting of the deepest value. */
  function Depth(v: Json): nat
    decreases v, 0
  {
    if v.Array? || v.Object? then DepthItems(v.items) else 0
  }

  function DepthItems(items: seq<Item>): nat
    decreases items, 1
  {
    if items == [] then 0
    else
      var d, r := 1 + Depth(items[0].value), DepthItems(items[1..]);
      if d > r then d else r
  }

  /** Pool nodes a value takes: one for itself, and one wrapper before each item. */
  function Count(v: Json): nat
    decreases v, 0
  {
    1 + if v.Array? || v.Object? then CountItems(v.items) else 0
  }

  function CountItems(items: seq<Item>): nat
    decreases items, 1
  {
    if items == [] then 0 else 1 + Count(items[0].value) + CountItems(items[1..])
  }

  // --- Reading ---

  function At(text: string, p: nat): char {
    if p < |text| then text[p] else '\0'
  }

  predicate IsSpace(c: char) {
    c == ' ' || c == '\t' || c == '\n' || c == '\r'
  }

  function SkipWs(text: string, p: nat): (q: nat)
    requires p <= |text|
    ensures p <= q <= |text| && (q < |text| ==> !IsSpace(text[q]))
    decreases |text| - p
  {
    if p < |text| && IsSpace(text[p]) then SkipWs(text, p + 1) else p
  }

  predicate StartsAt(text: string, p: nat, s: string) {
    p + |s| <= |text| && text[p..p + |s|] == s
  }

  function HexDigit(c: char): (r: Option<nat>)
    ensures r.Some? ==> r.value < 16 && c != '\0'
  {
    if '0' <= c <= '9' then Some(c as nat - '0' as nat)
    else if 'a' <= c <= 'f' then Some(c as nat - 'a' as nat + 10)
    else if 'A' <= c <= 'F' then Some(c as nat - 'A' as nat + 10)
    else None
  }

  /** The number `n` hexadecimal digits spell. */
  function HexRun(text: string, p: nat, n: nat): (r: Option<nat>)
    requires n <= 4
    ensures r.Some? ==> r.value < [1, 16, 256, 4096, 0x1_0000][n] && (n > 0 ==> p + n <= |text|)
  {
    if n == 0 then Some(0)
    else
      var high, digit := HexRun(text, p, n - 1), HexDigit(At(text, p + n - 1));
      if high.Some? && digit.Some? then Some(high.value * 16 + digit.value) else None
  }

  /** UTF-8 bytes of a code point of the basic plane. */
  function Utf8(cp: nat): (bytes: string)
    requires cp < 0x1_0000
    ensures 1 <= |bytes| <= 3
  {
    if cp < 0x80 then [cp as char]
    else if cp < 0x800 then [(0xC0 + cp / 64) as char, (0x80 + cp % 64) as char]
    else [(0xE0 + cp / 4096) as char, (0x80 + cp / 64 % 64) as char, (0x80 + cp % 64) as char]
  }

  /** What a one-character escape designator stands for. */
  function Unescaped(c: char): Option<char> {
    if c == '"' || c == '\\' || c == '/' then Some(c)
    else if c == 'b' then Some(8 as char) else if c == 'f' then Some(12 as char)
    else if c == 'n' then Some('\n') else if c == 'r' then Some('\r') else if c == 't' then Some('\t')
    else None
  }

  /** The bytes one source character or escape decodes to, and where the next one starts. */
  function DecodeOne(text: string, p: nat): (r: Option<(string, nat)>)
    requires p < |text|
    ensures r.Some? ==> p + |r.value.0| <= r.value.1 <= |text| && r.value.1 > p
  {
    if text[p] != '\\' then Some(([text[p]], p + 1))
    else if At(text, p + 1) == 'u' then
      match HexRun(text, p + 2, 4)
      case None => None
      case Some(cp) => Some((Utf8(cp), p + 6))
    else
      match Unescaped(At(text, p + 1))
      case None => None
      case Some(c) => Some(([c], p + 2))
  }

  /** A string body up to its closing quote. */
  function DecodeBody(text: string, p: nat): (r: Option<(string, nat)>)
    requires p <= |text|
    ensures r.Some? ==> p < r.value.1 <= |text| && |r.value.0| + 1 <= r.value.1 - p
    decreases |text| - p
  {
    if p == |text| then None
    else if text[p] == '"' then Some(("", p + 1))
    else
      match DecodeOne(text, p)
      case None => None
      case Some(one) =>
        match DecodeBody(text, one.1)
        case None => None
        case Some(rest) => Some((one.0 + rest.0, rest.1))
  }

  /** Where the number starting at a position ends; the position itself when there is none. */
  type Scan = (string, nat) -> nat

  function ReadValue(scan: Scan, text: string, p: nat, depth: nat): (r: Option<(Json, nat)>)
    requires p <= |text|
    ensures r.Some? ==> p < r.value.1 <= |text|
    decreases |text| - p, 0
  {
    if depth > MAX_DEPTH then None
    else
      var q := SkipWs(text, p);
      var c := At(text, q);
      if c == '{' || c == '[' then
        var first := SkipWs(text, q + 1);
        if At(text, first) == Closer(c == '{') then Some((Container(c == '{', []), first + 1))
        else
          match ReadItems(scan, text, first, depth, c == '{')
          case None => None
          case Some(r) => Some((Container(c == '{', r.0), r.1))
      else if c == '"' then
        match DecodeBody(text, q + 1)
        case None => None
        case Some(r) => Some((Str(r.0), r.1))
      else if c == 't' then (if StartsAt(text, q, "true") then Some((Bool(true), q + 4)) else None)
      else if c == 'f' then (if StartsAt(text, q, "false") then Some((Bool(false), q + 5)) else None)
      else if c == 'n' then (if StartsAt(text, q, "null") then Some((Null, q + 4)) else None)
      else
        var end := scan(text, q);
        if q < end <= |text| then Some((Number(text[q..end]), end)) else None
  }

  function Closer(keyed: bool): char { if keyed then '}' else ']' }

  function Container(keyed: bool, items: seq<Item>): Json {
    if keyed then Object(items) else Array(items)
  }

  /** A key with its colon, for the members of an object. */
  function ReadKey(text: string, p: nat, keyed: bool): (r: Option<(string, nat)>)
    requires p <= |text|
    ensures r.Some? ==> p <= r.value.1 <= |text|
    ensures r.Some? && keyed ==> p < r.value.1
  {
    if !keyed then Some(("", p))
    else
      var q := SkipWs(text, p);
      if At(text, q) != '"' then None
      else
        match DecodeBody(text, q + 1)
        case None => None
        case Some(k) =>
          var colon := SkipWs(text, k.1);
          if At(text, colon) != ':' then None else Some((k.0, colon + 1))
  }

  /** One or more items up to the closing bracket. */
  function ReadItems(scan: Scan, text: string, p: nat, depth: nat, keyed: bool): (r: Option<(seq<Item>, nat)>)
    requires p <= |text|
    ensures r.Some? ==> p < r.value.1 <= |text| && r.value.0 != []
    decreases |text| - p, 1
  {
    match ReadKey(text, p, keyed)
    case None => None
    case Some(k) =>
      match ReadValue(scan, text, k.1, depth + 1)
      case None => None
      case Some(v) =>
        var sep := SkipWs(text, v.1);
        var item := Item(k.0, v.0);
        if At(text, sep) == ',' then
          match ReadItems(scan, text, sep + 1, depth, keyed)
          case None => None
          case Some(rest) => Some(([item] + rest.0, rest.1))
        else if At(text, sep) == Closer(keyed) then Some(([item], sep + 1))
        else None
  }

  /** A whole document: one value with nothing but white space around it. */
  function ReadDocument(scan: Scan, text: string): Option<Json> {
    match ReadValue(scan, text, 0, 0)
    case None => None
    case Some(r) => if SkipWs(text, r.1) == |text| then Some(r.0) else None
  }
}
