// The TOML the server writes for the homeserver, and a reader for the part of TOML v1.0.0
// it needs: comments, tables with bare keys, booleans, decimal integers, basic strings, and
// arrays of these. Anything else is an error to this reader.
module Toml {
  import opened Common

  datatype Scalar = SBool(b: bool) | SInt(n: int) | SStr(s: string)
  datatype Value = One(v: Scalar) | Many(items: seq<Scalar>)
  type Table = map<string, Value>

  predicate Bare(c: char) {
    'a' <= c <= 'z' || 'A' <= c <= 'Z' || '0' <= c <= '9' || c == '_' || c == '-'
  }

  predicate BareKey(k: string) {
    |k| > 0 && forall i :: 0 <= i < |k| ==> Bare(k[i])
  }

  // Control characters a basic string or a comment may not hold; the tab is allowed.
  predicate Control(c: char) {
    (c < ' ' && c != '\t') || c == '\U{7F}'
  }

  predicate Clean(s: string) {
    forall i :: 0 <= i < |s| ==> !Control(s[i])
  }

  // ---- Decimal integers ----

  function Digit(d: nat): char
    requires d < 10
  {
    '0' + d as char
  }

  predicate IsDigit(c: char) {
    '0' <= c <= '9'
  }

  function DigitValue(c: char): nat
    requires IsDigit(c)
  {
    (c - '0') as nat
  }

  function Decimal(n: nat): (s: string)
    ensures |s| > 0
  {
    if n < 10 then [Digit(n)] else Decimal(n / 10) + [Digit(n % 10)]
  }

  function IntText(n: int): string {
    if n < 0 then "-" + Decimal(-n) else Decimal(n)
  }

  // ---- Emission ----

  function ReplaceAll(s: string, c: char, sub: string): string {
    if |s| == 0 then "" else (if s[0] == c then sub else [s[0]]) + ReplaceAll(s[1..], c, sub)
  }

  function EscapeStr(s: string): string {
    ReplaceAll(ReplaceAll(s, '\\', "\\\\"), '"', "\\\"")
  }

  function Quoted(s: string): string {
    "\"" + (EscapeStr(s) + "\"")
  }

  // How a list item is turned into a string before it is written.
  function TextOf(v: Scalar): string {
    match v
    case SBool(b) => if b then "True" else "False"
    case SInt(n) => IntText(n)
    case SStr(s) => s
  }

  function EmitItems(items: seq<Scalar>): string {
    if |items| == 0 then ""
    else if |items| == 1 then Quoted(TextOf(items[0]))
    else Quoted(TextOf(items[0])) + (", " + EmitItems(items[1..]))
  }

  function EmitValue(v: Value): string {
    match v
    case One(SBool(b)) => if b then "true" else "false"
    case One(SStr(s)) => Quoted(s)
    case Many(items) => "[" + (EmitItems(items) + "]")
    case One(SInt(n)) => IntText(n)
  }

  function EmitKv(key: string, v: Value): string {
    key + (" = " + EmitValue(v))
  }

  function Texts(items: seq<Scalar>): seq<Scalar> {
    if |items| == 0 then [] else [SStr(TextOf(items[0]))] + Texts(items[1..])
  }

  // What a written value is read back as: list items have become strings.
  function Coerced(v: Value): Value {
    match v
    case One(_) => v
    case Many(items) => Many(Texts(items))
  }

  predicate CleanItems(items: seq<Scalar>) {
    |items| == 0 || (Clean(TextOf(items[0])) && CleanItems(items[1..]))
  }

  // Every string the writer puts between quotes can stand there.
  predicate CleanValue(v: Value) {
    match v
    case One(SStr(s)) => Clean(s)
    case One(_) => true
    case Many(items) => CleanItems(items)
  }

  // ---- Reading: each parser returns what is left of the text ----

  datatype Parsed<T> = Got(value: T, rest: string) | Bad

  function SkipBlanks(s: string): (rest: string)
    ensures |rest| <= |s|
  {
    if |s| > 0 && (s[0] == ' ' || s[0] == '\t') then SkipBlanks(s[1..]) else s
  }

  function SkipSpace(s: string): (rest: string)
    ensures |rest| <= |s|
  {
    if |s| > 0 && (s[0] == ' ' || s[0] == '\t' || s[0] == '\n') then SkipSpace(s[1..]) else s
  }

  function ParseKey(s: string): (r: Parsed<string>)
    ensures r.Got? ==> |r.rest| < |s| && |r.value| > 0
  {
    if |s| == 0 || !Bare(s[0]) then Bad
    else
      match ParseKey(s[1..])
      case Got(k, rest) => Got([s[0]] + k, rest)
      case Bad => Got([s[0]], s[1..])
  }

  // After a backslash.
  function Unescaped(c: char): Option<char> {
    match c
    case 'b' => Some('\U{8}')
    case 't' => Some('\t')
    case 'n' => Some('\n')
    case 'f' => Some('\U{C}')
    case 'r' => Some('\r')
    case '"' => Some('"')
    case '\\' => Some('\\')
    case _ => None
  }

  // The rest of a basic string after its opening quote.
  function ParseStr(s: string): (r: Parsed<string>)
    ensures r.Got? ==> |r.rest| < |s|
  {
    if |s| == 0 || Control(s[0]) then Bad
    else if s[0] == '"' then Got("", s[1..])
    else if s[0] == '\\' then
      if |s| < 2 || Unescaped(s[1]).None? then Bad
      else
        match ParseStr(s[2..])
        case Got(t, rest) => Got([Unescaped(s[1]).value] + t, rest)
        case Bad => Bad
    else
      match ParseStr(s[1..])
      case Got(t, rest) => Got([s[0]] + t, rest)
      case Bad => Bad
  }

  function ParseDigits(s: string, soFar: nat): (r: Parsed<nat>)
    ensures r.Got? && |r.rest| <= |s|
  {
    if |s| > 0 && IsDigit(s[0]) then ParseDigits(s[1..], 10 * soFar + DigitValue(s[0])) else Got(soFar, s)
  }

  function ParseNat(s: string): (r: Parsed<nat>)
    ensures r.Got? ==> |r.rest| < |s|
  {
    if |s| == 0 || !IsDigit(s[0]) then Bad
    else if s[0] == '0' then (if |s| > 1 && IsDigit(s[1]) then Bad else Got(0, s[1..]))
    else ParseDigits(s[1..], DigitValue(s[0]))
  }

  function ParseInt(s: string): (r: Parsed<int>)
    ensures r.Got? ==> |r.rest| < |s|
  {
    if |s| > 0 && (s[0] == '-' || s[0] == '+') then
      match ParseNat(s[1..])
      case Got(n, rest) =>
        var m: int := n;
        Got(if s[0] == '-' then -m else m, rest)
      case Bad => Bad
    else
      match ParseNat(s)
      case Got(n, rest) => Got(n, rest)
      case Bad => Bad
  }

  // Three quotes would open a multi-line string, which this reader does not know.
  function ParseScalar(s: string): (r: Parsed<Scalar>)
    ensures r.Got? ==> |r.rest| < |s|
  {
    if |s| > 0 && s[0] == '"' then
      if "\"\"\"" <= s then Bad
      else
        match ParseStr(s[1..])
        case Got(t, rest) => Got(SStr(t), rest)
        case Bad => Bad
    else if "true" <= s then Got(SBool(true), s[4..])
    else if "false" <= s then Got(SBool(false), s[5..])
    else
      match ParseInt(s)
      case Got(n, rest) => Got(SInt(n), rest)
      case Bad => Bad
  }

  // The rest of an array after its opening bracket or a comma.
  function ParseItems(s: string): (r: Parsed<seq<Scalar>>)
    ensures r.Got? ==> |r.rest| < |s|
    decreases |s|
  {
    if |s| > 0 && s[0] == ']' then Got([], s[1..])
    else
      match ParseScalar(s)
      case Bad => Bad
      case Got(v, rest) =>
        var after := SkipSpace(rest);
        if |after| > 0 && after[0] == ']' then Got([v], after[1..])
        else if |after| > 0 && after[0] == ',' then
          match ParseItems(SkipSpace(after[1..]))
          case Got(vs, last) => Got([v] + vs, last)
          case Bad => Bad
        else Bad
  }

  function ParseValue(s: string): (r: Parsed<Value>)
    ensures r.Got? ==> |r.rest| < |s|
  {
    if |s| > 0 && s[0] == '[' then
      match ParseItems(SkipSpace(s[1..]))
      case Got(items, rest) => Got(Many(items), rest)
      case Bad => Bad
    else
      match ParseScalar(s)
      case Got(v, rest) => Got(One(v), rest)
      case Bad => Bad
  }

  function ParseComment(s: string): (r: Parsed<()>)
    ensures r.Got? ==> |r.rest| <= |s|
  {
    if |s| == 0 then Got((), s)
    else if s[0] == '\n' then Got((), s[1..])
    else if Control(s[0]) then Bad
    else ParseComment(s[1..])
  }

  // Nothing but blanks and a comment may follow on the line.
  function ParseLineEnd(s: string): (r: Parsed<()>)
    ensures r.Got? ==> |r.rest| <= |s|
  {
    var t := SkipBlanks(s);
    if |t| == 0 then Got((), t)
    else if t[0] == '\n' then Got((), t[1..])
    else if t[0] == '#' then ParseComment(t[1..])
    else Bad
  }

  datatype Pair = Pair(key: string, value: Value)

  function ParsePair(s: string): (r: Parsed<Pair>)
    ensures r.Got? ==> |r.rest| < |s|
  {
    match ParseKey(s)
    case Bad => Bad
    case Got(k, afterKey) =>
      var eq := SkipBlanks(afterKey);
      if |eq| == 0 || eq[0] != '=' then Bad
      else
        match ParseValue(SkipBlanks(eq[1..]))
        case Bad => Bad
        case Got(v, afterValue) =>
          match ParseLineEnd(afterValue)
          case Bad => Bad
          case Got(_, rest) => Got(Pair(k, v), rest)
  }

  // The rest of a table header after its bracket.
  function ParseHeader(s: string): (r: Parsed<string>)
    ensures r.Got? ==> |r.rest| < |s|
  {
    match ParseKey(SkipBlanks(s))
    case Bad => Bad
    case Got(name, afterName) =>
      var close := SkipBlanks(afterName);
      if |close| == 0 || close[0] != ']' then Bad
      else
        match ParseLineEnd(close[1..])
        case Bad => Bad
        case Got(_, rest) => Got(name, rest)
  }

  type Document = map<string, Table>

  const ROOT := ""

  // Reads the lines of s into the tables read so far; neither a table nor a key may come twice.
  function ParseLines(s: string, doc: Document, current: string): Option<Document>
    requires current in doc
    decreases |s|
  {
    var t := SkipBlanks(s);
    if |t| == 0 then Some(doc)
    else if t[0] == '\n' then ParseLines(t[1..], doc, current)
    else if t[0] == '#' then
      match ParseComment(t[1..])
      case Bad => None
      case Got(_, rest) => ParseLines(rest, doc, current)
    else if t[0] == '[' then
      match ParseHeader(t[1..])
      case Bad => None
      case Got(name, rest) =>
        if name in doc || (ROOT in doc && name in doc[ROOT]) then None else ParseLines(rest, doc[name := map[]], name)
    else
      match ParsePair(t)
      case Bad => None
      case Got(pair, rest) =>
        if pair.key in doc[current] then None
        else ParseLines(rest, doc[current := doc[current][pair.key := pair.value]], current)
  }

  function ParseToml(text: string): Option<Document> {
    ParseLines(text, map[ROOT := map[]], ROOT)
  }
}
