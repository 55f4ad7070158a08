// Reading back what the writer wrote: each emitter has its parser, and the file is readable
// exactly when nothing written between quotes holds a control character.
module TomlRoundTrip {
  import opened Common
  import opened Joining
  import opened Toml

  // ---- Strings ----

  function EscapeChar(c: char): string {
    if c == '\\' then "\\\\" else if c == '"' then "\\\"" else [c]
  }

  lemma {:induction false} ReplaceAllAppend(s: string, t: string, c: char, sub: string)
    ensures ReplaceAll(s + t, c, sub) == ReplaceAll(s, c, sub) + ReplaceAll(t, c, sub)
  {
    if |s| == 0 {
      assert s + t == t;
    } else {
      ReplaceAllAppend(s[1..], t, c, sub);
      Assoc([s[0]], s[1..], t);
      assert s == [s[0]] + s[1..];
      Uncons(s[0], s[1..] + t);
      Assoc(if s[0] == c then sub else [s[0]], ReplaceAll(s[1..], c, sub), ReplaceAll(t, c, sub));
    }
  }

  // The two replacements one after the other escape character by character: the second does
  // not touch what the first put in.
  lemma EscapeStrCons(s: string)
    requires |s| > 0
    ensures EscapeStr(s) == EscapeChar(s[0]) + EscapeStr(s[1..])
  {
    var head := if s[0] == '\\' then "\\\\" else [s[0]];
    assert ReplaceAll(s, '\\', "\\\\") == head + ReplaceAll(s[1..], '\\', "\\\\");
    ReplaceAllAppend(head, ReplaceAll(s[1..], '\\', "\\\\"), '"', "\\\"");
    EscapeHead(s[0]);
  }

  lemma EscapeHead(c: char)
    ensures ReplaceAll(if c == '\\' then "\\\\" else [c], '"', "\\\"") == EscapeChar(c)
  {
    assert ReplaceAll("", '"', "\\\"") == "";
    if c == '\\' {
      assert "\\\\"[1..] == "\\" && "\\"[1..] == "";
      assert ReplaceAll("\\", '"', "\\\"") == "\\" + "";
    } else {
      assert [c][1..] == "";
    }
  }

  lemma ParseClose(rest: string)
    ensures ParseStr("\"" + rest) == Got("", rest)
  {
    Uncons('"', rest);
    assert !Control('"');
  }

  // A string without control characters comes back; one with any makes the file unreadable.
  lemma {:induction false} ParseEscaped(s: string, rest: string)
    ensures ParseStr(EscapeStr(s) + ("\"" + rest)) == if Clean(s) then Got(s, rest) else Bad
  {
    var close := "\"" + rest;
    if |s| == 0 {
      ParseClose(rest);
      assert EscapeStr(s) + close == close;
      assert s == "";
    } else {
      EscapeStrCons(s);
      ParseEscaped(s[1..], rest);
      CleanCons(s);
      Assoc(EscapeChar(s[0]), EscapeStr(s[1..]), close);
      ParseOneChar(s[0], EscapeStr(s[1..]) + close);
      assert s == [s[0]] + s[1..];
    }
  }

  lemma ParseOneChar(c: char, tail: string)
    ensures ParseStr(EscapeChar(c) + tail)
         == if Control(c) || ParseStr(tail).Bad? then Bad else Got([c] + ParseStr(tail).value, ParseStr(tail).rest)
  {
    Cut(EscapeChar(c), tail);
    assert |EscapeChar(c)| == 2 ==> (EscapeChar(c) + tail)[1] == c;
  }

  lemma CleanCons(s: string)
    requires |s| > 0
    ensures Clean(s) <==> !Control(s[0]) && Clean(s[1..])
  {
    if !Control(s[0]) && Clean(s[1..]) {
      forall i | 0 <= i < |s| ensures !Control(s[i]) {
        if i > 0 { assert s[i] == s[1..][i - 1]; }
      }
    }
  }

  lemma ParseQuoted(s: string, rest: string)
    requires |rest| > 0 && rest[0] != '"'
    ensures ParseScalar(Quoted(s) + rest) == if Clean(s) then Got(SStr(s), rest) else Bad
  {
    ParseEscaped(s, rest);
    Assoc(EscapeStr(s), "\"", rest);
    Assoc("\"", EscapeStr(s) + "\"", rest);
    var body := EscapeStr(s) + ("\"" + rest);
    assert Quoted(s) + rest == "\"" + body;
    Uncons('"', body);
    if |s| == 0 {
      assert body[1] == rest[0];
    } else {
      EscapeStrCons(s);
      assert body[0] == EscapeChar(s[0])[0] != '"';
    }
  }

  // ---- Integers ----

  lemma ParseOneDigit(d: nat, rest: string, soFar: nat)
    requires d < 10
    ensures ParseDigits([Digit(d)] + rest, soFar) == ParseDigits(rest, 10 * soFar + d)
  {
    assert ([Digit(d)] + rest)[1..] == rest;
  }

  lemma {:induction false} ParseDigitsDecimal(n: nat, rest: string)
    ensures ParseDigits(Decimal(n) + rest, 0) == ParseDigits(rest, n)
  {
    if n < 10 {
      ParseOneDigit(n, rest, 0);
    } else {
      var q, d := n / 10, n % 10;
      var last := [Digit(d)] + rest;
      assert Decimal(n) + rest == Decimal(q) + last;
      ParseDigitsDecimal(q, last);
      ParseOneDigit(d, rest, q);
    }
  }

  lemma {:induction false} DecimalHead(n: nat)
    ensures IsDigit(Decimal(n)[0])
    ensures n == 0 <==> Decimal(n)[0] == '0'
  {
    if n >= 10 {
      DecimalHead(n / 10);
    }
  }

  lemma ParseNatDecimal(n: nat, rest: string)
    requires |rest| > 0 && !IsDigit(rest[0])
    ensures ParseNat(Decimal(n) + rest) == Got(n, rest)
  {
    DecimalHead(n);
    ParseDigitsDecimal(n, rest);
    Cut(Decimal(n), rest);
    if n == 0 {
      assert Decimal(0) == [Digit(0)];
    }
  }

  lemma ParseIntText(n: int, rest: string)
    requires |rest| > 0 && !IsDigit(rest[0])
    ensures ParseInt(IntText(n) + rest) == Got(n, rest)
    ensures IntText(n)[0] == '-' || IsDigit(IntText(n)[0])
  {
    var size: nat := if n < 0 then -n else n;
    ParseNatDecimal(size, rest);
    DecimalHead(size);
    if n < 0 {
      Assoc("-", Decimal(size), rest);
      Uncons('-', Decimal(size) + rest);
    } else {
      Cut(Decimal(size), rest);
    }
  }

  // ---- Values ----

  lemma EmitItemsText(items: seq<Scalar>, rest: string)
    requires |items| > 0
    ensures EmitItems(items) + ("]" + rest) == Quoted(TextOf(items[0])) +
              (if |items| == 1 then "]" + rest else ", " + (EmitItems(items[1..]) + ("]" + rest)))
    ensures (EmitItems(items) + ("]" + rest))[0] == '"'
  {
    if |items| > 1 {
      Assoc(Quoted(TextOf(items[0])), ", " + EmitItems(items[1..]), "]" + rest);
      Assoc(", ", EmitItems(items[1..]), "]" + rest);
    }
  }

  lemma {:induction false} ParseEmittedItems(items: seq<Scalar>, rest: string)
    ensures ParseItems(EmitItems(items) + ("]" + rest))
         == if CleanItems(items) then Got(Texts(items), rest) else Bad
  {
    if |items| == 0 {
      assert EmitItems(items) + ("]" + rest) == "]" + rest;
      Uncons(']', rest);
    } else {
      EmitItemsText(items, rest);
      if |items| == 1 {
        ParseLastItem(TextOf(items[0]), rest);
        assert Texts(items) == [SStr(TextOf(items[0]))];
      } else {
        ParseEmittedItems(items[1..], rest);
        EmitItemsText(items[1..], rest);
        ParseItemBefore(TextOf(items[0]), EmitItems(items[1..]) + ("]" + rest));
      }
    }
  }

  lemma ParseLastItem(text: string, rest: string)
    ensures ParseItems(Quoted(text) + ("]" + rest)) == if Clean(text) then Got([SStr(text)], rest) else Bad
  {
    ParseQuoted(text, "]" + rest);
    Cut(Quoted(text), "]" + rest);
    Uncons(']', rest);
  }

  lemma {:induction false} SkipAfterComma(tail: string)
    requires |tail| > 0 && tail[0] == '"'
    ensures SkipSpace(", " + tail) == ", " + tail && SkipSpace((", " + tail)[1..]) == tail
  {
    Assoc(",", " ", tail);
    assert ", " == "," + " ";
    Uncons(',', " " + tail);
    Uncons(' ', tail);
    assert SkipSpace(tail) == tail;
  }

  lemma {:induction false} ParseItemBefore(text: string, tail: string)
    requires |tail| > 0 && tail[0] == '"'
    ensures ParseItems(Quoted(text) + (", " + tail))
         == if Clean(text) && ParseItems(tail).Got? then Got([SStr(text)] + ParseItems(tail).value, ParseItems(tail).rest) else Bad
  {
    var after := ", " + tail;
    ParseQuoted(text, after);
    SkipAfterComma(tail);
    Cut(Quoted(text), after);
  }

  lemma ParseEmittedBool(b: bool, end: string)
    ensures ParseValue(EmitValue(One(SBool(b))) + end) == Got(One(SBool(b)), end)
  {
    Cut(if b then "true" else "false", end);
    if !b { assert !("true" <= "false" + end) by { assert ("false" + end)[0] == 'f'; } }
  }

  lemma ParseEmittedInt(n: int, end: string)
    requires |end| > 0 && !IsDigit(end[0])
    ensures ParseValue(IntText(n) + end) == Got(One(SInt(n)), end)
  {
    ParseIntText(n, end);
    Cut(IntText(n), end);
  }

  lemma ParseEmittedList(items: seq<Scalar>, end: string)
    ensures ParseValue(EmitValue(Many(items)) + end) == if CleanItems(items) then Got(Coerced(Many(items)), end) else Bad
  {
    ParseEmittedItems(items, end);
    var inner := EmitItems(items) + ("]" + end);
    Assoc(EmitItems(items), "]", end);
    Assoc("[", EmitItems(items) + "]", end);
    Uncons('[', inner);
    if |items| > 0 { EmitItemsText(items, end); } else { assert inner == "]" + end; }
  }

  // A value comes back coerced, or makes the file unreadable if it is not clean.
  lemma ParseEmittedValue(v: Value, rest: string)
    ensures ParseValue(EmitValue(v) + ("\n" + rest)) == if CleanValue(v) then Got(Coerced(v), "\n" + rest) else Bad
    ensures |EmitValue(v)| > 0 && EmitValue(v)[0] != ' ' && EmitValue(v)[0] != '\t'
  {
    var end := "\n" + rest;
    match v
    case One(SBool(b)) => ParseEmittedBool(b, end);
    case One(SStr(s)) => ParseQuoted(s, end);
    case One(SInt(n)) => ParseEmittedInt(n, end); ParseIntText(n, end);
    case Many(items) => ParseEmittedList(items, end);
  }

  // ---- Lines ----

  lemma {:induction false} ParseBareKey(k: string, rest: string)
    requires BareKey(k) && |rest| > 0 && !Bare(rest[0])
    ensures ParseKey(k + rest) == Got(k, rest)
  {
    var tail := k[1..];
    assert k == [k[0]] + tail;
    Assoc([k[0]], tail, rest);
    Uncons(k[0], tail + rest);
    if |k| > 1 {
      forall i | 0 <= i < |tail| ensures Bare(tail[i]) { assert tail[i] == k[i + 1]; }
      ParseBareKey(tail, rest);
    } else {
      assert tail + rest == rest;
    }
  }

  lemma EmptyLineEnd(rest: string)
    ensures ParseLineEnd("\n" + rest) == Got((), rest)
  {
    Uncons('\n', rest);
  }

  lemma ParseEmittedPair(k: string, v: Value, rest: string)
    requires BareKey(k)
    ensures ParsePair(EmitKv(k, v) + ("\n" + rest)) == if CleanValue(v) then Got(Pair(k, Coerced(v)), rest) else Bad
  {
    var value := EmitValue(v) + ("\n" + rest);
    EmittedPairText(k, v, rest);
    ParseBareKey(k, " = " + value);
    ParseEmittedValue(v, rest);
    Cut(EmitValue(v), "\n" + rest);
    EmptyLineEnd(rest);
    SkipToValue(value);
  }

  lemma EmittedPairText(k: string, v: Value, rest: string)
    ensures EmitKv(k, v) + ("\n" + rest) == k + (" = " + (EmitValue(v) + ("\n" + rest)))
  {
    Assoc(k, " = " + EmitValue(v), "\n" + rest);
    Assoc(" = ", EmitValue(v), "\n" + rest);
  }

  lemma SkipToValue(value: string)
    requires |value| > 0 && value[0] != ' ' && value[0] != '\t'
    ensures (" = " + value)[0] == ' '
    ensures SkipBlanks(" = " + value) == "= " + value
    ensures ("= " + value)[0] == '=' && SkipBlanks(("= " + value)[1..]) == value
  {
    assert " = " == " " + "= " && "= " == "=" + " ";
    Assoc(" ", "= ", value);
    Assoc("=", " ", value);
    Uncons(' ', "= " + value);
    Uncons('=', " " + value);
    Uncons(' ', value);
  }

  // One written line adds its key to the current table, coerced, or makes the rest unreadable.
  lemma ParseEmittedLine(k: string, v: Value, rest: string, doc: Document, current: string)
    requires BareKey(k) && current in doc && k !in doc[current]
    ensures ParseLines(EmitKv(k, v) + ("\n" + rest), doc, current)
         == if CleanValue(v) then ParseLines(rest, doc[current := doc[current][k := Coerced(v)]], current) else None
  {
    ParseEmittedPair(k, v, rest);
    EmittedPairText(k, v, rest);
    Cut(k, " = " + (EmitValue(v) + ("\n" + rest)));
    assert Bare(k[0]);
  }

  lemma {:induction false} ParseCommentText(c: string, rest: string)
    requires Clean(c)
    ensures ParseComment(c + ("\n" + rest)) == Got((), rest)
  {
    if |c| == 0 {
      assert c + ("\n" + rest) == "\n" + rest;
      Uncons('\n', rest);
    } else {
      CleanCons(c);
      assert c == [c[0]] + c[1..];
      Assoc([c[0]], c[1..], "\n" + rest);
      Uncons(c[0], c[1..] + ("\n" + rest));
      if c[0] != '\n' { ParseCommentText(c[1..], rest); }
    }
  }

  lemma ParseCommentLine(c: string, rest: string, doc: Document, current: string)
    requires Clean(c) && current in doc
    ensures ParseLines("#" + (c + ("\n" + rest)), doc, current) == ParseLines(rest, doc, current)
  {
    ParseCommentText(c, rest);
    Uncons('#', c + ("\n" + rest));
  }

  lemma ParseHeaderText(name: string, rest: string)
    requires BareKey(name)
    ensures ParseHeader(name + ("]" + ("\n" + rest))) == Got(name, rest)
  {
    var tail := "]" + ("\n" + rest);
    Cut(name, tail);
    assert Bare(name[0]);
    ParseBareKey(name, tail);
    hide ParseKey;
    Uncons(']', "\n" + rest);
    EmptyLineEnd(rest);
  }

  lemma ParseHeaderLine(name: string, rest: string, doc: Document, current: string)
    requires BareKey(name) && current in doc && name !in doc && (ROOT in doc ==> name !in doc[ROOT])
    ensures ParseLines("[" + (name + ("]" + ("\n" + rest))), doc, current) == ParseLines(rest, doc[name := map[]], name)
  {
    ParseHeaderText(name, rest);
    hide ParseHeader;
    Uncons('[', name + ("]" + ("\n" + rest)));
  }
}
