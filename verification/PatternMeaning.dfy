// What the stored patterns accept: a small regular-expression semantics (anchors, literals,
// escaped literals, `.` and the shorthand classes), searched for anywhere in the text as the
// homeserver does. Every other metacharacter makes the pattern mean nothing here.
module PatternMeaning {
  import opened Common
  import opened Hostnames

  datatype Atom = Begin | End | Lit(c: char) | AnyChar | Class(letter: char)

  predicate Meta(c: char) {
    c in "()[]{}?*+|"
  }

  function ParseAtom(c: char): Atom
    requires !Meta(c) && c != '\\'
  {
    if c == '^' then Begin else if c == '$' then End else if c == '.' then AnyChar else Lit(c)
  }

  function Parse(p: string): Option<seq<Atom>> {
    if |p| == 0 then Some([])
    else if Meta(p[0]) then None
    else if p[0] == '\\' then
      if |p| == 1 || (Alnum(p[1]) && p[1] !in "dwsDWS") then None
      else
        match Parse(p[2..])
        case None => None
        case Some(rest) => Some([if Alnum(p[1]) then Class(p[1]) else Lit(p[1])] + rest)
    else
      match Parse(p[1..])
      case None => None
      case Some(rest) => Some([ParseAtom(p[0])] + rest)
  }

  predicate InClass(letter: char, c: char) {
    match letter
    case 'd' => '0' <= c <= '9'
    case 'w' => Alnum(c) || c == '_'
    case 's' => c == ' ' || '\t' <= c <= '\r'
    case 'D' => !('0' <= c <= '9')
    case 'W' => !(Alnum(c) || c == '_')
    case 'S' => !(c == ' ' || '\t' <= c <= '\r')
    case _ => false
  }

  predicate AtomOk(a: Atom, c: char) {
    match a
    case Lit(l) => c == l
    case AnyChar => c != '\n'
    case Class(letter) => InClass(letter, c)
    case _ => false
  }

  predicate MatchFrom(atoms: seq<Atom>, s: string, i: nat)
    requires i <= |s|
    decreases |atoms|
  {
    |atoms| == 0 ||
    match atoms[0]
    case Begin => i == 0 && MatchFrom(atoms[1..], s, i)
    case End => i == |s| && MatchFrom(atoms[1..], s, i)
    case _ => i < |s| && AtomOk(atoms[0], s[i]) && MatchFrom(atoms[1..], s, i + 1)
  }

  ghost predicate Accepts(p: string, s: string) {
    Parse(p).Some? && exists i: nat :: i <= |s| && MatchFrom(Parse(p).value, s, i)
  }

  ghost predicate AcceptsAny(patterns: seq<string>, s: string) {
    exists i :: 0 <= i < |patterns| && Accepts(patterns[i], s)
  }

  // ---- Anchored sequences of one-character atoms ----

  predicate Consuming(atoms: seq<Atom>) {
    forall k :: 0 <= k < |atoms| ==> !atoms[k].Begin? && !atoms[k].End?
  }

  ghost predicate Fits(atoms: seq<Atom>, s: string) {
    |s| == |atoms| && forall k :: 0 <= k < |s| ==> AtomOk(atoms[k], s[k])
  }

  lemma {:induction false} MatchToEnd(atoms: seq<Atom>, s: string, i: nat)
    requires i <= |s| && Consuming(atoms)
    ensures MatchFrom(atoms + [End], s, i) <==> Fits(atoms, s[i..])
    decreases |atoms|
  {
    var all := atoms + [End];
    if |atoms| == 0 {
      assert all[1..] == [];
    } else {
      assert all[1..] == atoms[1..] + [End];
      if i < |s| {
        MatchToEnd(atoms[1..], s, i + 1);
        assert s[i..] == [s[i]] + s[i + 1..];
        if Fits(atoms[1..], s[i + 1..]) && AtomOk(atoms[0], s[i]) {
          forall k | 0 <= k < |s[i..]| ensures AtomOk(atoms[k], s[i..][k]) {
            if k > 0 { assert s[i..][k] == s[i + 1..][k - 1] && atoms[k] == atoms[1..][k - 1]; }
          }
        }
        if Fits(atoms, s[i..]) {
          forall k | 0 <= k < |s[i + 1..]| ensures AtomOk(atoms[1..][k], s[i + 1..][k]) {
            assert s[i..][k + 1] == s[i + 1..][k] && atoms[k + 1] == atoms[1..][k];
          }
        }
      }
    }
  }

  lemma AnchoredAccepts(p: string, atoms: seq<Atom>, s: string)
    requires Consuming(atoms) && Parse(p) == Some([Begin] + atoms + [End])
    ensures Accepts(p, s) <==> Fits(atoms, s)
  {
    var all := [Begin] + atoms + [End];
    assert all[1..] == atoms + [End];
    MatchToEnd(atoms, s, 0);
    assert s[0..] == s;
    assert MatchFrom(all, s, 0) <==> MatchFrom(atoms + [End], s, 0);
  }

  // ---- Patterns made by escaping accept exactly the escaped string ----

  function Lits(s: string): seq<Atom> {
    seq(|s|, i requires 0 <= i < |s| => Lit(s[i]))
  }

  // Escaping reaches every character that would not stand for itself, and no other kind.
  lemma SpecialCharacters(c: char)
    ensures Special(c) ==> !Alnum(c)
    ensures !Special(c) ==> !Meta(c) && c != '\\' && ParseAtom(c) == Lit(c)
  {
  }

  lemma ParseStep(c: char, rest: string)
    ensures !Meta(c) && c != '\\' && Parse(rest).Some? ==> Parse([c] + rest) == Some([ParseAtom(c)] + Parse(rest).value)
    ensures !Alnum(c) && Parse(rest).Some? ==> Parse(['\\', c] + rest) == Some([Lit(c)] + Parse(rest).value)
  {
    assert ([c] + rest)[1..] == rest && (['\\', c] + rest)[2..] == rest;
  }

  lemma {:induction false} ParseEscape(s: string)
    ensures Parse(Escape(s) + "$") == Some(Lits(s) + [End])
  {
    if |s| == 0 {
      assert Escape(s) + "$" == ['$'] + "";
      ParseStep('$', "");
      assert Lits(s) + [End] == [End] + [];
    } else {
      ParseEscape(s[1..]);
      var rest := Escape(s[1..]) + "$";
      assert Lits(s) + [End] == [Lit(s[0])] + (Lits(s[1..]) + [End]);
      assert Escape(s) + "$" == (if Special(s[0]) then ['\\', s[0]] else [s[0]]) + rest;
      SpecialCharacters(s[0]);
      ParseStep(s[0], rest);
    }
  }

  lemma ParseAnchored(inner: string, atoms: seq<Atom>)
    requires Parse(inner + "$") == Some(atoms)
    ensures Parse("^" + inner + "$") == Some([Begin] + atoms)
  {
    assert ("^" + inner + "$")[1..] == inner + "$";
  }

  // Anchoring: whatever the name, its pattern accepts that one string and no other.
  lemma PatternAcceptsOnlyItsName(name: string, s: string)
    ensures Accepts(Pattern(name), s) <==> s == Lower(Strip(name))
  {
    var n := Lower(Strip(name));
    ParseEscape(n);
    ParseAnchored(Escape(n), Lits(n) + [End]);
    assert [Begin] + (Lits(n) + [End]) == [Begin] + Lits(n) + [End];
    AnchoredAccepts(Pattern(name), Lits(n), s);
    if Fits(Lits(n), s) {
      assert forall k :: 0 <= k < |s| ==> AtomOk(Lits(n)[k], s[k]);
      assert s == n;
    }
  }

  lemma AcceptsAnyCons(p: string, rest: seq<string>, s: string)
    ensures AcceptsAny([p] + rest, s) <==> Accepts(p, s) || AcceptsAny(rest, s)
  {
    var all := [p] + rest;
    if Accepts(p, s) { assert Accepts(all[0], s); }
    if AcceptsAny(rest, s) {
      var i :| 0 <= i < |rest| && Accepts(rest[i], s);
      assert all[i + 1] == rest[i];
    }
    if AcceptsAny(all, s) && !Accepts(p, s) {
      var i :| 0 <= i < |all| && Accepts(all[i], s);
      assert all[i] == rest[i - 1];
    }
  }

  // So a list of patterns accepts exactly the set of saved names.
  lemma {:induction false} PatternsAcceptExactlyTheNames(names: seq<string>, s: string)
    requires forall i :: 0 <= i < |names| ==> IsHostname(names[i])
    ensures AcceptsAny(Patterns(names), s) <==> s in names
  {
    if |names| > 0 {
      HostnameIsNormal(names[0]);
      HostnameChars(names[0]);
      PatternsAcceptExactlyTheNames(names[1..], s);
      PatternAcceptsOnlyItsName(names[0], s);
      AcceptsAnyCons(Pattern(names[0]), Patterns(names[1..]), s);
      assert s in names <==> s == names[0] || s in names[1..];
    }
  }

  // ---- When a decoded pattern means what the reader is shown ----

  // No bare dot, and no backslash before a letter or digit.
  predicate FullyEscaped(inner: string) {
    |inner| == 0 ||
    if inner[0] == '\\' then
      |inner| > 1 && !Alnum(inner[1]) && FullyEscaped(inner[2..])
    else
      inner[0] != '.' && FullyEscaped(inner[1..])
  }

  // How one atom may stand for the character it decodes to.
  predicate Stands(a: Atom, c: char) {
    a == Lit(c) || (a.AnyChar? && c == '.') || (a == Class(c) && c in "dws")
  }

  ghost predicate StandFor(atoms: seq<Atom>, s: string) {
    |atoms| == |s| && forall k :: 0 <= k < |s| ==> Stands(atoms[k], s[k])
  }

  lemma StandForCons(a: Atom, atoms: seq<Atom>, c: char, s: string)
    requires Stands(a, c) && StandFor(atoms, s)
    ensures StandFor([a] + atoms, [c] + s)
    ensures ([a] + atoms) + [End] == [a] + (atoms + [End])
    ensures [a] + atoms == Lits([c] + s) <==> a == Lit(c) && atoms == Lits(s)
  {
    var lits := Lits([c] + s);
    assert lits == [Lit(c)] + Lits(s);
    assert lits[0] == Lit(c) && lits[1..] == Lits(s) && ([a] + atoms)[1..] == atoms;
  }

  // One step of the body: its first character, or its first escaped character.
  function StepLength(inner: string): nat
    requires |inner| > 0
    ensures StepLength(inner) > 0
  {
    if inner[0] == '\\' then 2 else 1
  }

  function StepAtom(inner: string): Atom
    requires |inner| > 0 && StepLength(inner) <= |inner|
  {
    if inner[0] == '\\' then (if Alnum(inner[1]) then Class(inner[1]) else Lit(inner[1]))
    else if inner[0] == '.' then AnyChar else Lit(inner[0])
  }

  ghost predicate StepGood(inner: string, rest: string, a: Atom, c: char) {
    && Unescape(inner) == [c] + Unescape(rest)
    && '\n' !in rest
    && (FullyEscaped(inner) <==> a == Lit(c) && FullyEscaped(rest))
    && (Parse(inner + "$").Some? ==>
          && Parse(rest + "$").Some? && Stands(a, c)
          && Parse(inner + "$").value == [a] + Parse(rest + "$").value)
    && (a == Lit(c) && Parse(rest + "$").Some? ==> Parse(inner + "$").Some?)
  }

  lemma HostCharParses(c: char)
    requires HostChar(c)
    ensures !Meta(c) && c != '\\' && ParseAtom(c) == (if c == '.' then AnyChar else Lit(c))
  {
  }

  lemma FirstAndRest(inner: string)
    requires |inner| > 0
    ensures (inner + "$")[0] == inner[0] && (inner + "$")[1..] == inner[1..] + "$"
    ensures |inner| > 1 ==> (inner + "$")[1] == inner[1] && (inner + "$")[2..] == inner[2..] + "$"
  {
  }

  lemma {:induction false} PlainStep(inner: string)
    requires |inner| > 0 && '\n' !in inner && inner[0] != '\\' && HostChar(Unescape(inner)[0])
    ensures StepGood(inner, inner[1..], StepAtom(inner), inner[0])
  {
    var c, tail := inner[0], inner[1..];
    assert Unescape(inner) == [c] + Unescape(tail);
    HostCharParses(c);
    FirstAndRest(inner);
    assert '\n' !in tail;
    assert FullyEscaped(inner) <==> c != '.' && FullyEscaped(tail);
  }

  lemma ParseEscaped(p: string, c: char, rest: string)
    requires |p| > 1 && p[0] == '\\' && p[1] == c && p[2..] == rest && HostChar(c)
    ensures var a := if Alnum(c) then Class(c) else Lit(c);
            && (Parse(p).Some? ==> Parse(rest).Some? && Stands(a, c) && Parse(p).value == [a] + Parse(rest).value)
            && (a == Lit(c) && Parse(rest).Some? ==> Parse(p).Some?)
  {
    if c in "dwsDWS" { LowercaseClass(c); }
  }

  lemma LowercaseClass(c: char)
    requires HostChar(c) && c in "dwsDWS"
    ensures c in "dws"
  {
  }

  lemma {:induction false} EscapedStep(inner: string)
    requires |inner| > 0 && '\n' !in inner && inner[0] == '\\' && HostChar(Unescape(inner)[0])
    ensures |inner| > 1 && StepGood(inner, inner[2..], StepAtom(inner), inner[1])
  {
    if |inner| > 1 { assert inner[1] in inner; }
    assert Unescape(inner) == [inner[1]] + Unescape(inner[2..]);
    assert '\n' !in inner[2..];
    FirstAndRest(inner);
    ParseEscaped(inner + "$", inner[1], inner[2..] + "$");
  }

  lemma InnerStep(inner: string)
    requires |inner| > 0 && '\n' !in inner && |Unescape(inner)| > 0 && HostChar(Unescape(inner)[0])
    ensures StepLength(inner) <= |inner|
    ensures StepGood(inner, inner[StepLength(inner)..], StepAtom(inner), Unescape(inner)[0])
  {
    if inner[0] == '\\' { EscapedStep(inner); } else { PlainStep(inner); }
  }

  // A pattern body that unescapes to host-name characters either has no meaning, or has one
  // atom per character; they are the literals exactly when the body is fully escaped.
  lemma {:induction false} AtomsOfInner(inner: string) returns (atoms: seq<Atom>)
    requires '\n' !in inner
    requires forall k :: 0 <= k < |Unescape(inner)| ==> HostChar(Unescape(inner)[k])
    ensures Parse(inner + "$").Some? ==>
              StandFor(atoms, Unescape(inner)) && Parse(inner + "$") == Some(atoms + [End])
              && (atoms == Lits(Unescape(inner)) <==> FullyEscaped(inner))
    ensures FullyEscaped(inner) ==> Parse(inner + "$").Some?
  {
    if |inner| == 0 {
      atoms := [];
      ParseStep('$', "");
      assert inner + "$" == ['$'] + "" && atoms + [End] == [End] + [];
    } else {
      var decoded := Unescape(inner);
      assert HostChar(decoded[0]);
      InnerStep(inner);
      var rest := inner[StepLength(inner)..];
      assert forall k :: 0 <= k < |Unescape(rest)| ==> Unescape(rest)[k] == decoded[k + 1];
      var tail := AtomsOfInner(rest);
      atoms := [StepAtom(inner)] + tail;
      if Parse(inner + "$").Some? {
        StandForCons(StepAtom(inner), tail, decoded[0], Unescape(rest));
      }
    }
  }

  // A character that tells the atom from the literal it is read as.
  lemma StandInIsNotLiteral(a: Atom, c: char)
    requires Stands(a, c) && a != Lit(c) && HostChar(c)
    ensures !AtomOk(a, c) || (AtomOk(a, 'a') && c != 'a')
  {
  }

  lemma LitsFitOnly(h: string, s: string)
    ensures Fits(Lits(h), s) <==> s == h
  {
    if Fits(Lits(h), s) {
      assert forall k :: 0 <= k < |s| ==> AtomOk(Lits(h)[k], s[k]);
      assert s == h;
    }
  }

  // The exact condition under which a pattern shown as a host name accepts that host name
  // and nothing else. The decoder checks less: it does not look at what was escaped.
  lemma DecodedNameIsFaithfulIff(p: string)
    requires Decode(p) != p
    ensures (forall s :: Accepts(p, s) <==> s == Decode(p)) <==> FullyEscaped(p[1..|p| - 1])
  {
    DecodedParts(p);
    hide Parse, MatchFrom, Accepts, Decode, Unescape, FullyEscaped;
    var inner := p[1..|p| - 1];
    var atoms := AtomsOfInner(inner);
    if Parse(inner + "$").None? {
      ParsesNowhere(p, inner, Decode(p));
    } else {
      AcceptsOnlyIff(p, inner, atoms, Decode(p));
    }
  }

  lemma DecodedParts(p: string)
    requires Decode(p) != p
    ensures |p| >= 3
    ensures var inner := p[1..|p| - 1];
            p == "^" + inner + "$" && '\n' !in inner && Decode(p) == Unescape(inner)
    ensures forall k :: 0 <= k < |Decode(p)| ==> HostChar(Decode(p)[k])
  {
    DecodeShowsPatternOrHostname(p);
    HostnameChars(Decode(p));
  }

  lemma AcceptsOnlyIff(p: string, inner: string, atoms: seq<Atom>, h: string)
    requires p == "^" + inner + "$" && Parse(inner + "$") == Some(atoms + [End])
    requires StandFor(atoms, h) && forall k :: 0 <= k < |h| ==> HostChar(h[k])
    ensures (forall s :: Accepts(p, s) <==> s == h) <==> atoms == Lits(h)
  {
    hide Parse, MatchFrom, Accepts;
    ParseAnchored(inner, atoms + [End]);
    assert [Begin] + (atoms + [End]) == [Begin] + atoms + [End];
    assert Consuming(atoms) by {
      forall k | 0 <= k < |atoms| ensures !atoms[k].Begin? && !atoms[k].End? {
        assert Stands(atoms[k], h[k]);
      }
    }
    forall s ensures Accepts(p, s) <==> Fits(atoms, s) { AnchoredAccepts(p, atoms, s); }
    if atoms == Lits(h) {
      forall s ensures Accepts(p, s) <==> s == h { LitsFitOnly(h, s); }
    } else {
      NotOnlyItsName(p, atoms, h);
    }
  }

  lemma ParsesNowhere(p: string, inner: string, h: string)
    requires p == "^" + inner + "$" && Parse(inner + "$").None?
    ensures !Accepts(p, h)
  {
    assert p[1..] == inner + "$";
  }

  lemma NotOnlyItsName(p: string, atoms: seq<Atom>, h: string)
    requires StandFor(atoms, h) && atoms != Lits(h)
    requires forall k :: 0 <= k < |h| ==> HostChar(h[k])
    requires forall s :: Accepts(p, s) <==> Fits(atoms, s)
    ensures exists s :: Accepts(p, s) != (s == h)
  {
    var k :| 0 <= k < |h| && atoms[k] != Lits(h)[k];
    assert Stands(atoms[k], h[k]);
    StandInIsNotLiteral(atoms[k], h[k]);
    if Fits(atoms, h) {
      assert AtomOk(atoms[k], h[k]);
      var other := h[k := 'a'];
      assert Fits(atoms, other) by {
        forall j | 0 <= j < |other| ensures AtomOk(atoms[j], other[j]) {
          if j != k { assert AtomOk(atoms[j], h[j]); }
        }
      }
      assert other[k] != h[k];
      assert Accepts(p, other) != (other == h);
    } else {
      assert Accepts(p, h) != (h == h);
    }
  }

  lemma ShortNameIsHostname()
    ensures IsHostname("d.io")
  {
    assert "d.io"[1..] == ".io" && ".io"[1..] == "io" && "io"[1..] == "o" && "o"[1..] == "";
    assert ['o'] + "" == "o" && ['i'] + "o" == "io" && ['d'] + "" == "d";
    assert [""][1..] == [] && ["o"][1..] == [] && ["", "io"][1..] == ["io"];
    assert Labels("o") == ["o"] + [];
    assert Labels("io") == ["io"] + [];
    assert Labels(".io") == [""] + ["io"];
    assert Labels("d.io") == ["d"] + ["io"];
  }

  lemma ShortNameUnescapes()
    ensures Unescape("io") == "io" && Unescape("d.io") == "d.io"
  {
    assert "d.io"[1..] == ".io" && ".io"[1..] == "io" && "io"[1..] == "o" && "o"[1..] == "";
    assert Unescape("o") == ['o'] + "" && Unescape("io") == ['i'] + "o";
    assert Unescape(".io") == ['.'] + "io" && Unescape("d.io") == ['d'] + ".io";
  }

  // Decoding is not injective: this pattern, with its bare dot, is shown as the name whose own
  // pattern has the dot escaped, and accepts another name besides.
  lemma BareDotIsMisread()
    ensures Decode("^d.io$") == "d.io" && Accepts("^d.io$", "dxio")
  {
    hide Parse, Labels, IsHostname, Accepts, MatchFrom;
    assert Decode("^d.io$") == "d.io" by {
      ShortNameIsHostname();
      ShortNameUnescapes();
      assert "^d.io$"[1..5] == "d.io";
    }
    assert Accepts("^d.io$", "dxio") by {
      BareDotParses();
      AnchoredAccepts("^d.io$", [Lit('d'), AnyChar, Lit('i'), Lit('o')], "dxio");
    }
  }

  // A class escape is shown as a name its pattern does not even accept.
  lemma ClassEscapeIsMisread()
    ensures Decode("^\\d\\.io$") == "d.io" && !Accepts("^\\d\\.io$", "d.io")
  {
    hide Labels, IsHostname, Parse, Accepts;
    ShortNameIsHostname();
    assert "^\\d\\.io$"[1..7] == "\\d\\.io";
    assert Unescape("\\d\\.io") == "d.io" by {
      ShortNameUnescapes();
      assert "\\d\\.io"[2..] == "\\.io" && "\\.io"[2..] == "io";
      assert Unescape("\\.io") == ['.'] + "io" && Unescape("\\d\\.io") == ['d'] + ".io";
    }
    ClassEscapeParses();
    AnchoredAccepts("^\\d\\.io$", [Class('d'), Lit('.'), Lit('i'), Lit('o')], "d.io");
  }

  lemma BareDotParses()
    ensures Parse("^d.io$") == Some([Begin] + [Lit('d'), AnyChar, Lit('i'), Lit('o')] + [End])
  {
    hide Parse;
    TailParses();
    assert ".io$" == ['.'] + "io$" && "d.io$" == ['d'] + ".io$" && "^d.io$" == ['^'] + "d.io$";
    ParseStep('.', "io$");
    ParseStep('d', ".io$");
    ParseStep('^', "d.io$");
    assert [Begin] + ([Lit('d')] + ([AnyChar] + [Lit('i'), Lit('o'), End]))
        == [Begin] + [Lit('d'), AnyChar, Lit('i'), Lit('o')] + [End];
  }

  lemma ClassEscapeParses()
    ensures Parse("^\\d\\.io$") == Some([Begin] + [Class('d'), Lit('.'), Lit('i'), Lit('o')] + [End])
  {
    EscapedTailParses();
    hide Parse;
    ParseStep('^', "\\d\\.io$");
    assert "^\\d\\.io$" == ['^'] + "\\d\\.io$";
    assert [Begin] + ([Class('d')] + ([Lit('.')] + [Lit('i'), Lit('o'), End]))
        == [Begin] + [Class('d'), Lit('.'), Lit('i'), Lit('o')] + [End];
  }

  lemma EscapedTailParses()
    ensures Parse("\\d\\.io$") == Some([Class('d')] + ([Lit('.')] + [Lit('i'), Lit('o'), End]))
  {
    TailParses();
    ParseStep('.', "io$");
    assert "\\.io$" == ['\\', '.'] + "io$" && "\\d\\.io$"[2..] == "\\.io$";
  }

  lemma TailParses()
    ensures Parse("io$") == Some([Lit('i'), Lit('o'), End])
  {
    assert "$" == ['$'] + "" && "o$" == ['o'] + "$" && "io$" == ['i'] + "o$";
    ParseStep('$', "");
    assert [End] + [] == [End];
    ParseStep('o', "$");
    assert [Lit('o')] + [End] == [Lit('o'), End];
    ParseStep('i', "o$");
    assert [Lit('i')] + [Lit('o'), End] == [Lit('i'), Lit('o'), End];
  }
}
