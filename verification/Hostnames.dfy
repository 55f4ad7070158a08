// Server names, and the anchored escaped patterns that the federation allowlist stores.
module Hostnames {
  // ---- Names ----

  predicate Alnum(c: char) {
    'a' <= c <= 'z' || 'A' <= c <= 'Z' || '0' <= c <= '9'
  }

  predicate LowerAlnum(c: char) {
    'a' <= c <= 'z' || '0' <= c <= '9'
  }

  predicate LabelOk(l: string) {
    && 1 <= |l| <= 63
    && LowerAlnum(l[0]) && LowerAlnum(l[|l| - 1])
    && forall i :: 0 <= i < |l| ==> LowerAlnum(l[i]) || l[i] == '-'
  }

  // The dot-separated labels of a string; never none.
  function Labels(s: string): (labels: seq<string>)
    ensures |labels| > 0
  {
    if |s| == 0 then [""]
    else
      var rest := Labels(s[1..]);
      if s[0] == '.' then [""] + rest else [[s[0]] + rest[0]] + rest[1..]
  }

  predicate IsHostname(s: string) {
    && |s| <= 253
    && |Labels(s)| >= 2
    && forall i :: 0 <= i < |Labels(s)| ==> LabelOk(Labels(s)[i])
  }

  // `$` also matches before a final line feed, so the code's test lets one through.
  predicate IsValidServerName(s: string) {
    IsHostname(s) || (|s| > 0 && s[|s| - 1] == '\n' && IsHostname(s[..|s| - 1]))
  }

  predicate HostChar(c: char) {
    LowerAlnum(c) || c == '-' || c == '.'
  }

  lemma {:induction false} LabelChars(s: string)
    requires forall i, k :: 0 <= i < |Labels(s)| && 0 <= k < |Labels(s)[i]| ==> HostChar(Labels(s)[i][k])
    ensures forall j :: 0 <= j < |s| ==> HostChar(s[j])
  {
    if |s| > 0 {
      var all, rest := Labels(s), Labels(s[1..]);
      if s[0] == '.' {
        assert forall i :: 0 <= i < |rest| ==> rest[i] == all[i + 1];
      } else {
        assert all[0][0] == s[0] && HostChar(all[0][0]);
        forall i, k | 0 <= i < |rest| && 0 <= k < |rest[i]| ensures HostChar(rest[i][k]) {
          if i == 0 { assert rest[0][k] == all[0][k + 1]; } else { assert rest[i] == all[i]; }
        }
      }
      LabelChars(s[1..]);
      assert forall j :: 0 < j < |s| ==> s[j] == s[1..][j - 1];
    }
  }

  lemma HostnameChars(s: string)
    requires IsHostname(s)
    ensures |s| > 0 && forall j :: 0 <= j < |s| ==> HostChar(s[j])
  {
    forall i, k | 0 <= i < |Labels(s)| && 0 <= k < |Labels(s)[i]| ensures HostChar(Labels(s)[i][k]) {
      assert LabelOk(Labels(s)[i]);
    }
    LabelChars(s);
  }

  // ---- The name test, character by character ----

  // Both ends and both neighbours of every dot are letters or digits, and no 64 characters in
  // a row are without a dot.
  predicate WellDotted(s: string) {
    && |s| > 0 && LowerAlnum(s[0]) && LowerAlnum(s[|s| - 1])
    && (forall i :: 0 <= i < |s| ==> HostChar(s[i]))
    && (forall i :: 0 < i < |s| - 1 && s[i] == '.' ==> LowerAlnum(s[i - 1]) && LowerAlnum(s[i + 1]))
    && (forall i :: 0 <= i <= |s| - 64 ==> DotWithin(s, i))
  }

  predicate DotWithin(s: string, i: nat)
    requires i + 64 <= |s|
  {
    exists k :: i <= k < i + 64 && s[k] == '.'
  }

  function FirstDot(s: string): (n: nat)
    requires '.' in s
    ensures n < |s| && s[n] == '.' && '.' !in s[..n]
  {
    if s[0] == '.' then 0 else 1 + FirstDot(s[1..])
  }

  lemma {:induction false} OneLabel(s: string)
    requires '.' !in s
    ensures Labels(s) == [s]
  {
    if |s| > 0 {
      assert s[0] in s;
      OneLabel(s[1..]);
      assert s == [s[0]] + s[1..];
    }
  }

  lemma {:induction false} LabelsAtDot(s: string, n: nat)
    requires n < |s| && s[n] == '.' && '.' !in s[..n]
    ensures Labels(s) == [s[..n]] + Labels(s[n + 1..])
  {
    if n > 0 {
      assert s[..n][0] == s[0];
      assert s[1..][..n - 1] == s[..n][1..];
      LabelsAtDot(s[1..], n - 1);
      assert s[1..][n..] == s[n + 1..];
      assert s[..n] == [s[0]] + s[1..][..n - 1];
    }
  }

  lemma DotlessWellDottedIff(l: string)
    requires '.' !in l
    ensures WellDotted(l) <==> LabelOk(l)
  {
    assert forall i :: 0 <= i < |l| ==> l[i] in l;
    assert WellDotted(l) && |l| >= 64 ==> DotWithin(l, 0);
  }

  lemma WellDottedAtDotIff(s: string, n: nat)
    requires n < |s| && s[n] == '.' && '.' !in s[..n]
    ensures WellDotted(s) <==> LabelOk(s[..n]) && WellDotted(s[n + 1..])
  {
    var l, rest := s[..n], s[n + 1..];
    assert forall i :: 0 <= i < n ==> l[i] == s[i] && l[i] in l;
    assert forall i :: 0 <= i < |rest| ==> rest[i] == s[n + 1 + i];
    if WellDotted(s) {
      WellDottedParts(s, n);
    }
    if LabelOk(l) && WellDotted(rest) {
      forall i | 0 <= i <= |s| - 64 ensures DotWithin(s, i) {
        if i > n {
          assert DotWithin(rest, i - n - 1);
          var k :| i - n - 1 <= k < i - n - 1 + 64 && rest[k] == '.';
          assert s[n + 1 + k] == '.';
        }
      }
    }
  }

  lemma WellDottedParts(s: string, n: nat)
    requires n < |s| && s[n] == '.' && '.' !in s[..n] && WellDotted(s)
    ensures LabelOk(s[..n]) && WellDotted(s[n + 1..])
  {
    var l, rest := s[..n], s[n + 1..];
    assert 0 < n < |s| - 1 by { assert !LowerAlnum('.'); }
    assert forall i :: 0 <= i < n ==> l[i] == s[i] && l[i] in l;
    assert n >= 64 ==> DotWithin(s, 0);
    assert forall i :: 0 <= i < |rest| ==> rest[i] == s[n + 1 + i];
    forall i | 0 <= i <= |rest| - 64 ensures DotWithin(rest, i) { DotWithinRest(s, n, i); }
    hide DotWithin;
  }

  lemma DotWithinRest(s: string, n: nat, i: nat)
    requires n < |s| && n + 1 + i + 64 <= |s| && DotWithin(s, n + 1 + i)
    ensures DotWithin(s[n + 1..], i)
  {
    var k :| n + 1 + i <= k < n + 1 + i + 64 && s[k] == '.';
    assert s[n + 1..][k - n - 1] == '.';
  }

  lemma {:induction false} LabelsAreOkIff(s: string)
    ensures (forall i :: 0 <= i < |Labels(s)| ==> LabelOk(Labels(s)[i])) <==> WellDotted(s)
    ensures |Labels(s)| >= 2 <==> '.' in s
    decreases |s|
  {
    if '.' in s {
      var n := FirstDot(s);
      LabelsAtDot(s, n);
      LabelsAreOkIff(s[n + 1..]);
      WellDottedAtDotIff(s, n);
      hide LabelOk, WellDotted, Labels;
      var rest := Labels(s[n + 1..]);
      var all := Labels(s);
      assert all[0] == s[..n] && forall i :: 0 <= i < |rest| ==> rest[i] == all[i + 1];
      assert forall i :: 0 < i < |all| ==> all[i] == rest[i - 1];
    } else {
      OneLabel(s);
      DotlessWellDottedIff(s);
      hide LabelOk, WellDotted, Labels;
      assert Labels(s)[0] == s;
    }
  }

  // A host name has at most 253 characters, a dot, and is well dotted; and that is all.
  lemma HostnameIff(s: string)
    ensures IsHostname(s) <==> |s| <= 253 && '.' in s && WellDotted(s)
  {
    LabelsAreOkIff(s);
    hide WellDotted, LabelOk, Labels;
  }

  // ---- Normalising ----

  // White space, as the language strips it.
  predicate Blank(c: char) {
    || c == ' ' || '\t' <= c <= '\r' || '\U{1C}' <= c <= '\U{1F}'
    || c == '\U{85}' || c == '\U{A0}' || c == '\U{1680}' || '\U{2000}' <= c <= '\U{200A}'
    || c == '\U{2028}' || c == '\U{2029}' || c == '\U{202F}' || c == '\U{205F}' || c == '\U{3000}'
  }

  function StripLeft(s: string): string {
    if |s| > 0 && Blank(s[0]) then StripLeft(s[1..]) else s
  }

  function StripRight(s: string): string {
    if |s| > 0 && Blank(s[|s| - 1]) then StripRight(s[..|s| - 1]) else s
  }

  function Strip(s: string): string {
    StripRight(StripLeft(s))
  }

  // Of the characters outside ASCII only the Kelvin sign becomes a letter of a host name.
  function LowerChar(c: char): char {
    if 'A' <= c <= 'Z' then c - 'A' + 'a' else if c == '\U{212A}' then 'k' else c
  }

  function Lower(s: string): string {
    seq(|s|, i requires 0 <= i < |s| => LowerChar(s[i]))
  }

  lemma HostnameIsNormal(s: string)
    requires IsHostname(s)
    ensures Strip(s) == s && Lower(s) == s
  {
    HostnameChars(s);
    assert HostChar(s[0]) && HostChar(s[|s| - 1]);
    assert forall i :: 0 <= i < |s| ==> Lower(s)[i] == s[i];
  }

  // ---- Escaping ----

  // The characters the escaping function puts a backslash before.
  predicate Special(c: char) {
    c in "()[]{}?*+-|^$\\.&~# \t\n\r\U{0B}\U{0C}"
  }

  function Escape(s: string): string {
    if |s| == 0 then ""
    else (if Special(s[0]) then ['\\', s[0]] else [s[0]]) + Escape(s[1..])
  }

  function Pattern(name: string): string {
    "^" + Escape(Lower(Strip(name))) + "$"
  }

  function Patterns(names: seq<string>): seq<string> {
    if |names| == 0 then []
    else if Strip(names[0]) == "" then Patterns(names[1..])
    else [Pattern(names[0])] + Patterns(names[1..])
  }

  // Drops every backslash that has a character other than a line feed after it, keeping that.
  function Unescape(s: string): string {
    if |s| == 0 then ""
    else if s[0] == '\\' && |s| > 1 && s[1] != '\n' then [s[1]] + Unescape(s[2..])
    else [s[0]] + Unescape(s[1..])
  }

  predicate Anchored(p: string) {
    |p| >= 3 && p[0] == '^' && p[|p| - 1] == '$' && '\n' !in p[1..|p| - 1]
  }

  function Decode(p: string): string {
    if Anchored(p) && IsValidServerName(Unescape(p[1..|p| - 1])) then Unescape(p[1..|p| - 1]) else p
  }

  function DecodeAll(patterns: seq<string>): (names: seq<string>)
    ensures |names| == |patterns|
    ensures forall i :: 0 <= i < |patterns| ==> names[i] == Decode(patterns[i])
  {
    if |patterns| == 0 then [] else [Decode(patterns[0])] + DecodeAll(patterns[1..])
  }

  // The loop of the decoder, appending one entry per pattern.
  method DecodeServerNamePatterns(patterns: seq<string>) returns (out: seq<string>)
    ensures out == DecodeAll(patterns)
  {
    out := [];
    for i := 0 to |patterns|
      invariant |out| == i && forall k :: 0 <= k < i ==> out[k] == Decode(patterns[k])
    {
      var p := patterns[i];
      if !Anchored(p) {
        out := out + [p];
        continue;
      }
      var decoded := Unescape(p[1..|p| - 1]);
      if IsValidServerName(decoded) {
        out := out + [decoded];
      } else {
        out := out + [p];
      }
    }
  }

  lemma {:induction false} UnescapeEscape(s: string)
    requires '\n' !in s
    ensures Unescape(Escape(s)) == s
    ensures '\n' !in Escape(s) && |Escape(s)| >= |s|
  {
    if |s| > 0 {
      assert s[0] in s;
      assert '\n' !in s[1..];
      UnescapeEscape(s[1..]);
      UnescapeOne(s[0], Escape(s[1..]));
      assert s == [s[0]] + s[1..];
    }
  }

  lemma UnescapeOne(c: char, rest: string)
    requires c != '\n'
    ensures Unescape((if Special(c) then ['\\', c] else [c]) + rest) == [c] + Unescape(rest)
  {
    if Special(c) {
      assert (['\\', c] + rest)[2..] == rest;
    } else {
      assert ([c] + rest)[1..] == rest;
    }
  }

  lemma {:induction false} UnescapeKeepsOffLineFeeds(s: string)
    requires '\n' !in s
    ensures '\n' !in Unescape(s)
  {
    if |s| > 0 {
      assert s[0] in s;
      if s[0] == '\\' && |s| > 1 && s[1] != '\n' { UnescapeKeepsOffLineFeeds(s[2..]); } else { UnescapeKeepsOffLineFeeds(s[1..]); }
    }
  }

  lemma DecodeAnchored(inner: string)
    requires |inner| > 0 && '\n' !in inner && IsValidServerName(Unescape(inner))
    ensures Decode("^" + inner + "$") == Unescape(inner)
  {
    hide IsValidServerName, Unescape;
    var p := "^" + inner + "$";
    assert p[1..|p| - 1] == inner;
  }

  // Decoding undoes the making of a pattern, for every valid name.
  lemma DecodePattern(name: string)
    requires IsHostname(name)
    ensures Decode(Pattern(name)) == name
  {
    HostnameIsNormal(name);
    HostnameChars(name);
    UnescapeEscape(name);
    hide IsHostname, Unescape, Escape, Strip, Lower, Decode;
    DecodeAnchored(Escape(name));
  }

  // The saved list comes back identical and in order.
  lemma {:induction false} DecodePatterns(names: seq<string>)
    requires forall i :: 0 <= i < |names| ==> IsHostname(names[i])
    ensures DecodeAll(Patterns(names)) == names
  {
    if |names| > 0 {
      HostnameIsNormal(names[0]);
      HostnameChars(names[0]);
      DecodePattern(names[0]);
      DecodePatterns(names[1..]);
      assert ([Pattern(names[0])] + Patterns(names[1..]))[1..] == Patterns(names[1..]);
    }
  }

  // For any stored pattern whatever, the reader is shown the pattern itself or a host name.
  lemma DecodeShowsPatternOrHostname(p: string)
    ensures Decode(p) == p || IsHostname(Decode(p))
  {
    if Anchored(p) {
      var decoded := Unescape(p[1..|p| - 1]);
      UnescapeKeepsOffLineFeeds(p[1..|p| - 1]);
      if |decoded| > 0 { assert decoded[|decoded| - 1] in decoded; }
    }
  }
}
