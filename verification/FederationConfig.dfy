// Reading and writing the federation section of the homeserver's configuration file, and the
// administrator's allowlist update that drives them.
module FederationConfig {
  import opened Common
  import opened Joining
  import opened Hostnames
  import opened PatternMeaning
  import opened Toml
  import opened TomlRoundTrip
  import opened TomlDocument
  import opened FederationText

  datatype FederationSettings = FederationSettings(allow: bool, forbidden: seq<Scalar>, allowed: seq<Scalar>)

  datatype Failure = Unreadable | WrongShape | BadNames(rejected: seq<string>)

  // ---- Reading ----

  predicate Truthy(v: Value) {
    match v
    case One(SBool(b)) => b
    case One(SInt(n)) => n != 0
    case One(SStr(s)) => s != ""
    case Many(items) => items != []
  }

  function Strings(texts: seq<string>): seq<Scalar> {
    if |texts| == 0 then [] else [SStr(texts[0])] + Strings(texts[1..])
  }

  function Characters(s: string): seq<Scalar> {
    if |s| == 0 then [] else [SStr([s[0]])] + Characters(s[1..])
  }

  // A string is listed character by character; a number or a boolean cannot be listed.
  function Listed(v: Value): Result<seq<Scalar>, Failure> {
    match v
    case Many(items) => Ok(items)
    case One(SStr(s)) => Ok(Characters(s))
    case One(_) => Err(WrongShape)
  }

  function ListAt(t: Table, key: string): Result<seq<Scalar>, Failure> {
    if key in t then Listed(t[key]) else Ok([])
  }

  // The `global` table, which may be missing, or be a plain value instead of a table.
  function GlobalOf(doc: Document): Result<Table, Failure> {
    if GLOBAL in doc then Ok(doc[GLOBAL])
    else if ROOT in doc && GLOBAL in doc[ROOT] then Err(WrongShape)
    else Ok(map[])
  }

  function SettingsOf(t: Table): Result<FederationSettings, Failure> {
    var forbidden, allowed := ListAt(t, FORBIDDEN), ListAt(t, ALLOWED);
    if forbidden.Err? then Err(forbidden.error)
    else if allowed.Err? then Err(allowed.error)
    else Ok(FederationSettings(ALLOW !in t || Truthy(t[ALLOW]), forbidden.value, allowed.value))
  }

  function ReadSettings(file: Option<string>): Result<FederationSettings, Failure> {
    match file
    case None => Ok(FederationSettings(true, [], []))
    case Some(text) =>
      match ParseToml(text)
      case None => Err(Unreadable)
      case Some(doc) =>
        match GlobalOf(doc)
        case Err(e) => Err(e)
        case Ok(t) => SettingsOf(t)
  }

  // ---- Writing ----

  // What a write starts from: an unreadable file is rewritten from scratch.
  function Existing(file: Option<string>): Result<Table, Failure> {
    match file
    case None => Ok(map[])
    case Some(text) =>
      match ParseToml(text)
      case None => Ok(map[])
      case Some(doc) => GlobalOf(doc)
  }

  function Overlay(t: Table, s: FederationSettings): Table {
    t[ALLOW := One(SBool(s.allow))][FORBIDDEN := Many(s.forbidden)][ALLOWED := Many(s.allowed)]
  }

  predicate Foreign(key: string) {
    key != ALLOW && key != FORBIDDEN && key != ALLOWED
  }

  // The texts this reader can speak for: those it can read, those that hold a control
  // character TOML allows nowhere, and those the writer wrote.
  predicate Garbled(text: string) {
    exists i :: 0 <= i < |text| && Control(text[i]) && text[i] != '\n' && text[i] != '\r'
  }

  ghost predicate Written(text: string) {
    exists t {:trigger Text(t)} :: BareKeys(t) && text == Text(t)
  }

  ghost predicate Known(file: Option<string>) {
    file.Some? ==> ParseToml(file.value).Some? || Garbled(file.value) || Written(file.value)
  }

  // The exact condition for the next file to be readable, checkable before the write.
  ghost predicate CleanWrite(existing: Table, s: FederationSettings) {
    && (forall k :: k in existing && Foreign(k) ==> CleanValue(existing[k]))
    && CleanItems(s.forbidden) && CleanItems(s.allowed)
  }

  // ---- Everything read has bare keys ----

  lemma {:induction false} ParsedKeyIsBare(s: string)
    ensures ParseKey(s).Got? ==> BareKey(ParseKey(s).value)
  {
    if |s| > 0 && Bare(s[0]) {
      ParsedKeyIsBare(s[1..]);
    }
  }

  ghost predicate AllBare(doc: Document) {
    forall name :: name in doc ==> BareKeys(doc[name])
  }

  lemma ParsedPairIsBare(s: string)
    ensures ParsePair(s).Got? ==> BareKey(ParsePair(s).value.key)
  {
    ParsedKeyIsBare(s);
  }

  lemma {:induction false} ParsedLinesAreBare(s: string, doc: Document, current: string)
    requires current in doc && AllBare(doc)
    ensures ParseLines(s, doc, current).Some? ==> AllBare(ParseLines(s, doc, current).value)
    decreases |s|
  {
    var t := SkipBlanks(s);
    if |t| == 0 {
    } else if t[0] == '\n' {
      ParsedLinesAreBare(t[1..], doc, current);
    } else if t[0] == '#' {
      if ParseComment(t[1..]).Got? { ParsedLinesAreBare(ParseComment(t[1..]).rest, doc, current); }
    } else if t[0] == '[' {
      var h := ParseHeader(t[1..]);
      if h.Got? && h.value !in doc {
        ParsedLinesAreBare(h.rest, doc[h.value := map[]], h.value);
      }
    } else {
      ParsedPairIsBare(t);
      var p := ParsePair(t);
      if p.Got? {
        var table := doc[current][p.value.key := p.value.value];
        assert BareKeys(table);
        ParsedLinesAreBare(p.rest, doc[current := table], current);
      }
    }
  }

  lemma ExistingIsBare(file: Option<string>)
    ensures Existing(file).Ok? ==> BareKeys(Existing(file).value)
  {
    if file.Some? {
      ParsedLinesAreBare(file.value, map[ROOT := map[]], ROOT);
    }
  }

  lemma ManagedKeysAreBare()
    ensures BareKey(ALLOW) && BareKey(FORBIDDEN) && BareKey(ALLOWED)
  {
  }

  lemma ManagedKeysDiffer()
    ensures ALLOW != FORBIDDEN && ALLOW != ALLOWED && FORBIDDEN != ALLOWED
  {
    assert |ALLOW| == 16 && |FORBIDDEN| == 29 && |ALLOWED| == 27;
  }

  lemma OverlayIsBare(t: Table, s: FederationSettings)
    requires BareKeys(t)
    ensures BareKeys(Overlay(t, s))
  {
    ManagedKeysAreBare();
  }

  // ---- Write, then read ----

  lemma CleanOverlay(existing: Table, s: FederationSettings)
    ensures CleanTable(Overlay(existing, s)) <==> CleanWrite(existing, s)
  {
    ManagedKeysDiffer();
    var t := Overlay(existing, s);
    if CleanTable(t) {
      assert CleanValue(t[FORBIDDEN]) && CleanValue(t[ALLOWED]);
      forall k | k in existing && Foreign(k) ensures CleanValue(existing[k]) { assert k in t && t[k] == existing[k]; }
    }
  }

  lemma OverlayReads(existing: Table, s: FederationSettings)
    ensures SettingsOf(CoercedTable(Overlay(existing, s)))
         == Ok(FederationSettings(s.allow, Texts(s.forbidden), Texts(s.allowed)))
  {
    ManagedKeysDiffer();
  }

  ghost function AfterWrite(file: Option<string>, s: FederationSettings): string
    requires Existing(file).Ok?
  {
    Text(Overlay(Existing(file).value, s))
  }

  lemma ReadingParsedText(text: string, t: Table)
    requires ParseToml(text) == Some(map[ROOT := map[], GLOBAL := t])
    ensures ReadSettings(Some(text)) == SettingsOf(t) && Existing(Some(text)) == Ok(t)
  {
  }

  // A write is read back as the settings written, with every foreign key of the old table as
  // it was (list items turned into strings) and no table but `global`; unless some value
  // cannot stand between quotes, and then the file can no longer be read at all.
  lemma WriteThenRead(file: Option<string>, s: FederationSettings)
    requires Known(file) && Existing(file).Ok?
    ensures CleanWrite(Existing(file).value, s) ==>
              && ParseToml(AfterWrite(file, s))
                   == Some(map[ROOT := map[], GLOBAL := CoercedTable(Overlay(Existing(file).value, s))])
              && ReadSettings(Some(AfterWrite(file, s)))
                   == Ok(FederationSettings(s.allow, Texts(s.forbidden), Texts(s.allowed)))
    ensures !CleanWrite(Existing(file).value, s) ==> ReadSettings(Some(AfterWrite(file, s))) == Err(Unreadable)
  {
    var existing := Existing(file).value;
    var t := Overlay(existing, s);
    ExistingIsBare(file);
    OverlayIsBare(existing, s);
    hide Overlay, BareKeys, CleanTable, CleanWrite, CoercedTable, SettingsOf, Text, Existing;
    WrittenFileReadsBack(t);
    CleanOverlay(existing, s);
    OverlayReads(existing, s);
    if CleanWrite(existing, s) { ReadingParsedText(AfterWrite(file, s), CoercedTable(t)); }
  }

  // What any readable file of the writer's says, key by key. A switch that is not there is on;
  // of the others, `false`, 0, an empty string and an empty list are off. A list that is not
  // there is empty; a string counts as the list of its characters, and a number or a boolean
  // is an error.
  predicate Lists(v: Value, list: seq<Scalar>) {
    match v
    case Many(items) => |list| == |items| && forall i :: 0 <= i < |items| ==> list[i].SStr? && IsTextOf(items[i], list[i].s)
    case One(SStr(s)) => |list| == |s| && forall i :: 0 <= i < |s| ==> list[i] == SStr([s[i]])
    case One(_) => false
  }

  // A string stands for itself, a number for its digits, and a boolean for its name with a
  // capital, as the writer turns list items into strings.
  predicate IsTextOf(v: Scalar, text: string) {
    match v
    case SBool(b) => text == if b then "True" else "False"
    case SInt(n) => ParseInt(text + "\n") == Got(n, "\n")
    case SStr(s) => text == s
  }

  lemma TextIsTextOf(v: Scalar)
    ensures IsTextOf(v, TextOf(v))
  {
    if v.SInt? { ParseIntText(v.n, "\n"); }
  }

  predicate Unlistable(t: Table, key: string) {
    key in t && t[key].One? && !t[key].v.SStr?
  }

  ghost predicate Says(t: Table, r: Result<FederationSettings, Failure>) {
    match r
    case Err(e) =>
      e == WrongShape
      && (Unlistable(t, "forbidden_remote_server_names") || Unlistable(t, "allowed_remote_server_names"))
    case Ok(s) =>
      && (s.allow <==> ("allow_federation" in t ==>
            t["allow_federation"] !in {One(SBool(false)), One(SInt(0)), One(SStr("")), Many([])}))
      && (if "forbidden_remote_server_names" in t then Lists(t["forbidden_remote_server_names"], s.forbidden)
          else s.forbidden == [])
      && (if "allowed_remote_server_names" in t then Lists(t["allowed_remote_server_names"], s.allowed)
          else s.allowed == [])
  }

  lemma {:induction false} TextsAre(items: seq<Scalar>)
    ensures |Texts(items)| == |items|
    ensures forall i :: 0 <= i < |items| ==> Texts(items)[i] == SStr(TextOf(items[i]))
  {
    if |items| > 0 { TextsAre(items[1..]); }
  }

  lemma {:induction false} CharactersAre(s: string)
    ensures |Characters(s)| == |s|
    ensures forall i :: 0 <= i < |s| ==> Characters(s)[i] == SStr([s[i]])
  {
    if |s| > 0 { CharactersAre(s[1..]); }
  }

  lemma ListedSays(v: Value)
    ensures Listed(Coerced(v)).Ok? ==> Lists(v, Listed(Coerced(v)).value)
    ensures Listed(Coerced(v)).Err? ==> v.One? && !v.v.SStr? && Listed(Coerced(v)).error == WrongShape
  {
    match v
    case Many(items) =>
      TextsAre(items);
      forall i | 0 <= i < |items| ensures IsTextOf(items[i], TextOf(items[i])) { TextIsTextOf(items[i]); }
    case One(SStr(s)) => CharactersAre(s);
    case _ =>
  }

  lemma SettingsSay(t: Table)
    ensures Says(t, SettingsOf(CoercedTable(t)))
  {
    if FORBIDDEN in t { ListedSays(t[FORBIDDEN]); }
    if ALLOWED in t { ListedSays(t[ALLOWED]); }
    if ALLOW in t && t[ALLOW].Many? { TextsAre(t[ALLOW].items); }
    hide Listed, Lists;
  }

  lemma AnyWrittenTableReads(t: Table)
    requires BareKeys(t) && CleanTable(t)
    ensures Says(t, ReadSettings(Some(Text(t))))
  {
    WrittenFileReadsBack(t);
    SettingsSay(t);
    hide Says, SettingsOf, BareKeys, CleanTable, Text;
    ReadingParsedText(Text(t), CoercedTable(t));
  }

  lemma WriteThenExisting(file: Option<string>, s: FederationSettings)
    requires Known(file) && Existing(file).Ok? && CleanWrite(Existing(file).value, s)
    ensures Existing(Some(AfterWrite(file, s))) == Ok(CoercedTable(Overlay(Existing(file).value, s)))
  {
    WriteThenRead(file, s);
    ReadingParsedText(AfterWrite(file, s), CoercedTable(Overlay(Existing(file).value, s)));
  }

  lemma OverlayKeepsForeign(t: Table, s: FederationSettings, key: string)
    requires Foreign(key)
    ensures key in Overlay(t, s) <==> key in t
    ensures key in t ==> CoercedTable(Overlay(t, s))[key] == Coerced(t[key])
  {
  }

  lemma ForeignKeysSurvive(file: Option<string>, s: FederationSettings, key: string)
    requires Known(file) && Existing(file).Ok? && CleanWrite(Existing(file).value, s) && Foreign(key)
    ensures var after := Existing(Some(AfterWrite(file, s)));
            && after.Ok?
            && (key in after.value <==> key in Existing(file).value)
            && (key in after.value ==> after.value[key] == Coerced(Existing(file).value[key]))
  {
    WriteThenExisting(file, s);
    OverlayKeepsForeign(Existing(file).value, s, key);
  }

  predicate OnlyStrings(v: Value) {
    v.Many? ==> forall i :: 0 <= i < |v.items| ==> v.items[i].SStr?
  }

  lemma {:induction false} StringsStay(items: seq<Scalar>)
    requires forall i :: 0 <= i < |items| ==> items[i].SStr?
    ensures Texts(items) == items
  {
    if |items| > 0 {
      StringsStay(items[1..]);
      assert items == [items[0]] + items[1..];
    }
  }

  lemma {:induction false} TextsAreStrings(items: seq<Scalar>)
    ensures forall i :: 0 <= i < |Texts(items)| ==> Texts(items)[i].SStr?
  {
    if |items| > 0 {
      TextsAreStrings(items[1..]);
    }
  }

  // Coercion changes exactly the lists that hold something other than strings.
  lemma CoercionIsHarmlessIff(v: Value)
    ensures Coerced(v) == v <==> OnlyStrings(v)
  {
    if v.Many? {
      TextsAreStrings(v.items);
      if OnlyStrings(v) { StringsStay(v.items); }
    }
  }

  lemma OverlayAgain(t: Table, s: FederationSettings)
    ensures var again := CoercedTable(Overlay(t, s));
            Overlay(again, FederationSettings(s.allow, Texts(s.forbidden), Texts(s.allowed))) == again
  {
    ManagedKeysDiffer();
  }

  // Writing back what was just read leaves the file as it is, character for character.
  lemma SavingUnchangedSettingsKeepsTheFile(file: Option<string>, s: FederationSettings)
    requires Known(file) && Existing(file).Ok? && CleanWrite(Existing(file).value, s)
    ensures var written := Some(AfterWrite(file, s));
            && ReadSettings(written).Ok? && Existing(written).Ok?
            && AfterWrite(written, ReadSettings(written).value) == written.value
  {
    WriteThenRead(file, s);
    WriteThenExisting(file, s);
    OverlayAgain(Existing(file).value, s);
    RewritingIsIdempotent(HEAD, MANAGED, Overlay(Existing(file).value, s));
  }

  lemma WritingLeavesKnown(file: Option<string>, s: FederationSettings)
    requires Existing(file).Ok?
    ensures Known(Some(AfterWrite(file, s)))
  {
    ExistingIsBare(file);
    OverlayIsBare(Existing(file).value, s);
    hide Overlay, Existing, BareKeys, Text;
    assert Text(Overlay(Existing(file).value, s)) == AfterWrite(file, s);
  }

  // ---- The allowlist update ----

  // What the handler makes of one entry.
  function Normal(name: string): string {
    Lower(Strip(name))
  }

  function Kept(names: seq<string>): seq<string> {
    if |names| == 0 then []
    else (if Normal(names[0]) != "" && IsValidServerName(Normal(names[0])) then [Normal(names[0])] else []) + Kept(names[1..])
  }

  function Refused(names: seq<string>): seq<string> {
    if |names| == 0 then []
    else (if Normal(names[0]) != "" && !IsValidServerName(Normal(names[0])) then [Normal(names[0])] else []) + Refused(names[1..])
  }

  lemma {:induction false} StripRightEnd(s: string)
    ensures |StripRight(s)| > 0 ==> !Blank(StripRight(s)[|StripRight(s)| - 1])
    decreases |s|
  {
    if |s| > 0 && Blank(s[|s| - 1]) { StripRightEnd(s[..|s| - 1]); }
  }

  // Once stripped, the test for a server name is the test for a host name.
  lemma NormalNamesAreTestedExactly(name: string)
    ensures IsValidServerName(Normal(name)) <==> IsHostname(Normal(name))
  {
    var n := Normal(name);
    StripRightEnd(StripLeft(name));
    if |n| > 0 { assert n[|n| - 1] == LowerChar(Strip(name)[|n| - 1]) != '\n'; }
  }

  lemma {:induction false} KeptAreHostnames(names: seq<string>)
    ensures forall i :: 0 <= i < |Kept(names)| ==> IsHostname(Kept(names)[i])
  {
    if |names| > 0 {
      KeptAreHostnames(names[1..]);
      NormalNamesAreTestedExactly(names[0]);
    }
  }

  // Nothing is refused exactly when every entry is blank or a host name once normalised.
  lemma {:induction false} NothingRefusedIff(names: seq<string>)
    ensures Refused(names) == [] <==> forall n :: n in names ==> Normal(n) == "" || IsHostname(Normal(n))
    ensures forall n :: n in names && IsHostname(Normal(n)) ==> Normal(n) in Kept(names)
    ensures forall k :: k in Kept(names) ==> exists n :: n in names && Normal(n) == k
  {
    if |names| > 0 {
      NothingRefusedIff(names[1..]);
      NormalNamesAreTestedExactly(names[0]);
      assert names == [names[0]] + names[1..];
      if IsHostname(Normal(names[0])) { HostnameChars(Normal(names[0])); }
      forall k | k in Kept(names) ensures exists n :: n in names && Normal(n) == k {
        if k in Kept(names[1..]) {
          var n :| n in names[1..] && Normal(n) == k;
          assert n in names;
        } else {
          assert names[0] in names && Normal(names[0]) == k;
        }
      }
    }
  }

  // One spelling of a host name: white space around it, and any letter in upper case.
  predicate SpellingOf(u: string, host: string, before: nat) {
    && before + |host| <= |u|
    && (forall i :: 0 <= i < |u| && !(before <= i < before + |host|) ==> Blank(u[i]))
    && forall i :: 0 <= i < |host| ==>
         u[before + i] == host[i] || ('a' <= host[i] <= 'z' && u[before + i] == host[i] - 'a' + 'A')
  }

  lemma {:induction false} StripLeftStops(u: string, before: nat)
    requires before < |u| && !Blank(u[before]) && forall i :: 0 <= i < before ==> Blank(u[i])
    ensures StripLeft(u) == u[before..]
  {
    if before > 0 {
      StripLeftStops(u[1..], before - 1);
      assert u[1..][before - 1..] == u[before..];
    }
  }

  lemma {:induction false} StripRightStops(u: string, n: nat)
    requires 0 < n <= |u| && !Blank(u[n - 1]) && forall i :: n <= i < |u| ==> Blank(u[i])
    ensures StripRight(u) == u[..n]
    decreases |u|
  {
    if n < |u| {
      StripRightStops(u[..|u| - 1], n);
      assert u[..|u| - 1][..n] == u[..n];
    }
  }

  lemma SpellingIsStripped(u: string, host: string, before: nat)
    requires |host| > 0 && HostChar(host[0]) && HostChar(host[|host| - 1]) && SpellingOf(u, host, before)
    ensures Strip(u) == u[before..before + |host|]
  {
    var n := |host|;
    assert !Blank(u[before + 0]) && !Blank(u[before + (n - 1)]);
    hide HostChar, LowerAlnum;
    StripLeftStops(u, before);
    var v := u[before..];
    assert v[n - 1] == u[before + (n - 1)];
    forall i | n <= i < |v| ensures Blank(v[i]) { assert v[i] == u[before + i]; }
    hide Blank, SpellingOf;
    StripRightStops(v, n);
    assert v[..n] == u[before..before + n];
  }

  // Every spelling of a host name is normalised to it, and so kept as it.
  lemma EverySpellingIsNormalised(u: string, host: string, before: nat)
    requires IsHostname(host) && SpellingOf(u, host, before)
    ensures Normal(u) == host
  {
    HostnameChars(host);
    SpellingIsStripped(u, host, before);
    hide IsHostname, Strip, Blank;
    forall i | 0 <= i < |host| ensures Lower(Strip(u))[i] == host[i] {
      assert Strip(u)[i] == u[before + i] && HostChar(host[i]);
    }
  }

  // Entries are judged one by one: a list is cut anywhere without a difference ...
  lemma EntriesAreJudgedAlone(a: seq<string>, b: seq<string>)
    ensures Kept(a + b) == Kept(a) + Kept(b) && Refused(a + b) == Refused(a) + Refused(b)
  {
    KeptAlone(a, b);
    RefusedAlone(a, b);
  }

  lemma {:induction false} KeptAlone(a: seq<string>, b: seq<string>)
    ensures Kept(a + b) == Kept(a) + Kept(b)
  {
    hide Normal, IsValidServerName;
    if |a| == 0 {
      assert a + b == b;
    } else {
      assert (a + b)[0] == a[0] && (a + b)[1..] == a[1..] + b;
      KeptAlone(a[1..], b);
    }
  }

  lemma {:induction false} RefusedAlone(a: seq<string>, b: seq<string>)
    ensures Refused(a + b) == Refused(a) + Refused(b)
  {
    hide Normal, IsValidServerName;
    if |a| == 0 {
      assert a + b == b;
    } else {
      assert (a + b)[0] == a[0] && (a + b)[1..] == a[1..] + b;
      RefusedAlone(a[1..], b);
    }
  }

  // ... and each is kept, refused or passed over, as it was normalised.
  lemma OneEntry(name: string)
    ensures var n := Lower(Strip(name));
            && Kept([name]) == (if IsHostname(n) then [n] else [])
            && Refused([name]) == (if n == "" || IsHostname(n) then [] else [n])
  {
    NormalNamesAreTestedExactly(name);
    if IsHostname(Normal(name)) { HostnameChars(Normal(name)); }
    assert [name][1..] == [];
  }

  // A readable file without `global`, and one in which that is no table.
  predicate NoGlobal(file: Option<string>) {
    && file.Some? && ParseToml(file.value).Some?
    && var doc := ParseToml(file.value).value;
       "global" !in doc && !(ROOT in doc && "global" in doc[ROOT])
  }

  predicate PlainGlobal(file: Option<string>) {
    && file.Some? && ParseToml(file.value).Some?
    && var doc := ParseToml(file.value).value;
       "global" !in doc && ROOT in doc && "global" in doc[ROOT]
  }

  lemma AfterWriteIs(file: Option<string>, s: FederationSettings)
    ensures Existing(file).Ok? ==> AfterWrite(file, s) == Text(Overlay(Existing(file).value, s))
  {
  }

  // Where there is nothing to keep, the three settings are all the file holds.
  lemma FromScratch(file: Option<string>, s: FederationSettings)
    requires file.None? || ParseToml(file.value).None? || NoGlobal(file)
    ensures Existing(file).Ok?
    ensures AfterWrite(file, s) == Text(map[
              "allow_federation" := One(SBool(s.allow)),
              "forbidden_remote_server_names" := Many(s.forbidden),
              "allowed_remote_server_names" := Many(s.allowed)])
  {
    hide ParseToml, Text;
    assert Overlay(map[], s) == map[ALLOW := One(SBool(s.allow)), FORBIDDEN := Many(s.forbidden), ALLOWED := Many(s.allowed)];
  }

  class ConfigFile {
    var text: Option<string>

    // The file is one the reader can speak for; the handlers keep it so.
    ghost predicate Valid()
      reads this
    {
      Known(text)
    }

    constructor (found: Option<string>)
      requires Known(found)
      ensures Valid() && text == found
    {
      text := found;
    }

    // Of a file a write has left, exactly the settings written, or an error if the write
    // made it unreadable.
    method ReadFederation() returns (r: Result<FederationSettings, Failure>)
      requires Valid()
      ensures r == ReadSettings(text)
      ensures text.None? ==> r == Ok(FederationSettings(true, [], []))
      ensures NoGlobal(text) ==> r == Ok(FederationSettings(true, [], []))
      ensures PlainGlobal(text) ==> r == Err(WrongShape)
      ensures text.Some? && ParseToml(text.value).None? ==> r == Err(Unreadable)
      ensures forall t {:trigger Text(t)} :: BareKeys(t) && CleanTable(t) && text == Some(Text(t)) ==> Says(t, r)
      ensures forall before, s {:trigger AfterWrite(before, s)} ::
                Known(before) && Existing(before).Ok? && text == Some(AfterWrite(before, s)) ==>
                  r == if CleanWrite(Existing(before).value, s)
                       then Ok(FederationSettings(s.allow, Texts(s.forbidden), Texts(s.allowed))) else Err(Unreadable)
    {
      forall before, s {:trigger AfterWrite(before, s)} |
        Known(before) && Existing(before).Ok? && text == Some(AfterWrite(before, s))
        ensures ReadSettings(text) == if CleanWrite(Existing(before).value, s)
          then Ok(FederationSettings(s.allow, Texts(s.forbidden), Texts(s.allowed))) else Err(Unreadable)
      {
        WriteThenRead(before, s);
      }
      forall t {:trigger Text(t)} | BareKeys(t) && CleanTable(t) && text == Some(Text(t)) ensures Says(t, ReadSettings(text)) {
        AnyWrittenTableReads(t);
      }
      hide AfterWrite, CleanWrite, ParseToml, Says, BareKeys, CleanTable, Text;
      if text.None? {
        return Ok(FederationSettings(true, [], []));
      }
      var data := ParseToml(text.value);
      if data.None? {
        return Err(Unreadable);
      }
      var g := GlobalOf(data.value);
      if g.Err? {
        return Err(g.error);
      }
      r := SettingsOf(g.value);
    }

    method WriteFederation(s: FederationSettings) returns (r: Result<(), Failure>)
      requires Valid()
      modifies this
      ensures Valid()
      ensures match Existing(old(text))
              case Ok(_) => r == Ok(()) && text == Some(AfterWrite(old(text), s))
              case Err(e) => r == Err(e) && text == old(text)
      ensures PlainGlobal(old(text)) ==> r == Err(WrongShape) && text == old(text)
      ensures old(text).None? || ParseToml(old(text).value).None? || NoGlobal(old(text)) ==>
                r == Ok(()) && text == Some(Text(map[
                  "allow_federation" := One(SBool(s.allow)),
                  "forbidden_remote_server_names" := Many(s.forbidden),
                  "allowed_remote_server_names" := Many(s.allowed)]))
    {
      if Existing(text).Ok? { WritingLeavesKnown(text, s); }
      if text.None? || ParseToml(text.value).None? || NoGlobal(text) { FromScratch(text, s); }
      hide ParseToml, Text, Known, AfterWrite, NoGlobal;
      assert Existing(text).Ok? ==> AfterWrite(text, s) == Text(Overlay(Existing(text).value, s)) by { AfterWriteIs(text, s); }
      var existing: Table := map[];
      if text.Some? {
        var data := ParseToml(text.value);
        if data.Some? {
          var g := GlobalOf(data.value);
          if g.Err? {
            return Err(g.error);
          }
          existing := g.value;
        }
      }
      existing := existing[ALLOW := One(SBool(s.allow))];
      existing := existing[FORBIDDEN := Many(s.forbidden)];
      existing := existing[ALLOWED := Many(s.allowed)];
      var body := EmitToml(existing);
      text := Some(body);
      r := Ok(());
    }

    // A refused entry or an unreadable file leaves everything as it was.
    method UpdateAllowlist(names: seq<string>) returns (r: Result<seq<string>, Failure>)
      requires Valid()
      modifies this
      ensures Valid()
      ensures Refused(names) != [] ==> r == Err(BadNames(Refused(names))) && text == old(text)
      ensures Refused(names) == [] && ReadSettings(old(text)).Err? ==>
                r == Err(ReadSettings(old(text)).error) && text == old(text)
      ensures Refused(names) == [] && ReadSettings(old(text)).Ok? ==>
                r == Ok(Kept(names)) && text == Some(AfterUpdate(old(text), names))
    {
      var cleaned, rejected := CleanNames(names);
      if rejected != [] {
        return Err(BadNames(rejected));
      }
      var current := ReadFederation();
      if current.Err? {
        return Err(current.error);
      }
      var settings := current.value.(allowed := Strings(Patterns(cleaned)));
      var done := WriteFederation(settings);
      r := Ok(cleaned);
    }
  }

  method CleanNames(names: seq<string>) returns (cleaned: seq<string>, rejected: seq<string>)
    ensures cleaned == Kept(names) && rejected == Refused(names)
  {
    cleaned, rejected := [], [];
    for i := 0 to |names|
      invariant cleaned + Kept(names[i..]) == Kept(names)
      invariant rejected + Refused(names[i..]) == Refused(names)
    {
      assert names[i..][0] == names[i] && names[i..][1..] == names[i + 1..];
      var name := Lower(Strip(names[i]));
      if name == "" {
        assert [] + Kept(names[i + 1..]) == Kept(names[i + 1..]);
        assert [] + Refused(names[i + 1..]) == Refused(names[i + 1..]);
        continue;
      }
      if !IsValidServerName(name) {
        assert [] + Kept(names[i + 1..]) == Kept(names[i + 1..]);
        ListAssoc(rejected, [name], Refused(names[i + 1..]));
        rejected := rejected + [name];
        continue;
      }
      assert [] + Refused(names[i + 1..]) == Refused(names[i + 1..]);
      ListAssoc(cleaned, [name], Kept(names[i + 1..]));
      cleaned := cleaned + [name];
    }
    assert names[|names|..] == [];
  }

  // The settings and the file a successful update leaves.
  function UpdatedSettings(file: Option<string>, names: seq<string>): FederationSettings
    requires ReadSettings(file).Ok?
  {
    ReadSettings(file).value.(allowed := Strings(Patterns(Kept(names))))
  }

  ghost function AfterUpdate(file: Option<string>, names: seq<string>): string
    requires ReadSettings(file).Ok?
  {
    AfterWrite(file, UpdatedSettings(file, names))
  }

  lemma ReadableIsWritable(file: Option<string>)
    requires ReadSettings(file).Ok?
    ensures Existing(file).Ok?
  {
  }

  // ---- From host names to host names ----

  function Plain(items: seq<Scalar>): seq<string> {
    if |items| == 0 then [] else [TextOf(items[0])] + Plain(items[1..])
  }

  lemma {:induction false} PlainStrings(texts: seq<string>)
    ensures Texts(Strings(texts)) == Strings(texts)
    ensures Plain(Strings(texts)) == texts
  {
    if |texts| > 0 {
      PlainStrings(texts[1..]);
      assert Strings(texts)[1..] == Strings(texts[1..]);
      assert texts == [texts[0]] + texts[1..];
    }
  }

  lemma {:induction false} EscapeIsClean(s: string)
    requires forall k :: 0 <= k < |s| ==> HostChar(s[k])
    ensures Clean(Escape(s))
  {
    if |s| > 0 {
      EscapeIsClean(s[1..]);
      assert HostChar(s[0]);
      CleanAppend(if Special(s[0]) then ['\\', s[0]] else [s[0]], Escape(s[1..]));
    }
  }

  lemma CleanAppend(a: string, b: string)
    requires Clean(a) && Clean(b)
    ensures Clean(a + b)
  {
  }

  lemma {:induction false} PatternsAreClean(names: seq<string>)
    requires forall i :: 0 <= i < |names| ==> IsHostname(names[i])
    ensures CleanItems(Strings(Patterns(names)))
  {
    if |names| > 0 {
      var n := names[0];
      HostnameChars(n);
      HostnameIsNormal(n);
      PatternsAreClean(names[1..]);
      EscapeIsClean(n);
      CleanAppend("^", Escape(n));
      CleanAppend("^" + Escape(n), "$");
      assert Patterns(names)[1..] == Patterns(names[1..]);
      assert Strings(Patterns(names))[1..] == Strings(Patterns(names[1..]));
    }
  }

  lemma UpdateIsClean(file: Option<string>, names: seq<string>)
    requires ReadSettings(file).Ok? && Existing(file).Ok?
    ensures CleanWrite(Existing(file).value, UpdatedSettings(file, names))
       <==> CleanWrite(Existing(file).value, ReadSettings(file).value.(allowed := []))
  {
    hide Kept, Patterns, CleanValue;
    KeptAreHostnames(names);
    PatternsAreClean(Kept(names));
  }

  // What is read back after an update.
  lemma {:induction false} UpdateReadsBack(file: Option<string>, names: seq<string>)
    requires ReadSettings(file).Ok?
    ensures Existing(file).Ok?
    ensures ReadSettings(Some(AfterUpdate(file, names)))
         == if CleanWrite(Existing(file).value, ReadSettings(file).value.(allowed := []))
            then Ok(FederationSettings(ReadSettings(file).value.allow, Texts(ReadSettings(file).value.forbidden),
                                       Strings(Patterns(Kept(names)))))
            else Err(Unreadable)
  {
    ReadableIsWritable(file);
    hide Kept, Patterns, Texts, AfterWrite, ReadSettings, Existing, CleanWrite;
    UpdateIsClean(file, names);
    PlainStrings(Patterns(Kept(names)));
    WriteThenRead(file, UpdatedSettings(file, names));
  }

  // The whole pipeline. After a successful update the file is readable exactly when what it
  // already held is clean; then the decoded allowlist is the list of names saved, in order,
  // the stored patterns accept exactly those names, and the other settings are as before.
  lemma AllowlistRoundTrip(file: Option<string>, names: seq<string>)
    requires ReadSettings(file).Ok? && Refused(names) == []
    ensures Existing(file).Ok?
    ensures ReadSettings(Some(AfterUpdate(file, names))).Ok?
       <==> CleanWrite(Existing(file).value, ReadSettings(file).value.(allowed := []))
    ensures ReadSettings(Some(AfterUpdate(file, names))).Ok? ==>
              var before, after := ReadSettings(file).value, ReadSettings(Some(AfterUpdate(file, names))).value;
              && DecodeAll(Plain(after.allowed)) == Kept(names)
              && (forall s :: AcceptsAny(Plain(after.allowed), s) <==> s in Kept(names))
              && after.allow == before.allow
              && after.forbidden == Texts(before.forbidden)
  {
    UpdateReadsBack(file, names);
    hide Kept, Patterns, Texts, Plain, DecodeAll, AcceptsAny, AfterUpdate, ReadSettings, Existing, CleanWrite;
    var kept := Kept(names);
    KeptAreHostnames(names);
    PlainStrings(Patterns(kept));
    DecodePatterns(kept);
    forall s ensures AcceptsAny(Patterns(kept), s) <==> s in kept { PatternsAcceptExactlyTheNames(kept, s); }
  }

  // The first update of a deployment that has no file yet leaves federation on, forbids
  // nobody and allows the names saved.
  lemma FirstUpdate(names: seq<string>)
    requires Refused(names) == []
    ensures ReadSettings(None).Ok?
    ensures ReadSettings(Some(AfterUpdate(None, names)))
         == Ok(FederationSettings(true, [], Strings(Patterns(Kept(names)))))
    ensures DecodeAll(Plain(Strings(Patterns(Kept(names))))) == Kept(names)
  {
    UpdateReadsBack(None, names);
    KeptAreHostnames(names);
    PlainStrings(Patterns(Kept(names)));
    DecodePatterns(Kept(names));
  }

  lemma {:induction false} AmongNone(order: seq<string>)
    ensures Among(order, {}) == []
  {
    if |order| > 0 { AmongNone(order[1..]); }
  }

  lemma ManagedOrder()
    ensures KeyOrder(MANAGED, {ALLOW, FORBIDDEN, ALLOWED}) == [ALLOW, FORBIDDEN, ALLOWED]
  {
    var keys := {ALLOW, FORBIDDEN, ALLOWED};
    assert MANAGED[1..] == [FORBIDDEN, ALLOWED] && [FORBIDDEN, ALLOWED][1..] == [ALLOWED] && [ALLOWED][1..] == [];
    assert Among([ALLOWED], keys) == [ALLOWED];
    assert Among([FORBIDDEN, ALLOWED], keys) == [FORBIDDEN] + [ALLOWED];
    assert Among(MANAGED, keys) == MANAGED;
    assert keys - Elements(MANAGED) == {} by {
      assert ALLOW == MANAGED[0] && FORBIDDEN == MANAGED[1] && ALLOWED == MANAGED[2];
    }
    AmongNone(Sorted(keys));
  }

  lemma {:induction false} ReplaceNothing(s: string, c: char, sub: string)
    requires c !in s
    ensures ReplaceAll(s, c, sub) == s
  {
    if |s| > 0 {
      assert s[0] in s && c !in s[1..];
      ReplaceNothing(s[1..], c, sub);
      assert s == [s[0]] + s[1..];
    }
  }

  lemma {:induction false} ReplaceFirst(a: string, c: char, rest: string, sub: string)
    requires c !in a
    ensures ReplaceAll(a + ([c] + rest), c, sub) == a + (sub + ReplaceAll(rest, c, sub))
  {
    var all := a + ([c] + rest);
    if |a| == 0 {
      assert all == [c] + rest && all[1..] == rest;
    } else {
      assert all[0] == a[0] && a[0] in a && all[1..] == a[1..] + ([c] + rest);
      ReplaceFirst(a[1..], c, rest, sub);
      assert a == [a[0]] + a[1..];
    }
  }

  lemma BackslashIsDoubled()
    ensures Quoted("^a\\.io$") == "\"^a\\\\.io$\""
  {
    hide ReplaceAll;
    ReplaceFirst("^a", '\\', ".io$", "\\\\");
    ReplaceNothing(".io$", '\\', "\\\\");
    assert "^a" + (['\\'] + ".io$") == "^a\\.io$";
    assert "^a" + ("\\\\" + ".io$") == "^a\\\\.io$";
    ReplaceNothing("^a\\\\.io$", '"', "\\\"");
  }

  // And these are the lines under its head, after a first update that allows one name.
  lemma FirstFile()
    ensures AfterWrite(None, FederationSettings(true, [], [SStr("^a\\.io$")]))
         == Ended(HEAD + ["allow_federation" + (" = " + "true"),
                            "forbidden_remote_server_names" + (" = " + "[]"),
                            "allowed_remote_server_names" + (" = " + "[\"^a\\\\.io$\"]")])
  {
    var t := Overlay(map[], FederationSettings(true, [], [SStr("^a\\.io$")]));
    ManagedKeysDiffer();
    assert t.Keys == {ALLOW, FORBIDDEN, ALLOWED};
    ManagedOrder();
    FirstLines(t);
    hide KeyOrder, Ended, KvLines, EmitKv, ReplaceAll;
  }

  lemma ThreeLines(a: string, b: string, c: string, t: Table)
    requires a in t && b in t && c in t
    ensures KvLines([a, b, c], t) == [EmitKv(a, t[a]), EmitKv(b, t[b]), EmitKv(c, t[c])]
  {
    hide EmitKv;
    assert [a, b, c][1..] == [b, c] && [b, c][1..] == [c] && [c][1..] == [];
    assert KvLines([c], t) == [EmitKv(c, t[c])];
    assert KvLines([b, c], t) == [EmitKv(b, t[b]), EmitKv(c, t[c])];
  }

  lemma FirstValues()
    ensures EmitValue(One(SBool(true))) == "true"
    ensures EmitValue(Many([])) == "[]"
    ensures EmitValue(Many([SStr("^a\\.io$")])) == "[\"^a\\\\.io$\"]"
  {
    BackslashIsDoubled();
    hide Quoted;
    assert "[" + ("\"^a\\\\.io$\"" + "]") == "[\"^a\\\\.io$\"]";
    assert EmitItems([]) == "";
  }

  lemma FirstLines(t: Table)
    requires t == map[ALLOW := One(SBool(true)), FORBIDDEN := Many([]), ALLOWED := Many([SStr("^a\\.io$")])]
    ensures KvLines([ALLOW, FORBIDDEN, ALLOWED], t)
         == ["allow_federation" + (" = " + "true"),
             "forbidden_remote_server_names" + (" = " + "[]"),
             "allowed_remote_server_names" + (" = " + "[\"^a\\\\.io$\"]")]
  {
    ManagedKeysDiffer();
    FirstValues();
    hide EmitValue, KvLines;
    ThreeLines(ALLOW, FORBIDDEN, ALLOWED, t);
  }

  // ---- A file that an update breaks ----

  // A foreign key whose string holds a line feed, written as TOML asks, with an escape.
  const MOTD := "m = " + ("\"" + ("\\n" + ("\"" + "\n")))
  const WITH_MOTD := "[" + (GLOBAL + ("]" + ("\n" + MOTD)))

  lemma MotdIsRead(doc: Document)
    requires GLOBAL in doc && doc[GLOBAL] == map[]
    ensures ParseLines(MOTD, doc, GLOBAL) == Some(doc[GLOBAL := map["m" := One(SStr("\n"))]])
  {
    MotdPair();
    assert MOTD[0] == 'm';
    hide ParsePair;
    var table: Table := map[];
    assert table["m" := One(SStr("\n"))] == map["m" := One(SStr("\n"))];
  }

  lemma MotdPair()
    ensures ParsePair(MOTD) == Got(Pair("m", One(SStr("\n"))), "")
  {
    var value := "\"" + ("\\n" + ("\"" + "\n"));
    MotdValue();
    SkipToValue(value);
    assert BareKey("m");
    ParseBareKey("m", " = " + value);
    assert MOTD == "m" + (" = " + value);
    hide ParseKey, ParseValue, SkipBlanks, ParseLineEnd;
    EmptyLineEnd("");
    assert "\n" + "" == "\n";
  }

  lemma MotdValue()
    ensures ParseValue("\"" + ("\\n" + ("\"" + "\n"))) == Got(One(SStr("\n")), "\n")
  {
    var rest := "\"" + "\n";
    var body := "\\n" + rest;
    ParseClose("\n");
    assert body[0] == '\\' && body[1] == 'n' && body[2..] == rest;
    assert ['\n'] + "" == "\n";
    assert ParseStr(body) == Got("\n", "\n");
    Uncons('"', body);
    assert ("\"" + body)[1] == '\\';
  }

  // An accepted update, of a file that could be read, leaves one that cannot.
  lemma UpdateBreaksFileWithEscapedLineFeed()
    ensures ReadSettings(Some(WITH_MOTD)).Ok? && Refused([]) == []
    ensures ReadSettings(Some(AfterUpdate(Some(WITH_MOTD), []))) == Err(Unreadable)
  {
    var start: Document := map[ROOT := map[]];
    assert BareKey(GLOBAL);
    ParseHeaderLine(GLOBAL, MOTD, start, ROOT);
    MotdIsRead(start[GLOBAL := map[]]);
    var t: Table := map["m" := One(SStr("\n"))];
    assert Existing(Some(WITH_MOTD)) == Ok(t);
    assert |ALLOW| == 16 && |FORBIDDEN| == 29 && |ALLOWED| == 27;
    assert Foreign("m") && "m" in t;
    assert !CleanValue(t["m"]) by { assert Control("\n"[0]); }
    assert ReadSettings(Some(WITH_MOTD)) == SettingsOf(t);
    WriteThenRead(Some(WITH_MOTD), UpdatedSettings(Some(WITH_MOTD), []));
  }
}
