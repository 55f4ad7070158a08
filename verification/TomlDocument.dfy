// The whole file the server writes: fixed comment lines, one `[global]` table, the managed
// keys first and all others in code-point order.
module TomlDocument {
  import opened Common
  import opened Joining
  import opened Toml
  import opened TomlRoundTrip

  // ---- Key order ----

  predicate Before(a: string, b: string) {
    |b| > 0 && (|a| == 0 || a[0] < b[0] || (a[0] == b[0] && Before(a[1..], b[1..])))
  }

  lemma {:induction false} BeforeIsTotal(a: string, b: string)
    ensures a == b || Before(a, b) || Before(b, a)
    ensures !(Before(a, b) && Before(b, a)) && !Before(a, a)
  {
    if |a| > 0 && |b| > 0 {
      BeforeIsTotal(a[1..], b[1..]);
      if a[0] == b[0] && a[1..] == b[1..] {
        assert a == [a[0]] + a[1..] && b == [b[0]] + b[1..];
      }
    }
    if |a| > 0 { BeforeIsTotal(a[1..], a[1..]); }
  }

  lemma {:induction false} BeforeIsTransitive(a: string, b: string, c: string)
    requires Before(a, b) && Before(b, c)
    ensures Before(a, c)
  {
    if |a| > 0 && a[0] == b[0] == c[0] {
      BeforeIsTransitive(a[1..], b[1..], c[1..]);
    }
  }

  predicate IsLeast(k: string, keys: set<string>) {
    k in keys && forall j :: j in keys && j != k ==> Before(k, j)
  }

  lemma {:induction false} LeastExists(keys: set<string>)
    requires keys != {}
    ensures exists k :: IsLeast(k, keys)
    decreases |keys|
  {
    var x :| x in keys;
    if keys == {x} {
      assert IsLeast(x, keys);
    } else {
      LeastExists(keys - {x});
      var rest :| IsLeast(rest, keys - {x});
      BeforeIsTotal(x, rest);
      var k := if Before(x, rest) then x else rest;
      forall j | j in keys && j != k ensures Before(k, j) {
        if k == x && j != rest { BeforeIsTransitive(x, rest, j); }
      }
      assert IsLeast(k, keys);
    }
  }

  lemma LeastIsUnique(a: string, b: string, keys: set<string>)
    requires IsLeast(a, keys) && IsLeast(b, keys)
    ensures a == b
  {
    BeforeIsTotal(a, b);
  }

  ghost function Least(keys: set<string>): (k: string)
    requires keys != {}
    ensures IsLeast(k, keys)
  {
    LeastExists(keys);
    var k :| IsLeast(k, keys);
    k
  }

  ghost function Sorted(keys: set<string>): (order: seq<string>)
    ensures forall k :: k in order <==> k in keys
    decreases |keys|
  {
    if keys == {} then [] else [Least(keys)] + Sorted(keys - {Least(keys)})
  }

  // The members of order that are, or are not, wanted.
  function Among(order: seq<string>, keys: set<string>): seq<string> {
    if |order| == 0 then [] else (if order[0] in keys then [order[0]] else []) + Among(order[1..], keys)
  }

  function Elements(order: seq<string>): set<string> {
    set k | k in order
  }

  // The managed keys that are there in their own order, then the others in code-point order.
  ghost function KeyOrder(managed: seq<string>, keys: set<string>): seq<string> {
    var first := Among(managed, keys);
    first + Among(Sorted(keys), keys - Elements(first))
  }

  predicate Distinct(order: seq<string>) {
    |order| == 0 || (order[0] !in order[1..] && Distinct(order[1..]))
  }

  lemma {:induction false} AmongMembers(order: seq<string>, keys: set<string>)
    ensures forall k :: k in Among(order, keys) <==> k in order && k in keys
    ensures Distinct(order) ==> Distinct(Among(order, keys))
  {
    if |order| > 0 {
      AmongMembers(order[1..], keys);
      var rest := Among(order[1..], keys);
      assert ([order[0]] + rest)[1..] == rest;
      assert order == [order[0]] + order[1..];
      assert [] + rest == rest;
    }
  }

  lemma {:induction false} SortedIsDistinct(keys: set<string>)
    ensures Distinct(Sorted(keys))
    decreases |keys|
  {
    if keys != {} {
      SortedIsDistinct(keys - {Least(keys)});
      assert Sorted(keys)[1..] == Sorted(keys - {Least(keys)});
    }
  }

  lemma {:induction false} DistinctJoin(a: seq<string>, b: seq<string>)
    requires Distinct(a) && Distinct(b) && forall k :: k in a ==> k !in b
    ensures Distinct(a + b)
  {
    if |a| == 0 {
      assert a + b == b;
    } else {
      assert a[0] in a && forall k :: k in a[1..] ==> k in a;
      DistinctJoin(a[1..], b);
      assert (a + b)[0] == a[0] && (a + b)[1..] == a[1..] + b;
    }
  }

  // The written order names every key of the table once.
  lemma KeyOrderListsTheKeys(managed: seq<string>, keys: set<string>)
    ensures Distinct(managed) ==> Distinct(KeyOrder(managed, keys))
    ensures forall k :: k in KeyOrder(managed, keys) <==> k in keys
  {
    var first := Among(managed, keys);
    var others := keys - Elements(first);
    AmongMembers(managed, keys);
    SortedIsDistinct(keys);
    AmongMembers(Sorted(keys), others);
    if Distinct(managed) { DistinctJoin(first, Among(Sorted(keys), others)); }
  }

  // ---- The text ----

  function KvLines(order: seq<string>, t: Table): seq<string>
    requires forall k :: k in order ==> k in t
  {
    if |order| == 0 then [] else [EmitKv(order[0], t[order[0]])] + KvLines(order[1..], t)
  }

  function JoinLines(lines: seq<string>): string {
    if |lines| == 0 then "" else if |lines| == 1 then lines[0] else lines[0] + ("\n" + JoinLines(lines[1..]))
  }

  // Every line with its line feed.
  function Ended(lines: seq<string>): string {
    if |lines| == 0 then "" else lines[0] + ("\n" + Ended(lines[1..]))
  }

  ghost function TableText(head: seq<string>, managed: seq<string>, t: Table): string {
    KeyOrderListsTheKeys(managed, t.Keys);
    Ended(head + KvLines(KeyOrder(managed, t.Keys), t))
  }

  lemma {:induction false} JoinedThenEnded(lines: seq<string>)
    requires |lines| > 0
    ensures JoinLines(lines) + "\n" == Ended(lines)
  {
    if |lines| == 1 {
      assert Ended(lines[1..]) == "";
      assert "\n" + "" == "\n";
    } else {
      JoinedThenEnded(lines[1..]);
      Assoc(lines[0], "\n" + JoinLines(lines[1..]), "\n");
      Assoc("\n", JoinLines(lines[1..]), "\n");
    }
  }

  lemma {:induction false} EndedJoin(a: seq<string>, b: seq<string>)
    ensures Ended(a + b) == Ended(a) + Ended(b)
  {
    if |a| == 0 {
      assert a + b == b;
      assert "" + Ended(b) == Ended(b);
    } else {
      EndedJoin(a[1..], b);
      assert (a + b)[0] == a[0] && (a + b)[1..] == a[1..] + b;
      Assoc(a[0], "\n" + Ended(a[1..]), Ended(b));
      Assoc("\n", Ended(a[1..]), Ended(b));
    }
  }

  lemma {:induction false} KvLinesAppend(order: seq<string>, k: string, t: Table)
    requires k in t && forall j :: j in order ==> j in t
    ensures KvLines(order + [k], t) == KvLines(order, t) + [EmitKv(k, t[k])]
  {
    if |order| == 0 {
      assert order + [k] == [k] && [k][1..] == [];
    } else {
      KvLinesAppend(order[1..], k, t);
      assert (order + [k])[0] == order[0] && (order + [k])[1..] == order[1..] + [k];
    }
  }

  lemma ListAssoc(a: seq<string>, b: seq<string>, c: seq<string>)
    ensures (a + b) + c == a + (b + c)
  {
  }

  lemma {:induction false} AmongAppend(order: seq<string>, k: string, keys: set<string>)
    ensures Among(order + [k], keys) == Among(order, keys) + if k in keys then [k] else []
  {
    if |order| == 0 {
      assert order + [k] == [k] && [k][1..] == [];
    } else {
      AmongAppend(order[1..], k, keys);
      assert (order + [k])[0] == order[0] && (order + [k])[1..] == order[1..] + [k];
      ListAssoc(if order[0] in keys then [order[0]] else [], Among(order[1..], keys), if k in keys then [k] else []);
    }
  }

  lemma NextKey(passed: seq<string>, left: set<string>, all: seq<string>, key: string)
    requires IsLeast(key, left) && passed + Sorted(left) == all
    ensures (passed + [key]) + Sorted(left - {key}) == all
    ensures |left - {key}| < |left|
  {
    LeastIsUnique(Least(left), key, left);
    assert Sorted(left) == [key] + Sorted(left - {key});
  }

  lemma ElementsGrow(order: seq<string>, k: string)
    ensures Elements(order + [k]) == Elements(order) + {k}
  {
  }

  lemma WrittenStep(first: seq<string>, passed: seq<string>, key: string, keys: set<string>)
    ensures first + Among(passed + [key], keys)
         == if key in keys then (first + Among(passed, keys)) + [key] else first + Among(passed, keys)
  {
    AmongAppend(passed, key, keys);
    ListAssoc(first, Among(passed, keys), if key in keys then [key] else []);
  }

  // Appends the managed keys that are there, remembering which.
  method EmitManaged(head: seq<string>, managed: seq<string>, t: Table)
      returns (lines: seq<string>, seen: set<string>)
    ensures seen == Elements(Among(managed, t.Keys))
    ensures seen <= t.Keys
    ensures lines == head + KvLines(Among(managed, t.Keys), t)
  {
    AmongMembers(managed, t.Keys);
    lines, seen := head, {};
    ghost var written := [];
    for i := 0 to |managed|
      invariant written == Among(managed[..i], t.Keys)
      invariant seen == Elements(written)
      invariant seen <= t.Keys
      invariant forall k :: k in written ==> k in t
      invariant lines == head + KvLines(written, t)
    {
      var key := managed[i];
      assert managed[..i + 1] == managed[..i] + [key];
      AmongAppend(managed[..i], key, t.Keys);
      if key in t {
        KvLinesAppend(written, key, t);
        ListAssoc(head, KvLines(written, t), [EmitKv(key, t[key])]);
        lines := lines + [EmitKv(key, t[key])];
        ElementsGrow(written, key);
        seen := seen + {key};
        written := written + [key];
      }
    }
    assert managed[..|managed|] == managed;
  }

  // Appends the managed keys, then all keys in order that were not seen yet.
  method EmitTable(head: seq<string>, managed: seq<string>, t: Table) returns (text: string)
    requires |head| > 0
    ensures text == TableText(head, managed, t)
  {
    KeyOrderListsTheKeys(managed, t.Keys);
    AmongMembers(managed, t.Keys);
    hide EmitKv, Before, Distinct, Ended;
    var lines, seen := EmitManaged(head, managed, t);
    ghost var first := Among(managed, t.Keys);
    ghost var written := first;
    ghost var others := t.Keys - seen;
    var left := t.Keys;
    ghost var passed: seq<string> := [];
    while left != {}
      invariant left <= t.Keys
      invariant passed + Sorted(left) == Sorted(t.Keys)
      invariant written == first + Among(passed, others)
      invariant forall k :: k in written ==> k in t
      invariant lines == head + KvLines(written, t)
      decreases |left|
    {
      LeastExists(left);
      var key :| IsLeast(key, left);
      NextKey(passed, left, Sorted(t.Keys), key);
      WrittenStep(first, passed, key, others);
      if key !in seen {
        KvLinesAppend(written, key, t);
        ListAssoc(head, KvLines(written, t), [EmitKv(key, t[key])]);
        lines := lines + [EmitKv(key, t[key])];
        written := written + [key];
      }
      passed := passed + [key];
      left := left - {key};
    }
    assert passed == Sorted(t.Keys);
    JoinedThenEnded(lines);
    text := JoinLines(lines) + "\n";
  }

  // ---- Reading it back ----

  ghost predicate CleanTable(t: Table) {
    forall k :: k in t ==> CleanValue(t[k])
  }

  ghost predicate BareKeys(t: Table) {
    forall k :: k in t ==> BareKey(k)
  }

  function CoercedTable(t: Table): Table {
    map k | k in t :: Coerced(t[k])
  }

  const GLOBAL := "global"

  // The table once the lines of order have been read into it.
  function Filled(base: Table, order: seq<string>, t: Table): Table
    requires forall k :: k in order ==> k in t
    decreases |order|
  {
    if |order| == 0 then base else Filled(base[order[0] := Coerced(t[order[0]])], order[1..], t)
  }

  predicate CleanAt(order: seq<string>, t: Table)
    requires forall k :: k in order ==> k in t
  {
    forall i :: 0 <= i < |order| ==> CleanValue(t[order[i]])
  }

  lemma {:induction false} ReadLines(order: seq<string>, t: Table, doc: Document)
    requires BareKeys(t) && Distinct(order) && GLOBAL in doc
    requires forall k :: k in order ==> k in t && k !in doc[GLOBAL]
    ensures ParseLines(Ended(KvLines(order, t)), doc, GLOBAL)
         == if CleanAt(order, t) then Some(doc[GLOBAL := Filled(doc[GLOBAL], order, t)]) else None
    decreases |order|
  {
    hide EmitKv, CleanValue, Coerced, BareKey;
    if |order| == 0 {
      assert doc[GLOBAL := doc[GLOBAL]] == doc;
    } else {
      var k, rest := order[0], order[1..];
      var v := t[k];
      var lines := KvLines(rest, t);
      assert ([EmitKv(k, v)] + lines)[1..] == lines;
      ParseEmittedLine(k, v, Ended(lines), doc, GLOBAL);
      assert CleanAt(order, t) <==> CleanValue(v) && CleanAt(rest, t) by {
        if CleanValue(v) && CleanAt(rest, t) {
          forall i | 0 <= i < |order| ensures CleanValue(t[order[i]]) { if i > 0 { assert order[i] == rest[i - 1]; } }
        }
        if CleanAt(order, t) {
          forall i | 0 <= i < |rest| ensures CleanValue(t[rest[i]]) { assert rest[i] == order[i + 1]; }
        }
      }
      if CleanValue(v) {
        var next := doc[GLOBAL := doc[GLOBAL][k := Coerced(v)]];
        ReadLines(rest, t, next);
        assert next[GLOBAL := Filled(next[GLOBAL], rest, t)] == doc[GLOBAL := Filled(next[GLOBAL], rest, t)];
      }
    }
  }

  lemma {:induction false} FilledIs(base: Table, order: seq<string>, t: Table)
    requires forall k :: k in order ==> k in t
    ensures Filled(base, order, t) == base + map k | k in order :: Coerced(t[k])
    decreases |order|
  {
    if |order| > 0 {
      FilledIs(base[order[0] := Coerced(t[order[0]])], order[1..], t);
    }
  }

  // The lines of a table can be read exactly when every value is clean, and then give the
  // table back with list items turned into strings and nothing else changed.
  lemma {:induction false} ReadTable(order: seq<string>, t: Table, doc: Document)
    requires BareKeys(t) && Distinct(order) && GLOBAL in doc && doc[GLOBAL] == map[]
    requires forall k :: k in order <==> k in t
    ensures ParseLines(Ended(KvLines(order, t)), doc, GLOBAL)
         == if CleanTable(t) then Some(doc[GLOBAL := CoercedTable(t)]) else None
  {
    ReadLines(order, t, doc);
    if CleanAt(order, t) {
      forall k | k in t ensures CleanValue(t[k]) { assert k in order; }
    }
    FilledIs(map[], order, t);
    assert Filled(map[], order, t) == CoercedTable(t);
  }

  lemma {:induction false} TextsAgain(items: seq<Scalar>)
    ensures EmitItems(Texts(items)) == EmitItems(items) && |Texts(items)| == |items|
    ensures CleanItems(Texts(items)) <==> CleanItems(items)
    ensures Texts(Texts(items)) == Texts(items)
  {
    if |items| > 0 {
      TextsAgain(items[1..]);
      assert Texts(items)[1..] == Texts(items[1..]);
    }
  }

  lemma CoercedAgain(v: Value)
    ensures EmitValue(Coerced(v)) == EmitValue(v)
    ensures CleanValue(Coerced(v)) <==> CleanValue(v)
    ensures Coerced(Coerced(v)) == Coerced(v)
  {
    if v.Many? { TextsAgain(v.items); }
  }

  lemma {:induction false} SameLines(order: seq<string>, t: Table)
    requires forall k :: k in order ==> k in t
    ensures KvLines(order, CoercedTable(t)) == KvLines(order, t)
  {
    if |order| > 0 {
      CoercedAgain(t[order[0]]);
      SameLines(order[1..], t);
    }
  }

  // Writing what was read back gives the same text.
  lemma RewritingIsIdempotent(head: seq<string>, managed: seq<string>, t: Table)
    ensures TableText(head, managed, CoercedTable(t)) == TableText(head, managed, t)
  {
    KeyOrderListsTheKeys(managed, t.Keys);
    assert CoercedTable(t).Keys == t.Keys;
    SameLines(KeyOrder(managed, t.Keys), t);
  }
}

// The federation file as it stands: its comment lines, its table header and its managed keys.
module FederationText {
  import opened Common
  import opened Joining
  import opened Toml
  import opened TomlRoundTrip
  import opened TomlDocument

  const ALLOW := "allow_federation"
  const FORBIDDEN := "forbidden_remote_server_names"
  const ALLOWED := "allowed_remote_server_names"
  const MANAGED := [ALLOW, FORBIDDEN, ALLOWED]

  const COMMENT0 := " Tuwunel runtime " + ("configuration \U{2014} " + "federation settings")
  const COMMENT1 := " Managed by the Concord" + (" admin UI. Hand edits" + " to [global] keys")
  const COMMENT2 := " will be overwritten" + (" on the next federation" + " allowlist update.")

  const HEAD := ["#" + COMMENT0, "#" + COMMENT1, "#" + COMMENT2, "", "[global]"]

  ghost function Text(t: Table): string {
    TableText(HEAD, MANAGED, t)
  }

  method EmitToml(t: Table) returns (text: string)
    ensures text == Text(t)
  {
    text := EmitTable(HEAD, MANAGED, t);
  }

  lemma ThreeDistinct(a: string, b: string, c: string)
    requires a != b && a != c && b != c
    ensures Distinct([a, b, c])
  {
    assert [a, b, c][1..] == [b, c] && [b, c][1..] == [c] && [c][1..] == [];
    assert Distinct([]) && Distinct([c]);
    assert Distinct([b, c]);
  }

  lemma ManagedAreDistinct()
    ensures Distinct(MANAGED)
  {
    assert |ALLOW| == 16 && |FORBIDDEN| == 29 && |ALLOWED| == 27;
    ThreeDistinct(ALLOW, FORBIDDEN, ALLOWED);
  }

  lemma CleanJoin(a: string, b: string, c: string)
    requires Clean(a) && Clean(b) && Clean(c)
    ensures Clean(a + (b + c))
  {
  }

  lemma FirstCommentIsClean()
    ensures Clean(COMMENT0)
  {
    CleanJoin(" Tuwunel runtime ", "configuration \U{2014} ", "federation settings");
  }

  lemma SecondCommentIsClean()
    ensures Clean(COMMENT1)
  {
    CleanJoin(" Managed by the Concord", " admin UI. Hand edits", " to [global] keys");
  }

  lemma ThirdCommentIsClean()
    ensures Clean(COMMENT2)
  {
    CleanJoin(" will be overwritten", " on the next federation", " allowlist update.");
  }

  lemma EndedSplit(line: string, lines: seq<string>, rest: string)
    ensures Ended([line] + lines) + rest == line + ("\n" + (Ended(lines) + rest))
  {
    assert ([line] + lines)[1..] == lines;
    Assoc(line, "\n" + Ended(lines), rest);
    Assoc("\n", Ended(lines), rest);
  }

  // Reads three comment lines, an empty one and the table header, whatever the comments say.
  lemma {:induction false} ReadHead(c0: string, c1: string, c2: string, rest: string, doc: Document)
    requires Clean(c0) && Clean(c1) && Clean(c2) && doc == map[ROOT := map[]]
    ensures ParseLines(Ended(["#" + c0, "#" + c1, "#" + c2, "", "[global]"]) + rest, doc, ROOT)
         == ParseLines(rest, doc[GLOBAL := map[]], GLOBAL)
  {
    var l4 := ["[global]"];
    var l3 := [""] + l4;
    var l2 := ["#" + c2] + l3;
    var l1 := ["#" + c1] + l2;
    assert ["#" + c0, "#" + c1, "#" + c2, "", "[global]"] == ["#" + c0] + l1;
    EndedSplit("#" + c0, l1, rest);
    EndedSplit("#" + c1, l2, rest);
    EndedSplit("#" + c2, l3, rest);
    EndedSplit("", l4, rest);
    ReadComment(c0, Ended(l1) + rest, doc);
    ReadComment(c1, Ended(l2) + rest, doc);
    ReadComment(c2, Ended(l3) + rest, doc);
    ReadHeader(rest, doc);
    var blank := "\n" + (Ended(l4) + rest);
    assert "" + blank == blank;
    Uncons('\n', Ended(l4) + rest);
  }

  lemma ReadComment(c: string, rest: string, doc: Document)
    requires Clean(c) && ROOT in doc
    ensures ParseLines(("#" + c) + ("\n" + rest), doc, ROOT) == ParseLines(rest, doc, ROOT)
  {
    Assoc("#", c, "\n" + rest);
    ParseCommentLine(c, rest, doc, ROOT);
  }

  lemma ReadHeader(rest: string, doc: Document)
    requires doc == map[ROOT := map[]]
    ensures ParseLines(Ended(["[global]"]) + rest, doc, ROOT) == ParseLines(rest, doc[GLOBAL := map[]], GLOBAL)
  {
    EndedSplit("[global]", [], rest);
    assert ["[global]"] + [] == ["[global]"];
    assert Ended([]) + rest == rest;
    assert "[global]" == "[" + (GLOBAL + "]");
    Assoc("[", GLOBAL + "]", "\n" + rest);
    Assoc(GLOBAL, "]", "\n" + rest);
    assert BareKey(GLOBAL);
    ParseHeaderLine(GLOBAL, rest, doc, ROOT);
  }

  // The written file can be read exactly when every value of the table is clean, and then it
  // holds the one table `global`, with list items turned into strings and nothing else changed.
  lemma WrittenFileReadsBack(t: Table)
    requires BareKeys(t)
    ensures ParseToml(Text(t))
         == if CleanTable(t) then Some(map[ROOT := map[], GLOBAL := CoercedTable(t)]) else None
  {
    ManagedAreDistinct();
    FirstCommentIsClean();
    SecondCommentIsClean();
    ThirdCommentIsClean();
    hide Clean;
    forall rest ensures ParseLines(Ended(HEAD) + rest, map[ROOT := map[]], ROOT)
                     == ParseLines(rest, map[ROOT := map[]][GLOBAL := map[]], GLOBAL) {
      ReadHead(COMMENT0, COMMENT1, COMMENT2, rest, map[ROOT := map[]]);
    }
    ReadText(HEAD, MANAGED, t, map[ROOT := map[]]);
    assert map[ROOT := map[]][GLOBAL := map[]][GLOBAL := CoercedTable(t)]
        == map[ROOT := map[], GLOBAL := CoercedTable(t)];
  }

  lemma ReadText(head: seq<string>, managed: seq<string>, t: Table, start: Document)
    requires BareKeys(t) && Distinct(managed) && ROOT in start
    requires forall rest :: ParseLines(Ended(head) + rest, start, ROOT) == ParseLines(rest, start[GLOBAL := map[]], GLOBAL)
    ensures ParseLines(TableText(head, managed, t), start, ROOT)
         == if CleanTable(t) then Some(start[GLOBAL := map[]][GLOBAL := CoercedTable(t)]) else None
  {
    var order := KeyOrder(managed, t.Keys);
    KeyOrderListsTheKeys(managed, t.Keys);
    EndedJoin(head, KvLines(order, t));
    ReadTable(order, t, start[GLOBAL := map[]]);
  }
}
