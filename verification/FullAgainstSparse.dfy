/** Full flattening against direct path lookup. */
module FullAgainstSparse {
  import opened Wrappers
  import opened Text
  import opened Values
  import opened MsgIr

  /** No key of an object, at any depth reached through objects, holds a dot or is listed twice. */
  ghost predicate PlainKeys(p: Payload)
    decreases p
  {
    p.PObject? ==>
      && Distinct(p.entries)
      && forall i :: 0 <= i < |p.entries| ==> '.' !in p.entries[i].0 && PlainKeys(p.entries[i].1)
  }

  ghost function WalkPayload(p: Payload, segments: seq<string>): Option<Payload>
    decreases |segments|
  {
    if segments == [] then Some(p)
    else if p.PObject? then WalkMembers(p.entries, segments)
    else None
  }

  ghost function WalkMembers(entries: seq<(string, Payload)>, segments: seq<string>): Option<Payload>
    requires segments != []
    decreases |segments|, 0
  {
    if Get(entries, segments[0]).Some? then WalkPayload(Get(entries, segments[0]).value, segments[1..]) else None
  }

  function At(store: Fields, key: string): Option<Payload> {
    if key in store then Some(store[key]) else None
  }

  // ----- what flattening writes -----

  /** The last value written for a text: that of the last member path, in entry order, whose names joined by dots
      spell it, among the first n members. */
  ghost function Spelled(whole: Payload, n: nat, text: string): Option<Payload>
    requires whole.PObject? && n <= |whole.entries|
    decreases whole, n
  {
    if n == 0 then None
    else
      var (name, value) := whole.entries[n - 1];
      if SpelledBelow(name, value, text).Some? then SpelledBelow(name, value, text) else Spelled(whole, n - 1, text)
  }

  /** The last value written for a text by one member: below it, or the member itself. */
  ghost function SpelledBelow(name: string, value: Payload, text: string): Option<Payload>
    decreases value, if value.PObject? then |value.entries| + 1 else 0
  {
    if text == name then Some(value)
    else if value.PObject? && name + "." <= text then Spelled(value, |value.entries|, text[|name| + 1..])
    else None
  }

  /** A flattened value answers for what it spells; all other keys keep what they had. */
  lemma {:induction false} FlattenValueAt(store: Fields, prefix: string, name: string, value: Payload, key: string)
    ensures At(FlattenValue(store, prefix + name, value), key) ==
            if prefix <= key && SpelledBelow(name, value, key[|prefix|..]).Some? then
              SpelledBelow(name, value, key[|prefix|..])
            else At(store, key)
    decreases value, if value.PObject? then |value.entries| + 1 else 0
  {
    var path := prefix + name;
    PrefixOfPath(prefix, name, key);
    assert key == path <==> prefix <= key && key[|prefix|..] == name;
    if value.PObject? {
      FlattenMembersAt(store[path := value], path + ".", value, |value.entries|, key);
      if path + "." <= key {
        assert key[|path| + 1..] == key[|prefix|..][|name| + 1..];
      }
    }
  }

  lemma PrefixOfPath(prefix: string, name: string, key: string)
    ensures prefix + name + "." <= key <==> prefix <= key && name + "." <= key[|prefix|..]
  {
    if prefix + name + "." <= key {
      assert key == prefix + (name + ".") + key[|prefix| + |name| + 1..];
    }
  }

  /** Whatever the keys, the store of a flattened object holds under each key the last value spelled by it, or what
      was there before. */
  lemma {:induction false} FlattenMembersAt(store: Fields, prefix: string, whole: Payload, n: nat, key: string)
    requires whole.PObject? && n <= |whole.entries|
    ensures At(FlattenMembers(store, prefix, whole, n), key) ==
            if prefix <= key && Spelled(whole, n, key[|prefix|..]).Some? then Spelled(whole, n, key[|prefix|..])
            else At(store, key)
    decreases whole, n
  {
    if n > 0 {
      var (name, value) := whole.entries[n - 1];
      FlattenMembersAt(store, prefix, whole, n - 1, key);
      FlattenValueAt(FlattenMembers(store, prefix, whole, n - 1), prefix, name, value, key);
    }
  }

  // ----- member paths -----

  /** No object, at any depth reached through objects, lists a key twice. */
  ghost predicate DistinctMembers(p: Payload)
    decreases p
  {
    p.PObject? ==> Distinct(p.entries) && forall i :: 0 <= i < |p.entries| ==> DistinctMembers(p.entries[i].1)
  }

  /** A member is what its name gets. */
  lemma {:induction false} GetMember<V>(entries: seq<(string, V)>, i: nat)
    requires Distinct(entries) && i < |entries|
    ensures Get(entries, entries[i].0) == Some(entries[i].1)
  {
    if i > 0 {
      assert entries[0].0 != entries[i].0;
      GetMember(entries[1..], i - 1);
    }
  }

  lemma JoinFirst(names: seq<string>)
    requires |names| >= 2
    ensures Join(names, '.') == names[0] + "." + Join(names[1..], '.')
    ensures Join(names, '.')[|names[0]| + 1..] == Join(names[1..], '.')
  {}

  /** What is spelled is the value of a member path that spells it. */
  lemma {:induction false} SpelledIsPath(whole: Payload, n: nat, text: string) returns (names: seq<string>)
    requires whole.PObject? && n <= |whole.entries| && DistinctMembers(whole) && Spelled(whole, n, text).Some?
    ensures names != [] && Join(names, '.') == text && WalkPayload(whole, names) == Spelled(whole, n, text)
    decreases whole, n
  {
    var (name, value) := whole.entries[n - 1];
    GetMember(whole.entries, n - 1);
    if SpelledBelow(name, value, text).None? {
      names := SpelledIsPath(whole, n - 1, text);
    } else if text == name {
      names := [name];
      assert WalkPayload(value, names[1..]) == Some(value);
    } else {
      var rest := SpelledIsPath(value, |value.entries|, text[|name| + 1..]);
      names := [name] + rest;
      assert names[1..] == rest;
      JoinFirst(names);
    }
  }

  /** A member path is spelled, by itself or by a later one. */
  lemma {:induction false} PathIsSpelled(whole: Payload, n: nat, i: nat, names: seq<string>)
    requires whole.PObject? && i < n <= |whole.entries| && names != [] && names[0] == whole.entries[i].0
    requires WalkPayload(whole.entries[i].1, names[1..]).Some?
    ensures Spelled(whole, n, Join(names, '.')).Some?
    decreases whole, n
  {
    var text := Join(names, '.');
    if i < n - 1 {
      PathIsSpelled(whole, n - 1, i, names);
    } else if |names| >= 2 {
      JoinFirst(names);
      var value := whole.entries[i].1;
      var j := MemberIndex(value.entries, names[1]);
      PathIsSpelled(value, |value.entries|, j, names[1..]);
    }
  }

  lemma {:induction false} MemberIndex<V>(entries: seq<(string, V)>, name: string) returns (i: nat)
    requires Get(entries, name).Some?
    ensures i < |entries| && entries[i] == (name, Get(entries, name).value)
  {
    i := 0;
    if entries[0].0 != name {
      i := MemberIndex(entries[1..], name);
      i := i + 1;
    }
  }

  lemma {:induction false} WalkConverts(j: Json, segments: seq<string>)
    ensures Converted(Walk(j, segments)) == WalkPayload(FromJson(j), segments)
    decreases |segments|
  {
    if segments != [] && j.Object? {
      var i := GetMapped(j.entries, FromJson(j).entries, segments[0]);
      if Get(j.entries, segments[0]).Some? {
        WalkConverts(Get(j.entries, segments[0]).value, segments[1..]);
      }
    }
  }

  // ----- when the two agree -----

  ghost predicate AgreeOnAllKeys(entries: seq<(string, Json)>) {
    forall key ::
      At(FlattenMembers(map[], "", FromJson(Object(entries)), |entries|), key) == FieldAtPath(entries, key)
  }

  ghost predicate HoldsDot(names: seq<string>) {
    exists i :: 0 <= i < |names| && '.' in names[i]
  }

  /** Whatever a member path with a dot in a name spells, the last value so spelled is where the text leads. */
  ghost predicate DottedPathsAgree(whole: Payload)
    requires whole.PObject?
  {
    forall names ::
      names != [] && HoldsDot(names) && WalkPayload(whole, names).Some? ==> SpelledWhereItLeads(whole, Join(names, '.'))
  }

  ghost predicate SpelledWhereItLeads(whole: Payload, text: string)
    requires whole.PObject?
  {
    Spelled(whole, |whole.entries|, text) == WalkPayload(whole, Split(text, '.'))
  }

  lemma FlattenedAt(entries: seq<(string, Json)>, key: string)
    ensures var whole := FromJson(Object(entries));
            && At(FlattenMembers(map[], "", whole, |entries|), key) == Spelled(whole, |entries|, key)
            && FieldAtPath(entries, key) == WalkPayload(whole, Split(key, '.'))
  {
    FlattenMembersAt(map[], "", FromJson(Object(entries)), |entries|, key);
    assert key[0..] == key;
    WalkConverts(Object(entries), Split(key, '.'));
  }

  /** Where a text leads is spelled by it. */
  lemma LedIsSpelled(whole: Payload, text: string)
    requires whole.PObject? && WalkPayload(whole, Split(text, '.')).Some?
    ensures Spelled(whole, |whole.entries|, text).Some?
  {
    var names := Split(text, '.');
    JoinSplit(text, '.');
    var i := MemberIndex(whole.entries, names[0]);
    PathIsSpelled(whole, |whole.entries|, i, names);
  }

  /** Full flattening and direct path lookup agree on every key if and only if every dotted member path spells what
      its text leads to. */
  lemma FullAgreesIff(entries: seq<(string, Json)>)
    requires DistinctMembers(FromJson(Object(entries)))
    ensures AgreeOnAllKeys(entries) <==> DottedPathsAgree(FromJson(Object(entries)))
  {
    var whole := FromJson(Object(entries));
    forall key
      ensures At(FlattenMembers(map[], "", whole, |entries|), key) == FieldAtPath(entries, key) <==>
              SpelledWhereItLeads(whole, key)
    {
      FlattenedAt(entries, key);
    }
    if DottedPathsAgree(whole) {
      forall key ensures SpelledWhereItLeads(whole, key) {
        if Spelled(whole, |entries|, key).None? {
          if WalkPayload(whole, Split(key, '.')).Some? { LedIsSpelled(whole, key); }
        } else {
          var names := SpelledIsPath(whole, |entries|, key);
          if !HoldsDot(names) { SplitJoinFree(names, '.'); }
        }
      }
    }
  }

  /** Parsed objects list no key twice, so the equivalence is about every parsed object. */
  lemma {:induction false} ParsedIsDistinct(j: Json)
    requires SoundJson(j)
    ensures DistinctMembers(FromJson(j))
    decreases j
  {
    if j.Object? {
      forall i | 0 <= i < |j.entries| ensures DistinctMembers(FromJson(j.entries[i].1)) {
        ParsedIsDistinct(j.entries[i].1);
      }
    }
  }

  lemma {:induction false} PlainPaths(whole: Payload, names: seq<string>)
    requires PlainKeys(whole) && WalkPayload(whole, names).Some?
    ensures DistinctMembers(whole) && !HoldsDot(names)
    decreases |names|
  {
    PlainIsDistinct(whole);
    if names != [] {
      var i := MemberIndex(whole.entries, names[0]);
      PlainPaths(whole.entries[i].1, names[1..]);
      forall k | 0 <= k < |names| ensures '.' !in names[k] {
        assert k > 0 ==> names[k] == names[1..][k - 1];
      }
    }
  }

  lemma {:induction false} PlainIsDistinct(p: Payload)
    requires PlainKeys(p)
    ensures DistinctMembers(p)
    decreases p
  {
    if p.PObject? {
      forall i | 0 <= i < |p.entries| ensures DistinctMembers(p.entries[i].1) { PlainIsDistinct(p.entries[i].1); }
    }
  }

  /** In particular they agree on every key of objects whose keys hold no dot. */
  lemma FullAgrees(entries: seq<(string, Json)>, key: string)
    requires PlainKeys(FromJson(Object(entries)))
    ensures At(FlattenMembers(map[], "", FromJson(Object(entries)), |entries|), key) == FieldAtPath(entries, key)
  {
    var whole := FromJson(Object(entries));
    PlainIsDistinct(whole);
    forall names | names != [] && WalkPayload(whole, names).Some? ensures !HoldsDot(names) {
      PlainPaths(whole, names);
    }
    FullAgreesIff(entries);
    assert AgreeOnAllKeys(entries);
  }

  /** With a dot in a key the two differ: {"a.b": null} holds "a.b" when flattened, but its path leads nowhere. */
  lemma DottedKeyDiffers()
    ensures var entries := [("a.b", Null)];
            && At(FlattenMembers(map[], "", FromJson(Object(entries)), 1), "a.b") == Some(PNull)
            && FieldAtPath(entries, "a.b") == None
  {
    var entries := [("a.b", Null)];
    assert FromJson(Object(entries)).entries[0] == ("a.b", PNull);
    assert FlattenMembers(map[], "", FromJson(Object(entries)), 0) == map[];
    assert "" + "a.b" == "a.b";
    SplitFree("a", '.');
    SplitFree("b", '.');
    SplitHead("a", "b", '.');
    assert "a" + ['.'] + "b" == "a.b";
  }

  function Nested(): seq<(string, Json)> {
    [("a", Object([("b", Null)])), ("a.b", Null)]
  }

  lemma NestedFlattens()
    ensures FlattenMembers(map[], "", FromJson(Object(Nested())), 2) ==
            map["a" := FromJson(Nested()[0].1), "a.b" := PNull]
  {
    var whole, inner := FromJson(Object(Nested())), FromJson(Nested()[0].1);
    assert inner.entries == [("b", PNull)] && FromJson(Null) == PNull;
    assert whole.entries[0] == ("a", inner) && whole.entries[1] == ("a.b", PNull);
    var first: Fields := map["a" := inner];
    assert FlattenMembers(first, "a.", inner, 0) == first && "a." + inner.entries[0].0 == "a.b";
    assert FlattenMembers(first, "a.", inner, 1) == first["a.b" := PNull];
    assert "" + whole.entries[0].0 == "a" && "a" + "." == "a.";
    assert FlattenMembers(map[], "", whole, 0) == map[];
    var one := FlattenMembers(map[], "", whole, 1);
    assert one == FlattenValue(map[], "a", inner) == first["a.b" := PNull];
    assert "" + whole.entries[1].0 == "a.b";
    assert FlattenMembers(map[], "", whole, 2) == FlattenValue(one, "a.b", PNull) == one;
  }

  lemma NestedLookup(segments: seq<string>)
    requires segments != [] && segments[0] != "a.b"
    ensures LookupPath(Nested(), segments) ==
            if segments == ["a"] then Some(Nested()[0].1) else if segments == ["a", "b"] then Some(Null) else None
  {
    var found := LookupPath(Nested(), segments);
    if segments[0] == "a" {
      assert Get(Nested(), "a") == Some(Nested()[0].1);
      if |segments| > 1 {
        assert found == Walk(Nested()[0].1, segments[1..]);
        if segments[1] == "b" {
          assert found == Walk(Null, segments[1..][1..]);
          assert |segments| == 2 ==> segments == ["a", "b"];
        }
      } else {
        assert segments == ["a"];
      }
    } else {
      assert Get(Nested(), segments[0]) == None;
    }
  }

  /** A dotted key can also do no harm: {"a": {"b": null}, "a.b": null} agrees on every key. */
  lemma DottedKeyCanAgree(key: string)
    ensures At(FlattenMembers(map[], "", FromJson(Object(Nested())), 2), key) == FieldAtPath(Nested(), key)
  {
    NestedFlattens();
    var segments := Split(key, '.');
    SplitPartsAreFree(key, '.');
    JoinSplit(key, '.');
    SplitFree("a", '.');
    SplitFree("b", '.');
    SplitHead("a", "b", '.');
    assert "a" + ['.'] + "b" == "a.b";
    assert '.' in "a.b" && segments[0] != "a.b";
    assert key == "a" <==> segments == ["a"];
    assert key == "a.b" <==> segments == ["a", "b"];
    NestedLookup(segments);
  }
}
