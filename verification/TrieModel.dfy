/** The topic trie as a value: what insertion, pruning removal and matching compute. */
module TrieModel {
  import opened Wrappers
  import opened Text
  import opened Topics

  datatype Trie = Node(children: map<string, Trie>, plus: Option<Trie>, hash: Option<Trie>, rules: set<nat>)

  const EMPTY := Node(map[], None, None, {})

  /** The subtrie under an edge; the levels `+` and `#` name the two wildcard edges. */
  function Child(t: Trie, level: string): (child: Option<Trie>)
    ensures child.Some? ==> child.value < t
  {
    if level == "+" then t.plus
    else if level == "#" then t.hash
    else if level in t.children then Some(t.children[level])
    else None
  }

  function WithChild(t: Trie, level: string, child: Option<Trie>): (r: Trie)
    ensures r.rules == t.rules
    ensures forall l :: Child(r, l) == if l == level then child else Child(t, l)
  {
    if level == "+" then t.(plus := child)
    else if level == "#" then t.(hash := child)
    else match child
      case Some(c) => t.(children := t.children[level := c])
      case None => t.(children := t.children - {level})
  }

  predicate IsEmpty(t: Trie) {
    t == EMPTY
  }

  function ChildOrEmpty(t: Trie, level: string): Trie {
    match Child(t, level)
    case Some(c) => c
    case None => EMPTY
  }

  /** Insertion stops below the first `#`. */
  function Insert(t: Trie, levels: seq<string>, rule: nat): Trie
    decreases |levels|
  {
    if levels == [] then t.(rules := t.rules + {rule})
    else
      var child := ChildOrEmpty(t, levels[0]);
      var rest := if levels[0] == "#" then [] else levels[1..];
      WithChild(t, levels[0], Some(Insert(child, rest, rule)))
  }

  /** Removal walks every level and drops each subtrie it leaves empty. */
  function Remove(t: Trie, levels: seq<string>, rule: nat): Trie
    decreases |levels|
  {
    if levels == [] then t.(rules := t.rules - {rule})
    else
      match Child(t, levels[0])
      case None => t
      case Some(c) =>
        var c' := Remove(c, levels[1..], rule);
        WithChild(t, levels[0], if IsEmpty(c') then None else Some(c'))
  }

  /** The rules under the hash edge, under the plain edge and under the plus edge, level by level. */
  function Match(t: Trie, topic: seq<string>): set<nat>
    decreases t
  {
    (if t.hash.Some? then t.hash.value.rules else {}) +
    if topic == [] then t.rules
    else
      (if topic[0] in t.children then Match(t.children[topic[0]], topic[1..]) else {}) +
      (if t.plus.Some? then Match(t.plus.value, topic[1..]) else {})
  }

  /** The rules stored at the end of a path of edges. */
  ghost function At(t: Trie, path: seq<string>): set<nat>
    decreases |path|
  {
    if path == [] then t.rules
    else
      match Child(t, path[0])
      case None => {}
      case Some(c) => At(c, path[1..])
  }

  // ----- what every trie keeps -----

  /** Wildcards are never plain edges, and a hash edge leads to a leaf. */
  ghost predicate WellFormed(t: Trie) {
    && "+" !in t.children && "#" !in t.children
    && (t.hash.Some? ==> forall l :: Child(t.hash.value, l) == None)
    && forall l :: Child(t, l).Some? ==> WellFormed(Child(t, l).value)
  }

  /** No empty node below the root. */
  ghost predicate Pruned(t: Trie) {
    forall l :: Child(t, l).Some? ==> !IsEmpty(Child(t, l).value) && Pruned(Child(t, l).value)
  }

  lemma EmptyFacts(path: seq<string>)
    ensures WellFormed(EMPTY) && Pruned(EMPTY) && At(EMPTY, path) == {}
  {}

  lemma {:induction false} InsertKeeps(t: Trie, levels: seq<string>, rule: nat)
    requires WellFormed(t) && Pruned(t)
    ensures WellFormed(Insert(t, levels, rule)) && Pruned(Insert(t, levels, rule))
    ensures !IsEmpty(Insert(t, levels, rule))
    decreases |levels|
  {
    if levels != [] {
      var child := ChildOrEmpty(t, levels[0]);
      EmptyFacts([]);
      assert Child(t, levels[0]).Some? ==> child == Child(t, levels[0]).value;
      assert WellFormed(child) && Pruned(child);
      var rest := if levels[0] == "#" then [] else levels[1..];
      InsertKeeps(child, rest, rule);
      var t' := Insert(t, levels, rule);
      assert t' == WithChild(t, levels[0], Some(Insert(child, rest, rule)));
      assert Child(t', levels[0]).Some?;
      assert Child(EMPTY, levels[0]) == None;
      if levels[0] == "#" {
        assert forall l :: Child(child, l) == None;
        assert forall l :: Child(t'.hash.value, l) == Child(child, l);
      } else {
        assert t'.hash == Child(t', "#") == Child(t, "#") == t.hash;
      }
    } else {
      var t' := Insert(t, levels, rule);
      assert forall l :: Child(t', l) == Child(t, l);
      assert rule in t'.rules && rule !in EMPTY.rules;
    }
  }

  lemma {:induction false} RemoveKeeps(t: Trie, levels: seq<string>, rule: nat)
    requires WellFormed(t) && Pruned(t)
    ensures WellFormed(Remove(t, levels, rule)) && Pruned(Remove(t, levels, rule))
    ensures (forall l :: Child(t, l) == None) ==> forall l :: Child(Remove(t, levels, rule), l) == None
    decreases |levels|
  {
    var t' := Remove(t, levels, rule);
    if levels == [] {
      assert forall l :: Child(t', l) == Child(t, l);
    } else if Child(t, levels[0]).Some? {
      RemoveKeeps(Child(t, levels[0]).value, levels[1..], rule);
      assert t'.hash == Child(t', "#") && t.hash == Child(t, "#");
    }
  }

  // ----- what insertion and removal change -----

  lemma {:induction false} AtInsert(t: Trie, levels: seq<string>, rule: nat, path: seq<string>)
    ensures At(Insert(t, levels, rule), path) == At(t, path) + if path == Cut(levels) then {rule} else {}
    decreases |levels|
  {
    if levels != [] && path != [] && path[0] == levels[0] {
      var child := ChildOrEmpty(t, levels[0]);
      var rest := if levels[0] == "#" then [] else levels[1..];
      AtInsert(child, rest, rule, path[1..]);
      EmptyFacts(path[1..]);
      assert Cut(levels) == [levels[0]] + Cut(rest);
      assert path == [path[0]] + path[1..];
      assert path == Cut(levels) <==> path[1..] == Cut(rest);
    }
  }

  lemma {:induction false} AtRemove(t: Trie, levels: seq<string>, rule: nat, path: seq<string>)
    ensures At(Remove(t, levels, rule), path) == At(t, path) - if path == levels then {rule} else {}
    decreases |levels|
  {
    if levels != [] && path != [] && path[0] == levels[0] && Child(t, levels[0]).Some? {
      var c := Child(t, levels[0]).value;
      AtRemove(c, levels[1..], rule, path[1..]);
      EmptyFacts(path[1..]);
      assert path == levels <==> path[1..] == levels[1..] by {
        assert path == [path[0]] + path[1..] && levels == [levels[0]] + levels[1..];
      }
    }
  }

  // ----- matching is the linear matcher over the stored paths -----

  lemma {:induction false} MatchSound(t: Trie, topic: seq<string>, rule: nat) returns (path: seq<string>)
    requires WellFormed(t) && rule in Match(t, topic)
    ensures rule in At(t, path) && LevelsMatch(path, topic)
    decreases t
  {
    if t.hash.Some? && rule in t.hash.value.rules {
      path := ["#"];
      assert Child(t, "#") == t.hash;
      LevelsMatchStep(path, topic);
    } else if topic == [] {
      path := [];
      LevelsMatchStep(path, topic);
    } else {
      var edge := if topic[0] in t.children && rule in Match(t.children[topic[0]], topic[1..]) then topic[0] else "+";
      assert Child(t, edge).Some? && rule in Match(Child(t, edge).value, topic[1..]);
      var rest := MatchSound(Child(t, edge).value, topic[1..], rule);
      path := [edge] + rest;
      assert path[1..] == rest;
      LevelsMatchStep(path, topic);
    }
  }

  lemma LeafStores(t: Trie, path: seq<string>)
    requires forall l :: Child(t, l) == None
    ensures path != [] ==> At(t, path) == {}
  {}

  lemma {:induction false} MatchComplete(t: Trie, topic: seq<string>, rule: nat, path: seq<string>)
    requires WellFormed(t) && rule in At(t, path) && LevelsMatch(path, topic)
    ensures rule in Match(t, topic)
    decreases |path|
  {
    LevelsMatchStep(path, topic);
    if path != [] {
      var c := Child(t, path[0]).value;
      if path[0] == "#" {
        assert t.hash == Some(c);
        LeafStores(c, path[1..]);
      } else {
        MatchComplete(c, topic[1..], rule, path[1..]);
      }
    }
  }

  /** The rule is stored under a path that matches the topic. */
  ghost predicate StoredFor(t: Trie, topic: seq<string>, rule: nat) {
    exists path :: rule in At(t, path) && LevelsMatch(path, topic)
  }

  /** Matching answers with exactly the rules stored under some path that matches the topic. */
  lemma MatchIsLinear(t: Trie, topic: seq<string>, rule: nat)
    requires WellFormed(t)
    ensures rule in Match(t, topic) <==> StoredFor(t, topic, rule)
  {
    if rule in Match(t, topic) {
      var path := MatchSound(t, topic, rule);
    }
    if path :| rule in At(t, path) && LevelsMatch(path, topic) {
      MatchComplete(t, topic, rule, path);
    }
  }

  // ----- a pruned trie is determined by what it stores -----

  lemma {:induction false} NonEmptyStores(t: Trie) returns (path: seq<string>)
    requires WellFormed(t) && Pruned(t) && !IsEmpty(t)
    ensures At(t, path) != {}
    decreases t
  {
    if t.rules != {} {
      path := [];
    } else {
      var level := if t.plus.Some? then "+" else if t.hash.Some? then "#" else var l :| l in t.children; l;
      assert Child(t, level).Some?;
      var rest := NonEmptyStores(Child(t, level).value);
      path := [level] + rest;
      assert path[1..] == rest;
    }
  }

  lemma {:induction false} SameStoreSameTrie(t: Trie, u: Trie)
    requires WellFormed(t) && Pruned(t) && WellFormed(u) && Pruned(u)
    requires forall path :: At(t, path) == At(u, path)
    ensures t == u
    decreases t
  {
    assert At(t, []) == At(u, []);
    forall level
      ensures Child(t, level) == Child(u, level)
    {
      SameStoreSameChild(t, u, level);
    }
    assert Child(t, "+") == Child(u, "+") && Child(t, "#") == Child(u, "#");
    forall k
      ensures k in t.children <==> k in u.children
      ensures k in t.children ==> t.children[k] == u.children[k]
    {
      assert Child(t, k) == Child(u, k);
    }
    assert t.children == u.children;
  }

  lemma {:induction false} SameStoreSameChild(t: Trie, u: Trie, level: string)
    requires WellFormed(t) && Pruned(t) && WellFormed(u) && Pruned(u)
    requires forall path :: At(t, path) == At(u, path)
    ensures Child(t, level) == Child(u, level)
    decreases t, 0
  {
    var c, d := Child(t, level), Child(u, level);
    forall path
      ensures c.Some? ==> At(c.value, path) == At(t, [level] + path)
      ensures d.Some? ==> At(d.value, path) == At(u, [level] + path)
      ensures c == None ==> At(t, [level] + path) == {}
      ensures d == None ==> At(u, [level] + path) == {}
    {
      assert ([level] + path)[1..] == path;
    }
    if c.Some? {
      var path := NonEmptyStores(c.value);
      assert At(t, [level] + path) == At(u, [level] + path);
      assert d.Some?;
    }
    if d.Some? {
      var path := NonEmptyStores(d.value);
      assert At(t, [level] + path) == At(u, [level] + path);
      assert c.Some?;
      SameStoreSameTrie(c.value, d.value);
    }
  }

  // ----- removal against insertion -----

  /** On a pruned trie, removing a rule just inserted restores the trie exactly when `#` is only the last level. */
  lemma RemoveUndoesInsert(t: Trie, levels: seq<string>, rule: nat)
    requires WellFormed(t) && Pruned(t)
    requires rule !in At(t, Cut(levels))
    ensures Remove(Insert(t, levels, rule), levels, rule) == t <==> HashOnlyLast(levels)
  {
    CutFacts(levels, []);
    var t' := Insert(t, levels, rule);
    var t'' := Remove(t', levels, rule);
    InsertKeeps(t, levels, rule);
    RemoveKeeps(t', levels, rule);
    forall path
      ensures At(t'', path) == At(t, path) + (if path == Cut(levels) then {rule} else {}) -
              if path == levels then {rule} else {}
    {
      AtInsert(t, levels, rule, path);
      AtRemove(t', levels, rule, path);
    }
    if HashOnlyLast(levels) {
      SameStoreSameTrie(t'', t);
    } else {
      assert rule in At(t'', Cut(levels));
    }
  }

  // ----- whole histories -----

  datatype TrieStep = Inserted(filter: string, rule: nat) | Removed(filter: string, rule: nat)

  ghost function After(steps: seq<TrieStep>): Trie {
    if steps == [] then EMPTY
    else
      var t := After(steps[..|steps| - 1]);
      match steps[|steps| - 1]
      case Inserted(f, r) => Insert(t, Split(f, '/'), r)
      case Removed(f, r) => Remove(t, Split(f, '/'), r)
  }

  /** The (path, rule) pairs a history leaves behind: insertion cuts at the first `#`, removal does not. */
  ghost function Stored(steps: seq<TrieStep>): set<(seq<string>, nat)> {
    if steps == [] then {}
    else
      var s := Stored(steps[..|steps| - 1]);
      match steps[|steps| - 1]
      case Inserted(f, r) => s + {(Cut(Split(f, '/')), r)}
      case Removed(f, r) => s - {(Split(f, '/'), r)}
  }

  lemma {:induction false} HistoryKeeps(steps: seq<TrieStep>)
    ensures WellFormed(After(steps)) && Pruned(After(steps))
    ensures forall path, rule :: rule in At(After(steps), path) <==> (path, rule) in Stored(steps)
  {
    if steps == [] {
      forall path, rule ensures rule in At(After(steps), path) <==> (path, rule) in Stored(steps) {
        EmptyFacts(path);
      }
      EmptyFacts([]);
    } else {
      var before := steps[..|steps| - 1];
      HistoryKeeps(before);
      match steps[|steps| - 1]
      case Inserted(f, r) =>
        InsertKeeps(After(before), Split(f, '/'), r);
        forall path, rule ensures rule in At(After(steps), path) <==> (path, rule) in Stored(steps) {
          AtInsert(After(before), Split(f, '/'), r, path);
        }
      case Removed(f, r) =>
        RemoveKeeps(After(before), Split(f, '/'), r);
        forall path, rule ensures rule in At(After(steps), path) <==> (path, rule) in Stored(steps) {
          AtRemove(After(before), Split(f, '/'), r, path);
        }
    }
  }

  /** After any history the trie answers with exactly the rules stored under a matching path. */
  lemma HistoryMatches(steps: seq<TrieStep>, topic: string, rule: nat)
    ensures rule in Match(After(steps), Split(topic, '/')) <==>
            exists path :: (path, rule) in Stored(steps) && LevelsMatch(path, Split(topic, '/'))
  {
    var t, levels := After(steps), Split(topic, '/');
    HistoryKeeps(steps);
    MatchIsLinear(t, levels, rule);
    if path :| rule in At(t, path) && LevelsMatch(path, levels) {
      assert (path, rule) in Stored(steps) && LevelsMatch(path, levels);
    }
    if path :| (path, rule) in Stored(steps) && LevelsMatch(path, levels) {
      assert rule in At(t, path) && LevelsMatch(path, levels);
    }
  }

  /** Two histories that leave the same pairs behind build the same trie. */
  lemma OrderDoesNotMatter(steps: seq<TrieStep>, others: seq<TrieStep>)
    requires Stored(steps) == Stored(others)
    ensures After(steps) == After(others)
  {
    HistoryKeeps(steps);
    HistoryKeeps(others);
    forall path ensures At(After(steps), path) == At(After(others), path) {
      forall rule: nat ensures rule in At(After(steps), path) <==> rule in At(After(others), path) {
        assert (path, rule) in Stored(steps) <==> (path, rule) in Stored(others);
      }
      assert forall r :: r in At(After(steps), path) <==> r in At(After(others), path);
    }
    SameStoreSameTrie(After(steps), After(others));
  }

  /** The (filter, rule) pairs inserted and not removed since. */
  ghost function Held(steps: seq<TrieStep>): set<(string, nat)> {
    if steps == [] then {}
    else
      var s := Held(steps[..|steps| - 1]);
      match steps[|steps| - 1]
      case Inserted(f, r) => s + {(f, r)}
      case Removed(f, r) => s - {(f, r)}
  }

  ghost predicate FiltersHashOnlyLast(steps: seq<TrieStep>) {
    forall i :: 0 <= i < |steps| ==> HashOnlyLast(Split(steps[i].filter, '/'))
  }

  ghost predicate InsertsOnly(steps: seq<TrieStep>) {
    forall i :: 0 <= i < |steps| ==> steps[i].Inserted?
  }

  lemma {:induction false} StoredIsHeld(steps: seq<TrieStep>, path: seq<string>, rule: nat)
    requires FiltersHashOnlyLast(steps) || InsertsOnly(steps)
    ensures (path, rule) in Stored(steps) <==> exists f :: (f, rule) in Held(steps) && Cut(Split(f, '/')) == path
    ensures FiltersHashOnlyLast(steps) ==> forall h :: h in Held(steps) ==> HashOnlyLast(Split(h.0, '/'))
  {
    if steps != [] {
      var before, last := steps[..|steps| - 1], steps[|steps| - 1];
      assert forall i :: 0 <= i < |before| ==> before[i] == steps[i];
      StoredIsHeld(before, path, rule);
      match last
      case Inserted(f, r) =>
        if (path, rule) in Stored(steps) {
          if path == Cut(Split(f, '/')) && rule == r {
            assert (f, rule) in Held(steps);
          } else {
            var g :| (g, rule) in Held(before) && Cut(Split(g, '/')) == path;
            assert (g, rule) in Held(steps);
          }
        }
      case Removed(f, r) =>
        assert HashOnlyLast(Split(f, '/'));
        CutFacts(Split(f, '/'), []);
        JoinSplit(f, '/');
        if (path, rule) in Stored(steps) {
          var g :| (g, rule) in Held(before) && Cut(Split(g, '/')) == path;
          assert (g, rule) in Held(steps);
        }
        if g :| (g, rule) in Held(steps) && Cut(Split(g, '/')) == path {
          assert (g, rule) in Held(before);
          CutFacts(Split(g, '/'), []);
          JoinSplit(g, '/');
        }
    }
  }

  /** When `#` is only ever last, or nothing is ever removed, the trie answers with exactly the rules
      held under some filter that the linear matcher accepts. */
  lemma HeldFiltersMatch(steps: seq<TrieStep>, topic: string, rule: nat)
    requires FiltersHashOnlyLast(steps) || InsertsOnly(steps)
    ensures rule in Match(After(steps), Split(topic, '/')) <==>
            exists f :: (f, rule) in Held(steps) && FilterMatches(f, topic)
  {
    HistoryMatches(steps, topic, rule);
    var levels := Split(topic, '/');
    if path :| (path, rule) in Stored(steps) && LevelsMatch(path, levels) {
      StoredIsHeld(steps, path, rule);
      var f :| (f, rule) in Held(steps) && Cut(Split(f, '/')) == path;
      CutFacts(Split(f, '/'), levels);
      assert FilterMatches(f, topic);
    }
    if f :| (f, rule) in Held(steps) && FilterMatches(f, topic) {
      CutFacts(Split(f, '/'), levels);
      StoredIsHeld(steps, Cut(Split(f, '/')), rule);
    }
  }

  // ----- histories with one filter for each rule, as the engine's slots have -----

  ghost predicate OneFilterEach(steps: seq<TrieStep>) {
    forall i, j :: 0 <= i < |steps| && 0 <= j < |steps| && steps[i].rule == steps[j].rule ==>
      steps[i].filter == steps[j].filter
  }

  ghost predicate WasInserted(steps: seq<TrieStep>, filter: string, rule: nat) {
    exists i :: 0 <= i < |steps| && steps[i] == Inserted(filter, rule)
  }

  /** Every filter inserted with a `#` before its last level is still held. */
  ghost predicate MiddleHashesHeld(steps: seq<TrieStep>) {
    forall f, r: nat :: WasInserted(steps, f, r) && !HashOnlyLast(Split(f, '/')) ==> (f, r) in Held(steps)
  }

  lemma {:induction false} HeldWasInserted(steps: seq<TrieStep>, filter: string, rule: nat)
    requires (filter, rule) in Held(steps)
    ensures WasInserted(steps, filter, rule)
  {
    var n := |steps| - 1;
    if steps[n] == Inserted(filter, rule) {
    } else {
      HeldWasInserted(steps[..n], filter, rule);
      var i :| 0 <= i < n && steps[..n][i] == Inserted(filter, rule);
      assert steps[i] == Inserted(filter, rule);
    }
  }

  /** The trie keeps a rule under its cut filter while it is held, and for ever when a `#` stands before the
      last level. */
  ghost predicate Kept(steps: seq<TrieStep>, filter: string, rule: nat) {
    if HashOnlyLast(Split(filter, '/')) then (filter, rule) in Held(steps) else WasInserted(steps, filter, rule)
  }

  ghost predicate KeptUnder(steps: seq<TrieStep>, path: seq<string>, rule: nat) {
    exists f :: Kept(steps, f, rule) && Cut(Split(f, '/')) == path
  }

  lemma KeptWasInserted(steps: seq<TrieStep>, filter: string, rule: nat)
    requires Kept(steps, filter, rule)
    ensures WasInserted(steps, filter, rule)
  {
    if HashOnlyLast(Split(filter, '/')) {
      HeldWasInserted(steps, filter, rule);
    }
  }

  lemma NextKept(steps: seq<TrieStep>, filter: string, rule: nat)
    requires steps != []
    ensures var last := steps[|steps| - 1];
            Kept(steps, filter, rule) <==>
              last == Inserted(filter, rule) ||
              (Kept(steps[..|steps| - 1], filter, rule) &&
               !(last == Removed(filter, rule) && HashOnlyLast(Split(filter, '/'))))
  {
    var n := |steps| - 1;
    assert WasInserted(steps, filter, rule) <==>
           WasInserted(steps[..n], filter, rule) || steps[n] == Inserted(filter, rule) by {
      if i :| 0 <= i < n && steps[..n][i] == Inserted(filter, rule) {
        assert steps[i] == Inserted(filter, rule);
      }
      if i :| 0 <= i < |steps| && steps[i] == Inserted(filter, rule) && i < n {
        assert steps[..n][i] == Inserted(filter, rule);
      }
    }
  }

  lemma {:induction false} StoredIsKept(steps: seq<TrieStep>, path: seq<string>, rule: nat)
    requires OneFilterEach(steps)
    ensures (path, rule) in Stored(steps) <==> KeptUnder(steps, path, rule)
  {
    if steps == [] {
      forall f ensures !Kept(steps, f, rule) {}
    } else {
      var n := |steps| - 1;
      var before, last := steps[..n], steps[n];
      StoredIsKept(before, path, rule);
      forall f
        ensures Kept(steps, f, rule) <==>
                  (last == Inserted(f, rule) ||
                   (Kept(before, f, rule) && !(last == Removed(f, rule) && HashOnlyLast(Split(f, '/')))))
      {
        NextKept(steps, f, rule);
      }
      if last.rule == rule {
        forall f | Kept(before, f, rule) ensures f == last.filter {
          KeptWasInserted(before, f, rule);
          var i :| 0 <= i < n && before[i] == Inserted(f, rule);
          assert steps[i].rule == steps[n].rule;
        }
        CutFacts(Split(last.filter, '/'), []);
        if last.Inserted? {
          assert Kept(steps, last.filter, rule);
        }
      }
    }
  }

  lemma {:induction false} MatchesItself(levels: seq<string>)
    ensures LevelsMatch(levels, levels)
  {
    LevelsMatchStep(levels, levels);
    if levels != [] {
      MatchesItself(levels[1..]);
    }
  }

  /** The trie answers for the rule as the held filters do. */
  ghost predicate AnswersAsHeld(steps: seq<TrieStep>, topic: string, rule: nat) {
    rule in Match(After(steps), Split(topic, '/')) <==> exists f :: (f, rule) in Held(steps) && FilterMatches(f, topic)
  }

  lemma KeptMatches(steps: seq<TrieStep>, topic: string, rule: nat)
    requires OneFilterEach(steps)
    ensures rule in Match(After(steps), Split(topic, '/')) <==>
            exists f :: Kept(steps, f, rule) && FilterMatches(f, topic)
  {
    var levels := Split(topic, '/');
    HistoryMatches(steps, topic, rule);
    if path :| (path, rule) in Stored(steps) && LevelsMatch(path, levels) {
      StoredIsKept(steps, path, rule);
      var f :| Kept(steps, f, rule) && Cut(Split(f, '/')) == path;
      CutFacts(Split(f, '/'), levels);
      assert FilterMatches(f, topic);
    }
    if f :| Kept(steps, f, rule) && FilterMatches(f, topic) {
      CutFacts(Split(f, '/'), levels);
      StoredIsKept(steps, Cut(Split(f, '/')), rule);
    }
  }

  /** With one filter for each rule, the trie answers every topic as the held filters do if and only if no filter
      with a `#` before its last level was removed for good. */
  lemma HeldFiltersMatchIff(steps: seq<TrieStep>)
    requires OneFilterEach(steps)
    ensures (forall topic, rule: nat :: AnswersAsHeld(steps, topic, rule)) <==> MiddleHashesHeld(steps)
  {
    if MiddleHashesHeld(steps) {
      forall topic, rule: nat ensures AnswersAsHeld(steps, topic, rule) {
        KeptMatches(steps, topic, rule);
        forall f ensures Kept(steps, f, rule) <==> (f, rule) in Held(steps) {
          if (f, rule) in Held(steps) { HeldWasInserted(steps, f, rule); }
        }
      }
    } else {
      var f, r: nat :| WasInserted(steps, f, r) && !HashOnlyLast(Split(f, '/')) && (f, r) !in Held(steps);
      MatchesItself(Split(f, '/'));
      KeptMatches(steps, f, r);
      assert Kept(steps, f, r) && FilterMatches(f, f);
      forall g | (g, r) in Held(steps) ensures g == f {
        HeldWasInserted(steps, g, r);
      }
      assert !AnswersAsHeld(steps, f, r);
    }
  }

  lemma MiddleHashLevels()
    ensures Split("a/#/b", '/') == ["a", "#", "b"]
  {
    SplitHead("a", "#/b", '/');
    SplitHead("#", "b", '/');
    SplitFree("b", '/');
    assert "a" + ['/'] + "#/b" == "a/#/b" && "#" + ['/'] + "b" == "#/b";
  }

  /** Inserting and removing "a/#/b" leaves the trie answering for it, though nothing is held. */
  lemma MiddleHashStays(rule: nat)
    ensures var steps := [Inserted("a/#/b", rule), Removed("a/#/b", rule)];
            Held(steps) == {} && After(steps) != EMPTY && !AnswersAsHeld(steps, "a/#/b", rule)
  {
    var f, steps := "a/#/b", [Inserted("a/#/b", rule), Removed("a/#/b", rule)];
    MiddleHashLevels();
    assert Split(f, '/')[1] == "#";
    assert steps[..1] == [Inserted(f, rule)] && [Inserted(f, rule)][..0] == [];
    assert Held(steps[..1]) == {(f, rule)};
    assert steps[0] == Inserted(f, rule);
    MatchesItself(Split(f, '/'));
    KeptMatches(steps, f, rule);
    assert Kept(steps, f, rule) && FilterMatches(f, f);
  }
}
