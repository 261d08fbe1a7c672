/** The topic trie as linked nodes updated in place, tied to the values of TrieModel. */
module TopicTrie {
  import opened Wrappers
  import opened Text
  import M = TrieModel

  class TrieNode {
    var children: map<string, TrieNode>
    var plusChild: TrieNode?
    var hashChild: TrieNode?
    var ruleIndexes: set<nat>
    /** This node and all nodes below it. */
    ghost var Repr: set<TrieNode>
    /** The trie this node stands for. */
    ghost var shape: M.Trie

    /** The node under an edge; the levels `+` and `#` name the two wildcard edges. */
    function ChildNode(level: string): TrieNode?
      reads this
    {
      if level == "+" then plusChild
      else if level == "#" then hashChild
      else if level in children then children[level]
      else null
    }

    ghost predicate Owns(level: string)
      reads this, Repr
    {
      var child := ChildNode(level);
      child != null ==> child in Repr && child in child.Repr && child.Repr <= Repr && this !in child.Repr
    }

    /** No node is reached twice, and each child stands for the subtrie under its edge. */
    ghost predicate Valid()
      reads this, Repr
      decreases Repr
    {
      && this in Repr
      && shape.rules == ruleIndexes
      && "+" !in shape.children && "#" !in shape.children
      && "+" !in children && "#" !in children
      && (forall l :: ChildNode(l) != null ==> Owns(l) && ChildNode(l).Valid())
      && (forall l :: M.Child(shape, l) ==
            if ChildNode(l) == null then None else assert Owns(l); Some(ChildNode(l).shape))
      && (forall l, m :: l != m && ChildNode(l) != null && ChildNode(m) != null ==>
            Owns(l) && Owns(m) && ChildNode(l).Repr !! ChildNode(m).Repr)
    }

    constructor ()
      ensures Valid() && fresh(Repr) && shape == M.EMPTY
    {
      children, plusChild, hashChild, ruleIndexes := map[], null, null, {};
      Repr, shape := {this}, M.EMPTY;
    }

    predicate IsEmpty()
      reads this
    {
      children == map[] && plusChild == null && hashChild == null && ruleIndexes == {}
    }

    lemma EmptyIsEmpty()
      requires Valid()
      ensures IsEmpty() <==> M.IsEmpty(shape)
    {
      assert M.Child(shape, "+") == shape.plus && M.Child(shape, "#") == shape.hash;
      if IsEmpty() {
        assert forall l :: M.Child(shape, l) == None;
        assert forall l :: l in shape.children ==> M.Child(shape, l).Some?;
      }
      if M.IsEmpty(shape) {
        assert plusChild == ChildNode("+") && hashChild == ChildNode("#");
        assert forall l :: M.Child(shape, l) == None;
        assert forall l :: l in children ==> ChildNode(l) != null;
      }
    }

    method SetChild(level: string, child: TrieNode?)
      modifies this
      ensures forall l :: ChildNode(l) == if l == level then child else old(ChildNode(l))
      ensures old("+" !in children && "#" !in children) ==> "+" !in children && "#" !in children
      ensures ruleIndexes == old(ruleIndexes)
      ensures Repr == old(Repr) + if child == null then {} else old(child.Repr)
      ensures shape == M.WithChild(old(shape), level, if child == null then None else Some(old(child.shape)))
    {
      shape := M.WithChild(shape, level, if child == null then None else Some(child.shape));
      Repr := Repr + if child == null then {} else child.Repr;
      if level == "+" {
        plusChild := child;
      } else if level == "#" {
        hashChild := child;
      } else if child == null {
        children := children - {level};
      } else {
        children := children[level := child];
      }
    }

    /** Valid but for the child under one edge. */
    ghost predicate ValidExcept(level: string)
      reads this, Repr
    {
      && this in Repr
      && shape.rules == ruleIndexes
      && "+" !in shape.children && "#" !in shape.children
      && "+" !in children && "#" !in children
      && (forall l :: l != level && ChildNode(l) != null ==> Owns(l) && ChildNode(l).Valid())
      && (forall l :: l != level ==>
            (M.Child(shape, l) == if ChildNode(l) == null then None else assert Owns(l); Some(ChildNode(l).shape)))
      && (forall l, m :: l != m && l != level && m != level && ChildNode(l) != null && ChildNode(m) != null ==>
            Owns(l) && Owns(m) && ChildNode(l).Repr !! ChildNode(m).Repr)
    }

    /** Links a child under an edge, or drops the edge. */
    method ReplaceChild(level: string, child: TrieNode?)
      requires ValidExcept(level)
      requires child != null ==> child.Valid() && child in child.Repr && this !in child.Repr
      requires child != null ==> forall l :: l != level && ChildNode(l) != null ==>
                 Owns(l) && ChildNode(l).Repr !! child.Repr
      modifies this
      ensures Valid() && Repr == old(Repr) + if child == null then {} else child.Repr
      ensures shape == M.WithChild(old(shape), level, if child == null then None else Some(child.shape))
    {
      ghost var before := shape;
      SetChild(level, child);
      forall l | ChildNode(l) != null ensures Owns(l) && ChildNode(l).Valid() {
        if l != level {
          assert ChildNode(l) == old(ChildNode(l)) && old(Owns(l) && ChildNode(l).Valid());
        }
      }
      forall l ensures M.Child(shape, l) == if ChildNode(l) == null then None else Some(ChildNode(l).shape) {
        var c := ChildNode(l);
        if l != level {
          assert c == old(ChildNode(l)) && (c != null ==> old(Owns(l)));
          assert c != null ==> c != this && c.shape == old(c.shape);
          assert M.Child(before, l) == if c == null then None else Some(old(c.shape));
          assert M.Child(shape, l) == M.Child(before, l);
        } else {
          assert c == child && (c != null ==> c != this);
        }
      }
      forall l, m | l != m && ChildNode(l) != null && ChildNode(m) != null
        ensures ChildNode(l).Repr !! ChildNode(m).Repr
      {
        assert l != level ==> ChildNode(l) == old(ChildNode(l));
        assert m != level ==> ChildNode(m) == old(ChildNode(m));
      }
    }

    /** Replaces the rules stored at this node itself. */
    method SetRules(rules: set<nat>)
      requires Valid()
      modifies this`ruleIndexes, this`shape
      ensures Valid() && shape == old(shape).(rules := rules)
    {
      ruleIndexes := rules;
      shape := shape.(rules := rules);
      assert forall l :: M.Child(shape, l) == M.Child(old(shape), l);
      forall l | ChildNode(l) != null ensures Owns(l) && ChildNode(l).Valid() {
        assert ChildNode(l) == old(ChildNode(l)) && old(Owns(l) && ChildNode(l).Valid());
      }
    }

    /** Adds the rule below this node, level by level from the given index. */
    method InsertFrom(levels: seq<string>, index: nat, rule: nat)
      requires Valid() && index <= |levels|
      modifies Repr
      ensures Valid() && fresh(Repr - old(Repr)) && old(Repr) <= Repr
      ensures shape == M.Insert(old(shape), levels[index..], rule)
      decreases |levels| - index
    {
      if index == |levels| {
        SetRules(ruleIndexes + {rule});
      } else {
        var level := levels[index];
        var child := ChildNode(level);
        if child == null {
          child := new TrieNode();
        }
        assert M.ChildOrEmpty(shape, level) == child.shape;
        child.InsertFrom(levels, if level == "#" then |levels| else index + 1, rule);
        assert levels[index..][1..] == levels[index + 1..];
        ReplaceChild(level, child);
      }
    }

    /** Removes the rule below this node and drops the child the removal leaves empty. */
    method RemoveFrom(levels: seq<string>, index: nat, rule: nat) returns (empty: bool)
      requires Valid() && index <= |levels|
      modifies Repr
      ensures Valid() && fresh(Repr - old(Repr))
      ensures shape == M.Remove(old(shape), levels[index..], rule)
      ensures empty <==> M.IsEmpty(shape)
      decreases |levels| - index
    {
      if index == |levels| {
        SetRules(ruleIndexes - {rule});
      } else {
        var level := levels[index];
        var child := ChildNode(level);
        if child != null {
          var childEmpty := child.RemoveFrom(levels, index + 1, rule);
          assert levels[index..][1..] == levels[index + 1..];
          ReplaceChild(level, if childEmpty then null else child);
        }
      }
      EmptyIsEmpty();
      empty := IsEmpty();
    }

    /** Collects the rules found below this node for the topic levels from the given index. */
    method MatchNode(levels: seq<string>, index: nat, out: set<nat>) returns (found: set<nat>)
      requires Valid() && index <= |levels|
      ensures found == out + M.Match(shape, levels[index..])
      decreases |levels| - index
    {
      found := out;
      assert M.Child(shape, "#") == shape.hash && M.Child(shape, "+") == shape.plus;
      assert ChildNode("#") == hashChild && ChildNode("+") == plusChild;
      if hashChild != null {
        found := found + hashChild.ruleIndexes;
      }
      if index == |levels| {
        found := found + ruleIndexes;
        return;
      }
      var level := levels[index];
      assert levels[index..][0] == level && levels[index..][1..] == levels[index + 1..];
      if level in children {
        assert ChildNode(level) == children[level] && M.Child(shape, level).Some?;
        found := children[level].MatchNode(levels, index + 1, found);
      } else {
        assert level in shape.children ==> M.Child(shape, level).Some?;
      }
      if plusChild != null {
        found := plusChild.MatchNode(levels, index + 1, found);
      }
    }
  }

  /** The index from topic filters to rule slots. */
  class TopicTrie {
    var root: TrieNode
    ghost var Repr: set<object>
    /** The trie as a value. */
    ghost var view: M.Trie

    /** The trie is pruned, and no filter stored in it reaches below a `#`. */
    ghost predicate Valid()
      reads this, Repr
    {
      && this in Repr && root in Repr && root.Repr <= Repr
      && root.Valid() && view == root.shape
      && M.WellFormed(view) && M.Pruned(view)
    }

    constructor ()
      ensures Valid() && fresh(Repr) && view == M.EMPTY
    {
      root := new TrieNode();
      view := M.EMPTY;
      new;
      Repr := {this} + root.Repr;
      M.EmptyFacts([]);
    }

    method Insert(filter: string, rule: nat)
      requires Valid()
      modifies Repr
      ensures Valid() && fresh(Repr - old(Repr))
      ensures view == M.Insert(old(view), Split(filter, '/'), rule)
    {
      var levels := Split(filter, '/');
      M.InsertKeeps(view, levels, rule);
      assert levels[0..] == levels;
      root.InsertFrom(levels, 0, rule);
      view := root.shape;
      Repr := Repr + root.Repr;
    }

    method Remove(filter: string, rule: nat)
      requires Valid()
      modifies Repr
      ensures Valid() && fresh(Repr - old(Repr))
      ensures view == M.Remove(old(view), Split(filter, '/'), rule)
    {
      var levels := Split(filter, '/');
      M.RemoveKeeps(view, levels, rule);
      assert levels[0..] == levels;
      var _ := root.RemoveFrom(levels, 0, rule);
      view := root.shape;
      Repr := Repr + root.Repr;
    }

    /** The matched rules in some order, none twice: exactly those stored under a path the topic matches. */
    method MatchTopicIndexes(topic: string) returns (matched: seq<nat>)
      requires Valid()
      ensures NoDuplicates(matched)
      ensures forall rule: nat :: rule in matched <==> M.StoredFor(view, Split(topic, '/'), rule)
    {
      var levels := Split(topic, '/');
      assert levels[0..] == levels;
      var found := root.MatchNode(levels, 0, {});
      forall rule: nat ensures rule in found <==> M.StoredFor(view, levels, rule)
      {
        M.MatchIsLinear(root.shape, levels, rule);
      }
      matched := [];
      ghost var all := found;
      while found != {}
        invariant NoDuplicates(matched)
        invariant forall rule: nat :: rule in all <==> rule in found || rule in matched
        invariant forall rule: nat :: rule in found ==> rule !in matched
        decreases found
      {
        var rule :| rule in found;
        matched := matched + [rule];
        found := found - {rule};
      }
    }
  }
}
