/** Topic filters: the linear matcher and what it decides (section 4.7.1 of MQTT Version 5.0). */
module Topics {
  import opened Text

  /** The first n levels of the filter are plain or `+` levels that fit the topic. */
  ghost predicate FitsUpTo(filter: seq<string>, topic: seq<string>, n: nat)
    requires n <= |filter| && n <= |topic|
  {
    forall i :: 0 <= i < n ==> filter[i] != "#" && (filter[i] == "+" || filter[i] == topic[i])
  }

  /** The wildcard rule: all levels fit one for one, or all levels before the first `#` do. */
  ghost predicate LevelsMatch(filter: seq<string>, topic: seq<string>) {
    exists n: nat :: n <= |filter| && n <= |topic| && FitsUpTo(filter, topic, n) &&
      (if n == |filter| then n == |topic| else filter[n] == "#")
  }

  ghost predicate FilterMatches(filter: string, topic: string) {
    LevelsMatch(Split(filter, '/'), Split(topic, '/'))
  }

  /** Linear matching of one filter against one topic. */
  method MatchTopic(filter: string, topic: string) returns (matches: bool)
    ensures matches == FilterMatches(filter, topic)
  {
    if filter == "#" {
      SplitFree(filter, '/');
      assert FitsUpTo(Split(filter, '/'), Split(topic, '/'), 0);
      return true;
    }
    var filterLevels := Split(filter, '/');
    var topicLevels := Split(topic, '/');
    var i := 0;
    while i < |filterLevels|
      invariant i <= |filterLevels| && i <= |topicLevels|
      invariant FitsUpTo(filterLevels, topicLevels, i)
    {
      var f := filterLevels[i];
      if f == "#" {
        return true;
      }
      if i >= |topicLevels| {
        return false;
      }
      var t := topicLevels[i];
      if f != "+" && f != t {
        return false;
      }
      i := i + 1;
    }
    return i == |topicLevels|;
  }

  /** The rule unfolded one level at a time. */
  lemma LevelsMatchStep(filter: seq<string>, topic: seq<string>)
    ensures filter == [] ==> (LevelsMatch(filter, topic) <==> topic == [])
    ensures filter != [] && filter[0] == "#" ==> LevelsMatch(filter, topic)
    ensures filter != [] && filter[0] != "#" && topic == [] ==> !LevelsMatch(filter, topic)
    ensures filter != [] && filter[0] != "#" && topic != [] ==>
              (LevelsMatch(filter, topic) <==>
               (filter[0] == "+" || filter[0] == topic[0]) && LevelsMatch(filter[1..], topic[1..]))
  {
    if filter == [] || filter[0] == "#" {
      assert FitsUpTo(filter, topic, 0);
    } else if topic != [] {
      var f, t := filter[1..], topic[1..];
      if LevelsMatch(filter, topic) {
        var n: nat :| n <= |filter| && n <= |topic| && FitsUpTo(filter, topic, n) &&
          (if n == |filter| then n == |topic| else filter[n] == "#");
        assert n > 0 && filter[0] != "#";
        assert FitsUpTo(f, t, n - 1);
      }
      if (filter[0] == "+" || filter[0] == topic[0]) && LevelsMatch(f, t) {
        var n: nat :| n <= |f| && n <= |t| && FitsUpTo(f, t, n) &&
          (if n == |f| then n == |t| else f[n] == "#");
        assert FitsUpTo(filter, topic, n + 1) by {
          forall i | 0 <= i < n + 1
            ensures filter[i] != "#" && (filter[i] == "+" || filter[i] == topic[i])
          {
            if i > 0 { assert f[i - 1] == filter[i] && t[i - 1] == topic[i]; }
          }
        }
      }
    }
  }

  /** `#` stands only at the last level (section 4.7.1.2). */
  ghost predicate HashOnlyLast(filter: seq<string>) {
    forall i :: 0 <= i < |filter| - 1 ==> filter[i] != "#"
  }

  /** The filter up to and including its first `#`. */
  ghost function Cut(filter: seq<string>): seq<string> {
    if filter == [] then []
    else if filter[0] == "#" then ["#"]
    else [filter[0]] + Cut(filter[1..])
  }

  /** Cutting changes a filter exactly when a `#` stands before the last level, and never what it matches. */
  lemma {:induction false} CutFacts(filter: seq<string>, topic: seq<string>)
    ensures Cut(filter) == filter <==> HashOnlyLast(filter)
    ensures LevelsMatch(Cut(filter), topic) <==> LevelsMatch(filter, topic)
    ensures HashOnlyLast(Cut(filter)) && Cut(Cut(filter)) == Cut(filter)
  {
    LevelsMatchStep(filter, topic);
    LevelsMatchStep(Cut(filter), topic);
    if filter != [] && filter[0] != "#" {
      var rest := if topic == [] then [] else topic[1..];
      CutFacts(filter[1..], rest);
      assert Cut(filter)[1..] == Cut(filter[1..]);
      assert HashOnlyLast(filter) <==> HashOnlyLast(filter[1..]) by {
        forall i | 0 <= i < |filter[1..]| ensures filter[1..][i] == filter[i + 1] {}
        if HashOnlyLast(filter[1..]) {
          forall i | 0 <= i < |filter| - 1 ensures filter[i] != "#" {
            if i > 0 { assert filter[1..][i - 1] == filter[i]; }
          }
        }
      }
    }
  }
}
