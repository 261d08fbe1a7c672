/** Splitting text at a delimiter and joining it again: `str::split` and `join` of the source. */
module Text {

  function Split(s: string, d: char): (parts: seq<string>)
    ensures |parts| >= 1
  {
    if s == [] then [""]
    else
      var rest := Split(s[1..], d);
      if s[0] == d then [""] + rest else [[s[0]] + rest[0]] + rest[1..]
  }

  function Join(parts: seq<string>, d: char): string {
    if |parts| == 0 then ""
    else if |parts| == 1 then parts[0]
    else parts[0] + [d] + Join(parts[1..], d)
  }

  /** Joining what was split gives the text back. */
  lemma {:induction false} JoinSplit(s: string, d: char)
    ensures Join(Split(s, d), d) == s
  {
    if s != [] {
      JoinSplit(s[1..], d);
      var rest := Split(s[1..], d);
      if s[0] == d {
        assert Split(s, d)[1..] == rest;
        assert Join(Split(s, d), d) == "" + [d] + Join(rest, d);
      } else {
        assert Split(s, d)[1..] == rest[1..];
      }
      assert s == [s[0]] + s[1..];
    }
  }

  /** A part never holds the delimiter. */
  lemma {:induction false} SplitPartsAreFree(s: string, d: char)
    ensures forall i :: 0 <= i < |Split(s, d)| ==> d !in Split(s, d)[i]
  {
    if s != [] {
      SplitPartsAreFree(s[1..], d);
    }
  }

  /** A delimiter-free head is split off whole. */
  lemma {:induction false} SplitHead(head: string, tail: string, d: char)
    requires d !in head
    ensures Split(head + [d] + tail, d) == [head] + Split(tail, d)
  {
    var s := head + [d] + tail;
    if head == [] {
      assert s[1..] == tail;
    } else {
      assert s[1..] == head[1..] + [d] + tail;
      SplitHead(head[1..], tail, d);
      assert [head[0]] + head[1..] == head;
    }
  }

  lemma {:induction false} SplitFree(s: string, d: char)
    requires d !in s
    ensures Split(s, d) == [s]
  {
    if s != [] {
      SplitFree(s[1..], d);
      assert [s[0]] + s[1..] == s;
    }
  }

  /** Splitting what was joined gives the parts back exactly when no part holds the delimiter. */
  lemma {:induction false} SplitJoin(parts: seq<string>, d: char)
    requires |parts| >= 1
    ensures Split(Join(parts, d), d) == parts <==> forall i :: 0 <= i < |parts| ==> d !in parts[i]
  {
    SplitPartsAreFree(Join(parts, d), d);
    if forall i :: 0 <= i < |parts| ==> d !in parts[i] {
      SplitJoinFree(parts, d);
    }
  }

  lemma {:induction false} SplitJoinFree(parts: seq<string>, d: char)
    requires |parts| >= 1
    requires forall i :: 0 <= i < |parts| ==> d !in parts[i]
    ensures Split(Join(parts, d), d) == parts
  {
    if |parts| == 1 {
      SplitFree(parts[0], d);
    } else {
      SplitHead(parts[0], Join(parts[1..], d), d);
      SplitJoinFree(parts[1..], d);
    }
  }
}
