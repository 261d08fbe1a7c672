/** JSON values, the engine's own payload values, and the conversions between them. */
module Values {
  import opened Wrappers
  import opened Doubles

  datatype JsonNumber = PosInt(n: nat) | NegInt(i: int) | Float(r: real)

  /** A JSON object lists its entries in key order, as the ordered map of the source does. */
  datatype Json =
    | Null
    | Bool(b: bool)
    | Number(number: JsonNumber)
    | String(text: string)
    | Array(items: seq<Json>)
    | Object(entries: seq<(string, Json)>)

  datatype Payload =
    | PNull
    | PBool(b: bool)
    | PNumber(number: real)
    | PString(text: string)
    | PArray(items: seq<Payload>)
    | PObject(entries: seq<(string, Payload)>)

  // ----- entries -----

  function Get<V>(entries: seq<(string, V)>, key: string): (r: Option<V>)
    ensures r.Some? ==> (key, r.value) in entries
    ensures r.None? ==> forall i :: 0 <= i < |entries| ==> entries[i].0 != key
  {
    if entries == [] then None
    else if entries[0].0 == key then Some(entries[0].1)
    else Get(entries[1..], key)
  }

  predicate Less(a: string, b: string) {
    b != "" && (a == "" || a[0] < b[0] || (a[0] == b[0] && Less(a[1..], b[1..])))
  }

  /** Insertion into an ordered map: the value of an equal key is replaced. */
  function MapInsert<V>(entries: seq<(string, V)>, key: string, value: V): (r: seq<(string, V)>)
    ensures forall k :: Get(r, k) == if k == key then Some(value) else Get(entries, k)
  {
    if entries == [] || Less(key, entries[0].0) then
      var r := [(key, value)] + entries;
      assert r[1..] == entries;
      r
    else if entries[0].0 == key then
      var r := [(key, value)] + entries[1..];
      assert r[1..] == entries[1..];
      r
    else
      var rest := MapInsert(entries[1..], key, value);
      var r := [entries[0]] + rest;
      assert r[1..] == rest;
      r
  }

  ghost predicate Distinct<V>(entries: seq<(string, V)>) {
    forall i, j :: 0 <= i < j < |entries| ==> entries[i].0 != entries[j].0
  }

  /** Entries in strictly increasing key order. */
  ghost predicate Ordered<V>(entries: seq<(string, V)>) {
    forall i, j :: 0 <= i < j < |entries| ==> Less(entries[i].0, entries[j].0)
  }

  lemma {:induction false} LessOrder(a: string, b: string, c: string)
    ensures !(Less(a, b) && Less(b, a)) && (Less(a, b) || Less(b, a) || a == b)
    ensures Less(a, b) && Less(b, c) ==> Less(a, c)
  {
    if a != "" && b != "" {
      LessOrder(a[1..], b[1..], if c == "" then "" else c[1..]);
      assert a == [a[0]] + a[1..] && b == [b[0]] + b[1..];
    }
  }

  /** At n, after a common prefix, a ends or has the smaller character. */
  ghost predicate SmallerAt(a: string, b: string, n: nat) {
    n <= |a| && n < |b| && a[..n] == b[..n] && (n == |a| || a[n] < b[n])
  }

  lemma {:induction false} LessShows(a: string, b: string) returns (n: nat)
    requires Less(a, b)
    ensures SmallerAt(a, b, n)
  {
    n := 0;
    if a != "" && a[0] == b[0] {
      n := LessShows(a[1..], b[1..]);
      n := n + 1;
      assert a[..n] == [a[0]] + a[1..][..n - 1] && b[..n] == [b[0]] + b[1..][..n - 1];
    }
  }

  lemma {:induction false} SmallerIsLess(a: string, b: string, n: nat)
    requires SmallerAt(a, b, n)
    ensures Less(a, b)
  {
    if n > 0 {
      assert a[..n][0] == a[0] && b[..n][0] == b[0];
      assert a[1..][..n - 1] == a[..n][1..] && b[1..][..n - 1] == b[..n][1..];
      SmallerIsLess(a[1..], b[1..], n - 1);
    }
  }

  /** The key order is lexicographic. */
  lemma LessIsLexicographic(a: string, b: string)
    ensures Less(a, b) <==> exists n: nat :: SmallerAt(a, b, n)
  {
    if Less(a, b) {
      var n := LessShows(a, b);
    } else {
      forall n: nat ensures !SmallerAt(a, b, n) {
        if SmallerAt(a, b, n) { SmallerIsLess(a, b, n); }
      }
    }
  }

  lemma PrependKeepsOrder<V>(first: (string, V), rest: seq<(string, V)>)
    requires Ordered(rest) && forall e :: e in rest ==> Less(first.0, e.0)
    ensures Ordered([first] + rest)
  {
    var r := [first] + rest;
    forall i, j | 0 <= i < j < |r| ensures Less(r[i].0, r[j].0) {
      assert r[j] == rest[j - 1] && rest[j - 1] in rest;
      assert i > 0 ==> r[i] == rest[i - 1];
    }
  }

  lemma OrderedIsDistinct<V>(entries: seq<(string, V)>)
    requires Ordered(entries)
    ensures Distinct(entries)
  {
    forall i, j | 0 <= i < j < |entries| ensures entries[i].0 != entries[j].0 {
      LessOrder(entries[i].0, entries[j].0, "");
    }
  }

  /** The ordered map stays ordered, so no key is listed twice. */
  lemma {:induction false} MapInsertKeepsOrder<V>(entries: seq<(string, V)>, key: string, value: V)
    requires Ordered(entries)
    ensures Ordered(MapInsert(entries, key, value)) && Distinct(MapInsert(entries, key, value))
    ensures forall e :: e in MapInsert(entries, key, value) ==> e.0 == key || e in entries
  {
    if entries == [] {
    } else {
      var first, rest := entries[0], entries[1..];
      LessOrder(key, first.0, "");
      forall e | e in rest ensures Less(first.0, e.0) && (Less(key, first.0) ==> Less(key, e.0)) {
        LessOrder(key, first.0, e.0);
      }
      if Less(key, first.0) {
        assert entries == [first] + rest;
        PrependKeepsOrder((key, value), entries);
      } else if first.0 == key {
        PrependKeepsOrder((key, value), rest);
      } else {
        MapInsertKeepsOrder(rest, key, value);
        PrependKeepsOrder(first, MapInsert(rest, key, value));
      }
    }
    OrderedIsDistinct(MapInsert(entries, key, value));
  }

  lemma TailLacksHead<V>(entries: seq<(string, V)>)
    requires Ordered(entries) && entries != []
    ensures Get(entries[1..], entries[0].0) == None
  {
    var key, tail := entries[0].0, entries[1..];
    forall i | 0 <= i < |tail| ensures tail[i].0 != key {
      assert tail[i] == entries[i + 1];
      LessOrder(key, tail[i].0, "");
    }
  }

  /** Ordered entries are determined by what they hold. */
  lemma {:induction false} OrderedAreOne<V>(a: seq<(string, V)>, b: seq<(string, V)>)
    requires Ordered(a) && Ordered(b) && forall key :: Get(a, key) == Get(b, key)
    ensures a == b
  {
    var first := if a != [] then a[0].0 else if b != [] then b[0].0 else "";
    assert Get(a, first) == Get(b, first);
    if a != [] {
      var x, y := a[0].0, b[0].0;
      assert Get(a, y) == Get(b, y);
      LessOrder(x, y, "");
      assert x == y;
      TailLacksHead(a);
      TailLacksHead(b);
      forall key ensures Get(a[1..], key) == Get(b[1..], key) {
        assert Get(a, key) == Get(b, key);
      }
      OrderedAreOne(a[1..], b[1..]);
      assert a == [a[0]] + a[1..] && b == [b[0]] + b[1..];
    }
  }

  /** Pairs collected into an ordered map, a later one replacing an earlier one with its key. */
  function Collect<V>(pairs: seq<(string, V)>): seq<(string, V)> {
    if pairs == [] then []
    else
      var n := |pairs| - 1;
      MapInsert(Collect(pairs[..n]), pairs[n].0, pairs[n].1)
  }

  lemma {:induction false} CollectKeeps<V>(pairs: seq<(string, V)>, key: string)
    requires Distinct(pairs)
    ensures Get(Collect(pairs), key) == Get(pairs, key)
    ensures Ordered(Collect(pairs)) && Distinct(Collect(pairs))
  {
    if pairs != [] {
      var n := |pairs| - 1;
      CollectKeeps(pairs[..n], key);
      MapInsertKeepsOrder(Collect(pairs[..n]), pairs[n].0, pairs[n].1);
      GetAppend(pairs[..n], pairs[n..], key);
      assert pairs == pairs[..n] + pairs[n..];
      assert pairs[n].0 == key ==> Get(pairs[..n], key) == None;
    }
  }

  lemma {:induction false} GetAppend<V>(a: seq<(string, V)>, b: seq<(string, V)>, key: string)
    ensures Get(a + b, key) == if Get(a, key).Some? then Get(a, key) else Get(b, key)
  {
    if a == [] {
      assert a + b == b;
    } else {
      GetAppend(a[1..], b, key);
      assert (a + b)[1..] == a[1..] + b;
    }
  }

  // ----- numbers -----

  function AsF64(n: JsonNumber): real {
    match n
    case PosInt(n) => RoundToDouble(n) as real
    case NegInt(i) => RoundToDouble(i) as real
    case Float(r) => r
  }

  /** An integral payload number becomes a 64-bit integer when the casts allow it; the cast of 2^64 saturates. */
  function ToJsonNumber(v: real): JsonNumber {
    var whole := v == v.Floor as real;
    if whole && 0 <= v.Floor <= TWO_64 then PosInt(if v.Floor > U64_MAX then U64_MAX else v.Floor)
    else if whole && -(TWO_63 as int) <= v.Floor <= TWO_63 then NegInt(v.Floor)
    else Float(v)
  }

  /** Whichever form is chosen, reading the number back as f64 gives the payload number exactly. */
  lemma ToJsonNumberIsExact(v: real)
    requires MaybeDouble(v)
    ensures AsF64(ToJsonNumber(v)) == v
  {
    if v == v.Floor as real {
      RoundKeepsExactlyDoubles(v.Floor);
      RoundU64Max();
    }
  }

  /** A whole number takes an integer form when it fits one; every other number is written as it is. */
  lemma WholeNumbersAreIntegers(v: real)
    ensures forall n :: v == n as real && 0 <= n <= U64_MAX ==> ToJsonNumber(v) == PosInt(n)
    ensures forall n :: v == n as real && -(TWO_63 as int) <= n < 0 ==> ToJsonNumber(v) == NegInt(n)
    ensures v != v.Floor as real || v < -(TWO_63 as real) || v > TWO_64 as real ==> ToJsonNumber(v) == Float(v)
  {}

  /** A 64-bit integer comes back from the payload as the same integer exactly when it is a double, or the largest. */
  lemma IntegersSurvive(n: int)
    ensures 0 <= n <= U64_MAX ==> (ToJsonNumber(AsF64(PosInt(n))) == PosInt(n) <==> IsDouble(n) || n == U64_MAX)
    ensures -(TWO_63 as int) <= n < 0 ==> (ToJsonNumber(AsF64(NegInt(n))) == NegInt(n) <==> IsDouble(n))
  {
    RoundKeepsExactlyDoubles(n);
    RoundU64Max();
  }

  /** A JSON number read as f64 is a double. */
  lemma AsF64IsDouble(n: JsonNumber)
    requires n.Float? ==> MaybeDouble(n.r)
    ensures MaybeDouble(AsF64(n))
  {
    match n
    case PosInt(k) =>
      RoundKeepsExactlyDoubles(k);
    case NegInt(i) =>
      RoundKeepsExactlyDoubles(i);
    case Float(r) =>
  }

  // ----- values -----

  function ToJson(p: Payload): Json
    decreases p
  {
    match p
    case PNull => Null
    case PBool(b) => Bool(b)
    case PNumber(v) => Number(ToJsonNumber(v))
    case PString(s) => String(s)
    case PArray(items) => Array(seq(|items|, i requires 0 <= i < |items| => ToJson(items[i])))
    case PObject(entries) =>
      Object(Collect(seq(|entries|, i requires 0 <= i < |entries| => (entries[i].0, ToJson(entries[i].1)))))
  }

  function FromJson(j: Json): Payload
    decreases j
  {
    match j
    case Null => PNull
    case Bool(b) => PBool(b)
    case Number(n) => PNumber(AsF64(n))
    case String(s) => PString(s)
    case Array(items) => PArray(seq(|items|, i requires 0 <= i < |items| => FromJson(items[i])))
    case Object(entries) =>
      PObject(seq(|entries|, i requires 0 <= i < |entries| => (entries[i].0, FromJson(entries[i].1))))
  }

  /** Numbers are doubles and no object lists a key twice. */
  ghost predicate Sound(p: Payload)
    decreases p
  {
    match p
    case PNumber(v) => MaybeDouble(v)
    case PArray(items) => forall i :: 0 <= i < |items| ==> Sound(items[i])
    case PObject(entries) => Distinct(entries) && forall i :: 0 <= i < |entries| ==> Sound(entries[i].1)
    case _ => true
  }

  ghost predicate SoundJson(j: Json)
    decreases j
  {
    match j
    case Number(n) => n.Float? ==> MaybeDouble(n.r)
    case Array(items) => forall i :: 0 <= i < |items| ==> SoundJson(items[i])
    case Object(entries) => Distinct(entries) && forall i :: 0 <= i < |entries| ==> SoundJson(entries[i].1)
    case _ => true
  }

  lemma {:induction false} FromJsonIsSound(j: Json)
    requires SoundJson(j)
    ensures Sound(FromJson(j))
    decreases j
  {
    match j
    case Number(n) => AsF64IsDouble(n);
    case Array(items) =>
      forall i | 0 <= i < |items| ensures Sound(FromJson(items[i])) { FromJsonIsSound(items[i]); }
    case Object(entries) =>
      forall i | 0 <= i < |entries| ensures Sound(FromJson(entries[i].1)) { FromJsonIsSound(entries[i].1); }
    case _ =>
  }

  /** Equal values, objects compared as maps. */
  ghost predicate Same(p: Payload, q: Payload)
    decreases p
  {
    match (p, q)
    case (PArray(items), PArray(others)) =>
      |items| == |others| && forall i :: 0 <= i < |items| ==> Same(items[i], others[i])
    case (PObject(entries), PObject(others)) =>
      forall key ::
        && (Get(entries, key).Some? <==> Get(others, key).Some?)
        && (Get(entries, key).Some? ==>
              (key, Get(entries, key).value) in entries && Same(Get(entries, key).value, Get(others, key).value))
    case _ => p == q
  }

  lemma {:induction false} GetMapped<V, W>(entries: seq<(string, V)>, others: seq<(string, W)>, key: string)
    returns (i: nat)
    requires |entries| == |others| && forall k :: 0 <= k < |entries| ==> entries[k].0 == others[k].0
    ensures Get(entries, key).Some? <==> Get(others, key).Some?
    ensures Get(entries, key).Some? ==>
              i < |entries| && entries[i] == (key, Get(entries, key).value) &&
              others[i] == (key, Get(others, key).value)
  {
    i := 0;
    if entries != [] && entries[0].0 != key {
      i := GetMapped(entries[1..], others[1..], key);
      i := i + 1;
    }
  }

  /** Converting a payload value to JSON and back gives the same value, objects compared as maps. */
  lemma {:induction false} RoundTrip(p: Payload)
    requires Sound(p)
    ensures Same(FromJson(ToJson(p)), p)
    decreases p
  {
    match p
    case PNumber(v) => ToJsonNumberIsExact(v);
    case PArray(items) =>
      forall i | 0 <= i < |items| ensures Same(FromJson(ToJson(items[i])), items[i]) { RoundTrip(items[i]); }
    case PObject(entries) =>
      var pairs := seq(|entries|, i requires 0 <= i < |entries| => (entries[i].0, ToJson(entries[i].1)));
      var back := FromJson(ToJson(p)).entries;
      forall key
        ensures Get(back, key).Some? <==> Get(entries, key).Some?
        ensures Get(back, key).Some? ==> Same(Get(back, key).value, Get(entries, key).value)
      {
        CollectKeeps(pairs, key);
        var i := GetMapped(entries, pairs, key);
        var j := GetMapped(Collect(pairs), back, key);
        if Get(entries, key).Some? {
          RoundTrip(entries[i].1);
        }
      }
    case _ =>
  }

  /** A JSON number that goes through the payload form and back keeps its f64 value. */
  lemma JsonNumberKeepsValue(n: JsonNumber)
    requires n.Float? ==> MaybeDouble(n.r)
    ensures AsF64(ToJsonNumber(AsF64(n))) == AsF64(n)
  {
    AsF64IsDouble(n);
    ToJsonNumberIsExact(AsF64(n));
  }
}
