/** The two pieces of JavaScript object semantics the plugin registry relies on:
    `Object.assign`, a shallow field-by-field overwrite, and a string-keyed
    object used as a dictionary, whose keys `Object.values` enumerates in
    insertion order (an overwrite keeps a key where it was first inserted). */
module JsObjects {

  /** No element occurs twice in s. */
  predicate Distinct<T(==)>(s: seq<T>) {
    forall i, j :: 0 <= i < j < |s| ==> s[i] != s[j]
  }

  /** The position of the first occurrence of x in s. */
  function IndexOf<T(==)>(s: seq<T>, x: T): (i: nat)
    requires x in s
    ensures i < |s| && s[i] == x
    ensures forall j :: 0 <= j < i ==> s[j] != x
  {
    if s[0] == x then 0 else 1 + IndexOf(s[1..], x)
  }

  /** A first occurrence is the first occurrence. */
  lemma IndexOfUnique<T>(s: seq<T>, x: T, i: nat)
    requires i < |s| && s[i] == x
    requires forall j :: 0 <= j < i ==> s[j] != x
    ensures IndexOf(s, x) == i
  {
  }

  /** Appending to a sequence moves no first occurrence; an element new to s
      first occurs at the end. */
  lemma IndexOfAppend<T>(s: seq<T>, y: T, x: T)
    requires x in s + [y]
    ensures x in s ==> IndexOf(s + [y], x) == IndexOf(s, x)
    ensures x !in s ==> IndexOf(s + [y], x) == |s|
  {
    if x in s {
      var i := IndexOf(s, x);
      IndexOfUnique(s + [y], x, i);
    } else {
      IndexOfUnique(s + [y], x, |s|);
    }
  }

  /** Putting an element in front moves every other first occurrence by one. */
  lemma IndexOfCons<T>(s: seq<T>, y: T, x: T)
    requires x in s && x != y
    ensures IndexOf([y] + s, x) == 1 + IndexOf(s, x)
  {
    assert ([y] + s)[1..] == s;
  }

  /** `Object.assign(target, source)`: every own field of source overwrites
      (or adds) the field of the same name in target; other fields of target
      stay. Values are shared, not copied. */
  function Assign<V>(target: map<string, V>, source: map<string, V>): (r: map<string, V>)
    ensures r.Keys == target.Keys + source.Keys
    ensures forall k :: k in source ==> r[k] == source[k]
    ensures forall k :: k in target && k !in source ==> r[k] == target[k]
  {
    target + source
  }

  /** A string-keyed JavaScript object used as a dictionary: its fields and the
      order in which `Object.keys` and `Object.values` enumerate them. */
  datatype Dict<V> = Dict(entries: map<string, V>, order: seq<string>)
  {
    /** Every key is listed once in the enumeration order, and only keys are. */
    ghost predicate Valid() {
      Distinct(order) && forall k :: k in entries <==> k in order
    }

    /** `o[k] = v`, for an ordinary key (any but `__proto__`). */
    function Put(k: string, v: V): (r: Dict<V>)
      ensures Valid() ==> r.Valid()
      ensures r.entries.Keys == entries.Keys + {k} && r.entries[k] == v
      ensures forall k' :: k' in entries && k' != k ==> r.entries[k'] == entries[k']
      ensures k in entries ==> r.order == order
      ensures k !in entries ==> r.order == order + [k]
    {
      Dict(entries[k := v], if k in entries then order else order + [k])
    }

    /** `Object.values(o)`: the values, in key enumeration order. */
    function Values(): (vs: seq<V>)
      requires Valid()
      ensures |vs| == |order|
      ensures forall i :: 0 <= i < |order| ==> vs[i] == entries[order[i]]
    {
      seq(|order|, i requires 0 <= i < |order| => entries[order[i]])
    }
  }

  /** `Object.values(o)` is empty exactly when o has no fields. */
  lemma ValuesEmpty<V>(d: Dict<V>)
    requires d.Valid()
    ensures d.Values() == [] <==> d.entries == map[]
  {
    if d.order != [] {
      assert d.order[0] in d.entries;
    }
  }

  /** `{}` */
  function EmptyDict<V>(): (d: Dict<V>)
    ensures d.Valid() && d.entries == map[] && d.Values() == []
  {
    Dict(map[], [])
  }

  /** The dictionary after `o[ks[0]] = vs[0]; ...; o[ks[n-1]] = vs[n-1]`. */
  function PutAll<V>(d: Dict<V>, ks: seq<string>, vs: seq<V>): (r: Dict<V>)
    requires |ks| == |vs|
    ensures d.Valid() ==> r.Valid()
    decreases |ks|
  {
    if ks == [] then d
    else PutAll(d, ks[..|ks| - 1], vs[..|vs| - 1]).Put(ks[|ks| - 1], vs[|vs| - 1])
  }

  /** The position of the last occurrence of x in s. */
  function LastIndexOf<T(==)>(s: seq<T>, x: T): (i: nat)
    requires x in s
    ensures i < |s| && s[i] == x
    ensures forall j :: i < j < |s| ==> s[j] != x
    decreases |s|
  {
    if s[|s| - 1] == x then |s| - 1 else LastIndexOf(s[..|s| - 1], x)
  }

  /** One more write after a sequence of writes. */
  lemma PutAllAppend<V>(d: Dict<V>, ks: seq<string>, vs: seq<V>, k: string, v: V)
    requires |ks| == |vs|
    ensures PutAll(d, ks + [k], vs + [v]) == PutAll(d, ks, vs).Put(k, v)
  {
    assert (ks + [k])[..|ks|] == ks;
    assert (vs + [v])[..|vs|] == vs;
  }

  /** The keys afterwards are the keys before together with every key written. */
  lemma {:induction false} PutAllKeys<V>(d: Dict<V>, ks: seq<string>, vs: seq<V>)
    requires |ks| == |vs|
    ensures forall k :: k in PutAll(d, ks, vs).entries <==> k in d.entries || k in ks
    decreases |ks|
  {
    if ks != [] {
      var n := |ks|;
      PutAllKeys(d, ks[..n - 1], vs[..n - 1]);
      assert forall k :: k in ks <==> k in ks[..n - 1] || k == ks[n - 1];
    }
  }

  /** Last write wins: a key holds the value of its last write. */
  lemma {:induction false} PutAllLastWins<V>(d: Dict<V>, ks: seq<string>, vs: seq<V>, j: nat)
    requires |ks| == |vs| && j < |ks|
    requires forall j' :: j < j' < |ks| ==> ks[j'] != ks[j]
    ensures ks[j] in PutAll(d, ks, vs).entries
    ensures PutAll(d, ks, vs).entries[ks[j]] == vs[j]
    decreases |ks|
  {
    var n := |ks|;
    if j < n - 1 {
      PutAllLastWins(d, ks[..n - 1], vs[..n - 1], j);
    }
  }

  /** A key that is never written keeps its value (or stays absent). */
  lemma {:induction false} PutAllUntouched<V>(d: Dict<V>, ks: seq<string>, vs: seq<V>, k: string)
    requires |ks| == |vs| && k !in ks
    ensures k in PutAll(d, ks, vs).entries <==> k in d.entries
    ensures k in d.entries ==> PutAll(d, ks, vs).entries[k] == d.entries[k]
    decreases |ks|
  {
    if ks != [] {
      var n := |ks|;
      PutAllUntouched(d, ks[..n - 1], vs[..n - 1], k);
    }
  }

  /** Keys already present keep their positions; new keys come after them. */
  lemma {:induction false} PutAllKeepsPositions<V>(d: Dict<V>, ks: seq<string>, vs: seq<V>)
    requires |ks| == |vs|
    ensures |d.order| <= |PutAll(d, ks, vs).order|
    ensures PutAll(d, ks, vs).order[..|d.order|] == d.order
    decreases |ks|
  {
    if ks != [] {
      var n := |ks|;
      var t := PutAll(d, ks[..n - 1], vs[..n - 1]);
      PutAllKeepsPositions(d, ks[..n - 1], vs[..n - 1]);
      if ks[n - 1] !in t.entries {
        assert (t.order + [ks[n - 1]])[..|d.order|] == t.order[..|d.order|];
      }
    }
  }

  /** The elements of s in the order of their first occurrence. */
  function FirstOccurrences(s: seq<string>): (r: seq<string>)
    ensures Distinct(r)
    ensures forall x :: x in r <==> x in s
    decreases |s|
  {
    if s == [] then []
    else
      var r := FirstOccurrences(s[..|s| - 1]);
      assert forall x :: x in s <==> x in s[..|s| - 1] || x == s[|s| - 1];
      if s[|s| - 1] in r then r else r + [s[|s| - 1]]
  }

  lemma FirstOccurrencesAppend(s: seq<string>, x: string)
    ensures FirstOccurrences(s + [x])
         == if x in FirstOccurrences(s) then FirstOccurrences(s) else FirstOccurrences(s) + [x]
  {
    assert (s + [x])[..|s|] == s;
  }

  /** A sequence without repetitions is its own list of first occurrences. */
  lemma {:induction false} FirstOccurrencesOfDistinct(s: seq<string>)
    requires Distinct(s)
    ensures FirstOccurrences(s) == s
    decreases |s|
  {
    if s != [] {
      FirstOccurrencesOfDistinct(s[..|s| - 1]);
    }
  }

  /** First occurrences are listed in the order in which they occur. */
  lemma {:induction false} FirstOccurrencesOrder(s: seq<string>, a: string, b: string)
    requires a in s && b in s
    ensures IndexOf(FirstOccurrences(s), a) < IndexOf(FirstOccurrences(s), b)
        <==> IndexOf(s, a) < IndexOf(s, b)
    decreases |s|
  {
    var n := |s|;
    var p, x := s[..n - 1], s[n - 1];
    var r := FirstOccurrences(p);
    assert s == p + [x];
    if x in p {
      assert FirstOccurrences(s) == r;
      FirstOccurrencesOrder(p, a, b);
      IndexOfAppend(p, x, a);
      IndexOfAppend(p, x, b);
    } else {
      assert FirstOccurrences(s) == r + [x];
      if a != x && b != x {
        FirstOccurrencesOrder(p, a, b);
      }
      IndexOfAppend(r, x, a);
      IndexOfAppend(r, x, b);
      IndexOfAppend(p, x, a);
      IndexOfAppend(p, x, b);
    }
  }

  lemma AppendLast(s: seq<string>, ks: seq<string>)
    requires ks != []
    ensures s + ks == (s + ks[..|ks| - 1]) + [ks[|ks| - 1]]
  {
  }

  /** A write moves no key and appends a new one. */
  lemma PutOrder<V>(t: Dict<V>, k: string, v: V)
    requires t.Valid()
    ensures t.Put(k, v).order == if k in t.order then t.order else t.order + [k]
  {
  }

  /** The enumeration order after a sequence of writes lists the keys present
      before and the keys written, each where it was first inserted. */
  lemma {:induction false} PutAllOrder<V>(d: Dict<V>, ks: seq<string>, vs: seq<V>)
    requires |ks| == |vs| && d.Valid()
    ensures PutAll(d, ks, vs).order == FirstOccurrences(d.order + ks)
    decreases |ks|
  {
    if ks == [] {
      assert d.order + ks == d.order;
      FirstOccurrencesOfDistinct(d.order);
    } else {
      var n := |ks|;
      PutAllOrder(d, ks[..n - 1], vs[..n - 1]);
      PutAllOrderStep(d, ks, vs);
    }
  }

  /** The inductive step of PutAllOrder: the last write, and the last key
      appended to the insertion history, both add that key only when new. */
  lemma PutAllOrderStep<V>(d: Dict<V>, ks: seq<string>, vs: seq<V>)
    requires |ks| == |vs| && ks != [] && d.Valid()
    ensures var t := PutAll(d, ks[..|ks| - 1], vs[..|vs| - 1]); var k := ks[|ks| - 1];
      PutAll(d, ks, vs).order == if k in t.order then t.order else t.order + [k]
    ensures var f := FirstOccurrences(d.order + ks[..|ks| - 1]); var k := ks[|ks| - 1];
      FirstOccurrences(d.order + ks) == if k in f then f else f + [k]
  {
    var n := |ks|;
    PutOrder(PutAll(d, ks[..n - 1], vs[..n - 1]), ks[n - 1], vs[n - 1]);
    AppendLast(d.order, ks);
    FirstOccurrencesAppend(d.order + ks[..n - 1], ks[n - 1]);
  }

  /** The first insertion of a key fixes its position: two keys are enumerated
      in the order of their first insertion, counting the keys present before
      as inserted first, in their own order. */
  lemma PutAllFirstInsertionOrder<V>(d: Dict<V>, ks: seq<string>, vs: seq<V>, a: string, b: string)
    requires |ks| == |vs| && d.Valid()
    requires a in PutAll(d, ks, vs).order && b in PutAll(d, ks, vs).order
    ensures a in d.order + ks && b in d.order + ks
    ensures IndexOf(PutAll(d, ks, vs).order, a) < IndexOf(PutAll(d, ks, vs).order, b)
        <==> IndexOf(d.order + ks, a) < IndexOf(d.order + ks, b)
  {
    PutAllOrder(d, ks, vs);
    FirstOccurrencesOrder(d.order + ks, a, b);
  }
}
