/**
 * `pprint_dict(d)`: the entries of a dictionary as "key=value", in
 * ascending key order, joined by "-". A dictionary is its list of items in
 * insertion order with pairwise different keys; keys are strings compared
 * as Python compares str, and values are given as the text f"{v}" renders.
 */
module PrettyPrint {

  type Item = (string, string)

  /** Python's `<` on str: lexicographic order of code points, a proper
      prefix first. */
  predicate Less(a: string, b: string) {
    if a == [] then b != []
    else if b == [] then false
    else a[0] < b[0] || (a[0] == b[0] && Less(a[1..], b[1..]))
  }

  lemma {:induction false} LessIrreflexive(a: string)
    ensures !Less(a, a)
  {
    if a != [] {
      LessIrreflexive(a[1..]);
    }
  }

  lemma {:induction false} LessTransitive(a: string, b: string, c: string)
    requires Less(a, b) && Less(b, c)
    ensures Less(a, c)
  {
    if a != [] && a[0] == b[0] && b[0] == c[0] {
      LessTransitive(a[1..], b[1..], c[1..]);
    }
  }

  lemma {:induction false} LessTotal(a: string, b: string)
    requires a != b
    ensures Less(a, b) || Less(b, a)
  {
    if a != [] && b != [] && a[0] == b[0] {
      assert a == [a[0]] + a[1..] && b == [b[0]] + b[1..];
      LessTotal(a[1..], b[1..]);
    }
  }

  predicate KeysDistinct(items: seq<Item>) {
    forall i, j :: 0 <= i < j < |items| ==> items[i].0 != items[j].0
  }

  predicate SortedByKey(items: seq<Item>) {
    forall i, j :: 0 <= i < j < |items| ==> Less(items[i].0, items[j].0)
  }

  /** Inserts x before the first item whose key is greater. */
  function Insert(x: Item, t: seq<Item>): (r: seq<Item>)
    ensures multiset(r) == multiset(t) + multiset{x}
  {
    if t == [] then [x]
    else if Less(x.0, t[0].0) then [x] + t
    else
      assert t == [t[0]] + t[1..];
      [t[0]] + Insert(x, t[1..])
  }

  /** `sorted(d.items())`: the items in ascending key order. */
  function SortByKey(items: seq<Item>): (r: seq<Item>)
    ensures multiset(r) == multiset(items)
  {
    if items == [] then []
    else
      assert items == [items[0]] + items[1..];
      Insert(items[0], SortByKey(items[1..]))
  }

  /** The pieces f"{k}={v}". */
  function Render(items: seq<Item>): (parts: seq<string>)
    ensures |parts| == |items|
  {
    seq(|items|, i requires 0 <= i < |items| => items[i].0 + "=" + items[i].1)
  }

  /** `sep.join(parts)`. */
  function Join(parts: seq<string>, sep: string): string {
    if |parts| == 0 then ""
    else if |parts| == 1 then parts[0]
    else parts[0] + sep + Join(parts[1..], sep)
  }

  /** The printed text; it is empty exactly for the empty dictionary. */
  function Pprint(items: seq<Item>): (r: string)
    ensures r == "" <==> items == []
  {
    var t := SortByKey(items);
    assert |t| == |multiset(t)| == |multiset(items)| == |items|;
    assert t != [] ==> |Render(t)[0]| > 0;
    JoinStartsWithFirst(Render(t), "-");
    Join(Render(t), "-")
  }

  /** A join starts with its first piece. */
  lemma JoinStartsWithFirst(parts: seq<string>, sep: string)
    ensures |parts| > 0 ==> |Join(parts, sep)| >= |parts[0]|
  {
  }

  /** The function of the module: sort the items, render each, join with "-". */
  method PprintDict(items: seq<Item>) returns (s: string)
    requires KeysDistinct(items)
    ensures s == Pprint(items)
  {
    var sorted := SortByKey(items);
    var parts: seq<string> := [];
    for i := 0 to |sorted|
      invariant parts == Render(sorted[..i])
    {
      parts := parts + [sorted[i].0 + "=" + sorted[i].1];
    }
    assert sorted[..|sorted|] == sorted;
    s := Join(parts, "-");
  }

  // ---------------------------------------------------------------------
  // Sorting

  lemma {:induction false} InsertSorted(x: Item, t: seq<Item>)
    requires SortedByKey(t)
    requires forall i :: 0 <= i < |t| ==> t[i].0 != x.0
    ensures SortedByKey(Insert(x, t))
  {
    if t != [] {
      if Less(x.0, t[0].0) {
        forall j | 1 <= j < |t| + 1
          ensures Less(x.0, ([x] + t)[j].0)
        {
          if j > 1 {
            LessTransitive(x.0, t[0].0, t[j - 1].0);
          }
        }
      } else {
        LessTotal(x.0, t[0].0);
        var rest := Insert(x, t[1..]);
        InsertSorted(x, t[1..]);
        forall j | 0 <= j < |rest|
          ensures Less(t[0].0, rest[j].0)
        {
          assert rest[j] in multiset(rest);
          if rest[j] != x {
            assert rest[j] in multiset(t[1..]);
            var k :| 0 <= k < |t[1..]| && t[1..][k] == rest[j];
            assert t[k + 1] == rest[j];
          }
        }
      }
    }
  }

  /** Sorting items with different keys puts them in strictly ascending key order. */
  lemma {:induction false} SortByKeySorted(items: seq<Item>)
    requires KeysDistinct(items)
    ensures SortedByKey(SortByKey(items))
  {
    if items != [] {
      var t := SortByKey(items[1..]);
      SortByKeySorted(items[1..]);
      forall i | 0 <= i < |t|
        ensures t[i].0 != items[0].0
      {
        assert t[i] in multiset(items[1..]);
        var k :| 0 <= k < |items[1..]| && items[1..][k] == t[i];
        assert items[k + 1] == t[i];
      }
      InsertSorted(items[0], t);
    }
  }

  /** Two ascending arrangements of the same items start with the same item. */
  lemma SortedSameHead(t1: seq<Item>, t2: seq<Item>)
    requires SortedByKey(t1) && SortedByKey(t2) && multiset(t1) == multiset(t2)
    requires t1 != [] && t2 != []
    ensures t1[0] == t2[0]
  {
    var x, y := t1[0], t2[0];
    assert x in multiset(t2) && y in multiset(t1);
    var j :| 0 <= j < |t2| && t2[j] == x;
    var i :| 0 <= i < |t1| && t1[i] == y;
    if j > 0 {
      assert Less(y.0, x.0);
      if i == 0 {
        LessIrreflexive(x.0);
      } else {
        LessTransitive(x.0, y.0, x.0);
        LessIrreflexive(x.0);
      }
    }
  }

  lemma SortedTail(t: seq<Item>)
    requires SortedByKey(t) && t != []
    ensures SortedByKey(t[1..])
  {
    forall i, j | 0 <= i < j < |t| - 1
      ensures Less(t[1..][i].0, t[1..][j].0)
    {
      assert t[1..][i] == t[i + 1] && t[1..][j] == t[j + 1];
    }
  }

  lemma MultisetTail(t1: seq<Item>, t2: seq<Item>)
    requires multiset(t1) == multiset(t2) && t1 != [] && t2 != [] && t1[0] == t2[0]
    ensures multiset(t1[1..]) == multiset(t2[1..])
  {
    assert t1 == [t1[0]] + t1[1..] && t2 == [t2[0]] + t2[1..];
    assert multiset(t1[1..]) == multiset(t1) - multiset{t1[0]};
    assert multiset(t2[1..]) == multiset(t2) - multiset{t2[0]};
  }

  /** Only one arrangement of a collection of items is in ascending key order. */
  lemma {:induction false} SortedUnique(t1: seq<Item>, t2: seq<Item>)
    requires SortedByKey(t1) && SortedByKey(t2) && multiset(t1) == multiset(t2)
    ensures t1 == t2
  {
    if t1 == [] {
      assert |multiset(t2)| == 0;
    } else {
      assert |t2| == |multiset(t2)| == |multiset(t1)| == |t1|;
      SortedSameHead(t1, t2);
      SortedTail(t1);
      SortedTail(t2);
      MultisetTail(t1, t2);
      SortedUnique(t1[1..], t2[1..]);
      assert t1 == [t1[0]] + t1[1..] && t2 == [t2[0]] + t2[1..];
    }
  }

  // ---------------------------------------------------------------------
  // Properties of the printed text

  /** The empty dictionary prints as the empty string. */
  lemma PprintEmpty()
    ensures Pprint([]) == ""
  {
  }

  /** The text does not depend on the insertion order of the dictionary. */
  lemma PprintOrderIndependent(a: seq<Item>, b: seq<Item>)
    requires KeysDistinct(a) && KeysDistinct(b) && multiset(a) == multiset(b)
    ensures Pprint(a) == Pprint(b)
  {
    SortByKeySorted(a);
    SortByKeySorted(b);
    SortedUnique(SortByKey(a), SortByKey(b));
  }

  /** The text lists every entry once, as "k=v", in ascending key order: it is
      the join of the rendering of the one ascending arrangement of the items. */
  lemma PprintAscending(items: seq<Item>, t: seq<Item>)
    requires KeysDistinct(items) && SortedByKey(t) && multiset(t) == multiset(items)
    ensures Pprint(items) == Join(Render(t), "-")
  {
    SortByKeySorted(items);
    SortedUnique(SortByKey(items), t);
  }
}
