/**
 * `append_dictionaries(dict1, dict2, recursive)`: for every key of either
 * dictionary, combine the two values (a missing value counts as the integer
 * 0) by the first rule that applies, or leave the key out.
 */
module DictMerge {
  import opened Wrappers

  /** The values the dictionaries hold; a tensor is a 1-D sequence of reals. */
  datatype Value =
    | Int(i: int)
    | Bool(b: bool)
    | Float(f: real)
    | Str(s: string)
    | List(items: seq<Value>)
    | Tensor(data: seq<real>)
    | Dict(entries: map<string, Value>)

  /** `isinstance(v, int) or isinstance(v, float)`; a bool is an int. */
  predicate IsNumber(v: Value) {
    v.Int? || v.Bool? || v.Float?
  }

  /** `d.get(k, 0)` */
  function Get(d: map<string, Value>, k: string): (v: Value)
    ensures k in d ==> v == d[k]
    ensures k !in d ==> v == Int(0)
  {
    if k in d then d[k] else Int(0)
  }

  /** The rules in order: a list gains a number; a number pairs with
      anything; tensors concatenate; dictionaries merge when recursive. */
  predicate Combines(item1: Value, item2: Value, recursive: bool) {
    (item1.List? && IsNumber(item2)) || IsNumber(item1) || (item1.Tensor? && item2.Tensor?)
    || (item1.Dict? && item2.Dict? && recursive)
  }

  /** What the loop body assigns to `result[k]`, if anything. */
  function MergeEntry(d1: map<string, Value>, d2: map<string, Value>, k: string, recursive: bool): (r: Option<Value>)
    ensures r.Some? <==> Combines(Get(d1, k), Get(d2, k), recursive)
    decreases Dict(d1), 0
  {
    var item1, item2 := Get(d1, k), Get(d2, k);
    if item1.List? && IsNumber(item2) then Some(List(item1.items + [item2]))
    else if IsNumber(item1) then Some(List([item1, item2]))
    else if item1.Tensor? && item2.Tensor? then Some(Tensor(item1.data + item2.data))
    else if item1.Dict? && item2.Dict? && recursive then
      assert Dict(item1.entries) == d1[k];
      Some(Dict(Merge(item1.entries, item2.entries, true)))
    else None
  }

  /** The merged dictionary: only keys of the two inputs, and exactly those
      whose values combine. */
  function Merge(d1: map<string, Value>, d2: map<string, Value>, recursive: bool): (r: map<string, Value>)
    ensures r.Keys <= d1.Keys + d2.Keys
    ensures forall k :: k in d1.Keys + d2.Keys ==> (k in r <==> Combines(Get(d1, k), Get(d2, k), recursive))
    decreases Dict(d1), 1
  {
    map k | k in d1.Keys + d2.Keys && MergeEntry(d1, d2, k, recursive).Some?
      :: MergeEntry(d1, d2, k, recursive).value
  }

  /** The loop over the union of the key sets. */
  method AppendDictionaries(d1: map<string, Value>, d2: map<string, Value>, recursive: bool)
    returns (result: map<string, Value>)
    ensures result == Merge(d1, d2, recursive)
    decreases Dict(d1), 1
  {
    result := map[];
    var keys := d1.Keys + d2.Keys;
    var todo := keys;
    while todo != {}
      invariant todo <= keys
      invariant forall k :: k in keys && k !in todo ==> (k in result <==> MergeEntry(d1, d2, k, recursive).Some?)
      invariant forall k :: k in result ==> k in keys && k !in todo && result[k] == MergeEntry(d1, d2, k, recursive).value
      decreases |todo|
    {
      var k :| k in todo;
      var entry := AppendEntry(d1, d2, k, recursive);
      if entry.Some? {
        result := result[k := entry.value];
      }
      todo := todo - {k};
    }
    MergeUnique(d1, d2, recursive, result);
  }

  /** A map holding exactly the combined entries, key by key, is the merge. */
  lemma MergeUnique(d1: map<string, Value>, d2: map<string, Value>, recursive: bool, m: map<string, Value>)
    requires forall k :: k in d1.Keys + d2.Keys ==> (k in m <==> MergeEntry(d1, d2, k, recursive).Some?)
    requires forall k :: k in m ==> k in d1.Keys + d2.Keys && m[k] == MergeEntry(d1, d2, k, recursive).value
    ensures m == Merge(d1, d2, recursive)
  {
    var merged := Merge(d1, d2, recursive);
    assert m.Keys == merged.Keys;
  }

  /** The body of the loop for key k: the value it stores, if any, recursing
      into nested dictionaries. */
  method AppendEntry(d1: map<string, Value>, d2: map<string, Value>, k: string, recursive: bool)
    returns (entry: Option<Value>)
    ensures entry == MergeEntry(d1, d2, k, recursive)
    decreases Dict(d1), 0
  {
    var item1, item2 := Get(d1, k), Get(d2, k);
    if item1.List? && IsNumber(item2) {
      entry := Some(List(item1.items + [item2]));
    } else if IsNumber(item1) {
      entry := Some(List([item1, item2]));
    } else if item1.Tensor? && item2.Tensor? {
      entry := Some(Tensor(item1.data + item2.data));
    } else if item1.Dict? && item2.Dict? && recursive {
      assert Dict(item1.entries) == d1[k];
      var inner := AppendDictionaries(item1.entries, item2.entries, true);
      entry := Some(Dict(inner));
    } else {
      entry := None;
    }
  }

  // ---------------------------------------------------------------------
  // The defaulting rules, key by key

  /** A key only the second dictionary has gives [0, v2], whatever v2 is. */
  lemma OnlyInSecond(d1: map<string, Value>, d2: map<string, Value>, k: string, recursive: bool)
    requires k !in d1 && k in d2
    ensures k in Merge(d1, d2, recursive)
    ensures Merge(d1, d2, recursive)[k] == List([Int(0), d2[k]])
  {
  }

  /** A list gains the number the second dictionary holds for its key, or 0
      when the second dictionary lacks the key. */
  lemma ListGainsNumber(d1: map<string, Value>, d2: map<string, Value>, k: string, recursive: bool)
    requires k in d1 && d1[k].List? && IsNumber(Get(d2, k))
    ensures k in Merge(d1, d2, recursive)
    ensures Merge(d1, d2, recursive)[k] == List(d1[k].items + [Get(d2, k)])
    ensures k !in d2 ==> Merge(d1, d2, recursive)[k] == List(d1[k].items + [Int(0)])
  {
  }

  /** A number in the first dictionary pairs with whatever the second holds. */
  lemma NumberPairs(d1: map<string, Value>, d2: map<string, Value>, k: string, recursive: bool)
    requires k in d1 && IsNumber(d1[k])
    ensures k in Merge(d1, d2, recursive)
    ensures Merge(d1, d2, recursive)[k] == List([d1[k], Get(d2, k)])
  {
  }

  /** Two tensors are concatenated. */
  lemma TensorsConcatenate(d1: map<string, Value>, d2: map<string, Value>, k: string, recursive: bool)
    requires k in d1 && k in d2 && d1[k].Tensor? && d2[k].Tensor?
    ensures k in Merge(d1, d2, recursive)
    ensures Merge(d1, d2, recursive)[k] == Tensor(d1[k].data + d2[k].data)
  {
  }

  /** Two nested dictionaries are kept only when merging recursively, and are
      then merged recursively themselves. */
  lemma NestedDicts(d1: map<string, Value>, d2: map<string, Value>, k: string, recursive: bool)
    requires k in d1 && k in d2 && d1[k].Dict? && d2[k].Dict?
    ensures k in Merge(d1, d2, recursive) <==> recursive
    ensures recursive ==> Merge(d1, d2, recursive)[k] == Dict(Merge(d1[k].entries, d2[k].entries, true))
  {
  }

  /** Every other pairing leaves the key out: two lists, a list and a
      non-number, strings, a tensor with a non-tensor, a dictionary with a
      non-dictionary. */
  lemma OtherPairsDropped(d1: map<string, Value>, d2: map<string, Value>, k: string, recursive: bool)
    requires k in d1 && k in d2
    requires (d1[k].List? && !IsNumber(d2[k])) || d1[k].Str?
             || (d1[k].Tensor? && !d2[k].Tensor?) || (d1[k].Dict? && !d2[k].Dict?)
    ensures k !in Merge(d1, d2, recursive)
  {
  }

  /** Merging two empty dictionaries gives an empty one. */
  lemma MergeEmpty(recursive: bool)
    ensures Merge(map[], map[], recursive) == map[]
  {
  }
}
