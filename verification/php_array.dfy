/** PHP's ordered associative arrays, restricted to string keys.

    A PHP array is a sequence of (key, value) entries in insertion order
    whose keys are pairwise distinct. Assignment `$a[k] = v` replaces the
    value in place when `k` is already a key and appends otherwise, and
    `array_merge` replays every entry of its later arguments as such an
    assignment. Integer keys, which `array_merge` renumbers, are not
    modelled: every array in this project is keyed by strings. */
module PhpArray {
  import opened Wrappers

  /** The keys of `a`, in order. */
  function KeysOf<V>(a: seq<(string, V)>): (ks: seq<string>)
    ensures |ks| == |a|
    ensures forall i :: 0 <= i < |a| ==> ks[i] == a[i].0
  {
    if |a| == 0 then [] else [a[0].0] + KeysOf(a[1..])
  }

  /** The keys of a concatenation are the concatenated keys. */
  lemma KeysOfAppend<V>(a: seq<(string, V)>, b: seq<(string, V)>)
    ensures KeysOf(a + b) == KeysOf(a) + KeysOf(b)
  {
  }

  /** The invariant every PHP array satisfies: no key occurs twice. */
  predicate DistinctKeys<V>(a: seq<(string, V)>) {
    forall i, j :: 0 <= i < j < |a| ==> a[i].0 != a[j].0
  }

  /** The position of the first entry whose key is `k`
      (`array_search(k, array_keys(a))`), or None when `k` is no key. */
  function IndexOf<V>(a: seq<(string, V)>, k: string): (r: Option<nat>)
    ensures r.Some? ==> r.value < |a| && a[r.value].0 == k
    ensures r.Some? ==> forall j :: 0 <= j < r.value ==> a[j].0 != k
    ensures r.None? <==> k !in KeysOf(a)
  {
    if |a| == 0 then None
    else if a[0].0 == k then Some(0)
    else match IndexOf(a[1..], k)
      case Some(i) => Some(i + 1)
      case None =>
        assert forall j :: 1 <= j < |a| ==> a[j].0 == a[1..][j - 1].0;
        None
  }

  /** `$a[k]`: the value stored under the first entry with key `k`; None
      when `array_key_exists(k, $a)` is false. */
  function Get<V>(a: seq<(string, V)>, k: string): (r: Option<V>)
    ensures r.Some? <==> k in KeysOf(a)
    ensures r.Some? ==> exists i :: 0 <= i < |a| && a[i] == (k, r.value) && forall j :: 0 <= j < i ==> a[j].0 != k
  {
    match IndexOf(a, k)
    case Some(i) => Some(a[i].1)
    case None => None
  }

  /** Two arrays whose keys sit at the same positions find every key at the same index. */
  lemma SameKeysSameIndex<V>(a: seq<(string, V)>, b: seq<(string, V)>, k: string)
    requires KeysOf(a) == KeysOf(b)
    ensures IndexOf(a, k) == IndexOf(b, k)
  {
    assert forall j :: 0 <= j < |a| ==> a[j].0 == KeysOf(a)[j] == KeysOf(b)[j] == b[j].0;
  }

  /** Replacing the value of an existing entry changes the lookup of that key only. */
  lemma UpdateGet<V>(a: seq<(string, V)>, i: nat, k: string, v: V, k': string)
    requires IndexOf(a, k) == Some(i)
    ensures KeysOf(a[i := (k, v)]) == KeysOf(a)
    ensures Get(a[i := (k, v)], k') == if k' == k then Some(v) else Get(a, k')
  {
    var r := a[i := (k, v)];
    assert KeysOf(r) == KeysOf(a);
    SameKeysSameIndex(r, a, k');
  }

  /** The first occurrence of a key in an array with one more entry. */
  lemma {:induction false} IndexOfSnoc<V>(a: seq<(string, V)>, e: (string, V), k: string)
    ensures IndexOf(a + [e], k) == if k in KeysOf(a) then IndexOf(a, k)
                                   else if e.0 == k then Some(|a|) else None
    decreases |a|
  {
    if |a| > 0 {
      assert (a + [e])[1..] == a[1..] + [e];
      IndexOfSnoc(a[1..], e, k);
      assert KeysOf(a) == [a[0].0] + KeysOf(a[1..]);
    }
  }

  /** Appending an entry with a new key adds that key and changes no other lookup. */
  lemma AppendGet<V>(a: seq<(string, V)>, k: string, v: V, k': string)
    requires k !in KeysOf(a)
    ensures KeysOf(a + [(k, v)]) == KeysOf(a) + [k]
    ensures Get(a + [(k, v)], k') == if k' == k then Some(v) else Get(a, k')
  {
    var r := a + [(k, v)];
    assert KeysOf(r) == KeysOf(a) + [k];
    IndexOfSnoc(a, (k, v), k');
    if k' in KeysOf(a) {
      assert r[IndexOf(a, k').value] == a[IndexOf(a, k').value];
    }
  }

  /** `$a[k] = v`. */
  function Put<V>(a: seq<(string, V)>, k: string, v: V): (r: seq<(string, V)>)
    ensures KeysOf(r) == if k in KeysOf(a) then KeysOf(a) else KeysOf(a) + [k]
    ensures forall k' :: Get(r, k') == if k' == k then Some(v) else Get(a, k')
    ensures DistinctKeys(a) ==> DistinctKeys(r)
  {
    match IndexOf(a, k)
    case Some(i) =>
      var r := a[i := (k, v)];
      assert forall k' :: Get(r, k') == if k' == k then Some(v) else Get(a, k') by {
        forall k' ensures Get(r, k') == if k' == k then Some(v) else Get(a, k') {
          UpdateGet(a, i, k, v, k');
        }
      }
      UpdateGet(a, i, k, v, k);
      r
    case None =>
      var r := a + [(k, v)];
      assert forall k' :: Get(r, k') == if k' == k then Some(v) else Get(a, k') by {
        forall k' ensures Get(r, k') == if k' == k then Some(v) else Get(a, k') {
          AppendGet(a, k, v, k');
        }
      }
      AppendGet(a, k, v, k);
      assert DistinctKeys(a) ==> DistinctKeys(r) by {
        if DistinctKeys(a) {
          forall i, j | 0 <= i < j < |r| ensures r[i].0 != r[j].0 {
            if j == |a| {
              assert a[i].0 == KeysOf(a)[i];
            }
          }
        }
      }
      r
  }

  /** Merging `b` into `a`: every entry of `b`, in order, assigned into `a`.
      `array_merge(x, y, ...)` with string keys is `Merge` applied left to
      right starting from the empty array. */
  function Merge<V>(a: seq<(string, V)>, b: seq<(string, V)>): (r: seq<(string, V)>)
    ensures forall k :: k in KeysOf(r) <==> k in KeysOf(a) || k in KeysOf(b)
    ensures |a| <= |r| && KeysOf(r)[..|a|] == KeysOf(a)
    ensures DistinctKeys(a) ==> DistinctKeys(r)
    decreases |b|
  {
    if |b| == 0 then a
    else
      var a' := Put(a, b[0].0, b[0].1);
      var r := Merge(a', b[1..]);
      assert KeysOf(r)[..|a|] == KeysOf(r)[..|a'|][..|a|];
      assert forall k :: k in KeysOf(b) <==> k == b[0].0 || k in KeysOf(b[1..]) by {
        assert KeysOf(b) == [b[0].0] + KeysOf(b[1..]);
      }
      r
  }

  /** The head key of a PHP array does not reappear in its tail. */
  lemma DistinctTail<V>(b: seq<(string, V)>)
    requires DistinctKeys(b) && |b| > 0
    ensures DistinctKeys(b[1..])
    ensures b[0].0 !in KeysOf(b[1..])
    ensures KeysOf(b) == [b[0].0] + KeysOf(b[1..])
  {
    var t := b[1..];
    assert forall j :: 0 <= j < |t| ==> KeysOf(t)[j] == b[j + 1].0 != b[0].0;
  }

  /** Lookup in a non-empty array: the head entry answers for its own key,
      the tail for every other key. */
  lemma GetCons<V>(b: seq<(string, V)>, k: string)
    requires |b| > 0
    ensures Get(b, k) == if b[0].0 == k then Some(b[0].1) else Get(b[1..], k)
  {
  }

  /** Lookup in a merged array: a key of `b` has `b`'s value, any other key keeps `a`'s. */
  lemma {:induction false} MergeGet<V>(a: seq<(string, V)>, b: seq<(string, V)>, k: string)
    requires DistinctKeys(b)
    ensures Get(Merge(a, b), k) == if k in KeysOf(b) then Get(b, k) else Get(a, k)
    decreases |b|
  {
    if |b| > 0 {
      var a', b' := Put(a, b[0].0, b[0].1), b[1..];
      assert Merge(a, b) == Merge(a', b');
      DistinctTail(b);
      GetCons(b, k);
      MergeGet(a', b', k);
    }
  }

  /** No key of `b` is a key of `a`. */
  predicate DisjointKeys<V>(a: seq<(string, V)>, b: seq<(string, V)>) {
    forall k :: k in KeysOf(b) ==> k !in KeysOf(a)
  }

  /** Assigning the head of a disjoint array appends it, and the rest stays disjoint. */
  lemma DisjointStep<V>(a: seq<(string, V)>, b: seq<(string, V)>)
    requires DistinctKeys(b) && |b| > 0 && DisjointKeys(a, b)
    ensures Put(a, b[0].0, b[0].1) == a + [b[0]]
    ensures DisjointKeys(a + [b[0]], b[1..])
  {
    DistinctTail(b);
    assert IndexOf(a, b[0].0) == None;
    assert KeysOf(a + [b[0]]) == KeysOf(a) + [b[0].0];
    forall k | k in KeysOf(b[1..]) ensures k !in KeysOf(a + [b[0]]) {
      assert k in KeysOf(b) && k != b[0].0;
    }
  }

  /** Moving the head of `b` to the end of `a` leaves the concatenation unchanged. */
  lemma ShiftHead<T>(a: seq<T>, b: seq<T>)
    requires |b| > 0
    ensures (a + [b[0]]) + b[1..] == a + b
  {
  }

  /** Merging an array whose keys are all new appends it unchanged. */
  lemma {:induction false} MergeDisjoint<V>(a: seq<(string, V)>, b: seq<(string, V)>)
    requires DistinctKeys(b) && DisjointKeys(a, b)
    ensures Merge(a, b) == a + b
    decreases |b|
  {
    if |b| > 0 {
      DistinctTail(b);
      DisjointStep(a, b);
      MergeDisjoint(a + [b[0]], b[1..]);
      ShiftHead(a, b);
    }
  }

  /** The position of the last entry whose key is `k`, or None when `k` is no key. */
  function LastIndexOf<V>(b: seq<(string, V)>, k: string): (r: Option<nat>)
    ensures r.Some? ==> r.value < |b| && b[r.value].0 == k
    ensures r.Some? ==> forall j :: r.value < j < |b| ==> b[j].0 != k
    ensures r.None? <==> k !in KeysOf(b)
  {
    if |b| == 0 then None
    else if b[|b| - 1].0 == k then Some(|b| - 1)
    else
      var init := b[..|b| - 1];
      assert forall j :: 0 <= j < |init| ==> b[j].0 == init[j].0;
      LastIndexOf(init, k)
  }

  /** Merging one more entry is one more assignment. */
  lemma {:induction false} MergeSnoc<V>(a: seq<(string, V)>, b: seq<(string, V)>, e: (string, V))
    ensures Merge(a, b + [e]) == Put(Merge(a, b), e.0, e.1)
    decreases |b|
  {
    if |b| > 0 {
      assert (b + [e])[0] == b[0];
      assert (b + [e])[1..] == b[1..] + [e];
      MergeSnoc(Put(a, b[0].0, b[0].1), b[1..], e);
    }
  }

  /** The last occurrence of a key in an array with one more entry. */
  lemma LastIndexOfSnoc<V>(b: seq<(string, V)>, e: (string, V), k: string)
    ensures LastIndexOf(b + [e], k) == if e.0 == k then Some(|b|) else LastIndexOf(b, k)
  {
    assert (b + [e])[..|b|] == b;
  }

  /** Lookup in a merged array whose second argument may repeat a key: the
      last entry of `b` with that key wins, and keys not in `b` keep `a`'s value. */
  lemma {:induction false} MergeGetLast<V>(a: seq<(string, V)>, b: seq<(string, V)>, k: string)
    ensures Get(Merge(a, b), k) == match LastIndexOf(b, k)
                                   case Some(i) => Some(b[i].1)
                                   case None => Get(a, k)
    decreases |b|
  {
    if |b| > 0 {
      var b', e := b[..|b| - 1], b[|b| - 1];
      assert b == b' + [e];
      MergeSnoc(a, b', e);
      LastIndexOfSnoc(b', e, k);
      if k != e.0 {
        MergeGetLast(a, b', k);
      }
    }
  }

  /** Cutting an array in two splits its keys between the halves. */
  lemma SliceKeys<V>(a: seq<(string, V)>, i: nat)
    requires i <= |a|
    ensures forall k :: k in KeysOf(a) <==> k in KeysOf(a[..i]) || k in KeysOf(a[i..])
  {
    assert a == a[..i] + a[i..];
    KeysOfAppend(a[..i], a[i..]);
  }

  /** Both halves of a PHP array are PHP arrays. */
  lemma SliceDistinct<V>(a: seq<(string, V)>, i: nat)
    requires DistinctKeys(a) && i <= |a|
    ensures DistinctKeys(a[..i]) && DistinctKeys(a[i..])
  {
    var post := a[i..];
    assert forall j :: 0 <= j < |post| ==> post[j] == a[i + j];
  }

  /** Cutting a PHP array in two and putting a new key between the halves
      leaves no key shared between the pieces. */
  lemma SplitDistinct<V>(a: seq<(string, V)>, i: nat, e: (string, V))
    requires DistinctKeys(a) && i <= |a|
    requires e.0 !in KeysOf(a)
    ensures DistinctKeys(a[..i]) && DistinctKeys(a[i..])
    ensures DisjointKeys(a[..i], [e])
    ensures DisjointKeys(a[..i] + [e], a[i..])
  {
    SliceDistinct(a, i);
    SliceKeys(a, i);
    assert KeysOf([e]) == [e.0];
    KeysOfAppend(a[..i], [e]);
    forall k | k in KeysOf(a[i..]) ensures k !in KeysOf(a[..i] + [e]) {
      SecondHalfKey(a, i, k);
    }
  }

  /** A key of the second half of a PHP array is no key of the first half. */
  lemma SecondHalfKey<V>(a: seq<(string, V)>, i: nat, k: string)
    requires DistinctKeys(a) && i <= |a|
    requires k in KeysOf(a[i..])
    ensures k !in KeysOf(a[..i])
  {
    var pre, post := a[..i], a[i..];
    var j :| 0 <= j < |post| && KeysOf(post)[j] == k;
    assert k == a[i + j].0;
    forall m | 0 <= m < |pre| ensures KeysOf(pre)[m] != k {
      assert KeysOf(pre)[m] == a[m].0;
    }
  }

  /** Merging a PHP array into the empty array gives it back. */
  lemma MergeIntoEmpty<V>(a: seq<(string, V)>)
    requires DistinctKeys(a)
    ensures Merge([], a) == a
  {
    assert DisjointKeys([], a);
    MergeDisjoint([], a);
    assert [] + a == a;
  }

  /** Merging a one-entry array is one assignment. */
  lemma MergeSingle<V>(a: seq<(string, V)>, k: string, v: V)
    ensures Merge(a, [(k, v)]) == Put(a, k, v)
  {
    assert [(k, v)][1..] == [];
  }
}
