/** The order in which `groupby` lists its keys: strings compared code point by code point. */
module KeyOrder {

  /** `a < b` on strings, lexicographically by character code. */
  predicate Less(a: string, b: string)
    decreases |a|
  {
    if a == [] then b != []
    else b != [] && (a[0] < b[0] || (a[0] == b[0] && Less(a[1..], b[1..])))
  }

  lemma {:induction false} LessIrreflexive(a: string)
    ensures !Less(a, a)
    decreases |a|
  {
    if a != [] {
      LessIrreflexive(a[1..]);
    }
  }

  lemma {:induction false} LessTransitive(a: string, b: string, c: string)
    requires Less(a, b) && Less(b, c)
    ensures Less(a, c)
    decreases |a|
  {
    if a != [] && a[0] == b[0] && b[0] == c[0] {
      LessTransitive(a[1..], b[1..], c[1..]);
    }
  }

  lemma {:induction false} LessTotal(a: string, b: string)
    requires a != b
    ensures Less(a, b) || Less(b, a)
    decreases |a|
  {
    if a != [] && b != [] && a[0] == b[0] {
      assert a == [a[0]] + a[1..] && b == [b[0]] + b[1..];
      LessTotal(a[1..], b[1..]);
    }
  }

  /** Keys in strictly ascending order, hence pairwise distinct. */
  predicate StrictlySorted(ks: seq<string>) {
    forall i, j :: 0 <= i < j < |ks| ==> Less(ks[i], ks[j])
  }

  lemma SortedDistinct(ks: seq<string>, i: nat, j: nat)
    requires StrictlySorted(ks) && i < |ks| && j < |ks| && i != j
    ensures ks[i] != ks[j]
  {
    if i < j { LessIrreflexive(ks[i]); } else { LessIrreflexive(ks[j]); }
  }

  /** Adds `k` to a sorted key list, keeping it sorted and free of duplicates. */
  function Insert(ks: seq<string>, k: string): (r: seq<string>)
    requires StrictlySorted(ks)
    ensures StrictlySorted(r)
    ensures forall x :: x in r <==> x in ks || x == k
    decreases |ks|
  {
    if ks == [] then [k]
    else if k == ks[0] then ks
    else if Less(k, ks[0]) then
      assert forall j :: 0 < j < |ks| ==> Less(k, ks[j]) by {
        forall j | 0 < j < |ks| ensures Less(k, ks[j]) { LessTransitive(k, ks[0], ks[j]); }
      }
      [k] + ks
    else
      LessTotal(k, ks[0]);
      var rest := Insert(ks[1..], k);
      assert forall x :: x in rest ==> Less(ks[0], x);
      [ks[0]] + rest
  }

  /** The distinct keys of `ks` in ascending order: the group labels `groupby` produces. */
  function SortedKeys(ks: seq<string>): (r: seq<string>)
    ensures StrictlySorted(r)
    ensures forall x :: x in r <==> x in ks
    decreases |ks|
  {
    if ks == [] then [] else Insert(SortedKeys(ks[..|ks| - 1]), ks[|ks| - 1])
  }

  lemma {:induction false} InsertGreatest(ks: seq<string>, k: string)
    requires StrictlySorted(ks)
    requires forall x :: x in ks ==> Less(x, k)
    ensures Insert(ks, k) == ks + [k]
    decreases |ks|
  {
    if ks != [] {
      var tail := ks[1..];
      NotLessOfGreater(ks[0], k);
      forall x | x in tail ensures Less(x, k) {
        assert x in ks;
      }
      InsertGreatest(tail, k);
      assert ks == [ks[0]] + tail;
    }
  }

  lemma NotLessOfGreater(a: string, k: string)
    requires Less(a, k)
    ensures !Less(k, a) && k != a
  {
    LessIrreflexive(k);
    if Less(k, a) { LessTransitive(k, a, k); }
  }

  /** Already sorted, distinct keys are their own group labels. */
  lemma {:induction false} SortedKeysOfSorted(ks: seq<string>)
    requires StrictlySorted(ks)
    ensures SortedKeys(ks) == ks
    decreases |ks|
  {
    if ks != [] {
      var init := ks[..|ks| - 1];
      assert StrictlySorted(init);
      SortedKeysOfSorted(init);
      forall x | x in init ensures Less(x, ks[|ks| - 1]) {
        var i :| 0 <= i < |init| && init[i] == x;
      }
      InsertGreatest(init, ks[|ks| - 1]);
      assert init + [ks[|ks| - 1]] == ks;
    }
  }
}
