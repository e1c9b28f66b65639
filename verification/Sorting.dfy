/** The stable insertion sort that every multi-key command goes through before it runs. */
module Sorting {
  import opened Store
  import opened Text

  // The specification: insertion into a sorted prefix, after the keys that are not larger.

  function Insert(s: seq<Pair>, x: Pair): (r: seq<Pair>)
    ensures |r| == |s| + 1
  {
    if s == [] || AtMost(s[|s| - 1].key, x.key) then s + [x]
    else Insert(s[..|s| - 1], x) + [s[|s| - 1]]
  }

  function Sort(s: seq<Pair>): (r: seq<Pair>)
    ensures |r| == |s|
  {
    if s == [] then [] else Insert(Sort(s[..|s| - 1]), s[|s| - 1])
  }

  predicate Sorted(s: seq<Pair>) {
    forall i, j :: 0 <= i < j < |s| ==> AtMost(s[i].key, s[j].key)
  }

  /** The pairs of `s` that name `key`, in order. */
  function WithKey(s: seq<Pair>, key: string): seq<Pair> {
    if s == [] then []
    else
      var init := WithKey(s[..|s| - 1], key);
      if s[|s| - 1].key == key then init + [s[|s| - 1]] else init
  }

  lemma {:induction false} InsertSorted(s: seq<Pair>, x: Pair)
    requires Sorted(s)
    ensures Sorted(Insert(s, x))
    ensures multiset(Insert(s, x)) == multiset(s) + multiset{x}
  {
    if s == [] {
    } else if AtMost(s[|s| - 1].key, x.key) {
      forall i | 0 <= i < |s| ensures AtMost(s[i].key, x.key) {
        AtMostTotalOrder(s[i].key, s[|s| - 1].key, x.key);
      }
    } else {
      var init, last := s[..|s| - 1], s[|s| - 1];
      assert s == init + [last];
      InsertSorted(init, x);
      var r := Insert(init, x);
      forall i | 0 <= i < |r| ensures AtMost(r[i].key, last.key) {
        AtMostTotalOrder(x.key, last.key, x.key);
        assert r[i] in multiset(init) + multiset{x};
        assert r[i] in init || r[i] == x;
      }
    }
  }

  lemma {:induction false} InsertStable(s: seq<Pair>, x: Pair, key: string)
    requires Sorted(s)
    ensures WithKey(Insert(s, x), key) == WithKey(s + [x], key)
  {
    if s != [] && !AtMost(s[|s| - 1].key, x.key) {
      var init, last := s[..|s| - 1], s[|s| - 1];
      InsertStable(init, x, key);
      LessIrreflexive(x.key);
      assert (init + [x])[..|init|] == init;
      assert (s + [x])[..|s|] == s;
      assert (Insert(init, x) + [last])[..|init| + 1] == Insert(init, x);
    }
  }

  /** Sorted, a permutation, and stable: equal keys keep the order the user gave. */
  lemma {:induction false} SortIsStable(s: seq<Pair>)
    ensures Sorted(Sort(s))
    ensures multiset(Sort(s)) == multiset(s)
    ensures forall key :: WithKey(Sort(s), key) == WithKey(s, key)
  {
    if s != [] {
      var init, x := s[..|s| - 1], s[|s| - 1];
      assert s == init + [x];
      SortIsStable(init);
      InsertSorted(Sort(init), x);
      forall key ensures WithKey(Sort(s), key) == WithKey(s, key) {
        InsertStable(Sort(init), x, key);
        assert (Sort(init) + [x])[..|init|] == Sort(init);
      }
    }
  }

  /** Those properties leave no choice: any sorted, stable rearrangement of `s` is `Sort(s)`. */
  lemma SortIsUnique(s: seq<Pair>, r: seq<Pair>)
    requires Sorted(r) && forall key :: WithKey(r, key) == WithKey(s, key)
    ensures r == Sort(s)
  {
    SortIsStable(s);
    SortedStableEqual(r, Sort(s));
  }

  lemma {:induction false} SortedStableEqual(r: seq<Pair>, s: seq<Pair>)
    requires Sorted(r) && Sorted(s)
    requires forall key :: WithKey(r, key) == WithKey(s, key)
    ensures r == s
  {
    if r == [] {
      if s != [] {
        var named := WithKey(s, s[|s| - 1].key);
        assert false;
      }
    } else {
      var x := r[|r| - 1];
      assert WithKey(s, x.key) == WithKey(r, x.key) != [];
      var y := s[|s| - 1];
      assert WithKey(r, y.key) != [];
      WithKeyMember(s, x.key);
      WithKeyMember(r, y.key);
      AtMostTotalOrder(x.key, y.key, x.key);
      assert x == y by {
        assert WithKey(r, x.key)[|WithKey(r, x.key)| - 1] == x;
        assert WithKey(s, y.key)[|WithKey(s, y.key)| - 1] == y;
      }
      var r', s' := r[..|r| - 1], s[..|s| - 1];
      forall key ensures WithKey(r', key) == WithKey(s', key) {
        assert WithKey(r, key) == WithKey(s, key);
        if key == x.key {
          assert WithKey(r', key) == WithKey(r, key)[..|WithKey(r, key)| - 1];
          assert WithKey(s', key) == WithKey(s, key)[..|WithKey(s, key)| - 1];
        }
      }
      SortedStableEqual(r', s');
      assert r == r' + [x] && s == s' + [y];
    }
  }

  lemma {:induction false} WithKeyMember(s: seq<Pair>, key: string)
    requires WithKey(s, key) != []
    ensures exists i :: 0 <= i < |s| && s[i].key == key
  {
    if s[|s| - 1].key != key {
      WithKeyMember(s[..|s| - 1], key);
    }
  }

  // What the sort means for the commands.

  lemma {:induction false} SortedValid(s: seq<Pair>)
    ensures ValidPairs(s) <==> ValidPairs(Sort(s))
    ensures forall x :: x in s <==> x in Sort(s)
  {
    SortIsStable(s);
    forall x ensures x in s <==> x in Sort(s) {
      assert x in s <==> x in multiset(s);
      assert x in Sort(s) <==> x in multiset(Sort(s));
    }
    if !ValidPairs(s) {
      var i :| 0 <= i < |s| && !ValidKey(s[i].key);
      assert s[i] in Sort(s);
    }
    if !ValidPairs(Sort(s)) {
      var i :| 0 <= i < |s| && !ValidKey(Sort(s)[i].key);
      assert Sort(s)[i] in s;
    }
  }

  /** The keys alone decide where the pairs go: stale values do not matter. */
  lemma {:induction false} SortIgnoresValues(r: seq<Pair>, s: seq<Pair>)
    requires |r| == |s| && forall i :: 0 <= i < |r| ==> r[i].key == s[i].key
    ensures forall i :: 0 <= i < |r| ==> Sort(r)[i].key == Sort(s)[i].key
  {
    if r != [] {
      SortIgnoresValues(r[..|r| - 1], s[..|s| - 1]);
      InsertIgnoresValues(Sort(r[..|r| - 1]), Sort(s[..|s| - 1]), r[|r| - 1], s[|s| - 1]);
    }
  }

  lemma {:induction false} InsertIgnoresValues(r: seq<Pair>, s: seq<Pair>, x: Pair, y: Pair)
    requires |r| == |s| && forall i :: 0 <= i < |r| ==> r[i].key == s[i].key
    requires x.key == y.key
    ensures forall i :: 0 <= i < |r| + 1 ==> Insert(r, x)[i].key == Insert(s, y)[i].key
  {
    if r != [] && !AtMost(r[|r| - 1].key, x.key) {
      InsertIgnoresValues(r[..|r| - 1], s[..|s| - 1], x, y);
    }
  }

  /** Storing pairs one after the other. */
  function PutAll(m: map<string, string>, s: seq<Pair>): map<string, string> {
    if s == [] then m else PutAll(m, s[..|s| - 1])[s[|s| - 1].key := s[|s| - 1].value]
  }

  /** The last pair that names a key decides its value. */
  lemma {:induction false} PutAllLastWins(m: map<string, string>, s: seq<Pair>, key: string)
    ensures key in PutAll(m, s) <==> key in m || WithKey(s, key) != []
    ensures WithKey(s, key) != [] ==> PutAll(m, s)[key] == WithKey(s, key)[|WithKey(s, key)| - 1].value
    ensures WithKey(s, key) == [] && key in m ==> PutAll(m, s)[key] == m[key]
  {
    if s != [] {
      PutAllLastWins(m, s[..|s| - 1], key);
    }
  }

  /** Sorting first does not change what a WRITE means. */
  lemma SortPreservesWrite(m: map<string, string>, s: seq<Pair>)
    ensures PutAll(m, Sort(s)) == PutAll(m, s)
  {
    SortIsStable(s);
    forall key
      ensures key in PutAll(m, Sort(s)) <==> key in PutAll(m, s)
      ensures key in PutAll(m, s) ==> PutAll(m, Sort(s))[key] == PutAll(m, s)[key]
    {
      PutAllLastWins(m, s, key);
      PutAllLastWins(m, Sort(s), key);
    }
  }

  // The program.

  function Zip(keys: seq<string>, values: seq<string>): (r: seq<Pair>)
    requires |keys| == |values|
    ensures |r| == |keys|
    ensures forall i :: 0 <= i < |r| ==> r[i] == Pair(keys[i], values[i])
  {
    seq(|keys|, i requires 0 <= i < |keys| => Pair(keys[i], values[i]))
  }

  /** Shifting the larger keys right and dropping `x` into the gap is `Insert`. */
  lemma {:induction false} InsertByShifting(s: seq<Pair>, x: Pair, j: nat)
    requires j <= |s|
    requires forall k :: j <= k < |s| ==> !AtMost(s[k].key, x.key)
    requires j == 0 || AtMost(s[j - 1].key, x.key)
    ensures Insert(s, x) == s[..j] + [x] + s[j..]
  {
    hide AtMost;
    if j == |s| {
      assert s[..j] == s;
    } else {
      var init := s[..|s| - 1];
      InsertByShifting(init, x, j);
      assert init[..j] == s[..j];
      assert init[j..] + [s[|s| - 1]] == s[j..];
    }
  }

  /** Two parallel arrays that hold `s` with `x` in a gap at `j` hold the insertion. */
  lemma ShiftedIsInserted(keys: seq<string>, values: seq<string>, s: seq<Pair>, x: Pair, j: nat)
    requires |keys| == |values| == |s| + 1 && j <= |s|
    requires forall k :: j <= k < |s| ==> !AtMost(s[k].key, x.key)
    requires j == 0 || AtMost(s[j - 1].key, x.key)
    requires forall k :: 0 <= k < j ==> keys[k] == s[k].key && values[k] == s[k].value
    requires keys[j] == x.key && values[j] == x.value
    requires forall k :: j < k <= |s| ==> keys[k] == s[k - 1].key && values[k] == s[k - 1].value
    ensures forall k :: 0 <= k <= |s| ==> keys[k] == Insert(s, x)[k].key && values[k] == Insert(s, x)[k].value
  {
    hide Insert, Less, AtMost;
    InsertByShifting(s, x, j);
    var r := s[..j] + [x] + s[j..];
    forall k | 0 <= k <= |s| ensures keys[k] == r[k].key && values[k] == r[k].value {
      assert r[k] == if k < j then s[k] else if k == j then x else s[k - 1];
    }
  }

  /** The first `n` entries of the two parallel arrays are the pairs `s`. */
  ghost predicate ArraysHold(keys: array<string>, values: array<string>, s: seq<Pair>)
    requires |s| <= keys.Length && |s| <= values.Length
    reads keys, values
  {
    forall k :: 0 <= k < |s| ==> keys[k] == s[k].key && values[k] == s[k].value
  }

  method InsertionSort(keys: array<string>, values: array<string>, n: nat)
    requires keys != values && n <= keys.Length && n <= values.Length
    modifies keys, values
    ensures Zip(keys[..n], values[..n]) == Sort(old(Zip(keys[..n], values[..n])))
    ensures forall k :: n <= k < keys.Length ==> keys[k] == old(keys[k])
    ensures forall k :: n <= k < values.Length ==> values[k] == old(values[k])
  {
    hide Sort;
    ghost var was := Zip(keys[..n], values[..n]);
    SortArrays(keys, values, n, was);
    HeldIsZip(keys, values, Sort(was));
  }

  /** The outer loop. */
  method SortArrays(keys: array<string>, values: array<string>, n: nat, ghost was: seq<Pair>)
    requires keys != values && n == |was| <= keys.Length && n <= values.Length && ArraysHold(keys, values, was)
    modifies keys, values
    ensures ArraysHold(keys, values, Sort(was))
    ensures forall k :: n <= k < keys.Length ==> keys[k] == old(keys[k])
    ensures forall k :: n <= k < values.Length ==> values[k] == old(values[k])
  {
    hide Sort, Insert;
    ghost var done := if n == 0 then [] else was[..1];
    var i := 1;
    SortStart(was);
    while i < n
      invariant |done| == (if i < n then i else n) && done == Sort(was[..|done|])
      invariant ArraysHold(keys, values, done)
      invariant forall k :: |done| <= k < keys.Length ==> keys[k] == old(keys[k])
      invariant forall k :: |done| <= k < values.Length ==> values[k] == old(values[k])
    {
      SortStep(was, i);
      InsertNext(keys, values, i, done);
      done := Insert(done, was[i]);
      i := i + 1;
    }
    assert was[..n] == was;
  }

  lemma SortStart(s: seq<Pair>)
    ensures Sort([]) == [] && s[..0] == [] && (s != [] ==> Sort(s[..1]) == s[..1])
  {
    if s != [] {
      assert s[..1] == [s[0]] && s[..1][..0] == [];
    }
  }

  lemma HeldIsZip(keys: array<string>, values: array<string>, s: seq<Pair>)
    requires |s| <= keys.Length && |s| <= values.Length && ArraysHold(keys, values, s)
    ensures Zip(keys[..|s|], values[..|s|]) == s
  {
  }

  lemma ZipIsHeld(keys: array<string>, values: array<string>, n: nat)
    requires n <= keys.Length && n <= values.Length
    ensures ArraysHold(keys, values, Zip(keys[..n], values[..n]))
  {
  }

  lemma SortStep(s: seq<Pair>, i: nat)
    requires i < |s|
    ensures Sort(s[..i + 1]) == Insert(Sort(s[..i]), s[i])
  {
    assert s[..i + 1][..i] == s[..i];
  }

  /** One round of the outer loop: entry `i` moves left past the larger keys. */
  method InsertNext(keys: array<string>, values: array<string>, i: nat, ghost done: seq<Pair>)
    requires keys != values && i == |done| < keys.Length && i < values.Length
    requires ArraysHold(keys, values, done)
    modifies keys, values
    ensures ArraysHold(keys, values, Insert(done, Pair(old(keys[i]), old(values[i]))))
    ensures forall k :: i < k < keys.Length ==> keys[k] == old(keys[k])
    ensures forall k :: i < k < values.Length ==> values[k] == old(values[k])
  {
    hide Insert, Less;
    var keyTemp, valueTemp := keys[i], values[i];
    var j := ShiftLarger(keys, values, i, keyTemp, done);
    keys[j] := keyTemp;
    values[j] := valueTemp;
    ShiftedIsInserted(keys[..i + 1], values[..i + 1], done, Pair(keyTemp, valueTemp), j);
  }

  /** The inner loop: the keys larger than `keyTemp` move one to the right and leave a gap at `j`. */
  method ShiftLarger(keys: array<string>, values: array<string>, i: nat, keyTemp: string, ghost done: seq<Pair>)
    returns (j: nat)
    requires keys != values && i == |done| < keys.Length && i < values.Length
    requires ArraysHold(keys, values, done)
    modifies keys, values
    ensures j <= i && (j == 0 || AtMost(done[j - 1].key, keyTemp))
    ensures forall k :: j <= k < i ==> !AtMost(done[k].key, keyTemp)
    ensures forall k :: 0 <= k < j ==> keys[k] == done[k].key && values[k] == done[k].value
    ensures forall k :: j < k <= i ==> keys[k] == done[k - 1].key && values[k] == done[k - 1].value
    ensures forall k :: i < k < keys.Length ==> keys[k] == old(keys[k])
    ensures forall k :: i < k < values.Length ==> values[k] == old(values[k])
  {
    hide Less;
    j := i;
    while j > 0 && Less(keyTemp, keys[j - 1])
      invariant j <= i
      invariant forall k :: 0 <= k < j ==> keys[k] == done[k].key && values[k] == done[k].value
      invariant forall k :: j < k <= i ==> keys[k] == done[k - 1].key && values[k] == done[k - 1].value
      invariant forall k :: j <= k < i ==> !AtMost(done[k].key, keyTemp)
      invariant forall k :: i < k < keys.Length ==> keys[k] == old(keys[k])
      invariant forall k :: i < k < values.Length ==> values[k] == old(values[k])
    {
      keys[j] := keys[j - 1];
      values[j] := values[j - 1];
      j := j - 1;
    }
  }
}
