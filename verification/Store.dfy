/** The key-value table as values: 26 chains of pairs, and the map they stand for. */
module Store {

  datatype Option<T> = None | Some(value: T)

  datatype Pair = Pair(key: string, value: string)

  const TABLE_SIZE: nat := 26

  /** The nodes of one bucket, head first. */
  type Chain = seq<Pair>

  const EMPTY_BUCKETS: seq<Chain> :=
    [[], [], [], [], [], [], [], [], [], [], [], [], [],
     [], [], [], [], [], [], [], [], [], [], [], [], []]

  type Table = t: seq<Chain> | |t| == TABLE_SIZE witness EMPTY_BUCKETS

  /** What `create_hash_table` returns. */
  const EMPTY: Table := EMPTY_BUCKETS

  function ToLower(c: char): char {
    if 'A' <= c <= 'Z' then c - 'A' + 'a' else c
  }

  /** The bucket of a key; -1 when the first character is neither a letter nor a digit. */
  function Hash(key: string): (h: int)
    ensures -1 <= h < TABLE_SIZE
  {
    if key == [] then -1
    else
      var first := ToLower(key[0]);
      if 'a' <= first <= 'z' then (first - 'a') as int
      else if '0' <= first <= '9' then (first - '0') as int
      else -1
  }

  /** Keys the table can hold: `Hash` gives a bucket. */
  predicate ValidKey(key: string) {
    0 <= Hash(key)
  }

  predicate ValidPairs(pairs: seq<Pair>) {
    forall i :: 0 <= i < |pairs| ==> ValidKey(pairs[i].key)
  }

  /** The key's first character stands at place `i` of the alphabet, in either case, or of the digits. */
  predicate FirstAt(key: string, i: nat) {
    key != [] && (
      || (i < 26 && key[0] == "abcdefghijklmnopqrstuvwxyz"[i])
      || (i < 26 && key[0] == "ABCDEFGHIJKLMNOPQRSTUVWXYZ"[i])
      || (i < 10 && key[0] == "0123456789"[i]))
  }

  /** That place is the bucket, and only keys with such a first character have one. */
  lemma HashIsPlace(key: string)
    ensures forall i: nat :: FirstAt(key, i) <==> Hash(key) == i
    ensures ValidKey(key) <==> exists i: nat :: FirstAt(key, i)
  {
    forall i: nat ensures FirstAt(key, i) <==> Hash(key) == i {
      assert i < 26 ==> "abcdefghijklmnopqrstuvwxyz"[i] == 'a' + i as char;
      assert i < 26 ==> "ABCDEFGHIJKLMNOPQRSTUVWXYZ"[i] == 'A' + i as char;
      assert i < 10 ==> "0123456789"[i] == '0' + i as char;
    }
    if ValidKey(key) {
      assert FirstAt(key, Hash(key));
    }
  }

  // One bucket.

  predicate Has(c: Chain, key: string) {
    exists i :: 0 <= i < |c| && c[i].key == key
  }

  /** The node walk shared by all operations: the first node with this key, or `|c|`. */
  function Find(c: Chain, key: string): (i: nat)
    ensures i <= |c|
    ensures i < |c| ==> c[i].key == key
    ensures forall j :: 0 <= j < i ==> c[j].key != key
    ensures i < |c| <==> Has(c, key)
  {
    if c == [] then 0
    else if c[0].key == key then 0
    else
      var i := Find(c[1..], key);
      assert Has(c[1..], key) <==> Has(c, key) by {
        if Has(c, key) {
          var k :| 0 <= k < |c| && c[k].key == key;
          assert c[1..][k - 1] == c[k];
        }
      }
      1 + i
  }

  /** Overwrites the node's value in place, or puts a new node at the head. */
  function WriteChain(c: Chain, key: string, value: string): Chain {
    var i := Find(c, key);
    if i < |c| then c[i := Pair(key, value)] else [Pair(key, value)] + c
  }

  function ReadChain(c: Chain, key: string): Option<string> {
    var i := Find(c, key);
    if i < |c| then Some(c[i].value) else None
  }

  function RemoveAt<T>(s: seq<T>, i: nat): (r: seq<T>)
    requires i < |s|
    ensures |r| == |s| - 1
    ensures forall j :: 0 <= j < |r| ==> r[j] == s[if j < i then j else j + 1]
  {
    s[..i] + s[i + 1..]
  }

  /** Unlinks the node, if there is one. */
  function DeleteChain(c: Chain, key: string): Chain {
    var i := Find(c, key);
    if i < |c| then RemoveAt(c, i) else c
  }

  // The whole table.

  function WritePair(t: Table, key: string, value: string): Table
    requires ValidKey(key)
  {
    t[Hash(key) := WriteChain(t[Hash(key)], key, value)]
  }

  function ReadPair(t: Table, key: string): Option<string>
    requires ValidKey(key)
  {
    ReadChain(t[Hash(key)], key)
  }

  function DeletePair(t: Table, key: string): Table
    requires ValidKey(key)
  {
    t[Hash(key) := DeleteChain(t[Hash(key)], key)]
  }

  predicate DistinctKeys(c: Chain) {
    forall i, j :: 0 <= i < j < |c| ==> c[i].key != c[j].key
  }

  predicate InBucket(c: Chain, b: int) {
    forall i :: 0 <= i < |c| ==> Hash(c[i].key) == b
  }

  /** No key twice, every key in the bucket of its hash. */
  predicate WellFormed(t: Table) {
    forall b :: 0 <= b < TABLE_SIZE ==> DistinctKeys(t[b]) && InBucket(t[b], b)
  }

  /** The keys the table holds. */
  ghost predicate Live(t: Table, key: string) {
    ValidKey(key) && Has(t[Hash(key)], key)
  }

  function Keys(t: Table): set<string> {
    set b, i | 0 <= b < TABLE_SIZE && 0 <= i < |t[b]| :: t[b][i].key
  }

  /** The map the table stands for. */
  function ToMap(t: Table): map<string, string> {
    map k | k in Keys(t) && ValidKey(k) && ReadPair(t, k).Some? :: ReadPair(t, k).value
  }

  lemma KeysIn(t: Table, key: string)
    requires WellFormed(t)
    ensures key in Keys(t) <==> Live(t, key)
  {
    if key in Keys(t) {
      var b, i :| 0 <= b < TABLE_SIZE && 0 <= i < |t[b]| && t[b][i].key == key;
      assert Hash(key) == b;
    }
  }

  /** `read_pair` is map lookup. */
  lemma ReadIsLookup(t: Table, key: string)
    requires WellFormed(t) && ValidKey(key)
    ensures ReadPair(t, key) == if key in ToMap(t) then Some(ToMap(t)[key]) else None
  {
    KeysIn(t, key);
  }

  lemma EmptyMap()
    ensures WellFormed(EMPTY) && ToMap(EMPTY) == map[]
  {
    assert Keys(EMPTY) == {};
  }

  lemma FindIs(c: Chain, key: string, i: nat)
    requires i <= |c|
    requires i < |c| ==> c[i].key == key
    requires forall j :: 0 <= j < i ==> c[j].key != key
    ensures Find(c, key) == i
  {
  }

  lemma WriteChainReads(c: Chain, key: string, value: string, k: string)
    requires DistinctKeys(c)
    ensures DistinctKeys(WriteChain(c, key, value))
    ensures ReadChain(WriteChain(c, key, value), k) == if k == key then Some(value) else ReadChain(c, k)
  {
    var d, m := WriteChain(c, key, value), Find(c, k);
    if Find(c, key) < |c| {
      FindIs(d, k, m);
    } else if k == key {
      FindIs(d, k, 0);
    } else {
      FindIs(d, k, m + 1);
    }
  }

  lemma DeleteChainReads(c: Chain, key: string, k: string)
    requires DistinctKeys(c)
    ensures DistinctKeys(DeleteChain(c, key))
    ensures ReadChain(DeleteChain(c, key), k) == if k == key then None else ReadChain(c, k)
  {
    if Has(c, key) {
      var d, i, m := DeleteChain(c, key), Find(c, key), Find(c, k);
      FindIs(d, k, if k == key then |d| else if m < i then m else m - 1);
    }
  }

  /** `write_pair` is map update and keeps the table well formed. */
  lemma WriteIsUpdate(t: Table, key: string, value: string)
    requires WellFormed(t) && ValidKey(key)
    ensures WellFormed(WritePair(t, key, value))
    ensures ToMap(WritePair(t, key, value)) == ToMap(t)[key := value]
  {
    var u := WritePair(t, key, value);
    var h := Hash(key);
    WriteChainReads(t[h], key, value, key);
    assert InBucket(u[h], h);
    forall k | ValidKey(k)
      ensures ReadPair(u, k) == if k == key then Some(value) else ReadPair(t, k)
    {
      if Hash(k) == h {
        WriteChainReads(t[h], key, value, k);
      }
    }
    MapFromReads(u, ToMap(t)[key := value], t);
  }

  lemma DeleteKeepsWellFormed(t: Table, key: string)
    requires WellFormed(t) && ValidKey(key)
    ensures WellFormed(DeletePair(t, key))
  {
    assert DistinctKeys(DeleteChain(t[Hash(key)], key)) && InBucket(DeleteChain(t[Hash(key)], key), Hash(key));
  }

  /** `delete_pair` is map removal and keeps the table well formed. */
  lemma DeleteIsRemoval(t: Table, key: string)
    requires WellFormed(t) && ValidKey(key)
    ensures WellFormed(DeletePair(t, key))
    ensures ToMap(DeletePair(t, key)) == ToMap(t) - {key}
  {
    var u := DeletePair(t, key);
    var h := Hash(key);
    DeleteKeepsWellFormed(t, key);
    assert DistinctKeys(t[h]);
    hide WellFormed;
    forall k | ValidKey(k)
      ensures ReadPair(u, k) == if k == key then None else ReadPair(t, k)
    {
      if Hash(k) == h {
        DeleteChainReads(t[h], key, k);
      }
    }
    MapFromReads(u, ToMap(t) - {key}, t);
  }

  /** A table stands for `m` once every lookup agrees with `m`. */
  lemma MapFromReads(u: Table, m: map<string, string>, t: Table)
    requires WellFormed(u) && WellFormed(t)
    requires forall k :: k in m ==> ValidKey(k)
    requires forall k :: ValidKey(k) ==> ReadPair(u, k) == if k in m then Some(m[k]) else None
    ensures ToMap(u) == m
  {
    forall k
      ensures k in ToMap(u) <==> k in m
      ensures k in m ==> k in ToMap(u) && ToMap(u)[k] == m[k]
    {
      KeysIn(u, k);
    }
  }
}
