/** The chained hash table as heap objects, refining `Store.Table`. */
module HashTable {
  import opened Store
  import opened Slots
  import opened Subscriptions
  import Listing

  class KeyNode {
    const key: string
    var value: string
    var subscriberFds: Slots
    var next: KeyNode?

    constructor (key: string, value: string, next: KeyNode?)
      ensures this.key == key && this.value == value && this.next == next && subscriberFds == FREE
    {
      this.key := key;
      this.value := value;
      this.next := next;
      this.subscriberFds := FREE;
    }
  }

  class HashTable {
    var table: array<KeyNode?>
    /** The nodes of each bucket, in chain order. */
    ghost var nodes: seq<seq<KeyNode>>
    ghost var contents: Table
    /** The slots of each node, in the same order. */
    ghost var slots: SlotTable
    /** Every node made so far. */
    ghost var Repr: set<KeyNode>

    ghost predicate Valid()
      reads this, table, Repr
    {
      && table.Length == TABLE_SIZE == |nodes| == |slots|
      && (forall b, i :: 0 <= b < TABLE_SIZE && 0 <= i < |nodes[b]| ==> nodes[b][i] in Repr)
      && (forall b :: 0 <= b < TABLE_SIZE ==> Chained(nodes[b], table[b], contents[b], slots[b]))
      && WellFormed(contents)
    }

    /** A null-terminated chain from `head` through `ns`, holding these pairs and slots. */
    static ghost predicate Chained(ns: seq<KeyNode>, head: KeyNode?, c: Chain, fds: seq<Slots>)
      reads ns
    {
      && |ns| == |c| == |fds|
      && head == At(ns, 0)
      && forall i :: 0 <= i < |ns| ==> NodeOk(ns, i, c[i], fds[i])
    }

    static ghost predicate NodeOk(ns: seq<KeyNode>, i: nat, p: Pair, fds: Slots)
      requires i < |ns|
      reads ns[i]
    {
      && ns[i].next == At(ns, i + 1)
      && ns[i].key == p.key && ns[i].value == p.value && ns[i].subscriberFds == fds
    }

    static ghost function At(ns: seq<KeyNode>, i: nat): KeyNode? {
      if i < |ns| then ns[i] else null
    }

    /** Chains are disjoint and acyclic: no node stands in two places. */
    lemma NodesAreDistinct(b: nat, i: nat, b': nat, i': nat)
      requires Valid() && b < TABLE_SIZE && b' < TABLE_SIZE && i < |nodes[b]| && i' < |nodes[b']|
      requires nodes[b][i] == nodes[b'][i']
      ensures b == b' && i == i'
    {
      assert NodeOk(nodes[b], i, contents[b][i], slots[b][i]);
      assert NodeOk(nodes[b'], i', contents[b'][i'], slots[b'][i']);
      assert InBucket(contents[b], b) && InBucket(contents[b'], b') && DistinctKeys(contents[b]);
    }

    lemma OnlyPlace(n: KeyNode, b: nat, i: nat)
      requires Valid() && b < TABLE_SIZE && i < |nodes[b]| && n == nodes[b][i]
      ensures forall b', i' :: 0 <= b' < TABLE_SIZE && 0 <= i' < |nodes[b']| && nodes[b'][i'] == n ==>
                b' == b && i' == i
    {
      forall b', i' | 0 <= b' < TABLE_SIZE && 0 <= i' < |nodes[b']| && nodes[b'][i'] == n
        ensures b' == b && i' == i
      {
        NodesAreDistinct(b', i', b, i);
      }
    }

    /** A change to the nodes and the head of bucket `index` leaves the other chains as they were. */
    twostate lemma OthersChained(index: nat)
      requires old(Valid()) && unchanged(this) && index < TABLE_SIZE
      requires forall b :: 0 <= b < TABLE_SIZE && b != index ==> table[b] == old(table[b])
      requires forall b, i :: 0 <= b < TABLE_SIZE && b != index && 0 <= i < |nodes[b]| ==> unchanged(nodes[b][i])
      ensures forall b :: 0 <= b < TABLE_SIZE && b != index ==> Chained(nodes[b], table[b], contents[b], slots[b])
    {
      forall b | 0 <= b < TABLE_SIZE && b != index ensures Chained(nodes[b], table[b], contents[b], slots[b]) {
        assert old(Chained(nodes[b], table[b], contents[b], slots[b]));
        forall j | 0 <= j < |nodes[b]| ensures NodeOk(nodes[b], j, contents[b][j], slots[b][j]) {
          assert old(NodeOk(nodes[b], j, contents[b][j], slots[b][j]));
        }
      }
    }

    /** The table is valid again once bucket `index` is, the others being as they were. */
    lemma Reassemble(index: nat, ns: seq<seq<KeyNode>>, c: Table, fds: seq<seq<Slots>>)
      requires index < TABLE_SIZE == table.Length == |ns| == |fds| == |nodes| == |slots|
      requires forall b :: 0 <= b < TABLE_SIZE && b != index ==>
                 nodes[b] == ns[b] && contents[b] == c[b] && slots[b] == fds[b] &&
                   Chained(ns[b], table[b], c[b], fds[b])
      requires Chained(nodes[index], table[index], contents[index], slots[index])
      requires forall b, i :: 0 <= b < TABLE_SIZE && 0 <= i < |nodes[b]| ==> nodes[b][i] in Repr
      requires WellFormed(contents)
      ensures Valid()
    {
    }

    constructor ()
      ensures Valid() && fresh(table) && Repr == {}
      ensures contents == EMPTY
    {
      table := new KeyNode?[TABLE_SIZE];
      nodes, slots := seq(TABLE_SIZE, _ => []), seq(TABLE_SIZE, _ => []);
      contents := EMPTY;
      Repr := {};
      new;
      for i := 0 to TABLE_SIZE
        invariant fresh(table) && table.Length == TABLE_SIZE
        invariant forall b :: 0 <= b < i ==> table[b] == null
        invariant nodes == seq(TABLE_SIZE, _ => []) && slots == seq(TABLE_SIZE, _ => []) && contents == EMPTY &&
                    Repr == {}
      {
        table[i] := null;
      }
      EmptyMap();
      hide WellFormed;
    }

    method ReadPair(key: string) returns (value: Option<string>)
      requires Valid() && ValidKey(key)
      ensures value == Store.ReadPair(contents, key)
    {
      var index := Hash(key);
      var keyNode := table[index];
      ghost var i := 0;
      assert Chained(nodes[index], table[index], contents[index], slots[index]);
      while keyNode != null
        invariant i <= |nodes[index]| && keyNode == At(nodes[index], i)
        invariant forall j :: 0 <= j < i ==> contents[index][j].key != key
        decreases |nodes[index]| - i
      {
        assert NodeOk(nodes[index], i, contents[index][i], slots[index][i]);
        if keyNode.key == key {
          FindIs(contents[index], key, i);
          return Some(keyNode.value);
        }
        keyNode := keyNode.next;
        i := i + 1;
      }
      FindIs(contents[index], key, i);
      return None;
    }

    method WritePair(key: string, value: string)
      requires Valid() && ValidKey(key)
      modifies this`nodes, this`contents, this`slots, this`Repr, table, Repr`value
      ensures Valid() && table == old(table) && fresh(Repr - old(Repr)) && old(Repr) <= Repr
      ensures contents == Store.WritePair(old(contents), key, value)
      ensures Parallel(old(contents), old(slots)) && slots == WriteSlots(old(contents), old(slots), key)
      ensures var h := Hash(key);
              if Has(old(contents)[h], key) then nodes == old(nodes)
              else
                && nodes == old(nodes)[h := nodes[h]] && nodes[h] != []
                && fresh(nodes[h][0]) && nodes[h][1..] == old(nodes)[h]
    {
      var index := Hash(key);
      var keyNode := table[index];
      ghost var i := 0;
      assert Chained(nodes[index], table[index], contents[index], slots[index]);
      while keyNode != null
        invariant i <= |nodes[index]| && keyNode == At(nodes[index], i)
        invariant forall j :: 0 <= j < i ==> contents[index][j].key != key
        decreases |nodes[index]| - i
      {
        assert NodeOk(nodes[index], i, contents[index][i], slots[index][i]);
        if keyNode.key == key {
          FindIs(contents[index], key, i);
          WriteIsUpdate(contents, key, value);
          Overwrite(keyNode, value, index, i, Store.WritePair(contents, key, value));
          return;
        }
        keyNode := keyNode.next;
        i := i + 1;
      }
      FindIs(contents[index], key, i);
      Prepend(index, key, value);
    }

    /** The key was found: its node gets the new value. */
    method Overwrite(keyNode: KeyNode, value: string, ghost b: nat, ghost i: nat, ghost c: Table)
      requires Valid() && b < TABLE_SIZE && i < |nodes[b]| == |contents[b]| && keyNode == nodes[b][i]
      requires WellFormed(c) && c == contents[b := contents[b][i := Pair(keyNode.key, value)]]
      modifies this`contents, keyNode`value
      ensures Valid() && contents == c
    {
      OnlyPlace(keyNode, b, i);
      assert Chained(nodes[b], table[b], contents[b], slots[b]);
      keyNode.value := value;
      forall j | 0 <= j < |nodes[b]| ensures NodeOk(nodes[b], j, c[b][j], slots[b][j]) {
        assert old(NodeOk(nodes[b], j, contents[b][j], slots[b][j]));
      }
      OthersChained(b);
      contents := c;
      Reassemble(b, nodes, old(contents), slots);
    }

    /** The key was not found: a new node goes to the head of its chain. */
    method Prepend(index: nat, key: string, value: string)
      requires Valid() && index == Hash(key) < TABLE_SIZE && !Has(contents[index], key)
      modifies this`nodes, this`contents, this`slots, this`Repr, table
      ensures Valid() && table == old(table) && fresh(Repr - old(Repr)) && old(Repr) <= Repr
      ensures contents == Store.WritePair(old(contents), key, value)
      ensures nodes == old(nodes)[index := nodes[index]] && nodes[index] != []
      ensures fresh(nodes[index][0]) && nodes[index][1..] == old(nodes)[index]
      ensures slots == old(slots)[index := [FREE] + old(slots)[index]]
    {
      hide DistinctKeys, InBucket, Hash;
      WriteIsUpdate(contents, key, value);
      assert Chained(nodes[index], table[index], contents[index], slots[index]);
      var keyNode := new KeyNode(key, value, table[index]);
      PrependChained(keyNode, nodes[index], table[index], contents[index], slots[index]);
      table[index] := keyNode;
      OthersChained(index);
      nodes := nodes[index := [keyNode] + nodes[index]];
      slots := slots[index := [FREE] + slots[index]];
      contents := Store.WritePair(contents, key, value);
      Repr := Repr + {keyNode};
      Reassemble(index, old(nodes), old(contents), old(slots));
    }

    static lemma PrependChained(n: KeyNode, ns: seq<KeyNode>, head: KeyNode?, c: Chain, fds: seq<Slots>)
      requires Chained(ns, head, c, fds) && n.next == head
      ensures Chained([n] + ns, n, [Pair(n.key, n.value)] + c, [n.subscriberFds] + fds)
    {
      var ns', c', fds' := [n] + ns, [Pair(n.key, n.value)] + c, [n.subscriberFds] + fds;
      forall j | 0 <= j < |ns'| ensures NodeOk(ns', j, c'[j], fds'[j]) {
        if j > 0 {
          assert NodeOk(ns, j - 1, c[j - 1], fds[j - 1]);
        }
      }
    }

    method DeletePair(key: string) returns (missing: int)
      requires Valid() && ValidKey(key)
      modifies this`nodes, this`contents, this`slots, table, Repr`next
      ensures Valid()
      ensures contents == Store.DeletePair(old(contents), key)
      ensures missing == if Has(old(contents)[Hash(key)], key) then 0 else 1
      ensures Parallel(old(contents), old(slots)) && slots == DeleteSlots(old(contents), old(slots), key)
      ensures var h, i := Hash(key), Find(old(contents)[Hash(key)], key);
              if missing == 1 then nodes == old(nodes)
              else i < |old(nodes)[h]| && nodes == old(nodes)[h := RemoveAt(old(nodes)[h], i)]
    {
      var index := Hash(key);
      var keyNode := table[index];
      var prevNode: KeyNode? := null;
      ghost var i := 0;
      assert Chained(nodes[index], table[index], contents[index], slots[index]);
      while keyNode != null
        invariant i <= |nodes[index]| && keyNode == At(nodes[index], i)
        invariant prevNode == if i == 0 then null else nodes[index][i - 1]
        invariant prevNode != null ==> prevNode in Repr
        invariant forall j :: 0 <= j < i ==> contents[index][j].key != key
        decreases |nodes[index]| - i
      {
        assert NodeOk(nodes[index], i, contents[index][i], slots[index][i]);
        if keyNode.key == key {
          FindIs(contents[index], key, i);
          DeleteIsRemoval(contents, key);
          if prevNode == null {
            UnlinkFirst(index, keyNode, Store.DeletePair(contents, key));
          } else {
            UnlinkAfter(prevNode, keyNode, index, i, Store.DeletePair(contents, key));
          }
          return 0;
        }
        prevNode := keyNode;
        keyNode := keyNode.next;
        i := i + 1;
      }
      FindIs(contents[index], key, i);
      return 1;
    }

    /** The key was found in the first node: the bucket skips it. */
    method UnlinkFirst(index: nat, keyNode: KeyNode, ghost c: Table)
      requires Valid() && index < TABLE_SIZE && nodes[index] != [] && keyNode == nodes[index][0]
      requires |nodes[index]| == |contents[index]| == |slots[index]|
      requires WellFormed(c) && c == contents[index := RemoveAt(contents[index], 0)]
      modifies this`nodes, this`contents, this`slots, table
      ensures Valid() && contents == c
      ensures nodes == old(nodes)[index := RemoveAt(old(nodes)[index], 0)]
      ensures slots == old(slots)[index := RemoveAt(old(slots)[index], 0)]
    {
      assert Chained(nodes[index], table[index], contents[index], slots[index]);
      assert NodeOk(nodes[index], 0, contents[index][0], slots[index][0]);
      table[index] := keyNode.next;
      ghost var ns := RemoveAt(nodes[index], 0);
      forall j | 0 <= j < |ns| ensures NodeOk(ns, j, c[index][j], RemoveAt(slots[index], 0)[j]) {
        assert old(NodeOk(nodes[index], j + 1, contents[index][j + 1], slots[index][j + 1]));
      }
      OthersChained(index);
      Forget(index, 0, c);
    }

    /** The key was found in a later node: its predecessor skips it. */
    method UnlinkAfter(prevNode: KeyNode, keyNode: KeyNode, ghost index: nat, ghost i: nat, ghost c: Table)
      requires Valid() && index < TABLE_SIZE && 0 < i < |nodes[index]| == |contents[index]| == |slots[index]|
      requires prevNode == nodes[index][i - 1] && keyNode == nodes[index][i]
      requires WellFormed(c) && c == contents[index := RemoveAt(contents[index], i)]
      modifies this`nodes, this`contents, this`slots, prevNode`next
      ensures Valid() && contents == c
      ensures nodes == old(nodes)[index := RemoveAt(old(nodes)[index], i)]
      ensures slots == old(slots)[index := RemoveAt(old(slots)[index], i)]
    {
      OnlyPlace(prevNode, index, i - 1);
      assert Chained(nodes[index], table[index], contents[index], slots[index]);
      assert NodeOk(nodes[index], i, contents[index][i], slots[index][i]);
      prevNode.next := keyNode.next;
      ghost var ns := RemoveAt(nodes[index], i);
      forall j | 0 <= j < |ns| ensures NodeOk(ns, j, c[index][j], RemoveAt(slots[index], i)[j]) {
        ghost var k := if j < i then j else j + 1;
        assert old(NodeOk(nodes[index], k, contents[index][k], slots[index][k]));
      }
      OthersChained(index);
      Forget(index, i, c);
    }

    /** The ghost half of an unlink. */
    ghost method Forget(index: nat, i: nat, c: Table)
      requires index < TABLE_SIZE == table.Length == |nodes| == |slots|
      requires i < |nodes[index]| == |contents[index]| == |slots[index]|
      requires WellFormed(c) && c == contents[index := RemoveAt(contents[index], i)]
      requires forall b, i :: 0 <= b < TABLE_SIZE && 0 <= i < |nodes[b]| ==> nodes[b][i] in Repr
      requires Chained(RemoveAt(nodes[index], i), table[index], c[index], RemoveAt(slots[index], i))
      requires forall b :: 0 <= b < TABLE_SIZE && b != index ==> Chained(nodes[b], table[b], contents[b], slots[b])
      modifies this`nodes, this`contents, this`slots
      ensures Valid() && contents == c
      ensures nodes == old(nodes)[index := RemoveAt(old(nodes)[index], i)]
      ensures slots == old(slots)[index := RemoveAt(old(slots)[index], i)]
    {
      nodes := nodes[index := RemoveAt(nodes[index], i)];
      slots := slots[index := RemoveAt(slots[index], i)];
      contents := c;
      Reassemble(index, old(nodes), old(contents), old(slots));
    }

    /** SHOW: one line per node, bucket by bucket. */
    method Show() returns (output: string)
      requires Valid()
      ensures output == Listing.Text(contents)
    {
      hide Valid, Listing.ChainLines;
      output := "";
      for i := 0 to TABLE_SIZE
        invariant Listing.Text(contents) == output + Listing.TableLines(contents, i)
      {
        var lines := ShowBucket(i);
        assert output + (lines + Listing.TableLines(contents, i + 1)) ==
                 (output + lines) + Listing.TableLines(contents, i + 1);
        output := output + lines;
      }
    }

    /** The inner loop of SHOW. */
    method ShowBucket(i: nat) returns (output: string)
      requires Valid() && i < TABLE_SIZE
      ensures output == Listing.ChainLines(contents[i])
    {
      output := "";
      var keyNode := table[i];
      ghost var j := 0;
      assert Chained(nodes[i], table[i], contents[i], slots[i]);
      assert contents[i][0..] == contents[i];
      while keyNode != null
        invariant j <= |nodes[i]| && keyNode == At(nodes[i], j)
        invariant Listing.ChainLines(contents[i]) == output + Listing.ChainLines(contents[i][j..])
        decreases |nodes[i]| - j
      {
        assert NodeOk(nodes[i], j, contents[i][j], slots[i][j]);
        Listing.NextLine(contents[i], j);
        output := output + Listing.Line(Pair(keyNode.key, keyNode.value));
        keyNode := keyNode.next;
        j := j + 1;
      }
    }

    /** Takes a free slot of the key for `fd`, unless it already has one. */
    method AddSubscriber(key: string, fd: int) returns (result: int)
      requires Valid() && ValidKey(key)
      modifies this`slots, Repr`subscriberFds
      ensures Valid() && nodes == old(nodes) && contents == old(contents)
      ensures Parallel(old(contents), old(slots))
      ensures (slots, result) == Subscriptions.AddSubscriber(old(contents), old(slots), key, fd)
    {
      hide Hash, WellFormed;
      var index := Hash(key);
      var keyNode := table[index];
      ghost var i := 0;
      assert Chained(nodes[index], table[index], contents[index], slots[index]);
      while keyNode != null
        invariant i <= |nodes[index]| && keyNode == At(nodes[index], i)
        invariant forall j :: 0 <= j < i ==> contents[index][j].key != key
        decreases |nodes[index]| - i
      {
        assert NodeOk(nodes[index], i, contents[index][i], slots[index][i]);
        if keyNode.key == key {
          FindIs(contents[index], key, i);
          for k := 0 to MAX_SESSION_COUNT
            invariant forall j :: 0 <= j < k ==> keyNode.subscriberFds[j] != fd
          {
            if keyNode.subscriberFds[k] == fd {
              IndexIs(keyNode.subscriberFds, fd, k);
              assert slots[index][i] == keyNode.subscriberFds;
              return 1;
            }
          }
          IndexIs(keyNode.subscriberFds, fd, MAX_SESSION_COUNT);
          for k := 0 to MAX_SESSION_COUNT
            invariant forall j :: 0 <= j < k ==> keyNode.subscriberFds[j] != 0
          {
            if keyNode.subscriberFds[k] == 0 {
              IndexIs(keyNode.subscriberFds, 0, k);
              SetSlots(keyNode, keyNode.subscriberFds[k := fd], index, i);
              return 0;
            }
          }
          IndexIs(keyNode.subscriberFds, 0, MAX_SESSION_COUNT);
          return 1;
        }
        keyNode := keyNode.next;
        i := i + 1;
      }
      FindIs(contents[index], key, i);
      return 1;
    }

    method RemoveSubscriber(key: string, fd: int) returns (result: int)
      requires Valid() && ValidKey(key)
      modifies this`slots, Repr`subscriberFds
      ensures Valid() && nodes == old(nodes) && contents == old(contents)
      ensures Parallel(old(contents), old(slots))
      ensures (slots, result) == Subscriptions.DropSubscriber(old(contents), old(slots), key, fd)
    {
      var index := Hash(key);
      var keyNode := table[index];
      ghost var i := 0;
      assert Chained(nodes[index], table[index], contents[index], slots[index]);
      while keyNode != null
        invariant i <= |nodes[index]| && keyNode == At(nodes[index], i)
        invariant forall j :: 0 <= j < i ==> contents[index][j].key != key
        decreases |nodes[index]| - i
      {
        assert NodeOk(nodes[index], i, contents[index][i], slots[index][i]);
        if keyNode.key == key {
          FindIs(contents[index], key, i);
          for k := 0 to MAX_SESSION_COUNT
            invariant forall j :: 0 <= j < k ==> keyNode.subscriberFds[j] != fd
          {
            if keyNode.subscriberFds[k] == fd {
              IndexIs(keyNode.subscriberFds, fd, k);
              SetSlots(keyNode, keyNode.subscriberFds[k := 0], index, i);
              return 0;
            }
          }
          IndexIs(keyNode.subscriberFds, fd, MAX_SESSION_COUNT);
          return 1;
        }
        keyNode := keyNode.next;
        i := i + 1;
      }
      FindIs(contents[index], key, i);
      return 1;
    }

    /** Stores the slots of one node. */
    method SetSlots(keyNode: KeyNode, fds: Slots, ghost b: nat, ghost i: nat)
      requires Valid() && b < TABLE_SIZE && i < |nodes[b]| && keyNode == nodes[b][i]
      modifies this`slots, keyNode`subscriberFds
      ensures Valid() && |old(slots)[b]| == |nodes[b]|
      ensures slots == old(slots)[b := Put(old(slots)[b], i, fds)]
    {
      OnlyPlace(keyNode, b, i);
      assert Chained(nodes[b], table[b], contents[b], slots[b]);
      keyNode.subscriberFds := fds;
      forall j | 0 <= j < |nodes[b]| ensures NodeOk(nodes[b], j, contents[b][j], Put(slots[b], i, fds)[j]) {
        assert old(NodeOk(nodes[b], j, contents[b][j], slots[b][j]));
      }
      OthersChained(b);
      slots := slots[b := Put(slots[b], i, fds)];
      Reassemble(b, nodes, contents, old(slots));
    }
  }
}
