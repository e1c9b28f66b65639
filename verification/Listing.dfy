/** The text SHOW and BACKUP print, what it says, and the order of its lines. */
module Listing {
  import opened Store

  /** One node as `kvs_show` prints it. */
  function Line(p: Pair): string {
    "(" + p.key + ", " + p.value + ")\n"
  }

  function ChainLines(c: Chain): string {
    if c == [] then "" else Line(c[0]) + ChainLines(c[1..])
  }

  lemma NextLine(c: Chain, j: nat)
    requires j < |c|
    ensures ChainLines(c[j..]) == Line(c[j]) + ChainLines(c[j + 1..])
  {
    assert c[j..][1..] == c[j + 1..];
  }

  /** The lines of buckets `b`, `b + 1`, ..., 25. */
  function TableLines(t: Table, b: nat): string
    requires b <= TABLE_SIZE
    decreases |t| - b
  {
    if b == TABLE_SIZE then "" else ChainLines(t[b]) + TableLines(t, b + 1)
  }

  function Text(t: Table): string {
    TableLines(t, 0)
  }

  // The text determines the pairs.

  /** What the text needs: no ',' in a key, no ')' in a value. The parser accepts no other strings. */
  predicate Printable(c: Chain) {
    forall i :: 0 <= i < |c| ==> ',' !in c[i].key && ')' !in c[i].value
  }

  function Pairs(t: Table, b: nat): Chain
    requires b <= TABLE_SIZE
    decreases |t| - b
  {
    if b == TABLE_SIZE then [] else t[b] + Pairs(t, b + 1)
  }

  lemma SplitAtFirst(a: string, x: string, b: string, y: string, c: char)
    requires a + [c] + x == b + [c] + y
    requires c !in a && c !in b
    ensures a == b && x == y
  {
    var s := a + [c] + x;
    assert s[|a|] == c && s[|b|] == c;
    assert forall i :: 0 <= i < |a| ==> s[i] == a[i];
    assert forall i :: 0 <= i < |b| ==> s[i] == b[i];
    assert a == s[..|a|] && x == s[|a| + 1..] && y == s[|b| + 1..];
  }

  lemma LineReadsBack(p: Pair, x: string, q: Pair, y: string)
    requires Line(p) + x == Line(q) + y
    requires Printable([p]) && Printable([q])
    ensures p == q && x == y
  {
    assert [p][0] == p && [q][0] == q;
    var p', q' := " " + p.value + ")\n" + x, " " + q.value + ")\n" + y;
    assert Line(p) + x == "(" + (p.key + "," + p');
    assert Line(q) + y == "(" + (q.key + "," + q');
    assert (Line(p) + x)[1..] == p.key + "," + p' == q.key + "," + q';
    SplitAtFirst(p.key, p', q.key, q', ',');
    assert p'[1..] == p.value + ")" + ("\n" + x);
    assert q'[1..] == q.value + ")" + ("\n" + y);
    SplitAtFirst(p.value, "\n" + x, q.value, "\n" + y, ')');
    assert ("\n" + x)[1..] == x && ("\n" + y)[1..] == y;
  }

  lemma {:induction false} ChainReadsBack(c: Chain, d: Chain)
    requires Printable(c) && Printable(d)
    requires ChainLines(c) == ChainLines(d)
    ensures c == d
  {
    if c == [] || d == [] {
    } else {
      LineReadsBack(c[0], ChainLines(c[1..]), d[0], ChainLines(d[1..]));
      ChainReadsBack(c[1..], d[1..]);
      assert c == [c[0]] + c[1..] && d == [d[0]] + d[1..];
    }
  }

  lemma {:induction false} ChainLinesConcat(c: Chain, d: Chain)
    ensures ChainLines(c + d) == ChainLines(c) + ChainLines(d)
  {
    if c == [] {
      assert c + d == d;
    } else {
      assert (c + d)[1..] == c[1..] + d;
      ChainLinesConcat(c[1..], d);
    }
  }

  lemma {:induction false} TableLinesArePairs(t: Table, b: nat)
    requires b <= TABLE_SIZE
    ensures TableLines(t, b) == ChainLines(Pairs(t, b))
    decreases |t| - b
  {
    if b < TABLE_SIZE {
      TableLinesArePairs(t, b + 1);
      ChainLinesConcat(t[b], Pairs(t, b + 1));
    }
  }

  lemma {:induction false} SplitByBucket(c: Chain, c': Chain, d: Chain, d': Chain, b: nat)
    requires c + c' == d + d'
    requires InBucket(c, b) && InBucket(d, b)
    requires forall i :: 0 <= i < |c'| ==> Hash(c'[i].key) > b
    requires forall i :: 0 <= i < |d'| ==> Hash(d'[i].key) > b
    ensures c == d && c' == d'
  {
    assert c != [] ==> (c + c')[0] == c[0];
    assert d != [] ==> (d + d')[0] == d[0];
    if c == [] || d == [] {
      assert c == [] ==> c + c' == c';
      assert d == [] ==> d + d' == d';
    } else {
      assert (c + c')[1..] == c[1..] + c' && (d + d')[1..] == d[1..] + d';
      SplitByBucket(c[1..], c', d[1..], d', b);
      assert c == [c[0]] + c[1..] && d == [d[0]] + d[1..];
    }
  }

  lemma {:induction false} PairsDetermineTable(t: Table, u: Table, b: nat)
    requires WellFormed(t) && WellFormed(u) && b <= TABLE_SIZE
    requires Pairs(t, b) == Pairs(u, b)
    ensures forall k :: b <= k < TABLE_SIZE ==> t[k] == u[k]
    decreases |t| - b
  {
    if b < TABLE_SIZE {
      LaterBuckets(t, b + 1);
      LaterBuckets(u, b + 1);
      assert InBucket(t[b], b) && InBucket(u[b], b);
      SplitByBucket(t[b], Pairs(t, b + 1), u[b], Pairs(u, b + 1), b);
      PairsDetermineTable(t, u, b + 1);
    }
  }

  lemma {:induction false} LaterBuckets(t: Table, b: nat)
    requires WellFormed(t) && b <= TABLE_SIZE
    ensures forall i :: 0 <= i < |Pairs(t, b)| ==> Hash(Pairs(t, b)[i].key) >= b
    decreases |t| - b
  {
    if b < TABLE_SIZE {
      LaterBuckets(t, b + 1);
      assert InBucket(t[b], b);
    }
  }

  /** Two tables that print the same text are the same, node order included. */
  lemma TextDeterminesTable(t: Table, u: Table)
    requires WellFormed(t) && WellFormed(u)
    requires Printable(Pairs(t, 0)) && Printable(Pairs(u, 0))
    requires Text(t) == Text(u)
    ensures t == u
  {
    TableLinesArePairs(t, 0);
    TableLinesArePairs(u, 0);
    ChainReadsBack(Pairs(t, 0), Pairs(u, 0));
    PairsDetermineTable(t, u, 0);
  }

  // What is shown, and where.

  /** The text of a table that holds one pair. */
  lemma OnePairText(key: string, value: string)
    requires ValidKey(key)
    ensures Text(WritePair(EMPTY, key, value)) == "(" + key + ", " + value + ")\n"
  {
    assert WritePair(EMPTY, key, value)[Hash(key)] == [Pair(key, value)];
    assert forall k :: 0 <= k < TABLE_SIZE && k != Hash(key) ==> WritePair(EMPTY, key, value)[k] == [];
    hide WritePair, Hash, TableLines, ChainLines;
    OneBucketText(WritePair(EMPTY, key, value), Hash(key), Pair(key, value));
  }

  lemma OneBucketText(t: Table, b: nat, p: Pair)
    requires b < TABLE_SIZE && t[b] == [p] && forall k :: 0 <= k < TABLE_SIZE && k != b ==> t[k] == []
    ensures Text(t) == "(" + p.key + ", " + p.value + ")\n"
  {
    FullBucket(t, b);
    NoLines(t);
    assert ChainLines(t[b]) == Line(p) + ChainLines([]);
    hide TableLines;
    EmptyLines(t, 0, b);
    EmptyLines(t, b + 1, TABLE_SIZE);
  }

  lemma FullBucket(t: Table, b: nat)
    requires b < TABLE_SIZE
    ensures TableLines(t, b) == ChainLines(t[b]) + TableLines(t, b + 1)
  {
  }

  lemma NoLines(t: Table)
    ensures TableLines(t, TABLE_SIZE) == ""
  {
  }

  /** Empty buckets print nothing. */
  lemma {:induction false} EmptyLines(t: Table, b: nat, c: nat)
    requires b <= c <= TABLE_SIZE && forall k :: b <= k < c ==> t[k] == []
    ensures TableLines(t, b) == TableLines(t, c)
    decreases c - b
  {
    if b < c {
      EmptyLines(t, b + 1, c);
    }
  }

  /** The text from bucket `b` on begins with that of the buckets before `c`. */
  lemma {:induction false} LinesUpTo(t: Table, b: nat, c: nat) returns (before: string)
    requires b <= c <= TABLE_SIZE
    ensures TableLines(t, b) == before + TableLines(t, c)
    decreases c - b
  {
    if b == c {
      before := "";
    } else {
      var more := LinesUpTo(t, b + 1, c);
      before := ChainLines(t[b]) + more;
    }
  }

  lemma {:induction false} LineInChain(c: Chain, i: nat) returns (before: string, after: string)
    requires i < |c|
    ensures ChainLines(c) == before + ("(" + c[i].key + ", " + c[i].value + ")\n") + after
  {
    if i == 0 {
      before, after := "", ChainLines(c[1..]);
    } else {
      before, after := LineInChain(c[1..], i - 1);
      before := Line(c[0]) + before;
    }
  }

  /** What stands for the pair of a live key. */
  function LineOf(t: Table, key: string): string
    requires key in ToMap(t)
  {
    "(" + key + ", " + ToMap(t)[key] + ")\n"
  }

  /** A live key has its line among those of its bucket. */
  lemma KeyLine(t: Table, key: string) returns (before: string, after: string)
    requires WellFormed(t) && key in ToMap(t)
    ensures TableLines(t, Hash(key)) == before + LineOf(t, key) + (after + TableLines(t, Hash(key) + 1))
  {
    ReadIsLookup(t, key);
    var b := Hash(key);
    before, after := LineInChain(t[b], Find(t[b], key));
    assert TableLines(t, b) == ChainLines(t[b]) + TableLines(t, b + 1);
    hide ToMap, WellFormed, Hash, TableLines, ChainLines;
    Assoc3(before, LineOf(t, key), after, TableLines(t, b + 1));
  }

  lemma Assoc3(a: string, l: string, b: string, c: string)
    ensures a + l + b + c == a + l + (b + c)
  {
  }

  lemma Compose(text: string, to: string, ti: string, x: string, l: string, y: string, rest: string, between: string,
                tj: string, z: string, m: string, w: string)
    requires text == to + ti && ti == x + l + (y + rest) && rest == between + tj && tj == z + m + w
    ensures text == (to + x) + l + (y + between + z) + m + w
  {
    assert to + (x + l + (y + (between + (z + m + w)))) == (to + x) + l + (y + between + z) + m + w;
  }

  /** Live keys are shown in the order of the places of their first characters, upper case among lower, digits too. */
  lemma ShownByPlace(t: Table, key: string, i: nat, later: string, j: nat)
    returns (a: string, b: string, c: string)
    requires WellFormed(t) && key in ToMap(t) && later in ToMap(t) && FirstAt(key, i) && FirstAt(later, j) && i < j
    ensures Text(t) == a + LineOf(t, key) + b + LineOf(t, later) + c
    ensures LineOf(t, key) == "(" + key + ", " + ToMap(t)[key] + ")\n"
  {
    HashIsPlace(key);
    HashIsPlace(later);
    hide ToMap, WellFormed, FirstAt, Hash, TableLines;
    a, b, c := ShownByBucket(t, key, later);
  }

  lemma ShownByBucket(t: Table, key: string, later: string) returns (a: string, b: string, c: string)
    requires WellFormed(t) && key in ToMap(t) && later in ToMap(t) && 0 <= Hash(key) < Hash(later)
    ensures Text(t) == a + LineOf(t, key) + b + LineOf(t, later) + c
  {
    hide ToMap, WellFormed, Hash, LineOf, TableLines;
    var i, j: nat := Hash(key), Hash(later);
    var to := LinesUpTo(t, 0, i);
    var between := LinesUpTo(t, i + 1, j);
    var x, y := KeyLine(t, key);
    var z, w := KeyLine(t, later);
    var rest := w + TableLines(t, j + 1);
    Compose(Text(t), to, TableLines(t, i), x, LineOf(t, key), y, TableLines(t, i + 1), between, TableLines(t, j), z,
            LineOf(t, later), rest);
    a, b, c := to + x, y + between + z, rest;
  }

  // The order of the lines.

  datatype Op = Put(key: string, value: string) | Remove(key: string)

  function Do(t: Table, op: Op): Table
    requires ValidKey(op.key)
  {
    if op.Put? then WritePair(t, op.key, op.value) else DeletePair(t, op.key)
  }

  predicate ValidHistory(history: seq<Op>) {
    forall i :: 0 <= i < |history| ==> ValidKey(history[i].key)
  }

  /** The table after a history of single-pair operations. */
  function After(history: seq<Op>): Table
    requires ValidHistory(history)
  {
    if history == [] then EMPTY else Do(After(history[..|history| - 1]), history[|history| - 1])
  }

  function MapAfter(history: seq<Op>): map<string, string> {
    if history == [] then map[]
    else
      var m := MapAfter(history[..|history| - 1]);
      match history[|history| - 1]
      case Put(key, value) => m[key := value]
      case Remove(key) => m - {key}
  }

  /** When the key's present node came to be: the last Put of a key that was not live. */
  function Born(history: seq<Op>, key: string): int {
    if history == [] then -1
    else
      var init, last := history[..|history| - 1], history[|history| - 1];
      if last.Put? && last.key == key && key !in MapAfter(init) then |init| else Born(init, key)
  }

  lemma {:induction false} BornBefore(history: seq<Op>, key: string)
    ensures Born(history, key) < |history|
  {
    if history != [] {
      BornBefore(history[..|history| - 1], key);
    }
  }

  /** Newest node first: an overwrite leaves a node where it is, a delete and a new write moves the key. */
  ghost predicate NewestFirst(history: seq<Op>, c: Chain) {
    forall i, j :: 0 <= i < j < |c| ==> Born(history, c[i].key) > Born(history, c[j].key)
  }

  /** The table stands for the map after every history. */
  lemma {:induction false} AfterIsMapAfter(history: seq<Op>)
    requires ValidHistory(history)
    ensures WellFormed(After(history))
    ensures ToMap(After(history)) == MapAfter(history)
  {
    if history == [] {
      EmptyMap();
    } else {
      var init, last := history[..|history| - 1], history[|history| - 1];
      AfterIsMapAfter(init);
      if last.Put? {
        WriteIsUpdate(After(init), last.key, last.value);
      } else {
        DeleteIsRemoval(After(init), last.key);
      }
    }
  }

  /** A bucket of the table holds exactly its live pairs. */
  lemma BucketHoldsLivePairs(history: seq<Op>, b: nat)
    requires ValidHistory(history) && b < TABLE_SIZE
    ensures DistinctKeys(After(history)[b])
    ensures forall k :: Has(After(history)[b], k) <==> k in MapAfter(history) && Hash(k) == b
    ensures forall p :: p in After(history)[b] ==> p.key in MapAfter(history) && p.value == MapAfter(history)[p.key]
  {
    var t := After(history);
    AfterIsMapAfter(history);
    assert DistinctKeys(t[b]) && InBucket(t[b], b);
    forall k ensures Has(t[b], k) <==> k in MapAfter(history) && Hash(k) == b {
      if Hash(k) == b {
        ReadIsLookup(t, k);
      }
      KeysIn(t, k);
    }
    forall p | p in t[b] ensures p.key in MapAfter(history) && p.value == MapAfter(history)[p.key] {
      var i :| 0 <= i < |t[b]| && t[b][i] == p;
      FindIs(t[b], p.key, i);
      ReadIsLookup(t, p.key);
    }
  }

  /** Each bucket lists its pairs, each once, in reverse order of the insertions that made them. */
  lemma {:induction false} ListedNewestFirst(history: seq<Op>, b: nat)
    requires ValidHistory(history) && b < TABLE_SIZE
    ensures NewestFirst(history, After(history)[b])
  {
    if history != [] {
      var init, last := history[..|history| - 1], history[|history| - 1];
      ListedNewestFirst(init, b);
      BucketHoldsLivePairs(init, b);
      assert history == init + [last];
      BucketStaysOrdered(init, last, After(init)[b], After(history)[b]);
    }
  }

  lemma BucketStaysOrdered(init: seq<Op>, last: Op, c: Chain, d: Chain)
    requires NewestFirst(init, c)
    requires d == c || d == if last.Put? then WriteChain(c, last.key, last.value) else DeleteChain(c, last.key)
    requires Has(c, last.key) || d != c ==> (last.key in MapAfter(init) <==> Has(c, last.key))
    ensures NewestFirst(init + [last], d)
  {
    var history := init + [last];
    assert history[..|history| - 1] == init;
    forall i, j | 0 <= i < j < |d| ensures Born(history, d[i].key) > Born(history, d[j].key) {
      BornBefore(init, d[j].key);
      if last.Put? && d != c && !Has(c, last.key) {
        assert d[j] == c[j - 1];
        if i > 0 {
          assert d[i] == c[i - 1];
        }
      }
    }
  }
}
