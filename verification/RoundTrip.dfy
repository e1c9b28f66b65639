/**
 The parser and the printer are inverse: what is printed is read back, and what is accepted is what would
 be printed.
 */
module RoundTrip {
  import opened Store
  import opened Text
  import opened Commands
  import opened Grammar

  predicate NulFree(s: string) {
    '\0' !in s
  }

  predicate NoStops(s: string) {
    forall i :: 0 <= i < |s| ==> !Stops(s[i])
  }

  // Words.

  lemma {:induction false} WordReadsBack(x: string, d: char, rest: string, room: nat)
    requires NoStops(x) && Stops(d) && |x| < room
    ensures ReadBytes(x + [d] + rest, room) == Scan(Word(DelimiterOf(d), x), rest)
  {
    var s := x + [d] + rest;
    if x == [] {
      assert s[1..] == rest;
    } else {
      assert s[1..] == x[1..] + [d] + rest;
      WordReadsBack(x[1..], d, rest, room - 1);
      assert [x[0]] + x[1..] == x;
    }
  }

  function CharOf(d: Delimiter): char {
    match d
    case Comma => ','
    case Parenthesis => ')'
    case Bracket => ']'
    case Bad => ' '
  }

  lemma {:induction false} WordIsExact(s: string, room: nat)
    requires ReadBytes(s, room).result.end != Bad
    ensures var r := ReadBytes(s, room);
            s == r.result.text + [CharOf(r.result.end)] + r.rest && NoStops(r.result.text) && |r.result.text| < room
  {
    if !Stops(s[0]) {
      WordIsExact(s[1..], room - 1);
      var r := ReadBytes(s[1..], room - 1);
      assert s == [s[0]] + (r.result.text + [CharOf(r.result.end)] + r.rest);
    }
  }

  lemma {:induction false} NulFreeIsKept(x: string)
    ensures NulFree(x) <==> CStr(x) == x
  {
    if x != [] && x[0] != '\0' {
      NulFreeIsKept(x[1..]);
    }
  }

  // One pair.

  function PairBody(p: Pair): string {
    p.key + "," + p.value + ")"
  }

  lemma PairReadsBack(p: Pair, rest: string)
    requires CleanPair(p)
    ensures ParsePair(PairBody(p) + rest) == Scan(Some(p), rest)
  {
    var tail := p.value + ")" + rest;
    assert PairBody(p) + rest == p.key + [','] + tail;
    assert tail == p.value + [')'] + rest;
    WordReadsBack(p.key, ',', tail, MAX_STRING_SIZE);
    WordReadsBack(p.value, ')', rest, MAX_STRING_SIZE);
    NulFreeIsKept(p.key);
    NulFreeIsKept(p.value);
  }

  lemma SameRest(s: string, a: string, b: string, rest: string)
    requires s == a + rest && s == b + rest
    ensures a == b
  {
    assert a == s[..|s| - |rest|] && b == s[..|s| - |rest|];
  }

  /** `used` is what a successful parse read; free of NULs, it is exactly the printed pair. */
  lemma PairIsExact(s: string) returns (used: string)
    requires ParsePair(s).result.Some?
    ensures s == used + ParsePair(s).rest
    ensures NulFree(ParsePair(s).result.value.key) && NulFree(ParsePair(s).result.value.value)
    ensures NulFree(used) ==> used == PairBody(ParsePair(s).result.value) && CleanPair(ParsePair(s).result.value)
  {
    var key := ReadString(s);
    var value := ReadString(key.rest);
    WordIsExact(s, MAX_STRING_SIZE);
    WordIsExact(key.rest, MAX_STRING_SIZE);
    var k, v := key.result.text, value.result.text;
    used := k + "," + v + ")";
    assert s == used + value.rest;
    if NulFree(used) {
      assert forall i :: 0 <= i < |k| ==> k[i] == used[i];
      assert forall i :: 0 <= i < |v| ==> v[i] == used[|k| + 1 + i];
      NulFreeIsKept(k);
      NulFreeIsKept(v);
    }
  }

  // Lists of pairs.

  /** What follows "[(" in a WRITE, up to the ']'. */
  function PairsBody(ps: seq<Pair>): string
    requires ps != []
  {
    PairBody(ps[0]) + if |ps| == 1 then "]" else "(" + PairsBody(ps[1..])
  }

  lemma {:induction false} PairsBodyPrints(ps: seq<Pair>)
    requires ps != []
    ensures "(" + PairsBody(ps) == PrintPairs(ps) + "]"
  {
    assert "(" + PairBody(ps[0]) == PrintPair(ps[0]);
    if |ps| == 1 {
      assert PrintPairs(ps[1..]) == "";
    } else {
      PairsBodyPrints(ps[1..]);
      assert "(" + (PairBody(ps[0]) + ("(" + PairsBody(ps[1..]))) == PrintPair(ps[0]) + ("(" + PairsBody(ps[1..]));
    }
  }

  predicate CleanPairs(ps: seq<Pair>) {
    forall i :: 0 <= i < |ps| ==> CleanPair(ps[i])
  }

  predicate NulFreePairs(ps: seq<Pair>) {
    forall i :: 0 <= i < |ps| ==> NulFree(ps[i].key) && NulFree(ps[i].value)
  }

  /** One round of the loop, told from the byte that follows the pair. */
  lemma PairRound(s: string, room: nat, next: char, tail: string)
    requires room > 0 && ParsePair(s).result.Some? && ParsePair(s).rest == [next] + tail
    ensures next == '(' ==> ParsePairs(s, room) == Cons(ParsePair(s).result.value, ParsePairs(tail, room - 1))
    ensures next == ']' ==> ParsePairs(s, room) == Cons(ParsePair(s).result.value, EndOfList(tail, room - 1))
    ensures next != '(' && next != ']' ==> ParsePairs(s, room).result.None?
  {
    assert ([next] + tail)[1..] == tail;
  }

  lemma LastReadsBack(p: Pair, rest: string, room: nat)
    requires room > 1 && CleanPair(p)
    ensures ParsePairs(PairBody(p) + ("]\n" + rest), room) == Scan(Some([p]), rest)
  {
    var tail := "\n" + rest;
    assert "]\n" + rest == "]" + tail;
    PairReadsBack(p, "]" + tail);
    PairRound(PairBody(p) + ("]" + tail), room, ']', tail);
    assert tail[1..] == rest && [p] + [] == [p];
  }

  lemma MoreReadBack(p: Pair, ps: seq<Pair>, tail: string, rest: string, room: nat)
    requires room > 0 && CleanPair(p) && ParsePairs(tail, room - 1) == Scan(Some(ps), rest)
    ensures ParsePairs(PairBody(p) + ("(" + tail), room) == Scan(Some([p] + ps), rest)
  {
    PairReadsBack(p, "(" + tail);
    PairRound(PairBody(p) + ("(" + tail), room, '(', tail);
  }

  lemma Regroup(a: string, b: string, c: string, d: string, e: string)
    ensures (a + (b + c)) + d + e == a + (b + (c + d + e))
    ensures (a + b) + d + e == a + (b + d + e)
  {
  }

  lemma {:induction false} PairsReadBack(ps: seq<Pair>, rest: string, room: nat)
    requires 0 < |ps| < room && CleanPairs(ps)
    ensures ParsePairs(PairsBody(ps) + "\n" + rest, room) == Scan(Some(ps), rest)
  {
    hide ParsePairs;
    var first := PairBody(ps[0]);
    if |ps| == 1 {
      Regroup(first, "]", "", "\n", rest);
      assert "]" + "\n" == "]\n";
      LastReadsBack(ps[0], rest, room);
      assert ps == [ps[0]];
    } else {
      var body := PairsBody(ps[1..]);
      Regroup(first, "(", body, "\n", rest);
      PairsReadBack(ps[1..], rest, room - 1);
      MoreReadBack(ps[0], ps[1..], body + "\n" + rest, rest, room);
      assert ps == [ps[0]] + ps[1..];
    }
  }

  lemma EndIsExact<T>(s: string, room: nat)
    requires EndOfList<T>(s, room).result.Some?
    ensures room > 0 && s != [] && EndOfList<T>(s, room) == Scan(Some([]), s[1..]) && (s[0] == '\n' || s[0] == '\0')
  {
  }

  lemma LastPair(p: Pair, used: string, end: char)
    requires NulFree(used) ==> used == PairBody(p) && CleanPair(p)
    requires end == '\n' || end == '\0'
    ensures NulFree(used + "]" + [end]) ==> used + "]" + [end] == PairsBody([p]) + "\n" && CleanPairs([p])
  {
    assert end in used + "]" + [end];
    assert NulFree(used + "]" + [end]) ==> NulFree(used);
  }

  lemma MorePairs(p: Pair, ps: seq<Pair>, used0: string, used1: string)
    requires ps != []
    requires NulFree(used0) ==> used0 == PairBody(p) && CleanPair(p)
    requires NulFree(used1) ==> used1 == PairsBody(ps) + "\n" && CleanPairs(ps)
    ensures NulFree(used0 + "(" + used1) ==> used0 + "(" + used1 == PairsBody([p] + ps) + "\n" && CleanPairs([p] + ps)
  {
    assert ([p] + ps)[1..] == ps;
  }

  predicate ExactPairs(s: string, room: nat, r: Scan<Option<seq<Pair>>>, used: string)
    requires r.result.Some?
  {
    && s == used + r.rest && 0 < |r.result.value| < room && NulFreePairs(r.result.value)
    && (NulFree(used) ==> used == PairsBody(r.result.value) + "\n" && CleanPairs(r.result.value))
  }

  lemma LastIsExact(s: string, room: nat, used0: string, tail: string) returns (used: string)
    requires room > 0 && ParsePair(s).result.Some? && ParsePair(s).rest == "]" + tail && s == used0 + ParsePair(s).rest
    requires var p := ParsePair(s).result.value;
             NulFree(p.key) && NulFree(p.value) && (NulFree(used0) ==> used0 == PairBody(p) && CleanPair(p))
    requires ParsePairs(s, room).result.Some?
    ensures ExactPairs(s, room, ParsePairs(s, room), used)
  {
    var p := ParsePair(s).result.value;
    PairRound(s, room, ']', tail);
    EndIsExact<Pair>(tail, room - 1);
    used := used0 + "]" + [tail[0]];
    assert s == used + tail[1..];
    assert [p] + [] == [p];
    LastPair(p, used0, tail[0]);
  }

  lemma MoreAreExact(s: string, room: nat, used0: string, tail: string, used1: string) returns (used: string)
    requires room > 0 && ParsePair(s).result.Some? && ParsePair(s).rest == "(" + tail && s == used0 + ParsePair(s).rest
    requires var p := ParsePair(s).result.value;
             NulFree(p.key) && NulFree(p.value) && (NulFree(used0) ==> used0 == PairBody(p) && CleanPair(p))
    requires ParsePairs(tail, room - 1).result.Some? && ExactPairs(tail, room - 1, ParsePairs(tail, room - 1), used1)
    ensures ParsePairs(s, room).result.Some? && ExactPairs(s, room, ParsePairs(s, room), used)
  {
    var p, r := ParsePair(s).result.value, ParsePairs(tail, room - 1);
    PairRound(s, room, '(', tail);
    used := used0 + "(" + used1;
    assert s == used + r.rest;
    assert ParsePairs(s, room) == Scan(Some([p] + r.result.value), r.rest);
    MorePairs(p, r.result.value, used0, used1);
  }

  lemma {:induction false} PairsAreExact(s: string, room: nat) returns (used: string)
    requires ParsePairs(s, room).result.Some?
    ensures ExactPairs(s, room, ParsePairs(s, room), used)
    decreases room
  {
    hide ExactPairs, ParsePair;
    var p := ParsePair(s);
    used := PairIsExact(s);
    var next, tail := p.rest[0], p.rest[1..];
    PairRound(s, room, next, tail);
    if next == ']' {
      used := LastIsExact(s, room, used, tail);
    } else {
      var used1 := PairsAreExact(tail, room - 1);
      used := MoreAreExact(s, room, used, tail, used1);
    }
  }

  predicate Used(s: string, used: string, rest: string) {
    s == used + rest
  }

  /** Nothing between `s` and `rest` is NUL. */
  ghost predicate NulFreeUpTo(s: string, rest: string) {
    exists used :: Used(s, used, rest) && NulFree(used)
  }

  lemma UsedAfter(s: string, head: string, used: string, used0: string, rest: string)
    requires s == head + (used + rest) && s == used0 + rest && NulFree(used0)
    ensures used0 == head + used && NulFree(used)
  {
    Assoc(head, used, rest);
    SameRest(s, used0, head + used, rest);
    assert forall i :: 0 <= i < |used| ==> used[i] == used0[|head| + i];
  }

  lemma WriteText(ps: seq<Pair>, rest: string)
    requires ps != []
    ensures PairList(ps) + rest == "[(" + (PairsBody(ps) + "\n" + rest)
    ensures ("[(" + (PairsBody(ps) + "\n" + rest))[1..][1..] == PairsBody(ps) + "\n" + rest
  {
    PairsBodyPrints(ps);
    var x := PrintPairs(ps);
    assert "[" + x + "]\n" + rest == "[" + (x + "]") + "\n" + rest;
    assert "[" + ("(" + PairsBody(ps)) + "\n" + rest == "[(" + (PairsBody(ps) + "\n" + rest);
  }

  lemma WriteReadsBack(ps: seq<Pair>, rest: string, max: nat)
    requires 0 < |ps| < max && CleanPairs(ps)
    ensures ParseWrite(PairList(ps) + rest, max) == Scan(Some(ps), rest)
  {
    WriteText(ps, rest);
    PairsReadBack(ps, rest, max);
  }

  /** What an accepted WRITE used, when free of NULs, is exactly what would be printed for its pairs. */
  lemma WriteAcceptsOnlyPrinted(s: string, max: nat)
    requires ParseWrite(s, max).result.Some?
    ensures var ps, rest := ParseWrite(s, max).result.value, ParseWrite(s, max).rest;
            0 < |ps| < max && NulFreePairs(ps)
            && (NulFreeUpTo(s, rest) ==> CleanPairs(ps) && s == PairList(ps) + rest)
  {
    var t := s[2..];
    assert s == "[(" + t && s[1..][1..] == t;
    var used := PairsAreExact(t, max);
    var r := ParsePairs(t, max);
    assert s == "[(" + (used + r.rest);
    if used0 :| Used(s, used0, r.rest) && NulFree(used0) {
      UsedAfter(s, "[(", used, used0, r.rest);
      WriteText(r.result.value, r.rest);
    }
  }

  lemma {:induction false} PrintedPairsAreNulFree(ps: seq<Pair>)
    requires CleanPairs(ps)
    ensures NulFree(PrintPairs(ps))
  {
    if ps != [] {
      PrintedPairsAreNulFree(ps[1..]);
      assert CleanPair(ps[0]);
    }
  }

  /** The exact language of `parse_write`, NULs aside. */
  lemma WriteIsExact(s: string, max: nat, ps: seq<Pair>, rest: string)
    ensures (ParseWrite(s, max) == Scan(Some(ps), rest) && NulFreeUpTo(s, rest))
       <==> (0 < |ps| < max && CleanPairs(ps) && s == PairList(ps) + rest)
  {
    if ParseWrite(s, max) == Scan(Some(ps), rest) && NulFreeUpTo(s, rest) {
      WriteAcceptsOnlyPrinted(s, max);
    }
    if 0 < |ps| < max && CleanPairs(ps) && s == PairList(ps) + rest {
      WriteReadsBack(ps, rest, max);
      PrintedPairsAreNulFree(ps);
      assert Used(s, PairList(ps), rest);
    }
  }

  // Lists of keys.

  predicate CleanKeys(keys: seq<string>) {
    forall i :: 0 <= i < |keys| ==> Clean(keys[i])
  }

  predicate NulFreeKeys(keys: seq<string>) {
    forall i :: 0 <= i < |keys| ==> NulFree(keys[i])
  }

  /** One round of the loop. */
  lemma KeyRound(key: string, end: Delimiter, tail: string, room: nat)
    requires room > 0 && Clean(key) && end in {Comma, Bracket}
    ensures var s := key + [CharOf(end)] + tail;
            ParseKeys(s, room) ==
              Cons(key, if end == Comma then ParseKeys(tail, room - 1) else EndOfList(tail, room - 1))
  {
    WordReadsBack(key, CharOf(end), tail, MAX_STRING_SIZE);
    NulFreeIsKept(key);
  }

  lemma LastKeyReadsBack(key: string, rest: string, room: nat)
    requires room > 1 && Clean(key)
    ensures ParseKeys(key + "]\n" + rest, room) == Scan(Some([key]), rest)
  {
    var tail := "\n" + rest;
    assert key + "]\n" + rest == key + [']'] + tail;
    KeyRound(key, Bracket, tail, room);
    assert tail[1..] == rest && [key] + [] == [key];
  }

  lemma CommaText(key: string, keys: string, rest: string)
    ensures key + "," + keys + "]\n" + rest == key + [','] + (keys + "]\n" + rest)
  {
  }

  lemma {:induction false} KeysReadBack(keys: seq<string>, rest: string, room: nat)
    requires 0 < |keys| < room && CleanKeys(keys)
    ensures ParseKeys(PrintKeys(keys) + "]\n" + rest, room) == Scan(Some(keys), rest)
  {
    hide ParseKeys;
    if |keys| == 1 {
      LastKeyReadsBack(keys[0], rest, room);
      assert keys == [keys[0]];
    } else {
      CommaText(keys[0], PrintKeys(keys[1..]), rest);
      KeysReadBack(keys[1..], rest, room - 1);
      KeyRound(keys[0], Comma, PrintKeys(keys[1..]) + "]\n" + rest, room);
      assert keys == [keys[0]] + keys[1..];
    }
  }

  predicate ExactKeys(s: string, room: nat, r: Scan<Option<seq<string>>>, used: string)
    requires r.result.Some?
  {
    && s == used + r.rest && 0 < |r.result.value| < room && NulFreeKeys(r.result.value)
    && (NulFree(used) ==> used == PrintKeys(r.result.value) + "]\n" && CleanKeys(r.result.value))
  }

  lemma LastKey(raw: string, end: char)
    requires |raw| < MAX_STRING_SIZE && NoStops(raw) && (end == '\n' || end == '\0')
    ensures NulFree(raw + "]" + [end]) ==> CStr(raw) == raw && Clean(raw) && end == '\n'
  {
    var used := raw + "]" + [end];
    NulFreeIsKept(raw);
    assert used[|raw| + 1] == end;
    assert forall i :: 0 <= i < |raw| ==> used[i] == raw[i];
  }

  lemma MoreKeys(raw: string, keys: seq<string>, used: string)
    requires |raw| < MAX_STRING_SIZE && NoStops(raw) && keys != []
    requires NulFree(used) ==> used == PrintKeys(keys) + "]\n" && CleanKeys(keys)
    ensures NulFree(raw + "," + used) ==>
              raw + "," + used == PrintKeys([CStr(raw)] + keys) + "]\n" && CleanKeys([CStr(raw)] + keys)
  {
    var all := raw + "," + used;
    NulFreeIsKept(raw);
    assert forall i :: 0 <= i < |raw| ==> all[i] == raw[i];
    assert forall i :: 0 <= i < |used| ==> all[i + |raw| + 1] == used[i];
    assert ([CStr(raw)] + keys)[1..] == keys;
  }

  lemma KeyStops(s: string, room: nat)
    requires room > 0
    ensures var key := ReadString(s);
            match key.result.end
            case Comma => ParseKeys(s, room) == Cons(CStr(key.result.text), ParseKeys(key.rest, room - 1))
            case Bracket => ParseKeys(s, room) == Cons(CStr(key.result.text), EndOfList(key.rest, room - 1))
            case _ => ParseKeys(s, room).result.None?
  {
  }

  lemma LastKeyIsExact(s: string, room: nat, raw: string, tail: string) returns (used: string)
    requires room > 0 && ReadString(s) == Scan(Word(Bracket, raw), tail) && ParseKeys(s, room).result.Some?
    ensures ExactKeys(s, room, ParseKeys(s, room), used)
  {
    hide ParseKeys, ReadBytes;
    KeyStops(s, room);
    WordIsExact(s, MAX_STRING_SIZE);
    EndIsExact<string>(tail, room - 1);
    used := raw + "]" + [tail[0]];
    assert s == used + tail[1..] && [CStr(raw)] + [] == [CStr(raw)];
    LastKey(raw, tail[0]);
  }

  lemma NoRoomNoKeys(s: string)
    ensures ParseKeys(s, 0).result.None?
  {
  }

  lemma {:induction false} KeysAreExact(s: string, room: nat) returns (used: string)
    requires ParseKeys(s, room).result.Some?
    ensures ExactKeys(s, room, ParseKeys(s, room), used)
    decreases room
  {
    NoRoomNoKeys(s);
    hide ParseKeys, ReadBytes;
    KeyStops(s, room);
    var key := ReadString(s);
    var raw, tail := key.result.text, key.rest;
    if key.result.end == Bracket {
      used := LastKeyIsExact(s, room, raw, tail);
    } else {
      WordIsExact(s, MAX_STRING_SIZE);
      used := KeysAreExact(tail, room - 1);
      MoreKeys(raw, ParseKeys(tail, room - 1).result.value, used);
      used := raw + "," + used;
      assert s == used + ParseKeys(tail, room - 1).rest;
    }
  }

  /** What an accepted READ or DELETE used, when free of NULs, is exactly what would be printed for its keys. */
  lemma KeysAcceptOnlyPrinted(s: string, max: nat)
    requires ParseReadDelete(s, max).result.Some?
    ensures var keys, rest := ParseReadDelete(s, max).result.value, ParseReadDelete(s, max).rest;
            0 < |keys| < max && NulFreeKeys(keys)
            && (NulFreeUpTo(s, rest) ==> CleanKeys(keys) && s == KeyList(keys) + rest)
  {
    hide ParseKeys, PrintKeys, CleanKeys, NulFreeKeys;
    var used := KeysAreExact(s[1..], max);
    var r := ParseKeys(s[1..], max);
    assert s == "[" + (used + r.rest);
    if used0 :| Used(s, used0, r.rest) && NulFree(used0) {
      UsedAfter(s, "[", used, used0, r.rest);
    }
  }

  lemma {:induction false} PrintedKeysAreNulFree(keys: seq<string>)
    requires keys != [] && CleanKeys(keys)
    ensures NulFree(PrintKeys(keys))
  {
    assert Clean(keys[0]);
    if |keys| > 1 {
      PrintedKeysAreNulFree(keys[1..]);
    }
  }

  lemma KeysPrintedAreAccepted(keys: seq<string>, rest: string, max: nat)
    requires 0 < |keys| < max && CleanKeys(keys)
    ensures ParseReadDelete(KeyList(keys) + rest, max) == Scan(Some(keys), rest)
  {
    var t := PrintKeys(keys) + "]\n" + rest;
    assert KeyList(keys) + rest == "[" + t;
    KeysReadBack(keys, rest, max);
  }

  /** The exact language of `parse_read_delete`, NULs aside. */
  lemma KeysAreExactly(s: string, max: nat, keys: seq<string>, rest: string)
    ensures (ParseReadDelete(s, max) == Scan(Some(keys), rest) && NulFreeUpTo(s, rest))
       <==> (0 < |keys| < max && CleanKeys(keys) && s == KeyList(keys) + rest)
  {
    if ParseReadDelete(s, max) == Scan(Some(keys), rest) && NulFreeUpTo(s, rest) {
      KeysAcceptOnlyPrinted(s, max);
    }
    if 0 < |keys| < max && CleanKeys(keys) && s == KeyList(keys) + rest {
      KeysPrintedAreAccepted(keys, rest, max);
      PrintedKeysAreNulFree(keys);
      assert Used(s, KeyList(keys), rest);
    }
  }

  // Delays.

  lemma {:induction false} DigitsStop(d: string, c: char, rest: string)
    requires (forall i :: 0 <= i < |d| ==> IsDigit(d[i])) && !IsDigit(c)
    ensures Digits(d + [c] + rest) == d
  {
    var s := d + [c] + rest;
    if d != [] {
      assert s[1..] == d[1..] + [c] + rest;
      DigitsStop(d[1..], c, rest);
      assert [d[0]] + d[1..] == d;
    }
  }

  lemma WaitReadsBack(delay: nat, rest: string)
    requires delay <= UINT_MAX
    ensures ParseWait(Decimal(delay) + "\n" + rest) == Scan(Some(delay), rest)
  {
    var d := Decimal(delay);
    DigitsStop(d, '\n', rest);
    DecimalReadsBack(delay);
    assert (d + "\n" + rest)[|d|..] == "\n" + rest;
    assert ("\n" + rest)[1..] == rest;
  }

  /** Exactly when `parse_wait` succeeds, and with what. */
  lemma WaitIsExact(s: string)
    ensures var d := Digits(s);
            var ends := |d| == |s| || s[|d|] in {' ', '\n', '\0'};
            ParseWait(s).result == if Number(d) <= UINT_MAX && ends then Some(Number(d)) else None
  {
  }

  // Whole scripts.

  lemma ArgumentsFollow(word: string, kind: Kind, t: string)
    ensures Word1(word + t, word, kind) == Scan(kind, t)
  {
    assert (word + t)[|word|..] == t;
  }

  /** READ and DELETE: the command word is recognised, and its arguments are left to be read. */
  lemma KeysWordReadsBack(t: string)
    ensures GetNext("READ " + t) == Scan(KRead, t) && GetNext("DELETE " + t) == Scan(KDelete, t)
  {
    ArgumentsFollow("EAD ", KRead, t);
    ArgumentsFollow("ELETE ", KDelete, t);
    assert ("READ " + t)[1..] == "EAD " + t;
    assert ("DELETE " + t)[1..] == "ELETE " + t;
  }

  lemma WriteWordReadsBack(t: string)
    ensures GetNext("WRITE " + t) == Scan(KWrite, t)
  {
    var s := "RITE " + t;
    assert ("WRITE " + t)[1..] == s && s[5..] == t;
    assert s[0] == 'R' && "AIT "[0] == 'A';
  }

  lemma WaitWordReadsBack(t: string)
    ensures GetNext("WAIT " + t) == Scan(KWait, t)
  {
    assert ("WAIT " + t)[1..] == "AIT " + t && ("AIT " + t)[4..] == t;
  }

  lemma LoneWord(word: string, kind: Kind, rest: string)
    ensures Word0(word + "\n" + rest, word, kind) == Scan(kind, rest) && Word0(word, word, kind) == Scan(kind, "")
  {
    assert (word + "\n" + rest)[|word|..] == "\n" + rest;
    assert ("\n" + rest)[1..] == rest;
    assert word <= word + "\n" + rest;
  }

  predicate Lone(first: char, word: string, kind: Kind) {
    match first
    case 'S' => word == "HOW" && kind == KShow
    case 'B' => word == "ACKUP" && kind == KBackup
    case 'H' => word == "ELP" && kind == KHelp
    case _ => false
  }

  /** A command word alone on its line; the newline may be missing at the end of the input. */
  lemma LineReadsBack(first: char, word: string, kind: Kind, rest: string)
    requires Lone(first, word, kind)
    ensures GetNext([first] + word + "\n" + rest) == Scan(kind, rest) && GetNext([first] + word) == Scan(kind, "")
  {
    LoneWord(word, kind, rest);
    assert ([first] + word + "\n" + rest)[1..] == word + "\n" + rest;
    assert ([first] + word)[1..] == word;
  }

  lemma ListReadsBack(c: Command, rest: string)
    requires Printable(c) && c.NamesKeys()
    ensures NextCommand(Print(c) + rest) == Scan(c, rest)
  {
    hide GetNext, ParseWrite, ParseReadDelete, PairList, KeyList;
    match c
    case Write(ps) =>
      Assoc("WRITE ", PairList(ps), rest);
      WriteWordReadsBack(PairList(ps) + rest);
      WriteReadsBack(ps, rest, MAX_WRITE_SIZE);
    case Read(keys) =>
      Assoc("READ ", KeyList(keys), rest);
      KeysWordReadsBack(KeyList(keys) + rest);
      KeysPrintedAreAccepted(keys, rest, MAX_WRITE_SIZE);
    case Delete(keys) =>
      Assoc("DELETE ", KeyList(keys), rest);
      KeysWordReadsBack(KeyList(keys) + rest);
      KeysPrintedAreAccepted(keys, rest, MAX_WRITE_SIZE);
  }

  lemma DelayReadsBack(delay: nat, rest: string)
    requires delay <= UINT_MAX
    ensures NextCommand(Print(Wait(delay)) + rest) == Scan(Wait(delay), rest)
  {
    hide GetNext, ParseWait, Decimal;
    var d := Decimal(delay);
    Assoc("WAIT ", d, "\n");
    Assoc("WAIT ", d + "\n", rest);
    WaitWordReadsBack(d + "\n" + rest);
    WaitReadsBack(delay, rest);
  }

  lemma LoneReadsBack(c: Command, rest: string)
    requires c.Show? || c.Backup? || c.Help? || c.Empty?
    ensures NextCommand(Print(c) + rest) == Scan(c, rest)
  {
    hide GetNext;
    match c
    case Show =>
      LineReadsBack('S', "HOW", KShow, rest);
      assert "SHOW\n" == ['S'] + "HOW" + "\n";
    case Backup =>
      LineReadsBack('B', "ACKUP", KBackup, rest);
      assert "BACKUP\n" == ['B'] + "ACKUP" + "\n";
    case Help =>
      LineReadsBack('H', "ELP", KHelp, rest);
      assert "HELP\n" == ['H'] + "ELP" + "\n";
    case Empty => EmptyLine(rest);
  }

  lemma EmptyLine(rest: string)
    ensures GetNext("\n" + rest) == Scan(KEmpty, rest)
  {
    assert ("\n" + rest)[1..] == rest;
  }

  /** Printing a command and running one round of the loop gives it back. */
  lemma CommandReadsBack(c: Command, rest: string)
    requires Printable(c)
    ensures NextCommand(Print(c) + rest) == Scan(c, rest)
  {
    hide Print, NextCommand;
    if c.NamesKeys() {
      ListReadsBack(c, rest);
    } else if c.Wait? {
      DelayReadsBack(c.delay, rest);
    } else {
      LoneReadsBack(c, rest);
    }
  }

  /** Printing a script and parsing it gives the same commands, then the end. */
  lemma {:induction false} ScriptReadsBack(cs: seq<Command>)
    requires forall i :: 0 <= i < |cs| ==> Printable(cs[i])
    ensures Script(PrintAll(cs)) == cs
  {
    if cs != [] {
      assert Printable(cs[0]);
      CommandReadsBack(cs[0], PrintAll(cs[1..]));
      ScriptReadsBack(cs[1..]);
    }
  }

  /** So different scripts print differently. */
  lemma PrintIsInjective(cs: seq<Command>, ds: seq<Command>)
    requires forall i :: 0 <= i < |cs| ==> Printable(cs[i])
    requires forall i :: 0 <= i < |ds| ==> Printable(ds[i])
    requires PrintAll(cs) == PrintAll(ds)
    ensures cs == ds
  {
    ScriptReadsBack(cs);
    ScriptReadsBack(ds);
  }
}
