/**
 The parser never looks ahead: what a command is depends on the bytes it used and on nothing behind them. So
 scripts can be cut and spliced between commands, and a comment line can stand anywhere between them.
 */
module Lookahead {
  import opened Store
  import opened Text
  import opened Commands
  import opened Grammar
  import opened RoundTrip

  // Each lemma gives what was used up, and says that with `more` behind it the same is read, when something is left.

  lemma {:induction false} CleanupUses(s: string, more: string) returns (used: string)
    ensures s == used + Cleanup(s)
    ensures Cleanup(s) != [] ==> Cleanup(used + more) == more
  {
    if s == [] {
      used := [];
    } else if s[0] == '\n' {
      used := "\n";
      assert ("\n" + more)[1..] == more;
    } else {
      var later := CleanupUses(s[1..], more);
      used := [s[0]] + later;
      assert (used + more)[1..] == later + more;
    }
  }

  /** One byte, then the rest of the line. */
  lemma SkipUses(s: string, more: string) returns (used: string)
    ensures s == used + Cleanup(Skip(s))
    ensures Cleanup(Skip(s)) != [] ==> used != [] && used[0] == s[0] && Cleanup(Skip(used + more)) == more
  {
    var later := CleanupUses(Skip(s), more);
    if s == [] {
      used := [];
    } else {
      used := [s[0]] + later;
      assert (used + more)[1..] == later + more;
    }
  }

  lemma {:induction false} BytesUse(s: string, room: nat, more: string) returns (used: string)
    ensures s == used + ReadBytes(s, room).rest
    ensures ReadBytes(s, room).rest != [] ==> ReadBytes(used + more, room) == Scan(ReadBytes(s, room).result, more)
  {
    if room == 0 || s == [] {
      used := [];
      assert [] + more == more;
    } else if Stops(s[0]) {
      used := [s[0]];
      assert ([s[0]] + more)[1..] == more;
    } else {
      var later := BytesUse(s[1..], room - 1, more);
      used := [s[0]] + later;
      assert (used + more)[1..] == later + more;
    }
  }

  lemma PairUses(s: string, more: string) returns (used: string)
    ensures s == used + ParsePair(s).rest
    ensures ParsePair(s).rest != [] ==> ParsePair(used + more) == Scan(ParsePair(s).result, more)
  {
    var key := ReadString(s);
    if key.result.end != Comma {
      var b := CleanupUses(key.rest, more);
      var a := BytesUse(s, MAX_STRING_SIZE, b + more);
      used := a + b;
      Assoc(a, b, more);
      Assoc(a, b, ParsePair(s).rest);
    } else {
      used := ValueUses(s, more);
    }
  }

  lemma ValueUses(s: string, more: string) returns (used: string)
    requires ReadString(s).result.end == Comma
    ensures s == used + ParsePair(s).rest
    ensures ParsePair(s).rest != [] ==> ParsePair(used + more) == Scan(ParsePair(s).result, more)
  {
    var key := ReadString(s);
    var value := ReadString(key.rest);
    hide ReadBytes, Cleanup;
    var c := "";
    if value.result.end != Parenthesis {
      c := CleanupUses(value.rest, more);
    }
    assert value.rest == c + ParsePair(s).rest;
    assert "" + more == more;
    var b := BytesUse(key.rest, MAX_STRING_SIZE, c + more);
    var a := BytesUse(s, MAX_STRING_SIZE, b + (c + more));
    used := a + (b + c);
    Assoc3(a, b, c, more);
    Assoc3(a, b, c, ParsePair(s).rest);
  }

  lemma Assoc3(a: string, b: string, c: string, d: string)
    ensures a + (b + c) + d == a + (b + (c + d))
  {
  }

  lemma EndUses<T>(s: string, room: nat, more: string) returns (used: string)
    ensures s == used + EndOfList<T>(s, room).rest
    ensures EndOfList<T>(s, room).rest != [] ==>
              EndOfList<T>(used + more, room) == Scan(EndOfList<T>(s, room).result, more)
  {
    if room == 0 {
      used := CleanupUses(s, more);
    } else if s == [] || (s[0] != '\n' && s[0] != '\0') {
      used := SkipUses(s, more);
    } else {
      used := [s[0]];
      assert ([s[0]] + more)[1..] == more;
    }
  }

  /** What stands behind a pair, in the list. */
  function AfterPair(t: string, room: nat): Scan<Option<seq<Pair>>>
    requires room > 0
  {
    if t == [] || (t[0] != '(' && t[0] != ']') then Scan(None, Cleanup(Skip(t)))
    else if t[0] == ']' then EndOfList(t[1..], room - 1)
    else ParsePairs(t[1..], room - 1)
  }

  lemma PairsAreAPairAndMore(s: string, room: nat)
    requires room > 0 && ParsePair(s).result.Some?
    ensures var p, r := ParsePair(s), AfterPair(ParsePair(s).rest, room);
            ParsePairs(s, room) == Cons(p.result.value, r)
  {
  }

  lemma {:induction false} PairsUse(s: string, room: nat, more: string) returns (used: string)
    ensures s == used + ParsePairs(s, room).rest
    ensures ParsePairs(s, room).rest != [] ==> ParsePairs(used + more, room) == Scan(ParsePairs(s, room).result, more)
    decreases room, 1
  {
    if room == 0 {
      used := EndUses<Pair>(s, 0, more);
    } else if ParsePair(s).result.None? {
      var b := CleanupUses(ParsePair(s).rest, more);
      var a := PairUses(s, b + more);
      used := a + b;
      Assoc(a, b, more);
      Assoc(a, b, ParsePairs(s, room).rest);
    } else {
      var t := ParsePair(s).rest;
      PairsAreAPairAndMore(s, room);
      var b := AfterPairUses(t, room, more);
      var a := PairUses(s, b + more);
      used := a + b;
      Assoc(a, b, more);
      Assoc(a, b, AfterPair(t, room).rest);
      hide ParsePair, AfterPair, ParsePairs;
      if ParsePairs(s, room).rest != [] {
        PairsAreAPairAndMore(used + more, room);
      }
    }
  }

  lemma {:induction false} AfterPairUses(t: string, room: nat, more: string) returns (used: string)
    requires room > 0
    ensures t == used + AfterPair(t, room).rest
    ensures AfterPair(t, room).rest != [] ==> AfterPair(used + more, room) == Scan(AfterPair(t, room).result, more)
    decreases room, 0
  {
    hide ParsePairs, EndOfList, Cleanup;
    if t == [] || (t[0] != '(' && t[0] != ']') {
      used := SkipUses(t, more);
    } else {
      var later: string;
      if t[0] == ']' {
        later := EndUses<Pair>(t[1..], room - 1, more);
      } else {
        later := PairsUse(t[1..], room - 1, more);
      }
      used := [t[0]] + later;
      BehindByte(t[0], later, AfterPair(t, room).rest, more);
    }
  }

  lemma BehindByte(c: char, later: string, rest: string, more: string)
    ensures [c] + later + rest == [c] + (later + rest)
    ensures ([c] + later + more)[0] == c && ([c] + later + more)[1..] == later + more
  {
  }

  lemma WriteUses(s: string, max: nat, more: string) returns (used: string)
    ensures s == used + ParseWrite(s, max).rest
    ensures ParseWrite(s, max).rest != [] ==> ParseWrite(used + more, max) == Scan(ParseWrite(s, max).result, more)
  {
    hide ParsePairs, Cleanup;
    if s == [] || s[0] != '[' {
      used := SkipUses(s, more);
    } else {
      var later := ListUses(s[1..], max, more);
      used := "[" + later;
      BehindByte('[', later, ParseWrite(s, max).rest, more);
    }
  }

  /** What stands behind the '[' of a WRITE. */
  function Listed(t: string, max: nat): Scan<Option<seq<Pair>>> {
    if t == [] || t[0] != '(' then Scan(None, Cleanup(Skip(t))) else ParsePairs(t[1..], max)
  }

  lemma ListUses(t: string, max: nat, more: string) returns (used: string)
    ensures t == used + Listed(t, max).rest
    ensures Listed(t, max).rest != [] ==> Listed(used + more, max) == Scan(Listed(t, max).result, more)
  {
    hide ParsePairs, Cleanup;
    if t == [] || t[0] != '(' {
      used := SkipUses(t, more);
    } else {
      var later := PairsUse(t[1..], max, more);
      used := "(" + later;
      BehindByte('(', later, Listed(t, max).rest, more);
    }
  }

  /** What stands behind a key that ended so, in the list. */
  function BehindKey(end: Delimiter, t: string, room: nat): Scan<Option<seq<string>>>
    requires room > 0
  {
    match end
    case Comma => ParseKeys(t, room - 1)
    case Bracket => EndOfList(t, room - 1)
    case _ => Scan(None, Cleanup(t))
  }

  lemma KeysAreAKeyAndMore(s: string, room: nat)
    requires room > 0
    ensures var key := ReadString(s);
            var r := BehindKey(key.result.end, key.rest, room);
            ParseKeys(s, room) == if key.result.end in {Comma, Bracket} then Cons(CStr(key.result.text), r) else r
  {
    hide ReadBytes, CStr, EndOfList, Cleanup;
  }

  lemma {:induction false} KeysUse(s: string, room: nat, more: string) returns (used: string)
    ensures s == used + ParseKeys(s, room).rest
    ensures ParseKeys(s, room).rest != [] ==> ParseKeys(used + more, room) == Scan(ParseKeys(s, room).result, more)
    decreases room, 1
  {
    if room == 0 {
      used := EndUses<string>(s, 0, more);
    } else {
      hide ParseKeys, ReadBytes, BehindKey;
      var key := ReadString(s);
      KeysAreAKeyAndMore(s, room);
      var b := BehindKeyUses(key.result.end, key.rest, room, more);
      var a := BytesUse(s, MAX_STRING_SIZE, b + more);
      used := a + b;
      Assoc(a, b, more);
      Assoc(a, b, ParseKeys(s, room).rest);
      KeysAreAKeyAndMore(used + more, room);
    }
  }

  lemma {:induction false} BehindKeyUses(end: Delimiter, t: string, room: nat, more: string) returns (used: string)
    requires room > 0
    ensures t == used + BehindKey(end, t, room).rest
    ensures BehindKey(end, t, room).rest != [] ==>
              BehindKey(end, used + more, room) == Scan(BehindKey(end, t, room).result, more)
    decreases room, 0
  {
    hide ParseKeys, EndOfList, Cleanup;
    match end {
      case Comma => used := KeysUse(t, room - 1, more);
      case Bracket => used := EndUses<string>(t, room - 1, more);
      case _ => used := CleanupUses(t, more);
    }
  }

  lemma ReadDeleteUses(s: string, max: nat, more: string) returns (used: string)
    ensures s == used + ParseReadDelete(s, max).rest
    ensures ParseReadDelete(s, max).rest != [] ==>
              ParseReadDelete(used + more, max) == Scan(ParseReadDelete(s, max).result, more)
  {
    hide ParseKeys, Cleanup;
    if s == [] || s[0] != '[' {
      used := SkipUses(s, more);
    } else {
      var later := KeysUse(s[1..], max, more);
      used := "[" + later;
      BehindByte('[', later, ParseReadDelete(s, max).rest, more);
    }
  }

  lemma UintUses(s: string, more: string) returns (used: string)
    ensures s == used + ReadUint(s).rest
    ensures ReadUint(s).rest != [] ==> ReadUint(used + more) == Scan(ReadUint(s).result, more)
  {
    var d := Digits(s);
    var tail := s[|d|..];
    if tail == [] {
      used := s;
    } else {
      used := d + [tail[0]];
      assert s == d + ([tail[0]] + tail[1..]);
      DigitsStop(d, tail[0], more);
      assert (used + more)[|d|..] == [tail[0]] + more;
      assert ([tail[0]] + more)[1..] == more;
    }
  }

  lemma WaitUses(s: string, more: string) returns (used: string)
    ensures s == used + ParseWait(s).rest
    ensures ParseWait(s).rest != [] ==> ParseWait(used + more) == Scan(ParseWait(s).result, more)
  {
    hide ReadUint;
    var n := ReadUint(s);
    var b := "";
    if n.result.value.None? || n.result.next !in {'\n', '\0'} {
      b := CleanupUses(n.rest, more);
    }
    var a := UintUses(s, b + more);
    used := a + b;
    Assoc(a, b, more);
    Assoc(a, b, ParseWait(s).rest);
    assert "" + more == more;
  }

  // The command word.

  lemma ShortUses(s: string, n: nat, more: string) returns (used: string)
    ensures s == used + Cleanup(Drop(s, n))
    ensures Cleanup(Drop(s, n)) != [] ==>
              n <= |used| && used[..n] == s[..n] && Cleanup(Drop(used + more, n)) == more
  {
    var later := CleanupUses(Drop(s, n), more);
    if |s| < n {
      used := s;
    } else {
      used := s[..n] + later;
      assert s == s[..n] + s[n..];
      assert (used + more)[n..] == later + more;
    }
  }

  lemma ArgWordUses(s: string, word: string, kind: Kind, more: string) returns (used: string)
    ensures s == used + Word1(s, word, kind).rest
    ensures Word1(s, word, kind).rest != [] ==>
              Word1(used + more, word, kind) == Scan(Word1(s, word, kind).result, more)
  {
    if word <= s {
      used := word;
      ArgumentsFollow(word, kind, more);
    } else {
      used := ShortUses(s, |word|, more);
      if Word1(s, word, kind).rest != [] {
        assert (used + more)[..|word|] == s[..|word|];
      }
    }
  }

  lemma LoneWordUses(s: string, word: string, kind: Kind, more: string) returns (used: string)
    ensures s == used + Word0(s, word, kind).rest
    ensures Word0(s, word, kind).rest != [] ==>
              Word0(used + more, word, kind) == Scan(Word0(s, word, kind).result, more)
  {
    hide Cleanup;
    if word <= s {
      assert s == word + s[|word|..];
      used := BehindWordUses(s[|word|..], word, kind, more);
    } else {
      used := ShortUses(s, |word|, more);
      if Word0(s, word, kind).rest != [] {
        assert (used + more)[..|word|] == s[..|word|];
      }
    }
  }

  lemma BehindWordUses(tail: string, word: string, kind: Kind, more: string) returns (used: string)
    ensures word + tail == used + Word0(word + tail, word, kind).rest
    ensures Word0(word + tail, word, kind).rest != [] ==>
              Word0(used + more, word, kind) == Scan(Word0(word + tail, word, kind).result, more)
  {
    hide Cleanup;
    var s := word + tail;
    assert s[|word|..] == tail;
    if tail == [] {
      used := s;
    } else if tail[0] == '\n' {
      used := word + "\n";
      LoneWord(word, kind, more);
    } else {
      var later := CleanupUses(tail[1..], more);
      used := word + ([tail[0]] + later);
      BehindByte(tail[0], later, Cleanup(tail[1..]), more);
      Assoc(word, [tail[0]] + later, more);
      Assoc(word, [tail[0]] + later, Cleanup(tail[1..]));
      assert (used + more)[|word|..] == [tail[0]] + later + more;
    }
  }

  /** What follows a 'W'. */
  function WriteOrWait(t: string): Scan<Kind> {
    if "AIT " <= t then Scan(KWait, t[4..])
    else if "RITE " <= t then Scan(KWrite, t[5..])
    else Scan(KInvalid, Cleanup(Drop(t, 5)))
  }

  lemma WriteOrWaitUses(t: string, more: string) returns (used: string)
    ensures t == used + WriteOrWait(t).rest
    ensures WriteOrWait(t).rest != [] ==> WriteOrWait(used + more) == Scan(WriteOrWait(t).result, more)
  {
    if "AIT " <= t {
      used := "AIT ";
      assert ("AIT " + more)[4..] == more;
    } else if "RITE " <= t {
      used := "RITE ";
      assert ("RITE " + more)[5..] == more && ("RITE " + more)[0] == 'R' && "AIT "[0] == 'A';
    } else {
      used := ShortUses(t, 5, more);
      if WriteOrWait(t).rest != [] {
        assert (used + more)[..5] == t[..5];
        NotThese(used + more, t);
      }
    }
  }

  lemma NotThese(s: string, t: string)
    requires |s| >= 5 && |t| >= 5 && s[..5] == t[..5]
    ensures ("AIT " <= s <==> "AIT " <= t) && ("RITE " <= s <==> "RITE " <= t)
  {
    assert s[..4] == s[..5][..4] == t[..4];
  }

  /** What follows the first byte of a command word. */
  function WordTail(first: char, t: string): Scan<Kind> {
    match first
    case 'W' => WriteOrWait(t)
    case 'R' => Word1(t, "EAD ", KRead)
    case 'D' => Word1(t, "ELETE ", KDelete)
    case 'S' => Word0(t, "HOW", KShow)
    case 'B' => Word0(t, "ACKUP", KBackup)
    case 'H' => Word0(t, "ELP", KHelp)
    case '#' => Scan(KEmpty, Cleanup(t))
    case '\n' => Scan(KEmpty, t)
    case _ => Scan(KInvalid, Cleanup(t))
  }

  lemma GetNextIsTail(s: string)
    requires s != []
    ensures GetNext(s) == WordTail(s[0], s[1..])
  {
  }

  lemma TailUses(first: char, t: string, more: string) returns (used: string)
    ensures t == used + WordTail(first, t).rest
    ensures WordTail(first, t).rest != [] ==> WordTail(first, used + more) == Scan(WordTail(first, t).result, more)
  {
    hide Word0, Word1, WriteOrWait;
    match first {
      case 'W' => used := WriteOrWaitUses(t, more);
      case 'R' => used := ArgWordUses(t, "EAD ", KRead, more);
      case 'D' => used := ArgWordUses(t, "ELETE ", KDelete, more);
      case 'S' => used := LoneWordUses(t, "HOW", KShow, more);
      case 'B' => used := LoneWordUses(t, "ACKUP", KBackup, more);
      case 'H' => used := LoneWordUses(t, "ELP", KHelp, more);
      case '\n' => used := "";
        assert "" + more == more;
      case _ => used := CleanupUses(t, more);
    }
  }

  lemma GetNextUses(s: string, more: string) returns (used: string)
    requires s != []
    ensures used != [] && s == used + GetNext(s).rest
    ensures GetNext(s).rest != [] ==> GetNext(used + more) == Scan(GetNext(s).result, more)
  {
    GetNextIsTail(s);
    hide GetNext, WordTail;
    var later := TailUses(s[0], s[1..], more);
    used := [s[0]] + later;
    BehindByte(s[0], later, GetNext(s).rest, more);
    GetNextIsTail(used + more);
  }

  lemma ArgumentsUse(kind: Kind, s: string, more: string) returns (used: string)
    requires kind != Eoc
    ensures s == used + ReadArguments(kind, s).rest
    ensures ReadArguments(kind, s).rest != [] ==>
              ReadArguments(kind, used + more) == Scan(ReadArguments(kind, s).result, more)
  {
    hide ParseWrite, ParseReadDelete, ParseWait;
    assert "" + more == more;
    match kind {
      case KWrite => used := WriteUses(s, MAX_WRITE_SIZE, more);
      case KRead => used := ReadDeleteUses(s, MAX_WRITE_SIZE, more);
      case KDelete => used := ReadDeleteUses(s, MAX_WRITE_SIZE, more);
      case KWait => used := WaitUses(s, more);
      case _ => used := "";
    }
  }

  /** A command is what its own bytes make it, whatever follows, unless it came up against the end of the file. */
  lemma NothingAhead(s: string, more: string) returns (used: string)
    requires s != []
    ensures used != [] && s == used + NextCommand(s).rest
    ensures NextCommand(s).rest != [] ==> NextCommand(used + more) == Scan(NextCommand(s).result, more)
  {
    var next := GetNext(s);
    var b := ArgumentsUse(next.result, next.rest, more);
    var a := GetNextUses(s, b + more);
    used := a + b;
    hide GetNext, ReadArguments;
    Assoc(a, b, more);
    Assoc(a, b, NextCommand(s).rest);
  }

  // Scripts.

  /** The input left after `n` rounds of the command loop. */
  function Left(s: string, n: nat): string
    decreases n
  {
    if n == 0 || s == [] then s else Left(NextCommand(s).rest, n - 1)
  }

  /** One round of the loop. */
  lemma Round(s: string, c: Command, rest: string)
    requires s != [] && NextCommand(s) == Scan(c, rest)
    ensures Script(s) == [c] + Script(rest)
  {
    hide NextCommand;
  }

  lemma OneInFront(c: Command, cs: seq<Command>, n: nat, more: seq<Command>)
    requires 1 <= n <= |cs| + 1
    ensures ([c] + cs)[n..] == cs[n - 1..] && ([c] + cs)[..n] + more == [c] + (cs[..n - 1] + more)
  {
  }

  /** The first `n` commands stay what they are when something else is put behind them. */
  lemma {:induction false} Splice(s: string, n: nat, more: string) returns (used: string)
    requires Left(s, n) != []
    ensures s == used + Left(s, n) && n <= |Script(s)| && Script(s)[n..] == Script(Left(s, n))
    ensures Script(used + more) == Script(s)[..n] + Script(more)
    decreases n
  {
    hide NextCommand, Script;
    if n == 0 {
      used := "";
      assert "" + more == more && Script(s)[..0] + Script(more) == Script(more);
    } else {
      EmptyHasNothingLeft(n - 1);
      var next := NextCommand(s);
      var b := Splice(next.rest, n - 1, more);
      var a := NothingAhead(s, b + more);
      used := a + b;
      Assoc(a, b, more);
      Assoc(a, b, Left(s, n));
      Round(s, next.result, next.rest);
      Round(used + more, next.result, b + more);
      OneInFront(next.result, Script(next.rest), n, Script(more));
    }
  }

  lemma EmptyHasNothingLeft(n: nat)
    ensures Left([], n) == []
  {
  }

  // Comments.

  lemma {:induction false} LineIsSkipped(line: string, rest: string)
    requires '\n' !in line
    ensures Cleanup(line + "\n" + rest) == rest && Cleanup(line) == ""
  {
    if line == [] {
      assert (line + "\n" + rest)[1..] == rest;
    } else {
      assert (line + "\n" + rest)[1..] == line[1..] + "\n" + rest;
      LineIsSkipped(line[1..], rest);
    }
  }

  /** A line that begins with '#' is one empty command, whatever it says, the last line too. */
  lemma CommentIsEmpty(line: string, rest: string)
    requires '\n' !in line
    ensures NextCommand("#" + line + "\n" + rest) == Scan(Empty, rest)
    ensures NextCommand("#" + line) == Scan(Empty, "")
  {
    LineIsSkipped(line, rest);
    assert ("#" + line + "\n" + rest)[1..] == line + "\n" + rest;
    assert ("#" + line)[1..] == line;
  }

  /** A comment line put in anywhere between commands adds one empty command and changes no other. */
  lemma CommentAnywhere(s: string, n: nat, line: string) returns (used: string)
    requires Left(s, n) != [] && '\n' !in line
    ensures s == used + Left(s, n) && n <= |Script(s)|
    ensures Script(used + ("#" + line + "\n" + Left(s, n))) == Script(s)[..n] + [Empty] + Script(s)[n..]
  {
    var rest := Left(s, n);
    var comment := "#" + line + "\n" + rest;
    used := Splice(s, n, comment);
    CommentIsEmpty(line, rest);
    assert Script(comment) == [Empty] + Script(rest);
    hide Script;
    Assoc(Script(s)[..n], [Empty], Script(s)[n..]);
  }

  /** And so it changes nothing that the job stores or prints. */
  lemma {:induction false} EmptyDoesNothing(cs: seq<Command>, n: nat, t: Table)
    requires AllValid(cs) && n <= |cs|
    ensures AllValid(cs[..n] + [Empty] + cs[n..])
    ensures RunAll(t, cs[..n] + [Empty] + cs[n..]) == RunAll(t, cs)
    ensures Concat(Outputs(t, cs[..n] + [Empty] + cs[n..])) == Concat(Outputs(t, cs))
    decreases n
  {
    var ds := cs[..n] + [Empty] + cs[n..];
    assert ValidCommand(Empty);
    assert forall i :: 0 <= i < |ds| ==> ValidCommand(ds[i]);
    if n == 0 {
      assert ds[1..] == cs;
      assert "" + Concat(Outputs(t, cs)) == Concat(Outputs(t, cs));
    } else {
      var u := ExecTable(cs[0], t);
      assert ds[1..] == cs[1..][..n - 1] + [Empty] + cs[1..][n - 1..];
      EmptyDoesNothing(cs[1..], n - 1, u);
      assert Outputs(t, ds)[1..] == Outputs(u, ds[1..]) && Outputs(t, cs)[1..] == Outputs(u, cs[1..]);
    }
  }
}
