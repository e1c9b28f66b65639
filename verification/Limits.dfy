/** What fits, in numbers: strings, lists and delays the parser takes, and how lists end. */
module Limits {
  import opened Store
  import opened Text
  import opened Commands
  import opened Grammar
  import opened RoundTrip
  import Lookahead

  /** Reading stops where the buffer is full. */
  lemma {:induction false} LongWord(x: string, rest: string, room: nat)
    requires NoStops(x) && |x| >= room
    ensures ReadBytes(x + rest, room) == Scan(Word(Bad, x[..room]), x[room..] + rest)
  {
    if room > 0 {
      assert (x + rest)[1..] == x[1..] + rest;
      LongWord(x[1..], rest, room - 1);
      assert x[..room] == [x[0]] + x[1..][..room - 1];
    }
  }

  /** READ and DELETE of a text that begins a list. */
  lemma ListCommands(t: string)
    ensures var keys := ParseKeys(t, MAX_WRITE_SIZE);
            && NextCommand("READ [" + t) ==
                 Scan(if keys.result.Some? then Read(keys.result.value) else Invalid, keys.rest)
            && NextCommand("DELETE [" + t) ==
                 Scan(if keys.result.Some? then Delete(keys.result.value) else Invalid, keys.rest)
  {
    assert "READ [" + t == "READ " + ("[" + t) && "DELETE [" + t == "DELETE " + ("[" + t);
    KeysWordReadsBack("[" + t);
    assert ("[" + t)[1..] == t;
    hide GetNext, ParseKeys;
  }

  lemma KeyParses(key: string, rest: string)
    requires NoStops(key) && NulFree(key)
    ensures ParseKeys(key + "]\n" + rest, MAX_WRITE_SIZE).result == if |key| <= 39 then Some([key]) else None
    ensures |key| > 39 && '\n' !in key ==> ParseKeys(key + "]\n" + rest, MAX_WRITE_SIZE).rest == rest
  {
    if |key| <= 39 {
      LastKeyReadsBack(key, rest, MAX_WRITE_SIZE);
    } else {
      assert key + "]\n" + rest == key + ("]\n" + rest);
      LongWord(key, "]\n" + rest, MAX_STRING_SIZE);
      RestOfLine(key[MAX_STRING_SIZE..] + "]", rest);
      assert key[MAX_STRING_SIZE..] + ("]\n" + rest) == key[MAX_STRING_SIZE..] + "]" + "\n" + rest;
    }
  }

  lemma RestOfLine(line: string, rest: string)
    ensures '\n' !in line ==> Cleanup(line + "\n" + rest) == rest
  {
    if '\n' !in line {
      Lookahead.LineIsSkipped(line, rest);
    }
  }

  /** A string of a command has at most 39 bytes; a longer one costs its line. */
  lemma KeyFits(key: string, rest: string)
    requires NoStops(key) && NulFree(key)
    ensures NextCommand("READ [" + key + "]\n" + rest).result == Read([key]) <==> |key| <= 39
    ensures NextCommand("DELETE [" + key + "]\n" + rest).result == Delete([key]) <==> |key| <= 39
    ensures |key| > 39 && '\n' !in key ==> NextCommand("READ [" + key + "]\n" + rest) == Scan(Invalid, rest)
  {
    hide NextCommand, ParseKeys;
    assert "READ [" + key + "]\n" + rest == "READ [" + (key + "]\n" + rest);
    assert "DELETE [" + key + "]\n" + rest == "DELETE [" + (key + "]\n" + rest);
    ListCommands(key + "]\n" + rest);
    KeyParses(key, rest);
  }

  lemma PairFits(key: string, value: string, rest: string)
    requires NoStops(key) && NulFree(key) && NoStops(value) && NulFree(value)
    ensures NextCommand("WRITE [(" + key + "," + value + ")]\n" + rest).result == Write([Pair(key, value)])
       <==> |key| <= 39 && |value| <= 39
  {
    var p := Pair(key, value);
    var body := PairBody(p) + ("]\n" + rest);
    PairText(key, value, rest);
    hide GetNext, ParsePairs, PairBody;
    WriteWordReadsBack("[(" + body);
    assert ("[(" + body)[1..][1..] == body;
    if |key| <= 39 && |value| <= 39 {
      LastReadsBack(p, rest, MAX_WRITE_SIZE);
    } else {
      LongPair(p, "]\n" + rest);
    }
  }

  lemma PairText(key: string, value: string, rest: string)
    ensures "WRITE [(" + key + "," + value + ")]\n" + rest
         == "WRITE " + ("[(" + (PairBody(Pair(key, value)) + ("]\n" + rest)))
  {
  }

  lemma LongPair(p: Pair, rest: string)
    requires NoStops(p.key) && NoStops(p.value) && (|p.key| > 39 || |p.value| > 39)
    ensures ParsePair(PairBody(p) + rest).result.None? && ParsePairs(PairBody(p) + rest, MAX_WRITE_SIZE).result.None?
  {
    var tail := p.value + (")" + rest);
    assert PairBody(p) + rest == p.key + ("," + tail);
    if |p.key| > 39 {
      LongWord(p.key, "," + tail, MAX_STRING_SIZE);
    } else {
      assert p.key + ("," + tail) == p.key + [','] + tail;
      WordReadsBack(p.key, ',', tail, MAX_STRING_SIZE);
      LongWord(p.value, ")" + rest, MAX_STRING_SIZE);
    }
  }

  lemma PairsFit(pairs: seq<Pair>, rest: string)
    requires pairs != [] && CleanPairs(pairs)
    ensures NextCommand("WRITE " + PairList(pairs) + rest) == Scan(Write(pairs), rest) <==> |pairs| <= 1023
  {
    Assoc("WRITE ", PairList(pairs), rest);
    WriteWordReadsBack(PairList(pairs) + rest);
    if |pairs| <= 1023 {
      WriteReadsBack(pairs, rest, MAX_WRITE_SIZE);
    }
    hide GetNext, ParseWrite, PairList, CleanPair;
  }

  lemma KeysFit(keys: seq<string>, rest: string)
    requires keys != [] && CleanKeys(keys)
    ensures NextCommand("READ " + KeyList(keys) + rest) == Scan(Read(keys), rest) <==> |keys| <= 1023
    ensures NextCommand("DELETE " + KeyList(keys) + rest) == Scan(Delete(keys), rest) <==> |keys| <= 1023
  {
    Assoc("READ ", KeyList(keys), rest);
    Assoc("DELETE ", KeyList(keys), rest);
    KeysWordReadsBack(KeyList(keys) + rest);
    if |keys| <= 1023 {
      KeysPrintedAreAccepted(keys, rest, MAX_WRITE_SIZE);
    }
    hide GetNext, ParseReadDelete, KeyList, Clean;
  }

  lemma NoRoomLeft(text: string, rest: string)
    requires '\n' !in text
    ensures ParseKeys(text + "]\n" + rest, 0) == Scan(None, rest)
  {
    RestOfLine(text + "]", rest);
    assert text + "]\n" + rest == text + "]" + "\n" + rest;
  }

  lemma LastKeyTooMany(key: string, rest: string)
    requires Clean(key)
    ensures ParseKeys(key + "]\n" + rest, 1) == Scan(None, rest)
  {
    assert key + "]\n" + rest == key + [']'] + ("\n" + rest);
    KeyRound(key, Bracket, "\n" + rest, 1);
    assert ("\n" + rest)[1..] == rest;
    hide ParseKeys, Clean;
  }

  lemma MoreKeysThan(key: string, more: string, rest: string, room: nat)
    requires Clean(key) && room > 0 && ParseKeys(more + "]\n" + rest, room - 1) == Scan(None, rest)
    ensures ParseKeys(key + "," + more + "]\n" + rest, room) == Scan(None, rest)
  {
    CommaText(key, more, rest);
    KeyRound(key, Comma, more + "]\n" + rest, room);
    hide ParseKeys, Clean;
  }

  /** A list that is too long is given up on in its own line. */
  lemma {:induction false} TooManyKeys(keys: seq<string>, rest: string, room: nat)
    requires keys != [] && CleanKeys(keys) && |keys| >= room && '\n' !in PrintKeys(keys)
    ensures ParseKeys(PrintKeys(keys) + "]\n" + rest, room) == Scan(None, rest)
    decreases room
  {
    hide ParseKeys, Clean;
    if room == 0 {
      NoRoomLeft(PrintKeys(keys), rest);
    } else if |keys| == 1 {
      LastKeyTooMany(keys[0], rest);
    } else {
      var more := PrintKeys(keys[1..]);
      assert PrintKeys(keys) == keys[0] + "," + more;
      TooManyKeys(keys[1..], rest, room - 1);
      MoreKeysThan(keys[0], more, rest, room);
    }
  }

  lemma KeyListText(body: string, rest: string)
    ensures "READ " + ("[" + body + "]\n") + rest == "READ [" + (body + "]\n" + rest)
    ensures "DELETE " + ("[" + body + "]\n") + rest == "DELETE [" + (body + "]\n" + rest)
  {
  }

  lemma LongKeyList(keys: seq<string>, rest: string)
    requires |keys| > 1023 && CleanKeys(keys) && '\n' !in PrintKeys(keys)
    ensures NextCommand("READ " + KeyList(keys) + rest) == Scan(Invalid, rest)
    ensures NextCommand("DELETE " + KeyList(keys) + rest) == Scan(Invalid, rest)
  {
    hide NextCommand, PrintKeys, ParseKeys, Clean;
    KeyListText(PrintKeys(keys), rest);
    ListCommands(PrintKeys(keys) + "]\n" + rest);
    TooManyKeys(keys, rest, MAX_WRITE_SIZE);
  }

  /** A list has at most 1023 entries; a longer one costs its line. */
  lemma ListFits(pairs: seq<Pair>, keys: seq<string>, rest: string)
    requires pairs != [] && CleanPairs(pairs) && keys != [] && CleanKeys(keys)
    ensures NextCommand("WRITE " + PairList(pairs) + rest) == Scan(Write(pairs), rest) <==> |pairs| <= 1023
    ensures NextCommand("READ " + KeyList(keys) + rest) == Scan(Read(keys), rest) <==> |keys| <= 1023
    ensures NextCommand("DELETE " + KeyList(keys) + rest) == Scan(Delete(keys), rest) <==> |keys| <= 1023
    ensures |keys| > 1023 && '\n' !in PrintKeys(keys) ==>
              NextCommand("READ " + KeyList(keys) + rest) == Scan(Invalid, rest) ==
              NextCommand("DELETE " + KeyList(keys) + rest)
  {
    hide *;
    PairsFit(pairs, rest);
    KeysFit(keys, rest);
    if |keys| > 1023 && '\n' !in PrintKeys(keys) {
      LongKeyList(keys, rest);
    }
  }

  lemma LongDelay(delay: nat, rest: string)
    requires delay > UINT_MAX
    ensures ParseWait(Decimal(delay) + "\n" + rest).result == None
  {
    var d := Decimal(delay);
    DigitsStop(d, '\n', rest);
    DecimalReadsBack(delay);
    hide Decimal, Number, Digits, Cleanup;
  }

  lemma WaitCommand(t: string)
    ensures NextCommand("WAIT " + t) ==
            Scan(if ParseWait(t).result.Some? then Wait(ParseWait(t).result.value) else Invalid, ParseWait(t).rest)
  {
    WaitWordReadsBack(t);
    hide GetNext, ParseWait;
  }

  lemma WaitText(d: string, x: string, y: string)
    ensures "WAIT " + d + x + y == "WAIT " + (d + x + y)
  {
  }

  /** A delay is at most 2^32 - 1. */
  lemma DelayFits(delay: nat, rest: string)
    ensures NextCommand("WAIT " + Decimal(delay) + "\n" + rest) == Scan(Wait(delay), rest) <==> delay <= 4294967295
  {
    hide NextCommand, ParseWait, Decimal;
    WaitText(Decimal(delay), "\n", rest);
    WaitCommand(Decimal(delay) + "\n" + rest);
    if delay <= 4294967295 {
      WaitReadsBack(delay, rest);
    } else {
      LongDelay(delay, rest);
    }
  }

  /** A list ends its line: behind the ']' comes a newline or a NUL. */
  lemma ListEnds(key: string, c: char, rest: string)
    requires Clean(key)
    ensures NextCommand("READ [" + key + "]" + [c] + rest).result == Read([key]) <==> c == '\n' || c == '\0'
    ensures NextCommand("READ [" + key + "]").result == Invalid
  {
    KeyThen(key, [c] + rest);
    assert "READ [" + key + "]" + [c] + rest == "READ [" + (key + ("]" + ([c] + rest)));
    KeyThen(key, "");
    assert "READ [" + key + "]" == "READ [" + (key + ("]" + ""));
  }

  lemma KeyThen(key: string, tail: string)
    requires Clean(key)
    ensures NextCommand("READ [" + (key + ("]" + tail))).result ==
            if tail != [] && (tail[0] == '\n' || tail[0] == '\0') then Read([key]) else Invalid
  {
    var t := key + ("]" + tail);
    assert t == key + [']'] + tail;
    ListCommands(t);
    KeyRound(key, Bracket, tail, MAX_WRITE_SIZE);
    assert [key] + [] == [key];
    hide NextCommand, ParseKeys, Cleanup, Clean;
  }

  /** A blank or a ')' in a list of keys spoils it, and costs its line. */
  lemma BadStop(key: string, c: char, more: string, rest: string)
    requires Clean(key) && (c == ' ' || c == ')') && '\n' !in more
    ensures NextCommand("READ [" + key + [c] + more + "\n" + rest) == Scan(Invalid, rest)
    ensures NextCommand("DELETE [" + key + [c] + more + "\n" + rest) == Scan(Invalid, rest)
  {
    var tail := more + "\n" + rest;
    BadStopText("READ [", key, c, more, rest);
    BadStopText("DELETE [", key, c, more, rest);
    hide NextCommand, ParseKeys, ReadBytes, Cleanup, Clean;
    ListCommands(key + [c] + tail);
    BadStopParses(key, c, more, rest);
  }

  lemma BadStopText(word: string, key: string, c: char, more: string, rest: string)
    ensures word + key + [c] + more + "\n" + rest == word + (key + [c] + (more + "\n" + rest))
  {
  }

  lemma BadStopParses(key: string, c: char, more: string, rest: string)
    requires Clean(key) && (c == ' ' || c == ')') && '\n' !in more
    ensures ParseKeys(key + [c] + (more + "\n" + rest), MAX_WRITE_SIZE) == Scan(None, rest)
  {
    RestOfLine(more, rest);
    WordReadsBack(key, c, more + "\n" + rest, MAX_STRING_SIZE);
    hide ReadBytes, Cleanup, Clean;
  }

  // Which words are commands.

  /** The word, alone on its line or at the end of the file. */
  predicate Alone(word: string, s: string) {
    s == word || word + "\n" <= s
  }

  lemma LoneIsExact(first: char, word: string, kind: Kind, s: string)
    requires s != [] && s[0] == first && kind != KInvalid
    ensures Word0(s[1..], word, kind).result == if Alone([first] + word, s) then kind else KInvalid
  {
    var t := s[1..];
    assert s == [first] + t;
    PrefixTail(first, word, s);
    assert [first] + word <= [first] + word + "\n";
    if word <= t {
      var tail := t[|word|..];
      assert t == word + tail;
      assert s == [first] + word + tail;
      assert tail != [] ==> (([first] + word + "\n" <= s) <==> tail[0] == '\n');
    }
  }

  lemma ArgWordIsExact(first: char, word: string, kind: Kind, s: string)
    requires s != [] && s[0] == first && kind != KInvalid
    ensures Word1(s[1..], word, kind).result == if [first] + word <= s then kind else KInvalid
  {
    PrefixTail(first, word, s);
  }

  lemma PrefixTail(first: char, word: string, s: string)
    requires s != [] && s[0] == first
    ensures word <= s[1..] <==> [first] + word <= s
  {
    assert s == [first] + s[1..];
    if word <= s[1..] {
      assert s == [first] + word + s[1..][|word|..];
    }
    if [first] + word <= s {
      assert s[1..][..|word|] == s[..|word| + 1][1..] == word;
    }
  }

  /** The command words, exactly: anything else is invalid. */
  lemma WordsAreExact(s: string)
    ensures GetNext(s).result ==
            if s == "" then Eoc
            else if "WRITE " <= s then KWrite
            else if "READ " <= s then KRead
            else if "DELETE " <= s then KDelete
            else if "WAIT " <= s then KWait
            else if Alone("SHOW", s) then KShow
            else if Alone("BACKUP", s) then KBackup
            else if Alone("HELP", s) then KHelp
            else if s[0] == '#' || s[0] == '\n' then KEmpty
            else KInvalid
  {
    if s != [] {
      match s[0]
      case 'W' =>
        PrefixTail('W', "AIT ", s);
        PrefixTail('W', "RITE ", s);
        assert ['W'] + "AIT " == "WAIT " && ['W'] + "RITE " == "WRITE ";
        assert "WAIT "[1] != "WRITE "[1];
      case 'R' =>
        ArgWordIsExact('R', "EAD ", KRead, s);
        assert ['R'] + "EAD " == "READ ";
      case 'D' =>
        ArgWordIsExact('D', "ELETE ", KDelete, s);
        assert ['D'] + "ELETE " == "DELETE ";
      case 'S' =>
        LoneIsExact('S', "HOW", KShow, s);
        assert ['S'] + "HOW" == "SHOW";
      case 'B' =>
        LoneIsExact('B', "ACKUP", KBackup, s);
        assert ['B'] + "ACKUP" == "BACKUP";
      case 'H' =>
        LoneIsExact('H', "ELP", KHelp, s);
        assert ['H'] + "ELP" == "HELP";
      case _ =>
    }
    hide Word0, Word1, Cleanup, Drop;
  }

  /** What stands behind a delay and a blank is skipped with its line. */
  lemma DelayThenMore(delay: nat, more: string, rest: string)
    requires delay <= UINT_MAX && '\n' !in more
    ensures NextCommand("WAIT " + Decimal(delay) + " " + more + "\n" + rest) == Scan(Wait(delay), rest)
    ensures NextCommand("WAIT " + Decimal(delay)) == Scan(Wait(delay), "")
  {
    hide NextCommand, ParseWait, Decimal, Cleanup;
    var d, tail := Decimal(delay), more + "\n" + rest;
    WaitText(d, " ", tail);
    WaitText4(d, more, rest);
    WaitCommand(d + " " + tail);
    WaitCommand(d);
    Lookahead.LineIsSkipped(more, rest);
    BlankAfter(delay, tail);
    EndAfter(delay);
  }

  lemma WaitText4(d: string, more: string, rest: string)
    ensures "WAIT " + d + " " + more + "\n" + rest == "WAIT " + d + " " + (more + "\n" + rest)
  {
  }

  lemma UintThen(n: nat, c: char, tail: string)
    requires n <= UINT_MAX && !IsDigit(c)
    ensures ReadUint(Decimal(n) + [c] + tail) == Scan(Uint(Some(n), c), tail)
  {
    var d := Decimal(n);
    DigitsStop(d, c, tail);
    DecimalReadsBack(n);
    hide Decimal, Number, Digits;
    Behind(d, c, tail);
  }

  lemma Behind(d: string, c: char, tail: string)
    ensures (d + [c] + tail)[|d|..] == [c] + tail && ([c] + tail)[1..] == tail
  {
  }

  lemma BlankAfter(delay: nat, tail: string)
    requires delay <= UINT_MAX
    ensures ParseWait(Decimal(delay) + " " + tail) == Scan(Some(delay), Cleanup(tail))
  {
    UintThen(delay, ' ', tail);
    hide Decimal, ReadUint, Cleanup;
  }

  lemma {:induction false} AllDigits(d: string)
    requires forall i :: 0 <= i < |d| ==> IsDigit(d[i])
    ensures Digits(d) == d
  {
    if d != [] {
      AllDigits(d[1..]);
    }
  }

  lemma EndAfter(delay: nat)
    requires delay <= UINT_MAX
    ensures ParseWait(Decimal(delay)) == Scan(Some(delay), "")
  {
    var d := Decimal(delay);
    AllDigits(d);
    DecimalReadsBack(delay);
    assert d[|d|..] == "";
    hide Decimal, Number, Digits, Cleanup;
  }
}
