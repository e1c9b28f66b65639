/**
 Where the parser goes on after a command it rejects: at the start of a line, and exactly when that is
 the next line.
 */
module Recovery {
  import opened Store
  import opened Text
  import opened Commands
  import opened Grammar
  import opened RoundTrip

  // Ends of the input.

  /** `rest` is the end of `s`. */
  ghost predicate Ends(s: string, rest: string) {
    exists used :: Used(s, used, rest)
  }

  lemma EndsTransitive(s: string, t: string, rest: string)
    requires Ends(s, t) && Ends(t, rest)
    ensures Ends(s, rest)
  {
    var a :| Used(s, a, t);
    var b :| Used(t, b, rest);
    Assoc(a, b, rest);
    assert Used(s, a + b, rest);
  }

  lemma ItselfEnds(s: string)
    ensures Ends(s, s) && (s != [] ==> Ends(s, s[1..])) && Ends(s, Skip(s))
  {
    assert Used(s, "", s);
    if s != [] {
      assert Used(s, [s[0]], s[1..]);
    }
  }

  lemma DropEnds(s: string, n: nat)
    ensures Ends(s, Drop(s, n)) && (n <= |s| ==> Ends(s, s[n..]))
  {
    if |s| < n {
      assert Used(s, s, []);
    } else {
      assert Used(s, s[..n], s[n..]);
    }
  }

  lemma {:induction false} BytesEnd(s: string, room: nat)
    ensures Ends(s, ReadBytes(s, room).rest)
  {
    ItselfEnds(s);
    if room > 0 && s != [] && !Stops(s[0]) {
      BytesEnd(s[1..], room - 1);
      EndsTransitive(s, s[1..], ReadBytes(s[1..], room - 1).rest);
    }
  }

  // Where the parser gives up.

  /** What is unread when the parser first skips to a newline, and whether it gave up within a pair. */
  datatype Halt = Halt(at: string, inPair: bool)

  /** A bad pair is skipped once for the pair and once more for the command. */
  function Resume(halt: Halt): string {
    if halt.inPair then Cleanup(Cleanup(halt.at)) else Cleanup(halt.at)
  }

  function HaltPair(s: string): Halt {
    var key := ReadString(s);
    Halt(if key.result.end != Comma then key.rest else ReadString(key.rest).rest, true)
  }

  function HaltEnd(s: string, room: nat): Halt {
    Halt(if room == 0 then s else Skip(s), false)
  }

  function HaltPairs(s: string, room: nat): Halt
    decreases room
  {
    var pair := ParsePair(s);
    if room == 0 then HaltEnd(s, 0)
    else if pair.result.None? then HaltPair(s)
    else if pair.rest != [] && pair.rest[0] == ']' then HaltEnd(pair.rest[1..], room - 1)
    else if pair.rest != [] && pair.rest[0] == '(' then HaltPairs(pair.rest[1..], room - 1)
    else Halt(Skip(pair.rest), false)
  }

  function HaltWrite(s: string, max: nat): Halt {
    if s == [] || s[0] != '[' then Halt(Skip(s), false)
    else if s[1..] == [] || s[1] != '(' then Halt(Skip(s[1..]), false)
    else HaltPairs(s[1..][1..], max)
  }

  function HaltKeys(s: string, room: nat): Halt
    decreases room
  {
    var key := ReadString(s);
    if room == 0 then HaltEnd(s, 0)
    else if key.result.end == Comma then HaltKeys(key.rest, room - 1)
    else if key.result.end == Bracket then HaltEnd(key.rest, room - 1)
    else Halt(key.rest, false)
  }

  function HaltReadDelete(s: string, max: nat): Halt {
    if s == [] || s[0] != '[' then Halt(Skip(s), false) else HaltKeys(s[1..], max)
  }

  function HaltWait(s: string): Halt {
    Halt(ReadUint(s).rest, false)
  }

  /** A word cut short uses as many bytes as the whole one; a lone word with something behind it, one more. */
  function HaltWord(s: string): Halt
    requires s != []
  {
    var t := s[1..];
    Halt(match s[0]
         case 'W' => Drop(t, 5)
         case 'R' => Drop(t, 4)
         case 'D' => Drop(t, 6)
         case 'S' => Drop(t, if "HOW" <= t then 4 else 3)
         case 'B' => Drop(t, if "ACKUP" <= t then 6 else 5)
         case 'H' => Drop(t, if "ELP" <= t then 4 else 3)
         case _ => t,
         false)
  }

  /** Where the parser gives up on the command at the front of `s`. */
  function HaltOf(s: string): Halt
    requires s != []
  {
    var next := GetNext(s);
    match next.result
    case KWrite => HaltWrite(next.rest, MAX_WRITE_SIZE)
    case KRead => HaltReadDelete(next.rest, MAX_WRITE_SIZE)
    case KDelete => HaltReadDelete(next.rest, MAX_WRITE_SIZE)
    case KWait => HaltWait(next.rest)
    case _ => HaltWord(s)
  }

  // It resumes from there.

  /** The parser gave up at `halt` while reading `s`, and went on at `rest`. */
  ghost predicate GaveUp(s: string, halt: Halt, rest: string) {
    Ends(s, halt.at) && rest == Resume(halt)
  }

  lemma LaterGaveUp(s: string, t: string, halt: Halt, rest: string)
    requires Ends(s, t) && GaveUp(t, halt, rest)
    ensures GaveUp(s, halt, rest)
  {
    EndsTransitive(s, t, halt.at);
  }

  lemma PairEnds(s: string)
    ensures ParsePair(s).result.Some? ==> Ends(s, ParsePair(s).rest)
    ensures ParsePair(s).result.None? ==> Ends(s, HaltPair(s).at) && ParsePair(s).rest == Cleanup(HaltPair(s).at)
  {
    var key := ReadString(s);
    BytesEnd(s, MAX_STRING_SIZE);
    BytesEnd(key.rest, MAX_STRING_SIZE);
    EndsTransitive(s, key.rest, ReadString(key.rest).rest);
  }

  lemma EndGivesUp<T>(s: string, room: nat)
    requires EndOfList<T>(s, room).result.None?
    ensures GaveUp(s, HaltEnd(s, room), EndOfList<T>(s, room).rest)
  {
    ItselfEnds(s);
  }

  lemma {:induction false} PairsGiveUp(s: string, room: nat)
    requires ParsePairs(s, room).result.None?
    ensures GaveUp(s, HaltPairs(s, room), ParsePairs(s, room).rest)
    decreases room
  {
    hide ParsePair, Ends, Cleanup;
    if room == 0 {
      EndGivesUp<Pair>(s, 0);
    } else {
      PairEnds(s);
      var pair := ParsePair(s);
      if pair.result.Some? {
        ItselfEnds(pair.rest);
        EndsTransitive(s, pair.rest, Skip(pair.rest));
        if pair.rest != [] && pair.rest[0] == ']' {
          var t := pair.rest[1..];
          EndGivesUp<Pair>(t, room - 1);
          LaterGaveUp(s, t, HaltEnd(t, room - 1), EndOfList<Pair>(t, room - 1).rest);
        } else if pair.rest != [] && pair.rest[0] == '(' {
          var t := pair.rest[1..];
          PairsGiveUp(t, room - 1);
          LaterGaveUp(s, t, HaltPairs(t, room - 1), ParsePairs(t, room - 1).rest);
        }
      }
    }
  }

  lemma WriteGivesUp(s: string, max: nat)
    requires ParseWrite(s, max).result.None?
    ensures GaveUp(s, HaltWrite(s, max), ParseWrite(s, max).rest)
  {
    ItselfEnds(s);
    if s != [] && s[0] == '[' {
      var t := s[1..];
      ItselfEnds(t);
      EndsTransitive(s, t, Skip(t));
      if t != [] && t[0] == '(' {
        PairsGiveUp(t[1..], max);
        LaterGaveUp(s, t[1..], HaltPairs(t[1..], max), ParsePairs(t[1..], max).rest);
      }
    }
  }

  lemma {:induction false} KeysGiveUp(s: string, room: nat)
    requires ParseKeys(s, room).result.None?
    ensures GaveUp(s, HaltKeys(s, room), ParseKeys(s, room).rest)
    decreases room
  {
    if room == 0 {
      EndGivesUp<string>(s, 0);
    } else {
      BytesEnd(s, MAX_STRING_SIZE);
      var t := ReadString(s).rest;
      match ReadString(s).result.end
      case Comma =>
        KeysGiveUp(t, room - 1);
        LaterGaveUp(s, t, HaltKeys(t, room - 1), ParseKeys(t, room - 1).rest);
      case Bracket =>
        EndGivesUp<string>(t, room - 1);
        LaterGaveUp(s, t, HaltEnd(t, room - 1), EndOfList<string>(t, room - 1).rest);
      case _ =>
    }
  }

  lemma ReadDeleteGivesUp(s: string, max: nat)
    requires ParseReadDelete(s, max).result.None?
    ensures GaveUp(s, HaltReadDelete(s, max), ParseReadDelete(s, max).rest)
  {
    ItselfEnds(s);
    if s != [] && s[0] == '[' {
      KeysGiveUp(s[1..], max);
      LaterGaveUp(s, s[1..], HaltKeys(s[1..], max), ParseKeys(s[1..], max).rest);
    }
  }

  lemma WaitGivesUp(s: string)
    requires ParseWait(s).result.None?
    ensures GaveUp(s, HaltWait(s), ParseWait(s).rest)
  {
    hide Digits, Number, Ends, Cleanup;
    var tail := s[|Digits(s)|..];
    DropEnds(s, |Digits(s)|);
    ItselfEnds(tail);
    EndsTransitive(s, tail, Skip(tail));
  }

  lemma DropLater(s: string, n: nat)
    requires s != []
    ensures Ends(s, Drop(s[1..], n)) && (n <= |s| - 1 ==> Ends(s, s[1..][n..]))
  {
    ItselfEnds(s);
    DropEnds(s[1..], n);
    EndsTransitive(s, s[1..], Drop(s[1..], n));
  }

  lemma ArgWordEnds(s: string, word: string, kind: Kind)
    requires s != [] && kind != KInvalid
    ensures var r := Word1(s[1..], word, kind);
            r.result in {kind, KInvalid}
            && if r.result == kind then Ends(s, r.rest) else GaveUp(s, Halt(Drop(s[1..], |word|), false), r.rest)
  {
    DropLater(s, |word|);
    hide Ends, Cleanup;
  }

  lemma LoneWordEnds(s: string, word: string, kind: Kind)
    requires s != [] && kind != KInvalid
    ensures var t, r := s[1..], Word0(s[1..], word, kind);
            r.result in {kind, KInvalid}
            && (r.result == KInvalid ==> GaveUp(s, Halt(Drop(t, if word <= t then |word| + 1 else |word|), false),
                 r.rest))
  {
    DropLater(s, |word|);
    DropLater(s, |word| + 1);
    hide Ends, Cleanup;
  }

  lemma WriteOrWaitEnds(s: string)
    requires s != [] && s[0] == 'W'
    ensures GetNext(s).result in {KWrite, KWait} ==> Ends(s, GetNext(s).rest)
    ensures GetNext(s).result == KInvalid ==> GaveUp(s, HaltWord(s), GetNext(s).rest)
  {
    DropLater(s, 4);
    DropLater(s, 5);
    hide Ends, Cleanup;
  }

  lemma OtherWordEnds(s: string)
    requires s != [] && s[0] !in {'W', 'R', 'D', 'S', 'B', 'H'}
    ensures GetNext(s).result in {KEmpty, KInvalid}
    ensures GetNext(s).result == KInvalid ==> GaveUp(s, HaltWord(s), GetNext(s).rest)
  {
    ItselfEnds(s);
  }

  /** Recognised or not, the command word leaves an end of the input. */
  lemma WordEnds(s: string)
    requires s != []
    ensures GetNext(s).result in {KWrite, KRead, KDelete, KWait} ==> Ends(s, GetNext(s).rest)
    ensures GetNext(s).result == KInvalid ==> GaveUp(s, HaltWord(s), GetNext(s).rest)
  {
    hide Ends, Cleanup, Drop, Word0, Word1, GaveUp;
    match s[0]
    case 'W' => WriteOrWaitEnds(s);
    case 'R' => ArgWordEnds(s, "EAD ", KRead);
    case 'D' => ArgWordEnds(s, "ELETE ", KDelete);
    case 'S' => LoneWordEnds(s, "HOW", KShow);
    case 'B' => LoneWordEnds(s, "ACKUP", KBackup);
    case 'H' => LoneWordEnds(s, "ELP", KHelp);
    case _ => OtherWordEnds(s);
  }

  /** After a rejected command the parser goes on where `HaltOf` says. */
  lemma RejectedResumes(s: string)
    requires s != [] && NextCommand(s).result == Invalid
    ensures GaveUp(s, HaltOf(s), NextCommand(s).rest)
  {
    var next := GetNext(s);
    WordEnds(s);
    hide Ends, GetNext, ParseWrite, ParseReadDelete, ParseWait, Resume, HaltWord, HaltWrite, HaltReadDelete, HaltWait;
    match next.result
    case KWrite =>
      WriteGivesUp(next.rest, MAX_WRITE_SIZE);
      LaterGaveUp(s, next.rest, HaltWrite(next.rest, MAX_WRITE_SIZE), NextCommand(s).rest);
    case KRead =>
      ReadDeleteGivesUp(next.rest, MAX_WRITE_SIZE);
      LaterGaveUp(s, next.rest, HaltReadDelete(next.rest, MAX_WRITE_SIZE), NextCommand(s).rest);
    case KDelete =>
      ReadDeleteGivesUp(next.rest, MAX_WRITE_SIZE);
      LaterGaveUp(s, next.rest, HaltReadDelete(next.rest, MAX_WRITE_SIZE), NextCommand(s).rest);
    case KWait =>
      WaitGivesUp(next.rest);
      LaterGaveUp(s, next.rest, HaltWait(next.rest), NextCommand(s).rest);
    case _ =>
  }

  // Lines.

  /** `rest` is empty, or a newline of `s` stands before it. */
  ghost predicate LineStart(s: string, rest: string) {
    rest == "" || Ends(s, "\n" + rest)
  }

  lemma LineStartOfEnd(s: string, t: string, rest: string)
    requires Ends(s, t) && LineStart(t, rest)
    ensures LineStart(s, rest)
  {
    if rest != "" {
      EndsTransitive(s, t, "\n" + rest);
    }
  }

  lemma {:induction false} CleanupStartsLine(s: string)
    ensures LineStart(s, Cleanup(s)) && Ends(s, Cleanup(s))
  {
    if s == [] {
      ItselfEnds(s);
    } else if s[0] == '\n' {
      ItselfEnds(s);
      assert Used(s, "", "\n" + s[1..]);
    } else {
      CleanupStartsLine(s[1..]);
      ItselfEnds(s);
      LineStartOfEnd(s, s[1..], Cleanup(s[1..]));
      EndsTransitive(s, s[1..], Cleanup(s[1..]));
    }
  }

  /** After a rejected command the parser is at the start of a line, or at the end of the file. */
  lemma RejectedStartsLine(s: string)
    requires s != [] && NextCommand(s).result == Invalid
    ensures LineStart(s, NextCommand(s).rest)
  {
    var at := HaltOf(s).at;
    RejectedResumes(s);
    CleanupStartsLine(at);
    CleanupStartsLine(Cleanup(at));
    EndsTransitive(s, at, Cleanup(at));
    LineStartOfEnd(s, at, Cleanup(at));
    LineStartOfEnd(s, Cleanup(at), Cleanup(Cleanup(at)));
  }

  lemma {:induction false} CleanupSkips(used: string, rest: string)
    ensures '\n' !in used ==> Cleanup(used + rest) == Cleanup(rest)
    ensures '\n' in used ==> |Cleanup(used + rest)| >= |rest|
  {
    var s := used + rest;
    if used == [] {
      assert s == rest;
    } else {
      assert s[1..] == used[1..] + rest;
      CleanupSkips(used[1..], rest);
    }
  }

  /** The command costs its own line and no more. */
  predicate CostsOneLine(s: string)
    requires s != []
  {
    NextCommand(s).rest == Cleanup(s)
  }

  /**
   Exactly when: nothing follows the line anyway, or the parser gave up on that line, and not within
   a pair. `used` is what it had read by then.
   */
  lemma RejectedCostsOneLine(s: string) returns (used: string)
    requires s != [] && NextCommand(s).result == Invalid
    ensures Used(s, used, HaltOf(s).at)
    ensures CostsOneLine(s) <==> Cleanup(s) == "" || ('\n' !in used && !HaltOf(s).inPair)
  {
    var at := HaltOf(s).at;
    RejectedResumes(s);
    used :| Used(s, used, at);
    CleanupSkips(used, at);
    hide HaltOf, NextCommand;
    assert at != "" ==> |Cleanup(at)| < |at|;
    assert Cleanup(at) != "" ==> |Cleanup(Cleanup(at))| < |Cleanup(at)|;
  }

  /** So a WRITE whose first pair has no comma loses the line after its own, whatever that line says. */
  lemma BadPairLosesNextLine(word: string, more: string, line: string, rest: string)
    requires NoStops(word) && |word| < MAX_STRING_SIZE && '\n' !in more && '\n' !in line
    ensures NextCommand("WRITE [(" + (word + ")" + (more + "\n" + (line + "\n" + rest)))) == Scan(Invalid, rest)
  {
    var tail := more + "\n" + (line + "\n" + rest);
    var body := word + ")" + tail;
    WordReadsBack(word, ')', tail, MAX_STRING_SIZE);
    SkipsLine(more, line + "\n" + rest);
    SkipsLine(line, rest);
    assert ParsePairs(body, MAX_WRITE_SIZE) == Scan(None, rest);
    hide ParsePairs;
    assert ("[(" + body)[1..][1..] == body;
    assert "WRITE [(" + body == "WRITE " + ("[(" + body);
    WriteWordReadsBack("[(" + body);
  }

  lemma SkipsLine(line: string, rest: string)
    requires '\n' !in line
    ensures Cleanup(line + "\n" + rest) == rest
  {
    CleanupSkips(line, "\n" + rest);
    Assoc(line, "\n", rest);
    assert ("\n" + rest)[1..] == rest;
  }
}
