/** The command parser: it reads the job file byte by byte and fills the caller's arrays. `Grammar` says with what. */
module Parser {
  import opened Store
  import opened Text
  import opened Commands
  import opened Grammar
  import opened Sorting

  /** An open job file. */
  class Input {
    const data: string
    var pos: nat

    ghost predicate Valid()
      reads this
    {
      pos <= |data|
    }

    /** What is still to be read. */
    ghost function Unread(): string
      requires Valid()
      reads this
    {
      data[pos..]
    }

    constructor (data: string)
      ensures Valid() && Unread() == data
    {
      this.data := data;
      pos := 0;
    }

    /** `read` of one byte: how many bytes it got, and the byte. */
    method ReadByte() returns (n: nat, ch: char)
      requires Valid()
      modifies this`pos
      ensures Valid() && Unread() == Skip(old(Unread()))
      ensures n == if old(Unread()) == [] then 0 else 1
      ensures n == 1 ==> ch == old(Unread())[0]
    {
      n, ch := 0, '\0';
      if pos < |data| {
        n, ch := 1, data[pos];
        pos := pos + 1;
      }
    }

    /** `read` of up to `n` bytes. */
    method ReadUpTo(n: nat) returns (buf: string)
      requires Valid()
      modifies this`pos
      ensures Valid() && old(Unread()) == buf + Unread()
      ensures Unread() == Drop(old(Unread()), n)
      ensures |buf| < n ==> Unread() == []
      ensures |buf| <= n
    {
      var end := if pos + n <= |data| then pos + n else |data|;
      buf := data[pos..end];
      pos := end;
    }
  }

  method SkipLine(input: Input)
    requires input.Valid()
    modifies input`pos
    ensures input.Valid() && input.Unread() == Cleanup(old(input.Unread()))
  {
    var n, ch := input.ReadByte();
    while n == 1 && ch != '\n'
      invariant input.Valid()
      invariant n == 0 ==> input.Unread() == [] && Cleanup(old(input.Unread())) == []
      invariant n == 1 ==>
                  Cleanup(old(input.Unread())) == if ch == '\n' then input.Unread() else Cleanup(input.Unread())
      decreases |input.Unread()|, n
    {
      n, ch := input.ReadByte();
    }
  }

  /** `text` in front of what is still to come. */
  ghost function Prepend(text: string, r: Scan<Word>): Scan<Word> {
    Scan(Word(r.result.end, text + r.result.text), r.rest)
  }

  lemma PrependLaws(text: string, ch: char, r: Scan<Word>)
    ensures Prepend("", r) == r
    ensures Prepend(text, Scan(Word(r.result.end, ""), r.rest)) == Scan(Word(r.result.end, text), r.rest)
    ensures Prepend(text, Scan(Word(r.result.end, [ch] + r.result.text), r.rest)) == Prepend(text + [ch], r)
  {
    Assoc(text, [ch], r.result.text);
    assert "" + r.result.text == r.result.text && text + "" == text;
  }

  method ReadWord(input: Input, max: nat) returns (end: Delimiter, buffer: string)
    requires input.Valid()
    modifies input`pos
    ensures input.Valid() && Scan(Word(end, buffer), input.Unread()) == ReadBytes(old(input.Unread()), max)
  {
    end, buffer := Bad, "";
    PrependLaws("", ' ', ReadBytes(input.Unread(), max));
    while |buffer| < max
      invariant input.Valid() && |buffer| <= max && end == Bad
      invariant ReadBytes(old(input.Unread()), max) == Prepend(buffer, ReadBytes(input.Unread(), max - |buffer|))
    {
      ghost var was, room := input.Unread(), max - |buffer|;
      var n, ch := input.ReadByte();
      PrependLaws(buffer, ch, ReadBytes(was, room));
      PrependLaws(buffer, ch, ReadBytes(input.Unread(), room - 1));
      if n == 0 {
        return;
      }
      if ch == ' ' {
        return;
      }
      if ch == ',' {
        end := Comma;
        return;
      } else if ch == ')' {
        end := Parenthesis;
        return;
      } else if ch == ']' {
        end := Bracket;
        return;
      }
      buffer := buffer + [ch];
    }
    PrependLaws(buffer, ' ', ReadBytes(input.Unread(), 0));
  }

  method ReadPair(input: Input) returns (ok: bool, key: string, value: string)
    requires input.Valid()
    modifies input`pos
    ensures input.Valid() && input.Unread() == ParsePair(old(input.Unread())).rest
    ensures ParsePair(old(input.Unread())).result == if ok then Some(Pair(CStr(key), CStr(value))) else None
  {
    ok, key, value := false, "", "";
    var end;
    end, key := ReadWord(input, MAX_STRING_SIZE);
    if end != Comma {
      SkipLine(input);
      return;
    }
    end, value := ReadWord(input, MAX_STRING_SIZE);
    if end != Parenthesis {
      SkipLine(input);
      return;
    }
    ok := true;
  }

  /** `done` in front of what is still to come. */
  ghost function Attach<T>(done: seq<T>, r: Scan<Option<seq<T>>>): Scan<Option<seq<T>>> {
    Scan(if r.result.Some? then Some(done + r.result.value) else None, r.rest)
  }

  lemma AttachLaws<T>(done: seq<T>, x: T, r: Scan<Option<seq<T>>>)
    ensures Attach([], r) == r
    ensures Attach(done, Cons(x, r)) == Attach(done + [x], r)
    ensures r.result == Some([]) ==> Attach(done, r) == Scan(Some(done), r.rest)
  {
    if r.result.Some? {
      assert done + ([x] + r.result.value) == (done + [x]) + r.result.value;
      assert [] + r.result.value == r.result.value && done + [] == done;
    }
  }

  /** The end of a list: too long is as bad as not ending the line. */
  method CloseList<T>(input: Input, room: nat) returns (ok: bool)
    requires input.Valid()
    modifies input`pos
    ensures input.Valid()
    ensures EndOfList<T>(old(input.Unread()), room) == Scan(if ok then Some([]) else None, input.Unread())
  {
    if room == 0 {
      SkipLine(input);
      return false;
    }
    var n, ch := input.ReadByte();
    ok := n == 1 && (ch == '\n' || ch == '\0');
    if !ok {
      SkipLine(input);
    }
  }

  /** What is known of the whole list when `done` has been read and `s` is still to come. */
  ghost predicate PairsSoFar(whole: Scan<Option<seq<Pair>>>, done: seq<Pair>, ended: bool, s: string, room: nat) {
    whole == Attach(done, if ended then EndOfList(s, room) else ParsePairs(s, room))
  }

  /** One round of a WRITE. */
  lemma PairStep(whole: Scan<Option<seq<Pair>>>, done: seq<Pair>, s: string, room: nat)
    requires room > 0 && PairsSoFar(whole, done, false, s, room)
    ensures var p := ParsePair(s);
            match p.result
            case None => whole == Scan(None, Cleanup(p.rest))
            case Some(pair) =>
              if p.rest == [] || (p.rest[0] != '(' && p.rest[0] != ']') then whole == Scan(None, Cleanup(Skip(p.rest)))
              else PairsSoFar(whole, done + [pair], p.rest[0] == ']', p.rest[1..], room - 1)
  {
    var p := ParsePair(s);
    if p.result.Some? && p.rest != [] {
      AttachLaws(done, p.result.value, EndOfList(p.rest[1..], room - 1));
      AttachLaws(done, p.result.value, ParsePairs(p.rest[1..], room - 1));
    }
  }

  lemma PairsEnd(whole: Scan<Option<seq<Pair>>>, done: seq<Pair>, ended: bool, s: string, room: nat)
    requires PairsSoFar(whole, done, ended, s, room) && (ended || room == 0)
    ensures var end := EndOfList<Pair>(s, room); whole == Scan(if end.result.Some? then Some(done) else None, end.rest)
  {
    AttachLaws(done, Pair("", ""), EndOfList(s, room));
  }

  lemma PairsStart(s: string, room: nat)
    ensures PairsSoFar(ParsePairs(s, room), [], false, s, room)
  {
    AttachLaws([], Pair("", ""), ParsePairs(s, room));
  }

  /** The body of the loop: one more pair into entry `num`. */
  method NextPair(input: Input, keys: array<string>, values: array<string>, num: nat,
                  ghost whole: Scan<Option<seq<Pair>>>, ghost done: seq<Pair>, ghost room: nat)
    returns (ok: bool, ended: bool, ghost more: seq<Pair>)
    requires input.Valid() && keys != values && |done| == num < keys.Length && num < values.Length && room > 0
    requires ArraysHold(keys, values, done) && PairsSoFar(whole, done, false, input.Unread(), room)
    modifies input`pos, keys, values
    ensures input.Valid()
    ensures forall k :: 0 <= k < keys.Length && k != num ==> keys[k] == old(keys[k])
    ensures forall k :: 0 <= k < values.Length && k != num ==> values[k] == old(values[k])
    ensures if ok then |more| == num + 1 && ArraysHold(keys, values, more) &&
              PairsSoFar(whole, more, ended, input.Unread(), room - 1)
            else whole == Scan(None, input.Unread())
  {
    PairStep(whole, done, input.Unread(), room);
    ended, more := false, done;
    var key, value;
    ok, key, value := ReadPair(input);
    if !ok {
      SkipLine(input);
      return;
    }
    keys[num] := CStr(key);
    values[num] := CStr(value);
    more := done + [Pair(CStr(key), CStr(value))];
    var n, ch := input.ReadByte();
    if n == 0 || (ch != '(' && ch != ']') {
      SkipLine(input);
      ok := false;
      return;
    }
    ended := ch == ']';
  }

  method ReadPairs(input: Input, keys: array<string>, values: array<string>, maxPairs: nat) returns (num: nat)
    requires input.Valid() && keys != values && maxPairs <= keys.Length && maxPairs <= values.Length
    modifies input`pos, keys, values
    ensures input.Valid() && num <= maxPairs
    ensures ParsePairs(old(input.Unread()), maxPairs) ==
            Scan(if num > 0 then Some(Zip(keys[..num], values[..num])) else None, input.Unread())
    ensures num > 0 ==> forall k :: num <= k < keys.Length ==> keys[k] == old(keys[k])
    ensures num > 0 ==> forall k :: num <= k < values.Length ==> values[k] == old(values[k])
  {
    hide PairsSoFar;
    num := 0;
    ghost var whole, done := ParsePairs(input.Unread(), maxPairs), [];
    PairsStart(input.Unread(), maxPairs);
    var ended := false;
    while num < maxPairs && !ended
      invariant input.Valid() && num == |done| <= maxPairs && ArraysHold(keys, values, done)
      invariant forall k :: num <= k < keys.Length ==> keys[k] == old(keys[k])
      invariant forall k :: num <= k < values.Length ==> values[k] == old(values[k])
      invariant PairsSoFar(whole, done, ended, input.Unread(), maxPairs - num)
      decreases maxPairs - num
    {
      var ok;
      ok, ended, done := NextPair(input, keys, values, num, whole, done, maxPairs - num);
      if !ok {
        return 0;
      }
      num := num + 1;
    }
    PairsEnd(whole, done, ended, input.Unread(), maxPairs - num);
    assert Zip(keys[..num], values[..num]) == done;
    var ok := CloseList<Pair>(input, maxPairs - num);
    num := if ok then num else 0;
  }

  method ReadWrite(input: Input, keys: array<string>, values: array<string>, maxPairs: nat) returns (num: nat)
    requires input.Valid() && keys != values && maxPairs <= keys.Length && maxPairs <= values.Length
    modifies input`pos, keys, values
    ensures input.Valid() && num <= maxPairs
    ensures ParseWrite(old(input.Unread()), maxPairs) ==
            Scan(if num > 0 then Some(Zip(keys[..num], values[..num])) else None, input.Unread())
    ensures num > 0 ==> forall k :: num <= k < keys.Length ==> keys[k] == old(keys[k])
    ensures num > 0 ==> forall k :: num <= k < values.Length ==> values[k] == old(values[k])
  {
    var n, ch := input.ReadByte();
    if n == 0 || ch != '[' {
      SkipLine(input);
      return 0;
    }
    n, ch := input.ReadByte();
    if n == 0 || ch != '(' {
      SkipLine(input);
      return 0;
    }
    num := ReadPairs(input, keys, values, maxPairs);
  }

  ghost predicate KeysSoFar(whole: Scan<Option<seq<string>>>, done: seq<string>, ended: bool, s: string, room: nat) {
    whole == Attach(done, if ended then EndOfList(s, room) else ParseKeys(s, room))
  }

  /** One round of a READ or DELETE. */
  lemma KeyStep(whole: Scan<Option<seq<string>>>, done: seq<string>, s: string, room: nat)
    requires room > 0 && KeysSoFar(whole, done, false, s, room)
    ensures var key := ReadBytes(s, MAX_STRING_SIZE);
            if key.result.end in {Comma, Bracket}
            then KeysSoFar(whole, done + [CStr(key.result.text)], key.result.end == Bracket, key.rest, room - 1)
            else whole == Scan(None, Cleanup(key.rest))
  {
    var key := ReadString(s);
    AttachLaws(done, CStr(key.result.text), EndOfList(key.rest, room - 1));
    AttachLaws(done, CStr(key.result.text), ParseKeys(key.rest, room - 1));
  }

  lemma KeysEnd(whole: Scan<Option<seq<string>>>, done: seq<string>, ended: bool, s: string, room: nat)
    requires KeysSoFar(whole, done, ended, s, room) && (ended || room == 0)
    ensures var end := EndOfList<string>(s, room);
            whole == Scan(if end.result.Some? then Some(done) else None, end.rest)
  {
    AttachLaws(done, "", EndOfList(s, room));
  }

  lemma KeysStart(s: string, room: nat)
    ensures KeysSoFar(ParseKeys(s, room), [], false, s, room)
  {
    AttachLaws([], "", ParseKeys(s, room));
  }

  method NextKey(input: Input, keys: array<string>, num: nat, ghost whole: Scan<Option<seq<string>>>,
                 ghost done: seq<string>, ghost room: nat)
    returns (ok: bool, ended: bool, ghost more: seq<string>)
    requires input.Valid() && num < keys.Length && room > 0 && keys[..num] == done
    requires KeysSoFar(whole, done, false, input.Unread(), room)
    modifies input`pos, keys
    ensures input.Valid()
    ensures forall k :: 0 <= k < keys.Length && k != num ==> keys[k] == old(keys[k])
    ensures if ok then keys[..num + 1] == more && KeysSoFar(whole, more, ended, input.Unread(), room - 1)
            else whole == Scan(None, input.Unread())
  {
    KeyStep(whole, done, input.Unread(), room);
    var output, key := ReadWord(input, MAX_STRING_SIZE);
    if output == Bad || output == Parenthesis {
      SkipLine(input);
      return false, false, done;
    }
    keys[num] := CStr(key);
    return true, output == Bracket, done + [CStr(key)];
  }

  method ReadKeys(input: Input, keys: array<string>, maxKeys: nat) returns (num: nat)
    requires input.Valid() && maxKeys <= keys.Length
    modifies input`pos, keys
    ensures input.Valid() && num <= maxKeys
    ensures ParseReadDelete(old(input.Unread()), maxKeys) ==
              Scan(if num > 0 then Some(keys[..num]) else None, input.Unread())
    ensures num > 0 ==> forall k :: num <= k < keys.Length ==> keys[k] == old(keys[k])
  {
    hide KeysSoFar;
    num := 0;
    var n, ch := input.ReadByte();
    if n == 0 || ch != '[' {
      SkipLine(input);
      return;
    }
    ghost var whole, done := ParseKeys(input.Unread(), maxKeys), [];
    KeysStart(input.Unread(), maxKeys);
    var ended := false;
    while num < maxKeys && !ended
      invariant input.Valid() && num <= maxKeys && keys[..num] == done
      invariant forall k :: num <= k < keys.Length ==> keys[k] == old(keys[k])
      invariant KeysSoFar(whole, done, ended, input.Unread(), maxKeys - num)
      decreases maxKeys - num
    {
      var ok;
      ok, ended, done := NextKey(input, keys, num, whole, done, maxKeys - num);
      if !ok {
        return 0;
      }
      num := num + 1;
    }
    KeysEnd(whole, done, ended, input.Unread(), maxKeys - num);
    var ok := CloseList<string>(input, maxKeys - num);
    num := if ok then num else 0;
  }

  /** The digits in `buf` have been read of `s`, and `left` is still to come. */
  ghost predicate Scanned(s: string, buf: string, left: string) {
    s == buf + left && Digits(s) == buf + Digits(left)
  }

  lemma ScanStarts(s: string)
    ensures Scanned(s, "", s)
  {
  }

  lemma ScanGoesOn(s: string, buf: string, left: string)
    requires Scanned(s, buf, left) && left != [] && IsDigit(left[0])
    ensures Scanned(s, buf + [left[0]], left[1..])
  {
    Assoc(buf, [left[0]], left[1..]);
    Assoc(buf, [left[0]], Digits(left[1..]));
  }

  /** What `strtoul` makes of the digits read. */
  lemma ScanEnds(s: string, buf: string, left: string)
    requires Scanned(s, buf, left) && (left == [] || !IsDigit(left[0]))
    ensures forall i :: 0 <= i < |buf| ==> IsDigit(buf[i])
    ensures var value := if Number(buf) > UINT_MAX then None else Some(Number(buf));
            var next := if left == [] then '\0' else left[0];
            ReadUint(s) == Scan(Uint(value, next), Skip(left))
  {
    assert Digits(s) == buf;
    assert s[|buf|..] == left;
  }

  method ReadNumber(input: Input) returns (value: Option<nat>, next: char)
    requires input.Valid()
    modifies input`pos
    ensures input.Valid() && Scan(Uint(value, next), input.Unread()) == ReadUint(old(input.Unread()))
  {
    hide Scanned, ReadUint;
    ghost var start, left := input.Unread(), input.Unread();
    ScanStarts(start);
    var buf := "";
    var n;
    n, next := input.ReadByte();
    while n == 1 && IsDigit(next)
      invariant input.Valid() && input.Unread() == Skip(left) && Scanned(start, buf, left)
      invariant n == (if left == [] then 0 else 1) && (n == 1 ==> next == left[0])
      decreases |left|
    {
      ScanGoesOn(start, buf, left);
      left := left[1..];
      buf := buf + [next];
      n, next := input.ReadByte();
    }
    ScanEnds(start, buf, left);
    if n == 0 {
      next := '\0';
    }
    var ul := Number(buf);
    value := if ul > UINT_MAX then None else Some(ul);
  }

  /** The delay, if the arguments of WAIT are in order. */
  method ReadWait(input: Input) returns (delay: Option<nat>)
    requires input.Valid()
    modifies input`pos
    ensures input.Valid() && Scan(delay, input.Unread()) == ParseWait(old(input.Unread()))
  {
    var ch;
    delay, ch := ReadNumber(input);
    if delay.None? {
      SkipLine(input);
      return;
    }
    if ch == ' ' {
      SkipLine(input);
    } else if ch != '\n' && ch != '\0' {
      SkipLine(input);
      delay := None;
    }
  }

  method RestOfWord(input: Input, word: string) returns (ok: bool)
    requires input.Valid()
    modifies input`pos
    ensures input.Valid()
    ensures forall kind :: Word1(old(input.Unread()), word, kind) == Scan(if ok then kind else KInvalid, input.Unread())
  {
    ghost var s := input.Unread();
    var buf := input.ReadUpTo(|word|);
    assert word <= s <==> buf == word;
    ok := buf == word;
    if !ok {
      SkipLine(input);
    }
  }

  method RestOfLine(input: Input, word: string) returns (ok: bool)
    requires input.Valid()
    modifies input`pos
    ensures input.Valid()
    ensures forall kind :: Word0(old(input.Unread()), word, kind) == Scan(if ok then kind else KInvalid, input.Unread())
  {
    ghost var s := input.Unread();
    var buf := input.ReadUpTo(|word|);
    assert word <= s <==> buf == word;
    if buf != word {
      SkipLine(input);
      return false;
    }
    assert s[|word|..] == input.Unread();
    var n, ch := input.ReadByte();
    ok := n == 0 || ch == '\n';
    if !ok {
      SkipLine(input);
    }
  }

  method NextKind(input: Input) returns (kind: Kind)
    requires input.Valid()
    modifies input`pos
    ensures input.Valid() && Scan(kind, input.Unread()) == GetNext(old(input.Unread()))
  {
    hide Word0, Word1, Cleanup;
    var n, first := input.ReadByte();
    if n != 1 {
      return Eoc;
    }
    var ok := true;
    match first
    case 'W' =>
      ghost var t := input.Unread();
      var buf := input.ReadUpTo(4);
      assert "AIT " <= t <==> buf == "AIT ";
      if buf == "AIT " {
        return KWait;
      }
      var more := input.ReadUpTo(1);
      assert t == buf + more + input.Unread();
      assert "RITE " <= t <==> buf + more == "RITE ";
      if buf + more != "RITE " {
        SkipLine(input);
        return KInvalid;
      }
      return KWrite;
    case 'R' =>
      ok := RestOfWord(input, "EAD ");
      return if ok then KRead else KInvalid;
    case 'D' =>
      ok := RestOfWord(input, "ELETE ");
      return if ok then KDelete else KInvalid;
    case 'S' =>
      ok := RestOfLine(input, "HOW");
      return if ok then KShow else KInvalid;
    case 'B' =>
      ok := RestOfLine(input, "ACKUP");
      return if ok then KBackup else KInvalid;
    case 'H' =>
      ok := RestOfLine(input, "ELP");
      return if ok then KHelp else KInvalid;
    case '#' =>
      SkipLine(input);
      return KEmpty;
    case '\n' => return KEmpty;
    case _ =>
      SkipLine(input);
      return KInvalid;
  }

  /** The arguments of a command word; those that do not parse make the command invalid. */
  method ReadCommand(input: Input, kind: Kind, keys: array<string>, values: array<string>) returns (c: Command)
    requires input.Valid() && keys != values && keys.Length == values.Length == MAX_WRITE_SIZE && kind != Eoc
    modifies input`pos, keys, values
    ensures input.Valid() && Scan(c, input.Unread()) == ReadArguments(kind, old(input.Unread()))
  {
    match kind
    case KWrite =>
      var num := ReadWrite(input, keys, values, MAX_WRITE_SIZE);
      c := if num == 0 then Invalid else Write(Zip(keys[..num], values[..num]));
    case KRead =>
      var num := ReadKeys(input, keys, MAX_WRITE_SIZE);
      c := if num == 0 then Invalid else Read(keys[..num]);
    case KDelete =>
      var num := ReadKeys(input, keys, MAX_WRITE_SIZE);
      c := if num == 0 then Invalid else Delete(keys[..num]);
    case KWait =>
      var delay := ReadWait(input);
      c := if delay.None? then Invalid else Wait(delay.value);
    case KShow => c := Show;
    case KBackup => c := Backup;
    case KHelp => c := Help;
    case KEmpty => c := Empty;
    case KInvalid => c := Invalid;
  }

  /** These commands have been read of `s`, and `left` is still to come. */
  ghost predicate ScriptSoFar(s: string, commands: seq<Command>, left: string) {
    commands + Script(left) == Script(s)
  }

  lemma ScriptUnfolds(s: string)
    requires s != []
    ensures Script(s) == [NextCommand(s).result] + Script(NextCommand(s).rest)
  {
  }

  lemma SoFarIs(s: string, commands: seq<Command>, left: string)
    ensures ScriptSoFar(s, commands, left) <==> commands + Script(left) == Script(s)
  {
  }

  lemma ScriptStep(s: string, commands: seq<Command>, left: string)
    requires ScriptSoFar(s, commands, left) && left != []
    ensures ScriptSoFar(s, commands + [NextCommand(left).result], NextCommand(left).rest)
  {
    var next := NextCommand(left);
    ScriptUnfolds(left);
    hide *;
    Assoc(commands, [next.result], Script(next.rest));
    SoFarIs(s, commands, left);
    SoFarIs(s, commands + [next.result], next.rest);
  }

  lemma ScriptEnds(s: string)
    ensures ScriptSoFar(s, [], s)
    ensures forall commands :: ScriptSoFar(s, commands, "") ==> commands == Script(s)
  {
  }

  /** The command loop, from the first byte to the end of the file. */
  method ReadScript(input: Input) returns (commands: seq<Command>)
    requires input.Valid()
    modifies input`pos
    ensures input.Valid() && input.Unread() == [] && commands == Script(old(input.Unread()))
  {
    hide ScriptSoFar, GetNext, ReadArguments;
    var keys, values := new string[MAX_WRITE_SIZE](_ => ""), new string[MAX_WRITE_SIZE](_ => "");
    commands := [];
    ghost var start, left := input.Unread(), input.Unread();
    ScriptEnds(start);
    var kind := NextKind(input);
    while kind != Eoc
      invariant input.Valid() && Scan(kind, input.Unread()) == GetNext(left)
      invariant ScriptSoFar(start, commands, left)
      decreases |left|
    {
      ScriptStep(start, commands, left);
      var c := ReadCommand(input, kind, keys, values);
      commands := commands + [c];
      left := input.Unread();
      kind := NextKind(input);
    }
  }
}
