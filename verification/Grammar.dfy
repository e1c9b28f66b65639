/** What the command parser makes of the unread input, and the text that stands for a command. */
module Grammar {
  import opened Store
  import opened Text
  import opened Commands

  const MAX_WRITE_SIZE: nat := 1024
  const MAX_STRING_SIZE: nat := 40
  const UINT_MAX: nat := 0xFFFF_FFFF

  /** A result, and the input left unread. */
  datatype Scan<T> = Scan(result: T, rest: string)

  /** One byte further, or still at the end of the input. */
  function Skip(s: string): (rest: string)
    ensures s != [] ==> s == [s[0]] + rest
  {
    if s == [] then [] else s[1..]
  }

  /** The input after the next newline. */
  function Cleanup(s: string): (rest: string)
    ensures |rest| <= |s|
    ensures s != [] ==> |rest| < |s|
  {
    if s == [] then [] else if s[0] == '\n' then s[1..] else Cleanup(s[1..])
  }

  // Keys and values.

  datatype Delimiter = Comma | Parenthesis | Bracket | Bad

  function DelimiterOf(c: char): Delimiter {
    if c == ',' then Comma else if c == ')' then Parenthesis else if c == ']' then Bracket else Bad
  }

  predicate Stops(c: char) {
    c == ' ' || c == ',' || c == ')' || c == ']'
  }

  /** What ended the string, and the string as `strcpy` copies it out of the buffer. */
  datatype Word = Word(end: Delimiter, text: string)

  /** The bytes up to a delimiter, at most `room` of them. */
  function ReadBytes(s: string, room: nat): (r: Scan<Word>)
    ensures |r.rest| <= |s|
    ensures r.result.end != Bad ==> |r.rest| < |s|
  {
    if room == 0 || s == [] then Scan(Word(Bad, []), s)
    else if Stops(s[0]) then Scan(Word(DelimiterOf(s[0]), []), s[1..])
    else
      var r := ReadBytes(s[1..], room - 1);
      Scan(Word(r.result.end, [s[0]] + r.result.text), r.rest)
  }

  function ReadString(s: string): Scan<Word> {
    ReadBytes(s, MAX_STRING_SIZE)
  }

  /** `key,value)`. On failure the line is skipped. */
  function ParsePair(s: string): (r: Scan<Option<Pair>>)
    ensures |r.rest| <= |s|
    ensures r.result.Some? ==> |r.rest| < |s|
  {
    var key := ReadString(s);
    if key.result.end != Comma then Scan(None, Cleanup(key.rest))
    else
      var value := ReadString(key.rest);
      if value.result.end != Parenthesis then Scan(None, Cleanup(value.rest))
      else Scan(Some(Pair(CStr(key.result.text), CStr(value.result.text))), value.rest)
  }

  function Cons<T>(x: T, r: Scan<Option<seq<T>>>): Scan<Option<seq<T>>> {
    Scan(if r.result.Some? then Some([x] + r.result.value) else None, r.rest)
  }

  /** The end of a list with `room` entries still free: it must not be full, and the line must end here. */
  function EndOfList<T>(s: string, room: nat): (r: Scan<Option<seq<T>>>)
    ensures |r.rest| <= |s|
    ensures r.result.Some? ==> r.result.value == [] && room > 0
  {
    if room == 0 then Scan(None, Cleanup(s))
    else if s == [] || (s[0] != '\n' && s[0] != '\0') then Scan(None, Cleanup(Skip(s)))
    else Scan(Some([]), s[1..])
  }

  /** `key,value)` and so on, separated by '(' and ended by ']'. A bad pair makes two lines skipped. */
  function ParsePairs(s: string, room: nat): (r: Scan<Option<seq<Pair>>>)
    ensures |r.rest| <= |s|
    ensures r.result.Some? ==> 0 < |r.result.value| < room
    decreases room
  {
    if room == 0 then EndOfList(s, 0)
    else
      var pair := ParsePair(s);
      if pair.result.None? then Scan(None, Cleanup(pair.rest))
      else if pair.rest == [] || (pair.rest[0] != '(' && pair.rest[0] != ']') then Scan(None, Cleanup(Skip(pair.rest)))
      else if pair.rest[0] == ']' then Cons(pair.result.value, EndOfList(pair.rest[1..], room - 1))
      else Cons(pair.result.value, ParsePairs(pair.rest[1..], room - 1))
  }

  function ParseWrite(s: string, maxPairs: nat): (r: Scan<Option<seq<Pair>>>)
    ensures |r.rest| <= |s|
    ensures r.result.Some? ==> 0 < |r.result.value| < maxPairs
  {
    if s == [] || s[0] != '[' then Scan(None, Cleanup(Skip(s)))
    else
      var t := s[1..];
      if t == [] || t[0] != '(' then Scan(None, Cleanup(Skip(t))) else ParsePairs(t[1..], maxPairs)
  }

  /** `key,key]`. */
  function ParseKeys(s: string, room: nat): (r: Scan<Option<seq<string>>>)
    ensures |r.rest| <= |s|
    ensures r.result.Some? ==> 0 < |r.result.value| < room
    decreases room
  {
    if room == 0 then EndOfList(s, 0)
    else
      var key := ReadString(s);
      match key.result.end
      case Comma => Cons(CStr(key.result.text), ParseKeys(key.rest, room - 1))
      case Bracket => Cons(CStr(key.result.text), EndOfList(key.rest, room - 1))
      case _ => Scan(None, Cleanup(key.rest))
  }

  function ParseReadDelete(s: string, maxKeys: nat): (r: Scan<Option<seq<string>>>)
    ensures |r.rest| <= |s|
    ensures r.result.Some? ==> 0 < |r.result.value| < maxKeys
  {
    if s == [] || s[0] != '[' then Scan(None, Cleanup(Skip(s))) else ParseKeys(s[1..], maxKeys)
  }

  // Delays.

  /** The digits at the front. */
  function Digits(s: string): (d: string)
    ensures d <= s && forall i :: 0 <= i < |d| ==> IsDigit(d[i])
    ensures |d| < |s| ==> !IsDigit(s[|d|])
  {
    if s == [] || !IsDigit(s[0]) then [] else [s[0]] + Digits(s[1..])
  }

  /** `None` for a number that does not fit; `next` is NUL at the end of the input. */
  datatype Uint = Uint(value: Option<nat>, next: char)

  function ReadUint(s: string): (r: Scan<Uint>)
    ensures |r.rest| <= |s|
  {
    var digits := Digits(s);
    var tail := s[|digits|..];
    var n := Number(digits);
    Scan(Uint(if n > UINT_MAX then None else Some(n), if tail == [] then '\0' else tail[0]), Skip(tail))
  }

  /** As `process_job_file` calls it, without a thread id. */
  function ParseWait(s: string): (r: Scan<Option<nat>>)
    ensures |r.rest| <= |s|
  {
    var n := ReadUint(s);
    if n.result.value.None? then Scan(None, Cleanup(n.rest))
    else if n.result.next == ' ' then Scan(n.result.value, Cleanup(n.rest))
    else if n.result.next == '\n' || n.result.next == '\0' then Scan(n.result.value, n.rest)
    else Scan(None, Cleanup(n.rest))
  }

  // The command word.

  datatype Kind = KWrite | KRead | KDelete | KShow | KWait | KBackup | KHelp | KEmpty | KInvalid | Eoc

  /** A `read` of `n` bytes gives fewer at the end of the input. */
  function Drop(s: string, n: nat): (rest: string)
    ensures |rest| <= |s|
  {
    if |s| < n then [] else s[n..]
  }

  /** The rest of a word that carries arguments. */
  function Word1(s: string, word: string, kind: Kind): (r: Scan<Kind>)
    ensures |r.rest| <= |s|
  {
    if word <= s then Scan(kind, s[|word|..]) else Scan(KInvalid, Cleanup(Drop(s, |word|)))
  }

  /** The rest of a word that stands alone on its line. */
  function Word0(s: string, word: string, kind: Kind): (r: Scan<Kind>)
    ensures |r.rest| <= |s|
  {
    if word <= s then
      var tail := s[|word|..];
      if tail != [] && tail[0] != '\n' then Scan(KInvalid, Cleanup(tail[1..])) else Scan(kind, Skip(tail))
    else Scan(KInvalid, Cleanup(Drop(s, |word|)))
  }

  function GetNext(s: string): (r: Scan<Kind>)
    ensures s == [] <==> r.result == Eoc
    ensures |r.rest| <= |s|
    ensures s != [] ==> |r.rest| < |s|
  {
    if s == [] then Scan(Eoc, [])
    else
      var t := s[1..];
      match s[0]
      case 'W' =>
        if "AIT " <= t then Scan(KWait, t[4..])
        else if "RITE " <= t then Scan(KWrite, t[5..])
        else Scan(KInvalid, Cleanup(Drop(t, 5)))
      case 'R' => Word1(t, "EAD ", KRead)
      case 'D' => Word1(t, "ELETE ", KDelete)
      case 'S' => Word0(t, "HOW", KShow)
      case 'B' => Word0(t, "ACKUP", KBackup)
      case 'H' => Word0(t, "ELP", KHelp)
      case '#' => Scan(KEmpty, Cleanup(t))
      case '\n' => Scan(KEmpty, t)
      case _ => Scan(KInvalid, Cleanup(t))
  }

  /** The command of a word and what follows it: arguments that do not parse make it invalid. */
  function ReadArguments(kind: Kind, s: string): (r: Scan<Command>)
    requires kind != Eoc
    ensures |r.rest| <= |s|
  {
    match kind
    case KWrite =>
      var pairs := ParseWrite(s, MAX_WRITE_SIZE);
      Scan(if pairs.result.Some? then Write(pairs.result.value) else Invalid, pairs.rest)
    case KRead =>
      var keys := ParseReadDelete(s, MAX_WRITE_SIZE);
      Scan(if keys.result.Some? then Read(keys.result.value) else Invalid, keys.rest)
    case KDelete =>
      var keys := ParseReadDelete(s, MAX_WRITE_SIZE);
      Scan(if keys.result.Some? then Delete(keys.result.value) else Invalid, keys.rest)
    case KWait =>
      var delay := ParseWait(s);
      Scan(if delay.result.Some? then Wait(delay.result.value) else Invalid, delay.rest)
    case KShow => Scan(Show, s)
    case KBackup => Scan(Backup, s)
    case KHelp => Scan(Help, s)
    case KEmpty => Scan(Empty, s)
    case KInvalid => Scan(Invalid, s)
  }

  /** One round of the command loop. */
  function NextCommand(s: string): (r: Scan<Command>)
    requires s != []
    ensures |r.rest| < |s|
  {
    var next := GetNext(s);
    ReadArguments(next.result, next.rest)
  }

  /** The commands of a whole job file. Every round takes at least one byte, so the loop ends on any input. */
  function Script(s: string): (cs: seq<Command>)
    ensures |cs| <= |s|
    decreases |s|
  {
    if s == [] then []
    else
      var next := NextCommand(s);
      [next.result] + Script(next.rest)
  }

  // Printing.

  /** A string the parser reads back: at most 39 bytes, none of them a delimiter or NUL. */
  predicate Clean(s: string) {
    |s| < MAX_STRING_SIZE && forall i :: 0 <= i < |s| ==> !Stops(s[i]) && s[i] != '\0'
  }

  predicate CleanPair(p: Pair) {
    Clean(p.key) && Clean(p.value)
  }

  function PrintPair(p: Pair): string {
    "(" + p.key + "," + p.value + ")"
  }

  function PrintPairs(ps: seq<Pair>): string {
    if ps == [] then "" else PrintPair(ps[0]) + PrintPairs(ps[1..])
  }

  function PrintKeys(keys: seq<string>): string
    requires keys != []
  {
    if |keys| == 1 then keys[0] else keys[0] + "," + PrintKeys(keys[1..])
  }

  function PairList(ps: seq<Pair>): string {
    "[" + PrintPairs(ps) + "]\n"
  }

  function KeyList(keys: seq<string>): string
    requires keys != []
  {
    "[" + PrintKeys(keys) + "]\n"
  }

  /** Commands that can be written on a line. */
  predicate Printable(c: Command) {
    match c
    case Write(pairs) => 0 < |pairs| < MAX_WRITE_SIZE && forall i :: 0 <= i < |pairs| ==> CleanPair(pairs[i])
    case Read(keys) => 0 < |keys| < MAX_WRITE_SIZE && forall i :: 0 <= i < |keys| ==> Clean(keys[i])
    case Delete(keys) => 0 < |keys| < MAX_WRITE_SIZE && forall i :: 0 <= i < |keys| ==> Clean(keys[i])
    case Wait(delay) => delay <= UINT_MAX
    case Invalid => false
    case _ => true
  }

  function Print(c: Command): string
    requires Printable(c)
  {
    match c
    case Write(pairs) => "WRITE " + PairList(pairs)
    case Read(keys) => "READ " + KeyList(keys)
    case Delete(keys) => "DELETE " + KeyList(keys)
    case Show => "SHOW\n"
    case Wait(delay) => "WAIT " + Decimal(delay) + "\n"
    case Backup => "BACKUP\n"
    case Help => "HELP\n"
    case Empty => "\n"
  }

  function PrintAll(cs: seq<Command>): string
    requires forall i :: 0 <= i < |cs| ==> Printable(cs[i])
  {
    if cs == [] then "" else Print(cs[0]) + PrintAll(cs[1..])
  }
}
