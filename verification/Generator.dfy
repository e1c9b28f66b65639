/** The job file generator: the keys it believes live are the keys live after the store ran what it wrote. */
module Generator {
  import opened Store
  import opened Sorting
  import opened Text
  import opened Commands
  import opened Grammar
  import opened RoundTrip
  import Answers

  // The random choices.

  /** A letter and a digit. */
  predicate GeneratedKey(key: string) {
    |key| == 2 && 'a' <= key[0] <= 'z' && IsDigit(key[1])
  }

  predicate GeneratedValue(value: string) {
    exists v: nat :: v <= 100 && value == Decimal(v)
  }

  predicate GeneratedPair(p: Pair, existing: set<string>) {
    GeneratedKey(p.key) && p.key !in existing && GeneratedValue(p.value)
  }

  predicate Sample(keys: seq<string>, existing: set<string>) {
    && (forall i :: 0 <= i < |keys| ==> keys[i] in existing)
    && forall i, j :: 0 <= i < j < |keys| ==> keys[i] != keys[j]
  }

  /** The commands `generate_command` may come up with. A WRITE may name one new key twice. */
  predicate MayChoose(existing: set<string>, c: Command) {
    match c
    case Write(pairs) => 1 <= |pairs| <= 5 && forall i :: 0 <= i < |pairs| ==> GeneratedPair(pairs[i], existing)
    case Read(keys) => |keys| == 1 && keys[0] in existing
    case Delete(keys) => 1 <= |keys| <= 5 && Sample(keys, existing)
    case Wait(delay) => delay in {1000, 2000, 3000}
    case Show => true
    case Backup => true
    case _ => false
  }

  /** The line it returns, without the newline. */
  function Emit(c: Command): string {
    match c
    case Write(pairs) => "WRITE [" + PrintPairs(pairs) + "]"
    case Read(keys) => if keys == [] then "READ []" else "READ [" + keys[0] + "]"
    case Delete(keys) => "DELETE [" + (if keys == [] then "" else PrintKeys(keys)) + "]"
    case Wait(delay) => "WAIT " + Decimal(delay)
    case Backup => "BACKUP"
    case _ => "SHOW"
  }

  // How it reads its own lines back to keep track of the keys.

  /** `text[k:-1]` */
  function Middle(text: string, k: nat): string {
    if |text| < k + 1 then "" else text[k..|text| - 1]
  }

  /** The first `c`, or the length. */
  function Find(s: string, c: char): (i: nat)
    ensures i <= |s| && c !in s[..i] && (i < |s| ==> s[i] == c)
  {
    if s == [] || s[0] == c then 0 else 1 + Find(s[1..], c)
  }

  /** What stands between each '(' and the next ')'. */
  function PairTexts(s: string): seq<string>
    decreases |s|
  {
    if s == [] then []
    else if s[0] != '(' then PairTexts(s[1..])
    else
      var j := Find(s, ')');
      if j == |s| then [] else [s[1..j]] + PairTexts(s[j + 1..])
  }

  /** `s.split(c)` */
  function Split(s: string, c: char): (r: seq<string>)
    ensures r != []
    decreases |s|
  {
    var j := Find(s, c);
    if j == |s| then [s] else [s[..j]] + Split(s[j + 1..], c)
  }

  function AddKeys(existing: set<string>, pairs: seq<string>): set<string> {
    if pairs == [] then existing
    else
      var init := AddKeys(existing, pairs[..|pairs| - 1]);
      var keyValue := Split(pairs[|pairs| - 1], ',');
      if |keyValue| == 2 then init + {keyValue[0]} else init
  }

  function RemoveKeys(existing: set<string>, keys: seq<string>): set<string> {
    existing - set key | key in keys
  }

  /** `update_existing_keys` */
  function Updated(existing: set<string>, command: string): set<string> {
    if "WRITE" <= command then AddKeys(existing, PairTexts(Middle(command, 7)))
    else if "DELETE" <= command then RemoveKeys(existing, Split(Middle(command, 8), ','))
    else existing
  }

  /** The generator while it writes one job file. */
  class Generator {
    var existing: set<string>
    var text: string

    constructor ()
      ensures existing == {} && text == ""
    {
      existing, text := {}, "";
    }

    method Update(command: string)
      modifies this`existing
      ensures existing == Updated(old(existing), command)
    {
      if "WRITE" <= command {
        var pairs := ScanPairs(Middle(command, 7));
        var k := 0;
        while k < |pairs|
          invariant k <= |pairs| && existing == AddKeys(old(existing), pairs[..k])
        {
          var keyValue := Split(pairs[k], ',');
          if |keyValue| == 2 {
            existing := existing + {keyValue[0]};
          }
          assert pairs[..k + 1][..k] == pairs[..k];
          k := k + 1;
        }
        assert pairs[..k] == pairs;
      } else if "DELETE" <= command {
        var keys := Split(Middle(command, 8), ',');
        var k := 0;
        while k < |keys|
          invariant k <= |keys| && existing == RemoveKeys(old(existing), keys[..k])
        {
          if keys[k] in existing {
            existing := existing - {keys[k]};
          }
          assert keys[..k + 1] == keys[..k] + [keys[k]];
          k := k + 1;
        }
        assert keys[..k] == keys;
      }
    }

    method Choose(command: Command)
      modifies this
      ensures existing == Updated(old(existing), Emit(command)) && text == old(text) + Emit(command) + "\n"
    {
      Update(Emit(command));
      text := text + Emit(command) + "\n";
    }
  }

  method ScanPairs(s: string) returns (pairs: seq<string>)
    ensures pairs == PairTexts(s)
  {
    pairs := [];
    var i := 0;
    while i < |s|
      invariant i <= |s| && pairs + PairTexts(s[i..]) == PairTexts(s)
      decreases |s| - i
    {
      if s[i] == '(' {
        var j := i + Find(s[i..], ')');
        if j == |s| {
          break;
        }
        assert s[i..][1..j - i] == s[i + 1..j] && s[i..][j - i + 1..] == s[j + 1..];
        pairs := pairs + [s[i + 1..j]];
        i := j + 1;
      } else {
        assert s[i..][1..] == s[i + 1..];
        i := i + 1;
      }
    }
  }

  // What the scanning amounts to.

  lemma {:induction false} FindFirst(a: string, c: char, rest: string)
    requires c !in a
    ensures Find(a + [c] + rest, c) == |a| && Find(a, c) == |a|
  {
    if a != [] {
      assert (a + [c] + rest)[1..] == a[1..] + [c] + rest;
      FindFirst(a[1..], c, rest);
    }
  }

  lemma SplitFirst(a: string, c: char, rest: string)
    requires c !in a
    ensures Split(a + [c] + rest, c) == [a] + Split(rest, c) && Split(a, c) == [a]
  {
    var s := a + [c] + rest;
    FindFirst(a, c, rest);
    assert s[..|a|] == a && s[|a| + 1..] == rest;
  }

  lemma {:induction false} SplitsIntoKeys(keys: seq<string>)
    requires keys != [] && CleanKeys(keys)
    ensures Split(PrintKeys(keys), ',') == keys
  {
    assert Clean(keys[0]);
    if |keys| == 1 {
      SplitFirst(keys[0], ',', "");
    } else {
      SplitsIntoKeys(keys[1..]);
      SplitFirst(keys[0], ',', PrintKeys(keys[1..]));
    }
  }

  function Bodies(ps: seq<Pair>): (r: seq<string>)
    ensures |r| == |ps| && forall i :: 0 <= i < |ps| ==> r[i] == ps[i].key + "," + ps[i].value
  {
    seq(|ps|, i requires 0 <= i < |ps| => ps[i].key + "," + ps[i].value)
  }

  lemma PairTextsNext(body: string, rest: string)
    requires ')' !in body
    ensures PairTexts("(" + body + ")" + rest) == [body] + PairTexts(rest)
  {
    var s := "(" + body + ")" + rest;
    assert s == ("(" + body) + [')'] + rest;
    FindFirst("(" + body, ')', rest);
    assert s[1..|body| + 1] == body && s[|body| + 2..] == rest;
  }

  lemma {:induction false} ScansPairs(ps: seq<Pair>)
    requires CleanPairs(ps)
    ensures PairTexts(PrintPairs(ps)) == Bodies(ps)
  {
    if ps != [] {
      var p := ps[0];
      assert CleanPair(p);
      ScansPairs(ps[1..]);
      var body := p.key + "," + p.value;
      assert PrintPair(p) == "(" + body + ")";
      PairTextsNext(body, PrintPairs(ps[1..]));
      assert Bodies(ps) == [body] + Bodies(ps[1..]);
    }
  }

  function PairKeys(ps: seq<Pair>): set<string> {
    set p | p in ps :: p.key
  }

  lemma SplitsIntoTwo(key: string, value: string)
    requires ',' !in key && ',' !in value
    ensures Split(key + "," + value, ',') == [key, value]
  {
    SplitFirst(key, ',', value);
    SplitFirst(value, ',', "");
  }

  lemma {:induction false} AddsKeys(existing: set<string>, ps: seq<Pair>)
    requires CleanPairs(ps)
    ensures AddKeys(existing, Bodies(ps)) == existing + PairKeys(ps)
  {
    if ps == [] {
      assert PairKeys(ps) == {};
    } else {
      var init, p := ps[..|ps| - 1], ps[|ps| - 1];
      assert CleanPair(p);
      AddsKeys(existing, init);
      assert Bodies(ps)[..|ps| - 1] == Bodies(init);
      SplitsIntoTwo(p.key, p.value);
      assert ps == init + [p];
      assert PairKeys(ps) == PairKeys(init) + {p.key};
    }
  }

  /** The keys that should be live after the command. */
  function Shadow(existing: set<string>, c: Command): set<string> {
    match c
    case Write(pairs) => existing + PairKeys(pairs)
    case Delete(keys) => existing - set key | key in keys
    case _ => existing
  }

  predicate AllGenerated(existing: set<string>) {
    forall key :: key in existing ==> GeneratedKey(key)
  }

  lemma ShortNumber(v: nat)
    requires v <= 100
    ensures |Decimal(v)| <= 3 && Clean(Decimal(v))
  {
    assert v >= 10 ==> Decimal(v) == Decimal(v / 10) + [Digit(v % 10)];
    assert v >= 100 ==> Decimal(v / 10) == Decimal(v / 10 / 10) + [Digit(v / 10 % 10)];
    assert forall i :: 0 <= i < |Decimal(v)| ==> IsDigit(Decimal(v)[i]);
  }

  lemma GeneratedPairsAreClean(pairs: seq<Pair>, existing: set<string>)
    requires forall i :: 0 <= i < |pairs| ==> GeneratedPair(pairs[i], existing)
    ensures CleanPairs(pairs) && ValidPairs(pairs)
    ensures forall key :: key in PairKeys(pairs) ==> GeneratedKey(key)
  {
    forall i | 0 <= i < |pairs| ensures CleanPair(pairs[i]) && ValidKey(pairs[i].key) {
      assert GeneratedPair(pairs[i], existing);
      var v: nat :| v <= 100 && pairs[i].value == Decimal(v);
      ShortNumber(v);
    }
    assert forall p :: p in pairs ==> GeneratedPair(p, existing);
  }

  /** What the generator writes, the parser reads: its lines are printed commands. */
  lemma ChosenIsPrinted(existing: set<string>, c: Command)
    requires AllGenerated(existing) && MayChoose(existing, c)
    ensures Printable(c) && ValidCommand(c) && Print(c) == Emit(c) + "\n" && AllGenerated(Shadow(existing, c))
  {
    hide Decimal;
    match c
    case Write(pairs) =>
      GeneratedPairsAreClean(pairs, existing);
      assert "WRITE " + ("[" + PrintPairs(pairs) + "]\n") == "WRITE [" + PrintPairs(pairs) + "]" + "\n";
    case Read(keys) =>
      assert GeneratedKey(keys[0]);
      assert "READ " + ("[" + keys[0] + "]\n") == "READ [" + keys[0] + "]" + "\n";
    case Delete(keys) =>
      assert forall i :: 0 <= i < |keys| ==> GeneratedKey(keys[i]);
      assert "DELETE " + ("[" + PrintKeys(keys) + "]\n") == "DELETE [" + PrintKeys(keys) + "]" + "\n";
    case _ =>
  }

  // The lines themselves.

  /** Delays are whole seconds, up to three. */
  lemma WaitLines(existing: set<string>, line: string)
    ensures (exists c: Command :: c.Wait? && MayChoose(existing, c) && Emit(c) == line)
       <==> line == "WAIT 1000" || line == "WAIT 2000" || line == "WAIT 3000"
  {
    Thousands();
    hide Decimal;
    assert Emit(Wait(1000)) == "WAIT 1000" && Emit(Wait(2000)) == "WAIT 2000" && Emit(Wait(3000)) == "WAIT 3000";
    assert MayChoose(existing, Wait(1000)) && MayChoose(existing, Wait(2000)) && MayChoose(existing, Wait(3000));
  }

  lemma Thousands()
    ensures Decimal(1000) == "1000" && Decimal(2000) == "2000" && Decimal(3000) == "3000"
  {
  }

  lemma {:induction false} PairsAreShort(pairs: seq<Pair>, existing: set<string>)
    requires forall i :: 0 <= i < |pairs| ==> GeneratedPair(pairs[i], existing)
    ensures |PrintPairs(pairs)| <= 8 * |pairs|
  {
    if pairs != [] {
      PairsAreShort(pairs[1..], existing);
      assert GeneratedPair(pairs[0], existing);
      var v: nat :| v <= 100 && pairs[0].value == Decimal(v);
      ShortNumber(v);
      hide Decimal;
    }
  }

  lemma {:induction false} KeysAreShort(keys: seq<string>)
    requires keys != [] && forall i :: 0 <= i < |keys| ==> GeneratedKey(keys[i])
    ensures |PrintKeys(keys)| == 3 * |keys| - 1
  {
    assert GeneratedKey(keys[0]);
    if |keys| > 1 {
      KeysAreShort(keys[1..]);
    }
  }

  /** No line is longer than 48 bytes. */
  lemma LinesAreShort(existing: set<string>, c: Command)
    requires AllGenerated(existing) && MayChoose(existing, c)
    ensures |Emit(c)| <= 48
  {
    Thousands();
    hide Decimal;
    match c
    case Write(pairs) => PairsAreShort(pairs, existing);
    case Delete(keys) => KeysAreShort(keys);
    case Read(keys) => assert GeneratedKey(keys[0]);
    case _ =>
  }

  /** And some are that long. */
  lemma LongestLine()
    ensures exists c: Command :: MayChoose({}, c) && |Emit(c)| == 48
  {
    var p := Pair("a0", "100");
    assert GeneratedValue("100") by {
      assert Decimal(100) == "100";
    }
    assert GeneratedPair(p, {});
    FivePairs(p);
    var c := Write([p, p, p, p, p]);
    assert MayChoose({}, c);
  }

  lemma FivePairs(p: Pair)
    requires |p.key| == 2 && |p.value| == 3
    ensures |PrintPairs([p, p, p, p, p])| == 40
  {
    assert |PrintPair(p)| == 8;
    assert PrintPairs([p]) == PrintPair(p) + PrintPairs([]);
    assert PrintPairs([p, p]) == PrintPair(p) + PrintPairs([p]);
    assert PrintPairs([p, p, p]) == PrintPair(p) + PrintPairs([p, p]);
    assert PrintPairs([p, p, p, p]) == PrintPair(p) + PrintPairs([p, p, p]);
    assert PrintPairs([p, p, p, p, p]) == PrintPair(p) + PrintPairs([p, p, p, p]);
  }

  lemma MiddleOfList(word: string, body: string)
    ensures Middle(word + body + "]", |word|) == body
  {
    var text := word + body + "]";
    assert text[|word|..|text| - 1] == body;
  }

  lemma WriteFollows(existing: set<string>, pairs: seq<Pair>)
    requires CleanPairs(pairs)
    ensures Updated(existing, "WRITE [" + PrintPairs(pairs) + "]") == existing + PairKeys(pairs)
  {
    MiddleOfList("WRITE [", PrintPairs(pairs));
    ScansPairs(pairs);
    AddsKeys(existing, pairs);
  }

  lemma DeleteFollows(existing: set<string>, keys: seq<string>)
    requires keys != [] && CleanKeys(keys)
    ensures Updated(existing, "DELETE [" + PrintKeys(keys) + "]") == existing - set key | key in keys
  {
    var text := "DELETE [" + PrintKeys(keys) + "]";
    assert text[0] == 'D';
    MiddleOfList("DELETE [", PrintKeys(keys));
    SplitsIntoKeys(keys);
  }

  /** Reading its own line back updates the keys as the command does. */
  lemma UpdateFollows(existing: set<string>, c: Command)
    requires AllGenerated(existing) && MayChoose(existing, c)
    ensures Updated(existing, Emit(c)) == Shadow(existing, c)
  {
    ChosenIsPrinted(existing, c);
    match c
    case Write(pairs) => WriteFollows(existing, pairs);
    case Delete(keys) => DeleteFollows(existing, keys);
    case Read(_) => assert Emit(c)[0] == 'R';
    case Wait(_) => assert Emit(c)[1] == 'A';
    case _ =>
  }

  // Whole job files.

  /** Each command is one the generator may choose after those before it. */
  predicate Choices(existing: set<string>, cs: seq<Command>)
    decreases |cs|
  {
    cs == [] || (MayChoose(existing, cs[0]) && Choices(Shadow(existing, cs[0]), cs[1..]))
  }

  function FinalKeys(existing: set<string>, cs: seq<Command>): set<string>
    decreases |cs|
  {
    if cs == [] then existing else FinalKeys(Shadow(existing, cs[0]), cs[1..])
  }

  predicate AllPrintable(cs: seq<Command>) {
    forall i :: 0 <= i < |cs| ==> Printable(cs[i])
  }

  lemma {:induction false} ChoicesArePrintable(existing: set<string>, cs: seq<Command>)
    requires AllGenerated(existing) && Choices(existing, cs)
    ensures AllPrintable(cs) && AllValid(cs)
    decreases |cs|
  {
    if cs != [] {
      ChosenIsPrinted(existing, cs[0]);
      ChoicesArePrintable(Shadow(existing, cs[0]), cs[1..]);
      assert forall i :: 1 <= i < |cs| ==> cs[i] == cs[1..][i - 1];
    }
  }

  /** `generate_job_file`, the random choices given. */
  method GenerateJobFile(choices: seq<Command>) returns (text: string, existing: set<string>)
    requires Choices({}, choices)
    ensures AllPrintable(choices) && text == PrintAll(choices) && existing == FinalKeys({}, choices)
  {
    ChoicesArePrintable({}, choices);
    var g := new Generator();
    var i := 0;
    while i < |choices|
      invariant i <= |choices| && AllGenerated(g.existing)
      invariant Choices(g.existing, choices[i..]) && FinalKeys(g.existing, choices[i..]) == FinalKeys({}, choices)
      invariant AllPrintable(choices[i..]) && g.text + PrintAll(choices[i..]) == PrintAll(choices)
    {
      var c := choices[i];
      assert c == choices[i..][0] && choices[i..][1..] == choices[i + 1..];
      UpdateFollows(g.existing, c);
      ChosenIsPrinted(g.existing, c);
      Assoc(g.text, Print(c), PrintAll(choices[i + 1..]));
      Assoc(g.text, Emit(c), "\n");
      g.Choose(c);
      i := i + 1;
    }
    return g.text, g.existing;
  }

  // Running the file.

  predicate GeneratedValues(m: map<string, string>) {
    forall key :: key in m ==> GeneratedValue(m[key])
  }

  /** A READ that finds its key, a DELETE that finds all of them. */
  ghost predicate Succeeds(c: Command, text: string) {
    match c
    case Read(keys) =>
      |keys| == 1 && exists value :: GeneratedValue(value) && text == "[(" + keys[0] + "," + value + ")]\n"
    case Delete(_) => text == ""
    case _ => true
  }

  ghost predicate AllSucceed(cs: seq<Command>, texts: seq<string>) {
    |texts| == |cs| && (cs == [] || (Succeeds(cs[0], texts[0]) && AllSucceed(cs[1..], texts[1..])))
  }

  lemma {:induction false} PutAllKeys(m: map<string, string>, ps: seq<Pair>)
    requires GeneratedValues(m) && forall i :: 0 <= i < |ps| ==> GeneratedValue(ps[i].value)
    ensures PutAll(m, ps).Keys == m.Keys + PairKeys(ps) && GeneratedValues(PutAll(m, ps))
  {
    if ps == [] {
      assert PairKeys(ps) == {};
    } else {
      var init, p := ps[..|ps| - 1], ps[|ps| - 1];
      PutAllKeys(m, init);
      assert ps == init + [p];
      assert PairKeys(ps) == PairKeys(init) + {p.key};
      assert GeneratedValue(p.value);
    }
  }

  lemma WriteSucceeds(existing: set<string>, pairs: seq<Pair>, t: Table)
    requires ValidPairs(pairs) && WellFormed(t) && ToMap(t).Keys == existing && GeneratedValues(ToMap(t))
    requires forall i :: 0 <= i < |pairs| ==> GeneratedPair(pairs[i], existing)
    ensures var u := ExecTable(Write(pairs), t);
            WellFormed(u) && ToMap(u).Keys == existing + PairKeys(pairs) && GeneratedValues(ToMap(u))
  {
    WriteMeans(pairs, t);
    forall i | 0 <= i < |pairs| ensures GeneratedValue(pairs[i].value) {
      assert GeneratedPair(pairs[i], existing);
    }
    PutAllKeys(ToMap(t), pairs);
  }

  lemma ReadSucceeds(key: string, t: Table)
    requires ValidKey(key) && WellFormed(t) && key in ToMap(t) && GeneratedValues(ToMap(t))
    ensures ExecTable(Read([key]), t) == t && Succeeds(Read([key]), ExecText(Read([key]), t))
  {
    ReadMeans([key], t);
    Answers.ReadOne(key, t);
    hide ExecText, ExecTable, WellFormed, Decimal;
    assert GeneratedValue(ToMap(t)[key]);
  }

  /** Distinct live keys are all found. */
  lemma {:induction false} NoneMissing(args: seq<Pair>, i: nat, live: set<string>)
    requires i <= |args|
    requires forall j :: i <= j < |args| ==> args[j].key in live
    requires forall j, k :: i <= j < k < |args| ==> args[j].key != args[k].key
    ensures Missing(args, i, live) == []
    decreases |args| - i
  {
    if i < |args| {
      NoneMissing(args, i + 1, live - {args[i].key});
    }
  }

  lemma SampleArgs(keys: seq<string>, existing: set<string>)
    requires Sample(keys, existing)
    ensures var args := Args(Delete(keys));
            && (forall j :: 0 <= j < |args| ==> args[j].key in existing)
            && forall j, k :: 0 <= j < k < |args| ==> args[j].key != args[k].key
  {
    var named := WithoutValues(keys);
    SortIsStable(named);
    Rearranged(named, Sort(named));
    forall j | 0 <= j < |Sort(named)| ensures Sort(named)[j].key in existing {
      assert Sort(named)[j] in named;
    }
  }

  /** Reordering pairs with distinct keys and equal values leaves the keys distinct. */
  lemma Rearranged(named: seq<Pair>, args: seq<Pair>)
    requires multiset(args) == multiset(named)
    requires forall i, j :: 0 <= i < j < |named| ==> named[i] != named[j]
    requires forall i :: 0 <= i < |named| ==> named[i].value == ""
    ensures forall i :: 0 <= i < |args| ==> args[i] in named
    ensures forall j, k :: 0 <= j < k < |args| ==> args[j].key != args[k].key
  {
    forall i | 0 <= i < |args| ensures args[i] in named {
      assert args[i] in multiset(args);
    }
    forall j, k | 0 <= j < k < |args| ensures args[j].key != args[k].key {
      if args[j] == args[k] {
        Twice(args, j, k);
        Once(named, args[j]);
      }
    }
  }

  lemma Twice(s: seq<Pair>, j: nat, k: nat)
    requires j < k < |s| && s[j] == s[k]
    ensures multiset(s)[s[j]] >= 2
  {
    assert s == s[..j] + [s[j]] + s[j + 1..k] + [s[k]] + s[k + 1..];
  }

  lemma {:induction false} Once(s: seq<Pair>, x: Pair)
    requires forall i, j :: 0 <= i < j < |s| ==> s[i] != s[j]
    ensures multiset(s)[x] <= 1
  {
    if s != [] {
      var init := s[..|s| - 1];
      Once(init, x);
      assert s == init + [s[|s| - 1]];
      if s[|s| - 1] == x {
        assert forall i :: 0 <= i < |init| ==> init[i] == s[i];
        assert x !in init;
      }
    }
  }

  lemma DeleteSucceeds(existing: set<string>, keys: seq<string>, t: Table)
    requires ValidCommand(Delete(keys)) && WellFormed(t) && ToMap(t).Keys == existing && GeneratedValues(ToMap(t))
    requires Sample(keys, existing)
    ensures var u := ExecTable(Delete(keys), t);
            WellFormed(u) && ToMap(u).Keys == (existing - set key | key in keys) && GeneratedValues(ToMap(u))
    ensures ExecText(Delete(keys), t) == ""
  {
    DeleteMeans(keys, t);
    SampleArgs(keys, existing);
    NoneMissing(Args(Delete(keys)), 0, existing);
  }

  /** One command: the shadow stays the domain of the store, and nothing fails. */
  lemma CommandSucceeds(existing: set<string>, c: Command, t: Table)
    requires AllGenerated(existing) && MayChoose(existing, c) && Printable(c) && ValidCommand(c)
    requires WellFormed(t) && ToMap(t).Keys == existing && GeneratedValues(ToMap(t))
    ensures var u := ExecTable(c, t);
            WellFormed(u) && ToMap(u).Keys == Shadow(existing, c) && GeneratedValues(ToMap(u)) &&
              Succeeds(c, ExecText(c, t))
  {
    match c
    case Write(pairs) => WriteSucceeds(existing, pairs, t);
    case Read(keys) =>
      assert keys == [keys[0]];
      assert Named(c)[0].key == keys[0];
      ReadSucceeds(keys[0], t);
    case Delete(keys) => DeleteSucceeds(existing, keys, t);
    case _ =>
  }

  lemma {:induction false} ShadowIsDomain(existing: set<string>, cs: seq<Command>, t: Table)
    requires AllGenerated(existing) && Choices(existing, cs) && AllValid(cs)
    requires WellFormed(t) && ToMap(t).Keys == existing && GeneratedValues(ToMap(t))
    ensures ToMap(RunAll(t, cs)).Keys == FinalKeys(existing, cs)
    ensures AllSucceed(cs, Outputs(t, cs))
    decreases |cs|
  {
    if cs != [] {
      ChosenIsPrinted(existing, cs[0]);
      CommandSucceeds(existing, cs[0], t);
      var u := ExecTable(cs[0], t);
      ShadowIsDomain(Shadow(existing, cs[0]), cs[1..], u);
      assert Outputs(t, cs)[1..] == Outputs(u, cs[1..]);
    }
  }

  /**
   A generated file parses to what was chosen, leaves exactly the shadowed keys, and no READ or DELETE in
   it fails.
   */
  lemma GeneratedJobsSucceed(cs: seq<Command>)
    requires Choices({}, cs)
    ensures AllPrintable(cs) && AllValid(cs) && Script(PrintAll(cs)) == cs
    ensures ToMap(RunAll(EMPTY, cs)).Keys == FinalKeys({}, cs)
    ensures AllSucceed(cs, Outputs(EMPTY, cs))
  {
    ChoicesArePrintable({}, cs);
    ScriptReadsBack(cs);
    EmptyMap();
    ShadowIsDomain({}, cs, EMPTY);
  }
}
