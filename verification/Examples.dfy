/** The repository's own job files leave the files that stand beside them as expected results. */
module Examples {
  import opened Store
  import opened Commands
  import opened Sorting
  import opened Text
  import opened Grammar
  import opened RoundTrip
  import opened Lookahead
  import opened OneJob
  import opened Answers
  import Listing

  // Comments at the head of a file.

  /** Comment lines, and what follows them. */
  function Commented(lines: seq<string>, rest: string): string {
    if lines == [] then rest else "#" + lines[0] + "\n" + Commented(lines[1..], rest)
  }

  predicate Lines(lines: seq<string>) {
    forall i :: 0 <= i < |lines| ==> '\n' !in lines[i]
  }

  function Empties(n: nat): seq<Command> {
    if n == 0 then [] else [Empty] + Empties(n - 1)
  }

  lemma {:induction false} CommentsAreEmpty(lines: seq<string>, rest: string)
    requires Lines(lines)
    ensures Script(Commented(lines, rest)) == Empties(|lines|) + Script(rest)
  {
    if lines == [] {
      assert [] + Script(rest) == Script(rest);
    } else {
      var more := Commented(lines[1..], rest);
      CommentsAreEmpty(lines[1..], rest);
      CommentIsEmpty(lines[0], more);
      hide NextCommand, Script;
      Round("#" + lines[0] + "\n" + more, Empty, more);
      Assoc([Empty], Empties(|lines| - 1), Script(rest));
    }
  }

  // Running command by command.

  /** On `t` the commands print `text`, save `copies`, and leave `u`. */
  ghost predicate Does(t: Table, cs: seq<Command>, text: string, copies: seq<Table>, u: Table) {
    AllValid(cs) && Concat(Outputs(t, cs)) == text && Copies(t, cs) == copies && RunAll(t, cs) == u
  }

  lemma FirstParts(t: Table, c: Command, cs: seq<Command>)
    requires ValidCommand(c) && AllValid(cs)
    ensures AllValid([c] + cs) && RunAll(t, [c] + cs) == RunAll(ExecTable(c, t), cs)
    ensures Concat(Outputs(t, [c] + cs)) == ExecText(c, t) + Concat(Outputs(ExecTable(c, t), cs))
    ensures Copies(t, [c] + cs) == (if c.Backup? then [t] else []) + Copies(ExecTable(c, t), cs)
  {
    var ds := [c] + cs;
    assert ds[0] == c && ds[1..] == cs && forall i :: 0 <= i < |ds| ==> ds[i] == if i == 0 then c else cs[i - 1];
    hide ExecTable, ExecText, ValidCommand;
    assert Outputs(t, ds) == [ExecText(c, t)] + Outputs(ExecTable(c, t), cs);
  }

  /** On `t` the command prints `text` and leaves `u`. */
  ghost predicate Acts(t: Table, c: Command, text: string, u: Table) {
    ValidCommand(c) && ExecTable(c, t) == u && ExecText(c, t) == text
  }

  /** A command put in front. */
  lemma First(t: Table, c: Command, text: string, u: Table, cs: seq<Command>, more: string, copies: seq<Table>,
              v: Table)
    requires Acts(t, c, text, u) && !c.Backup? && Does(u, cs, more, copies, v)
    ensures Does(t, [c] + cs, text + more, copies, v) && (text == "" ==> Does(t, [c] + cs, more, copies, v))
  {
    FirstParts(t, c, cs);
    assert "" + more == more && [] + copies == copies;
    hide ExecTable, ExecText, ValidCommand, RunAll, Outputs, Copies, AllValid;
  }

  lemma BackupFirst(t: Table, cs: seq<Command>, more: string, copies: seq<Table>, v: Table)
    requires Does(t, cs, more, copies, v)
    ensures Does(t, [Backup] + cs, more, [t] + copies, v)
  {
    ShowKeeps(t);
    FirstParts(t, Backup, cs);
    assert "" + more == more;
    hide ExecTable, ExecText, ValidCommand, RunAll, Outputs, Copies, AllValid;
  }

  lemma {:induction false} EmptiesFirst(n: nat, t: Table, cs: seq<Command>, text: string, copies: seq<Table>, u: Table)
    requires Does(t, cs, text, copies, u)
    ensures Does(t, Empties(n) + cs, text, copies, u)
  {
    hide Does;
    if n == 0 {
      assert Empties(n) + cs == cs;
    } else {
      EmptiesFirst(n - 1, t, cs, text, copies, u);
      ShowKeeps(t);
      First(t, Empty, "", t, Empties(n - 1) + cs, text, copies, u);
      Assoc([Empty], Empties(n - 1), cs);
    }
  }

  lemma NoCommands(t: Table)
    ensures Does(t, [], "", [], t)
  {
  }

  // The commands of the examples.

  /** Pairs that stand in order are written from left to right. */
  lemma TwoWritten(p: Pair, q: Pair, t: Table)
    requires ValidKey(p.key) && ValidKey(q.key) && AtMost(p.key, q.key)
    ensures ValidCommand(Write([p, q]))
    ensures ExecTable(Write([p, q]), t) == WritePair(WritePair(t, p.key, p.value), q.key, q.value)
    ensures ExecText(Write([p, q]), t) == ""
  {
    var c := Write([p, q]);
    assert Sorted([p, q]);
    SortIsUnique([p, q], [p, q]);
    RunTwo(c, [p, q], t);
    hide Sort, WritePair, Hash;
  }

  lemma RunTwo(c: Command, args: seq<Pair>, t: Table)
    requires c.Write? && |args| == 2 && ValidPairs(args)
    ensures RunTable(c, args, 0, t) ==
            WritePair(WritePair(t, args[0].key, args[0].value), args[1].key, args[1].value)
    ensures RunText(c, args, 0, t, false) == ""
  {
    var u := StepTable(c, args[0], t);
    assert RunTable(c, args, 1, u) == RunTable(c, args, 2, StepTable(c, args[1], u));
    assert RunText(c, args, 1, u, false) == RunText(c, args, 2, StepTable(c, args[1], u), false);
    hide WritePair, Hash;
  }

  lemma OneWritten(p: Pair, t: Table)
    requires ValidKey(p.key)
    ensures ValidCommand(Write([p])) && ExecTable(Write([p]), t) == WritePair(t, p.key, p.value)
    ensures ExecText(Write([p]), t) == ""
  {
    var c := Write([p]);
    SortIsUnique([p], [p]);
    assert RunTable(c, [p], 0, t) == RunTable(c, [p], 1, StepTable(c, p, t));
    assert RunText(c, [p], 0, t, false) == RunText(c, [p], 1, StepTable(c, p, t), false);
    hide Sort, WritePair, Hash;
  }

  lemma OneDeleted(key: string, t: Table)
    requires ValidKey(key)
    ensures ValidCommand(Delete([key])) && ExecTable(Delete([key]), t) == DeletePair(t, key)
  {
    var c, p := Delete([key]), Pair(key, "");
    OneArgument(key);
    assert RunTable(c, [p], 0, t) == RunTable(c, [p], 1, StepTable(c, p, t));
    hide Sort, DeletePair, Hash;
  }

  /** A table with nodes in buckets 0 and 3 only. */
  function Table03(a: Chain, d: Chain): Table {
    EMPTY[0 := a][3 := d]
  }

  lemma Text03(a: Chain, d: Chain)
    ensures ExecText(Show, Table03(a, d)) == Listing.ChainLines(a) + Listing.ChainLines(d)
  {
    var t := Table03(a, d);
    assert t[0] == a && t[3] == d && forall b :: 1 <= b < TABLE_SIZE && b != 3 ==> t[b] == [];
    hide Table03;
    Listing.FullBucket(t, 0);
    Listing.FullBucket(t, 3);
    Listing.NoLines(t);
    hide Listing.TableLines, Listing.ChainLines;
    Listing.EmptyLines(t, 1, 3);
    Listing.EmptyLines(t, 4, TABLE_SIZE);
    assert Listing.ChainLines(d) + "" == Listing.ChainLines(d);
  }

  lemma WellFormed03(a: Chain, d: Chain)
    requires DistinctKeys(a) && InBucket(a, 0) && DistinctKeys(d) && InBucket(d, 3)
    ensures WellFormed(Table03(a, d))
  {
  }

  /** One round of the loop on a printed line. */
  lemma Line(c: Command, rest: string)
    requires Printable(c)
    ensures Script(Print(c) + rest) == [c] + Script(rest)
  {
    CommandReadsBack(c, rest);
    hide NextCommand, Print;
  }

  const ALENTEJO := Pair("Alentejo", "vinho-branco")
  const DOURO := Pair("Douro", "barca-velha")
  const DOURO2 := Pair("Douro", "meandro")
  const DAO := Pair("D\U{C3}\U{A3}o", "unico")
  const ALENTEJO2 := Pair("Alentejo", "espor\U{C3}\U{A3}o")
  const FREIJOAO := "freijo\U{C3}\U{A3}o"
  const BAIRRADA := Pair("Bairrada", "principal")

  lemma Buckets()
    ensures Hash(ALENTEJO.key) == 0 && Hash(DOURO.key) == 3 && Hash(DAO.key) == 3 && Hash(FREIJOAO) == 5
    ensures Hash(BAIRRADA.key) == 1 && DOURO2.key == DOURO.key && ALENTEJO2.key == ALENTEJO.key && DAO.key != DOURO.key
    ensures AtMost(ALENTEJO.key, DOURO.key) && AtMost(DOURO.key, DAO.key)
  {
  }

  lemma PairsAreClean()
    ensures CleanPair(ALENTEJO) && CleanPair(DOURO) && CleanPair(DOURO2) && CleanPair(DAO) && CleanPair(ALENTEJO2)
    ensures Clean(FREIJOAO) && CleanPair(BAIRRADA)
  {
  }

  // The lines of the examples.

  lemma PrintedOne(p: Pair)
    ensures PrintPairs([p]) == "(" + p.key + "," + p.value + ")"
  {
    assert PrintPairs([p]) == PrintPair(p) + PrintPairs([]);
    assert PrintPair(p) + "" == PrintPair(p);
  }

  lemma PrintedTwo(p: Pair, q: Pair)
    ensures PrintPairs([p, q]) == "(" + p.key + "," + p.value + ")" + ("(" + q.key + "," + q.value + ")")
  {
    PrintedOne(q);
    assert [p, q][1..] == [q];
  }

  lemma Brackets(text: string)
    ensures "WRITE " + ("[" + text + "]\n") == "WRITE [" + text + "]\n"
  {
  }

  lemma WriteLine(ps: seq<Pair>, text: string)
    requires 0 < |ps| < 3 && CleanPairs(ps) && PrintPairs(ps) == text
    ensures Printable(Write(ps)) && Print(Write(ps)) == "WRITE [" + text + "]\n"
  {
    Brackets(text);
    hide PrintPairs, CleanPair;
  }

  lemma PairTexts()
    ensures "(" + ALENTEJO.key + "," + ALENTEJO.value + ")" == "(Alentejo,vinho-branco)"
    ensures "(" + DOURO.key + "," + DOURO.value + ")" == "(Douro,barca-velha)"
    ensures "(" + BAIRRADA.key + "," + BAIRRADA.value + ")" == "(Bairrada,principal)"
  {
  }

  lemma LaterPairTexts()
    ensures "(" + DOURO2.key + "," + DOURO2.value + ")" == "(Douro,meandro)"
    ensures "(" + DAO.key + "," + DAO.value + ")" == "(D\U{C3}\U{A3}o,unico)"
    ensures "(" + ALENTEJO2.key + "," + ALENTEJO2.value + ")" == "(Alentejo,espor\U{C3}\U{A3}o)"
  {
  }

  lemma Writes()
    ensures Printable(Write([ALENTEJO, DOURO])) && Print(Write([ALENTEJO, DOURO])) ==
              "WRITE [" + ("(Alentejo,vinho-branco)" + "(Douro,barca-velha)") + "]\n"
    ensures Printable(Write([BAIRRADA])) && Print(Write([BAIRRADA])) == "WRITE [" + "(Bairrada,principal)" + "]\n"
  {
    PairsAreClean();
    PairTexts();
    PrintedTwo(ALENTEJO, DOURO);
    PrintedOne(BAIRRADA);
    hide PrintPairs, Clean, CleanPair, ALENTEJO, DOURO, BAIRRADA, Printable, Print;
    WriteLine([ALENTEJO, DOURO], "(Alentejo,vinho-branco)" + "(Douro,barca-velha)");
    WriteLine([BAIRRADA], "(Bairrada,principal)");
  }

  lemma LaterWrites()
    ensures Printable(Write([DOURO2, DAO])) && Print(Write([DOURO2, DAO])) ==
              "WRITE [" + ("(Douro,meandro)" + "(D\U{C3}\U{A3}o,unico)") + "]\n"
    ensures Printable(Write([ALENTEJO2])) && Print(Write([ALENTEJO2])) ==
              "WRITE [" + "(Alentejo,espor\U{C3}\U{A3}o)" + "]\n"
  {
    PairsAreClean();
    LaterPairTexts();
    PrintedTwo(DOURO2, DAO);
    PrintedOne(ALENTEJO2);
    hide PrintPairs, Clean, CleanPair, DOURO2, DAO, ALENTEJO2, Printable, Print;
    WriteLine([DOURO2, DAO], "(Douro,meandro)" + "(D\U{C3}\U{A3}o,unico)");
    WriteLine([ALENTEJO2], "(Alentejo,espor\U{C3}\U{A3}o)");
  }

  lemma Deletes()
    ensures Printable(Delete([FREIJOAO])) && Print(Delete([FREIJOAO])) == "DELETE [freijo\U{C3}\U{A3}o]\n"
    ensures Printable(Delete([ALENTEJO.key])) && Print(Delete([ALENTEJO.key])) == "DELETE [Alentejo]\n"
  {
    PairsAreClean();
    hide Clean;
  }

  // The job with BACKUPs.

  function Five(): seq<Command> {
    [Show, Backup, Write([ALENTEJO, DOURO]), Delete([FREIJOAO]), Show, Delete([ALENTEJO.key]), Show, Backup] + Five2()
  }

  function Five2(): seq<Command> {
    [Write([DOURO2, DAO]), Write([ALENTEJO2]), Show]
  }

  const FIVE_TEXT: string :=
    "SHOW\n" + ("BACKUP\n" + ("WRITE [" + ("(Alentejo,vinho-branco)" + "(Douro,barca-velha)") + "]\n"
    + ("DELETE [freijo\U{C3}\U{A3}o]\n" + ("SHOW\n" + ("DELETE [Alentejo]\n" + ("SHOW\n" + ("BACKUP\n"
    + FIVE_TEXT2)))))))

  const FIVE_TEXT2: string :=
    "WRITE [" + ("(Douro,meandro)" + "(D\U{C3}\U{A3}o,unico)") + "]\n"
    + ("WRITE [" + "(Alentejo,espor\U{C3}\U{A3}o)" + "]\n" + ("SHOW\n" + ""))

  lemma FiveParses()
    ensures Script(FIVE_TEXT) == Five()
  {
    Writes();
    Deletes();
    FiveParses2();
    hide Script, FIVE_TEXT2, Five2, ALENTEJO, DOURO, FREIJOAO;
    var s8 := FIVE_TEXT2;
    Line(Backup, s8);
    var s7 := "BACKUP\n" + s8;
    Line(Show, s7);
    var s6 := "SHOW\n" + s7;
    Line(Delete([ALENTEJO.key]), s6);
    var s5 := "DELETE [Alentejo]\n" + s6;
    Line(Show, s5);
    var s4 := "SHOW\n" + s5;
    Line(Delete([FREIJOAO]), s4);
    var s3 := "DELETE [freijo\U{C3}\U{A3}o]\n" + s4;
    Line(Write([ALENTEJO, DOURO]), s3);
    var s2 := Print(Write([ALENTEJO, DOURO])) + s3;
    Line(Backup, s2);
    Line(Show, "BACKUP\n" + s2);
  }

  lemma FiveParses2()
    ensures Script(FIVE_TEXT2) == Five2()
  {
    LaterWrites();
    assert Script("") == [];
    hide Script, DOURO2, DAO, ALENTEJO2;
    Line(Show, "");
    Line(Write([ALENTEJO2]), "SHOW\n" + "");
    Line(Write([DOURO2, DAO]), Print(Write([ALENTEJO2])) + ("SHOW\n" + ""));
  }

  // Running it.

  lemma Update03(a: Chain, d: Chain, c: Chain)
    ensures Table03(a, d)[0] == a && Table03(a, d)[3] == d && Table03(a, d)[5] == []
    ensures Table03(a, d)[0 := c] == Table03(c, d) && Table03(a, d)[3 := c] == Table03(a, c)
    ensures Table03(a, d)[5 := []] == Table03(a, d) && Table03([], []) == EMPTY
  {
  }

  lemma Chains()
    ensures WriteChain([], ALENTEJO.key, ALENTEJO.value) == [ALENTEJO]
    ensures WriteChain([], ALENTEJO2.key, ALENTEJO2.value) == [ALENTEJO2]
    ensures WriteChain([], DOURO.key, DOURO.value) == [DOURO]
    ensures WriteChain([DOURO], DOURO2.key, DOURO2.value) == [DOURO2]
    ensures WriteChain([DOURO2], DAO.key, DAO.value) == [DAO, DOURO2]
    ensures DeleteChain([ALENTEJO], ALENTEJO.key) == [] && DeleteChain([], FREIJOAO) == []
  {
    Buckets();
  }

  /** What the table becomes. */
  lemma FiveSteps()
    ensures var t1, t2 := Table03([ALENTEJO], [DOURO]), Table03([], [DOURO]);
            var t3, t4 := Table03([], [DAO, DOURO2]), Table03([ALENTEJO2], [DAO, DOURO2]);
            && WritePair(WritePair(EMPTY, ALENTEJO.key, ALENTEJO.value), DOURO.key, DOURO.value) == t1
            && DeletePair(t1, FREIJOAO) == t1 && DeletePair(t1, ALENTEJO.key) == t2
            && WritePair(WritePair(t2, DOURO2.key, DOURO2.value), DAO.key, DAO.value) == t3
            && WritePair(t3, ALENTEJO2.key, ALENTEJO2.value) == t4
  {
    Buckets();
    Chains();
    Update03([], [], [ALENTEJO]);
    Update03([ALENTEJO], [], [DOURO]);
    Update03([ALENTEJO], [DOURO], []);
    Update03([], [DOURO], [DOURO2]);
    Update03([], [DOURO2], [DAO, DOURO2]);
    Update03([], [DAO, DOURO2], [ALENTEJO2]);
    hide Table03, WriteChain, DeleteChain, Hash, ALENTEJO, DOURO, DOURO2, DAO, ALENTEJO2, FREIJOAO;
  }

  lemma FiveWellFormed()
    ensures WellFormed(Table03([ALENTEJO], [DOURO])) && ALENTEJO.key in ToMap(Table03([ALENTEJO], [DOURO]))
    ensures FREIJOAO !in ToMap(Table03([ALENTEJO], [DOURO]))
  {
    Buckets();
    WellFormed03([ALENTEJO], [DOURO]);
    Update03([ALENTEJO], [DOURO], []);
    hide WellFormed, Table03;
    ReadIsLookup(Table03([ALENTEJO], [DOURO]), ALENTEJO.key);
    ReadIsLookup(Table03([ALENTEJO], [DOURO]), FREIJOAO);
  }

  lemma ChainTexts()
    ensures Listing.ChainLines([]) == ""
    ensures Listing.ChainLines([ALENTEJO]) == "(Alentejo, vinho-branco)\n"
    ensures Listing.ChainLines([DOURO]) == "(Douro, barca-velha)\n"
  {
    OneLine(ALENTEJO);
    OneLine(DOURO);
    hide Listing.ChainLines;
  }

  lemma OneLine(p: Pair)
    ensures Listing.ChainLines([p]) == "(" + p.key + ", " + p.value + ")\n" && Listing.ChainLines([]) == ""
  {
    assert Listing.ChainLines([p]) == Listing.Line(p) + Listing.ChainLines([]);
  }

  lemma OtherChainText()
    ensures Listing.ChainLines([ALENTEJO2]) == "(Alentejo, espor\U{C3}\U{A3}o)\n"
  {
    OneLine(ALENTEJO2);
    hide Listing.ChainLines;
  }

  lemma LastChainText()
    ensures Listing.ChainLines([DAO, DOURO2]) == "(D\U{C3}\U{A3}o, unico)\n" + "(Douro, meandro)\n"
  {
    OneLine(DAO);
    OneLine(DOURO2);
    assert [DAO, DOURO2][1..] == [DOURO2];
    assert Listing.Line(DAO) == "(D\U{C3}\U{A3}o, unico)\n";
    assert Listing.Line(DOURO2) == "(Douro, meandro)\n";
  }

  const FIVE_OUT: string :=
    "[(freijo\U{C3}\U{A3}o,KVSMISSING)]\n"
    + ("(Alentejo, vinho-branco)\n" + "(Douro, barca-velha)\n"
    + ("(Douro, barca-velha)\n" + FIVE_OUT2))

  const FIVE_OUT2: string :=
    "(Alentejo, espor\U{C3}\U{A3}o)\n" + ("(D\U{C3}\U{A3}o, unico)\n" + "(Douro, meandro)\n")

  lemma ShowKeeps(t: Table)
    ensures Acts(t, Show, Listing.Text(t), t) && Acts(t, Backup, "", t) && Acts(t, Empty, "", t)
    ensures Acts(t, Invalid, "", t)
  {
  }

  lemma FiveChanges()
    ensures var t1, t2 := Table03([ALENTEJO], [DOURO]), Table03([], [DOURO]);
            && Acts(EMPTY, Write([ALENTEJO, DOURO]), "", t1)
            && Acts(t1, Delete([FREIJOAO]), "[(freijo\U{C3}\U{A3}o,KVSMISSING)]\n", t1)
            && Acts(t1, Delete([ALENTEJO.key]), "", t2)
  {
    var t1, t2 := Table03([ALENTEJO], [DOURO]), Table03([], [DOURO]);
    Buckets();
    FiveSteps();
    FiveWellFormed();
    hide Table03, WritePair, DeletePair, WellFormed, Hash, ExecTable, ExecText, ValidCommand, ToMap;
    TwoWritten(ALENTEJO, DOURO, EMPTY);
    OneDeleted(FREIJOAO, t1);
    OneDeleted(ALENTEJO.key, t1);
    DeleteOne(FREIJOAO, t1);
    DeleteOne(ALENTEJO.key, t1);
    assert "[(" + FREIJOAO + ",KVSMISSING)]\n" == "[(freijo\U{C3}\U{A3}o,KVSMISSING)]\n";
  }

  lemma FiveChanges2()
    ensures var t2, t3 := Table03([], [DOURO]), Table03([], [DAO, DOURO2]);
            && Acts(t2, Write([DOURO2, DAO]), "", t3)
            && Acts(t3, Write([ALENTEJO2]), "", Table03([ALENTEJO2], [DAO, DOURO2]))
  {
    Buckets();
    FiveSteps();
    hide Table03, WritePair, Hash, ExecTable, ExecText, ValidCommand;
    TwoWritten(DOURO2, DAO, Table03([], [DOURO]));
    OneWritten(ALENTEJO2, Table03([], [DAO, DOURO2]));
  }

  lemma FiveShows()
    ensures Acts(EMPTY, Show, "", EMPTY)
    ensures var t1 := Table03([ALENTEJO], [DOURO]);
            Acts(t1, Show, "(Alentejo, vinho-branco)\n" + "(Douro, barca-velha)\n", t1)
    ensures var t2 := Table03([], [DOURO]); Acts(t2, Show, "(Douro, barca-velha)\n", t2)
    ensures var t4 := Table03([ALENTEJO2], [DAO, DOURO2]); Acts(t4, Show, FIVE_OUT2, t4)
  {
    ChainTexts();
    OtherChainText();
    LastChainText();
    Update03([], [], []);
    Text03([], []);
    Text03([ALENTEJO], [DOURO]);
    Text03([], [DOURO]);
    Text03([ALENTEJO2], [DAO, DOURO2]);
    ShowKeeps(EMPTY);
    ShowKeeps(Table03([ALENTEJO], [DOURO]));
    ShowKeeps(Table03([], [DOURO]));
    ShowKeeps(Table03([ALENTEJO2], [DAO, DOURO2]));
    assert "" + "" == "" && "" + "(Douro, barca-velha)\n" == "(Douro, barca-velha)\n";
    hide Table03, Listing.ChainLines, ExecTable, ExecText, ALENTEJO, DOURO, ALENTEJO2, DAO, DOURO2;
  }

  lemma FiveRuns2()
    ensures Does(Table03([], [DOURO]), Five2(), FIVE_OUT2, [], Table03([ALENTEJO2], [DAO, DOURO2]))
  {
    FiveShows();
    FiveChanges2();
    NoCommands(Table03([ALENTEJO2], [DAO, DOURO2]));
    hide *;
    ThreeRun(Table03([], [DOURO]), Write([DOURO2, DAO]), Table03([], [DAO, DOURO2]), Write([ALENTEJO2]),
             Table03([ALENTEJO2], [DAO, DOURO2]), FIVE_OUT2);
    FiveIs();
  }

  lemma FiveIs()
    ensures Five2() == [Write([DOURO2, DAO])] + ([Write([ALENTEJO2])] + ([Show] + []))
    ensures Five() == [Show] + ([Backup] + ([Write([ALENTEJO, DOURO])] + ([Delete([FREIJOAO])] + ([Show]
                    + ([Delete([ALENTEJO.key])] + ([Show] + ([Backup] + Five2())))))))
    ensures FIVE_OUT == "[(freijo\U{C3}\U{A3}o,KVSMISSING)]\n"
                      + ("(Alentejo, vinho-branco)\n" + "(Douro, barca-velha)\n"
                      + ("(Douro, barca-velha)\n" + FIVE_OUT2))
  {
  }

  lemma ThreeRun(t: Table, c: Command, u: Table, d: Command, v: Table, text: string)
    requires Acts(t, c, "", u) && Acts(u, d, "", v) && Acts(v, Show, text, v) && Does(v, [], "", [], v)
    requires !c.Backup? && !d.Backup?
    ensures Does(t, [c] + ([d] + ([Show] + [])), text, [], v)
  {
    assert text + "" == text;
    hide Acts, Does;
    First(v, Show, text, v, [], "", [], v);
    First(u, d, "", v, [Show] + [], text, [], v);
    First(t, c, "", u, [d] + ([Show] + []), text, [], v);
  }

  lemma EightRun(t0: Table, w: Command, t1: Table, d: Command, m: string, s1: string, e: Command, t2: Table, s2: string,
                 cs: seq<Command>, more: string, t4: Table)
    requires Acts(t0, Show, "", t0) && Acts(t0, w, "", t1) && Acts(t1, d, m, t1) && Acts(t1, Show, s1, t1)
    requires Acts(t1, e, "", t2) && Acts(t2, Show, s2, t2) && Does(t2, cs, more, [], t4)
    requires !w.Backup? && !d.Backup? && !e.Backup?
    ensures Does(t0, [Show] + ([Backup] + ([w] + ([d] + ([Show] + ([e] + ([Show] + ([Backup] + cs))))))),
                 m + (s1 + (s2 + more)), [t0, t2], t4)
  {
    hide Acts, Does;
    assert [t2] + [] == [t2] && [t0] + [t2] == [t0, t2];
    var c7 := [Show] + ([Backup] + cs);
    var c5 := [Show] + ([e] + c7);
    var c3 := [w] + ([d] + c5);
    BackupFirst(t2, cs, more, [], t4);
    First(t2, Show, s2, t2, [Backup] + cs, more, [t2], t4);
    First(t1, e, "", t2, c7, s2 + more, [t2], t4);
    First(t1, Show, s1, t1, [e] + c7, s2 + more, [t2], t4);
    First(t1, d, m, t1, c5, s1 + (s2 + more), [t2], t4);
    First(t0, w, "", t1, [d] + c5, m + (s1 + (s2 + more)), [t2], t4);
    BackupFirst(t0, c3, m + (s1 + (s2 + more)), [t2], t4);
    First(t0, Show, "", t0, [Backup] + c3, m + (s1 + (s2 + more)), [t0, t2], t4);
  }

  lemma FiveRuns()
    ensures Does(EMPTY, Five(), FIVE_OUT, [EMPTY, Table03([], [DOURO])], Table03([ALENTEJO2], [DAO, DOURO2]))
  {
    FiveShows();
    FiveChanges();
    FiveRuns2();
    FiveIs();
    hide *;
    EightRun(EMPTY, Write([ALENTEJO, DOURO]), Table03([ALENTEJO], [DOURO]), Delete([FREIJOAO]),
             "[(freijo\U{C3}\U{A3}o,KVSMISSING)]\n", "(Alentejo, vinho-branco)\n" + "(Douro, barca-velha)\n",
             Delete([ALENTEJO.key]), Table03([], [DOURO]), "(Douro, barca-velha)\n", Five2(), FIVE_OUT2,
             Table03([ALENTEJO2], [DAO, DOURO2]));
  }

  // The job with READs, and a WRITE in the wrong form.

  function Two(): seq<Command> {
    [Write([ALENTEJO, DOURO])] + ([Write([BAIRRADA])] + ([Read([FREIJOAO])] + ([Read([BAIRRADA.key])]
    + ([Invalid] + ([Read([ALENTEJO.key, DOURO.key])] + [])))))
  }

  const TWO_TEXT: string :=
    "WRITE [" + ("(Alentejo,vinho-branco)" + "(Douro,barca-velha)") + "]\n"
    + ("WRITE [" + "(Bairrada,principal)" + "]\n" + ("READ [freijo\U{C3}\U{A3}o]\n" + ("READ [Bairrada]\n"
    + ("WRITE [bairrada.alentejo]\n" + ("READ [Alentejo,Douro]\n" + "")))))

  const TWO_OUT: string :=
    "[(freijo\U{C3}\U{A3}o,KVSERROR)]\n" + ("[(Bairrada,principal)]\n"
    + ("[" + ("(Alentejo,vinho-branco)" + "(Douro,barca-velha)") + "]\n" + ""))

  lemma ReadLine(key: string)
    requires Clean(key)
    ensures Printable(Read([key])) && Print(Read([key])) == "READ [" + key + "]\n"
  {
    assert "READ " + ("[" + key + "]\n") == "READ [" + key + "]\n";
    hide Clean;
  }

  lemma ReadTwoLine(k: string, l: string)
    requires Clean(k) && Clean(l)
    ensures Printable(Read([k, l])) && Print(Read([k, l])) == "READ [" + (k + "," + l) + "]\n"
  {
    assert PrintKeys([k, l]) == k + "," + PrintKeys([l]);
    assert "READ " + ("[" + (k + "," + l) + "]\n") == "READ [" + (k + "," + l) + "]\n";
    hide Clean;
  }

  lemma ReadTexts()
    ensures "READ [" + FREIJOAO + "]\n" == "READ [freijo\U{C3}\U{A3}o]\n"
    ensures "READ [" + BAIRRADA.key + "]\n" == "READ [Bairrada]\n"
    ensures "READ [" + (ALENTEJO.key + "," + DOURO.key) + "]\n" == "READ [Alentejo,Douro]\n"
  {
  }

  lemma Reads()
    ensures Printable(Read([FREIJOAO])) && Print(Read([FREIJOAO])) == "READ [freijo\U{C3}\U{A3}o]\n"
    ensures Printable(Read([BAIRRADA.key])) && Print(Read([BAIRRADA.key])) == "READ [Bairrada]\n"
    ensures Printable(Read([ALENTEJO.key, DOURO.key]))
    ensures Print(Read([ALENTEJO.key, DOURO.key])) == "READ [Alentejo,Douro]\n"
  {
    PairsAreClean();
    ReadTexts();
    hide Clean, Printable, Print, ALENTEJO, DOURO, BAIRRADA, FREIJOAO;
    ReadLine(FREIJOAO);
    ReadLine(BAIRRADA.key);
    ReadTwoLine(ALENTEJO.key, DOURO.key);
  }

  /** No '(' behind the '[': the line is skipped. */
  lemma WrongForm(c: char, line: string, rest: string)
    requires c != '(' && '\n' !in line
    ensures Script("WRITE [" + ([c] + (line + "\n" + rest))) == [Invalid] + Script(rest)
  {
    var t := line + "\n" + rest;
    LineIsSkipped(line, rest);
    assert "WRITE [" + ([c] + t) == "WRITE " + ("[" + ([c] + t));
    WriteWordReadsBack("[" + ([c] + t));
    assert ("[" + ([c] + t))[1..] == [c] + t && ([c] + t)[1..] == t;
    hide GetNext, Cleanup, Script;
    Round("WRITE [" + ([c] + t), Invalid, rest);
  }

  lemma WrongFormText(rest: string)
    ensures "WRITE [bairrada.alentejo]\n" + rest == "WRITE [" + (['b'] + ("airrada.alentejo]" + "\n" + rest))
  {
  }

  lemma TwoParses()
    ensures Script(TWO_TEXT) == Two()
  {
    Writes();
    Reads();
    assert Script("") == [];
    hide Script, ALENTEJO, DOURO, FREIJOAO, BAIRRADA;
    var s6 := "READ [Alentejo,Douro]\n" + "";
    Line(Read([ALENTEJO.key, DOURO.key]), "");
    WrongFormText(s6);
    WrongForm('b', "airrada.alentejo]", s6);
    var s5 := "WRITE [bairrada.alentejo]\n" + s6;
    Line(Read([BAIRRADA.key]), s5);
    var s4 := "READ [Bairrada]\n" + s5;
    Line(Read([FREIJOAO]), s4);
    var s3 := "READ [freijo\U{C3}\U{A3}o]\n" + s4;
    Line(Write([BAIRRADA]), s3);
    Line(Write([ALENTEJO, DOURO]), Print(Write([BAIRRADA])) + s3);
  }

  /** The table holds these pairs and not this key. */
  ghost predicate Stores(t: Table, p: Pair, q: Pair, r: Pair, key: string) {
    && WellFormed(t) && key !in ToMap(t)
    && p.key in ToMap(t) && ToMap(t)[p.key] == p.value
    && q.key in ToMap(t) && ToMap(t)[q.key] == q.value
    && r.key in ToMap(t) && ToMap(t)[r.key] == r.value
  }

  lemma ThreeStored(p: Pair, q: Pair, r: Pair, key: string) returns (t1: Table, t2: Table)
    requires ValidKey(p.key) && ValidKey(q.key) && ValidKey(r.key) && AtMost(p.key, q.key)
    requires p.key != q.key && r.key != p.key && r.key != q.key && key != p.key && key != q.key && key != r.key
    ensures Acts(EMPTY, Write([p, q]), "", t1) && Acts(t1, Write([r]), "", t2) && Stores(t2, p, q, r, key)
  {
    hide WellFormed, ToMap, WritePair, ExecTable, ExecText, ValidCommand, Hash, AtMost;
    TwoWritten(p, q, EMPTY);
    t1 := ExecTable(Write([p, q]), EMPTY);
    OneWritten(r, t1);
    t2 := ExecTable(Write([r]), t1);
    EmptyMap();
    WriteIsUpdate(EMPTY, p.key, p.value);
    WriteIsUpdate(WritePair(EMPTY, p.key, p.value), q.key, q.value);
    WriteIsUpdate(t1, r.key, r.value);
  }

  lemma OneRead(key: string, t: Table)
    requires WellFormed(t) && ValidKey(key)
    ensures Acts(t, Read([key]),
                 if key in ToMap(t) then "[(" + key + "," + ToMap(t)[key] + ")]\n" else "[(" + key + ",KVSERROR)]\n", t)
  {
    hide WellFormed, ToMap, ExecTable, ExecText, Hash;
    ReadOne(key, t);
    ReadMeans([key], t);
  }

  lemma TwoRead(k: string, l: string, t: Table)
    requires WellFormed(t) && ValidKey(k) && ValidKey(l) && AtMost(k, l) && k in ToMap(t) && l in ToMap(t)
    ensures Acts(t, Read([k, l]),
                 "[" + ("(" + k + "," + ToMap(t)[k] + ")" + ("(" + l + "," + ToMap(t)[l] + ")")) + "]\n", t)
  {
    var x, y := "(" + k + "," + ToMap(t)[k] + ")", "(" + l + "," + ToMap(t)[l] + ")";
    KeysInOrder(k, l);
    TwoConcat(x, y);
    assert forall i :: 0 <= i < 2 ==>
      var key := [k, l][i];
      [x, y][i] == "(" + key + "," + (if key in ToMap(t) then ToMap(t)[key] else "KVSERROR") + ")";
    hide WellFormed, ToMap, ExecTable, ExecText, Hash, SortedKeys, Concat, ValidCommand, AtMost;
    ReadMeans([k, l], t);
    ReadText([k, l], t, [x, y]);
  }

  lemma TwoConcat(x: string, y: string)
    ensures Concat([x, y]) == x + y
  {
    assert Concat([x, y]) == x + Concat([y]) && Concat([y]) == y + Concat([]);
    assert y + "" == y;
  }

  lemma KeysInOrder(k: string, l: string)
    requires AtMost(k, l) && ValidKey(k) && ValidKey(l)
    ensures SortedKeys([k, l]) == [k, l] && ValidCommand(Read([k, l]))
  {
    var args := [Pair(k, ""), Pair(l, "")];
    assert WithoutValues([k, l]) == args;
    assert Sorted(args);
    SortIsUnique(args, args);
    hide Hash, Sort, AtMost;
  }

  lemma AnswerTexts()
    ensures "[(" + FREIJOAO + ",KVSERROR)]\n" == "[(freijo\U{C3}\U{A3}o,KVSERROR)]\n"
    ensures "[(" + BAIRRADA.key + "," + BAIRRADA.value + ")]\n" == "[(Bairrada,principal)]\n"
  {
  }

  lemma KeysApart()
    ensures ALENTEJO.key != DOURO.key && BAIRRADA.key != ALENTEJO.key && BAIRRADA.key != DOURO.key
    ensures FREIJOAO != ALENTEJO.key && FREIJOAO != DOURO.key && FREIJOAO != BAIRRADA.key
  {
    assert ALENTEJO.key[0] == 'A' && DOURO.key[0] == 'D' && BAIRRADA.key[0] == 'B' && FREIJOAO[0] == 'f';
  }

  lemma SixRun(t0: Table, c: Command, t1: Table, d: Command, t2: Table, e: Command, x: string, f: Command, y: string,
               g: Command, z: string)
    requires Acts(t0, c, "", t1) && Acts(t1, d, "", t2)
    requires Acts(t2, e, x, t2) && Acts(t2, f, y, t2) && Acts(t2, g, z, t2)
    requires Backup !in {c, d, e, f, g}
    ensures Does(t0, [c] + ([d] + ([e] + ([f] + ([Invalid] + ([g] + []))))), x + (y + (z + "")), [], t2)
  {
    NoCommands(t2);
    ShowKeeps(t2);
    hide Acts, Does;
    First(t2, g, z, t2, [], "", [], t2);
    First(t2, Invalid, "", t2, [g] + [], z + "", [], t2);
    First(t2, f, y, t2, [Invalid] + ([g] + []), z + "", [], t2);
    First(t2, e, x, t2, [f] + ([Invalid] + ([g] + [])), y + (z + ""), [], t2);
    First(t1, d, "", t2, [e] + ([f] + ([Invalid] + ([g] + []))), x + (y + (z + "")), [], t2);
    First(t0, c, "", t1, [d] + ([e] + ([f] + ([Invalid] + ([g] + [])))), x + (y + (z + "")), [], t2);
  }

  lemma TwoRuns() returns (u: Table)
    ensures Does(EMPTY, Two(), TWO_OUT, [], u)
  {
    Buckets();
    KeysApart();
    PairTexts();
    AnswerTexts();
    hide Acts, Does, ALENTEJO, DOURO, FREIJOAO, BAIRRADA, WellFormed, ToMap, Hash, AtMost;
    var t1, t2 := ThreeStored(ALENTEJO, DOURO, BAIRRADA, FREIJOAO);
    OneRead(FREIJOAO, t2);
    OneRead(BAIRRADA.key, t2);
    TwoRead(ALENTEJO.key, DOURO.key, t2);
    SixRun(EMPTY, Write([ALENTEJO, DOURO]), t1, Write([BAIRRADA]), t2,
           Read([FREIJOAO]), "[(freijo\U{C3}\U{A3}o,KVSERROR)]\n",
           Read([BAIRRADA.key]), "[(Bairrada,principal)]\n",
           Read([ALENTEJO.key, DOURO.key]), "[" + ("(Alentejo,vinho-branco)" + "(Douro,barca-velha)") + "]\n");
    u := t2;
  }
}
