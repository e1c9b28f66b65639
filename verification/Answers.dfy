/** What READ and DELETE print, byte by byte, and what a reader of the output can tell from it. */
module Answers {
  import opened Store
  import opened Sorting
  import opened Commands
  import opened Text
  import Listing

  /** What READ shows of a key. */
  function Shown(m: map<string, string>, key: string): string {
    if key in m then m[key] else "KVSERROR"
  }

  /** The keys of a command in the order in which it visits them. */
  function SortedKeys(keys: seq<string>): (r: seq<string>)
    ensures |r| == |keys|
  {
    KeysOf(Sort(WithoutValues(keys)))
  }

  /** They are the user's keys, each as often, in `strcmp` order. */
  lemma SortedKeysAre(keys: seq<string>)
    ensures multiset(SortedKeys(keys)) == multiset(keys)
    ensures forall i, j :: 0 <= i < j < |keys| ==> AtMost(SortedKeys(keys)[i], SortedKeys(keys)[j])
  {
    SortIsStable(WithoutValues(keys));
    forall k ensures multiset(SortedKeys(keys))[k] == multiset(keys)[k] {
      ArgsNameTheSame(keys, k);
      KeysFromIs(Args(Delete(keys)), 0);
      assert SortedKeys(keys)[0..] == SortedKeys(keys);
    }
  }

  lemma {:induction false} EntriesText(args: seq<Pair>, i: nat, m: map<string, string>, entries: seq<string>)
    requires i <= |args| == |entries|
    requires forall j :: i <= j < |args| ==> entries[j] == "(" + args[j].key + "," + Shown(m, args[j].key) + ")"
    ensures ReadEntries(args, i, m) == Concat(entries[i..])
    decreases |args| - i
  {
    if i < |args| {
      EntriesText(args, i + 1, m, entries);
      assert entries[i..][1..] == entries[i + 1..];
    }
  }

  /** READ prints "(key,value)" or "(key,KVSERROR)" for each of its sorted keys, in brackets, on a line. */
  lemma ReadText(keys: seq<string>, t: Table, entries: seq<string>)
    requires ValidCommand(Read(keys)) && WellFormed(t) && |entries| == |keys|
    requires forall i :: 0 <= i < |keys| ==>
               var key := SortedKeys(keys)[i];
               entries[i] == "(" + key + "," + (if key in ToMap(t) then ToMap(t)[key] else "KVSERROR") + ")"
    ensures ExecText(Read(keys), t) == "[" + Concat(entries) + "]\n"
  {
    ReadMeans(keys, t);
    var args := Args(Read(keys));
    assert forall i :: 0 <= i < |keys| ==> args[i].key == SortedKeys(keys)[i];
    hide ToMap, Sort;
    EntriesText(args, 0, ToMap(t), entries);
    assert entries[0..] == entries;
  }

  lemma OneArgument(key: string)
    ensures SortedKeys([key]) == [key] && Args(Read([key])) == [Pair(key, "")] == Args(Delete([key]))
  {
    assert WithoutValues([key]) == [Pair(key, "")];
    SortIsUnique([Pair(key, "")], [Pair(key, "")]);
  }

  lemma OneEntry(entry: string)
    ensures "[" + Concat([entry]) + "]\n" == "[" + entry + "]\n"
  {
    assert Concat([entry]) == entry + Concat([]);
    assert entry + "" == entry;
  }

  lemma EntryText(key: string, shown: string)
    ensures "[" + ("(" + key + "," + shown + ")") + "]\n" == "[(" + key + "," + shown + ")]\n"
    ensures "[(" + key + "," + "KVSERROR" + ")]\n" == "[(" + key + ",KVSERROR)]\n"
  {
    assert "," + "KVSERROR" == ",KVSERROR";
  }

  /** READ of one key. */
  lemma ReadOne(key: string, t: Table)
    requires ValidKey(key) && WellFormed(t)
    ensures ValidCommand(Read([key]))
    ensures ExecText(Read([key]), t) ==
            if key in ToMap(t) then "[(" + key + "," + ToMap(t)[key] + ")]\n" else "[(" + key + ",KVSERROR)]\n"
  {
    OneArgument(key);
    var shown := Shown(ToMap(t), key);
    var entry := "(" + key + "," + shown + ")";
    EntryText(key, shown);
    OneEntry(entry);
    assert ValidCommand(Read([key]));
    hide ToMap, Sort, Hash, WellFormed, ExecText, ValidCommand, Concat, SortedKeys;
    ReadText([key], t, [entry]);
  }

  /** Values the parser accepts. */
  predicate NoParenthesis(m: map<string, string>) {
    forall k :: k in m ==> ')' !in m[k]
  }

  lemma EntryTells(key: string, v: string, x: string, w: string, y: string)
    requires "(" + key + "," + v + ")" + x == "(" + key + "," + w + ")" + y && ')' !in v && ')' !in w
    ensures v == w && x == y
  {
    var a, n := "(" + key + "," + v + ")" + x, |key| + 2;
    assert a[n..] == v + [')'] + x;
    assert ("(" + key + "," + w + ")" + y)[n..] == w + [')'] + y;
    Listing.SplitAtFirst(v, x, w, y, ')');
  }

  lemma {:induction false} EntriesTell(args: seq<Pair>, i: nat, m: map<string, string>, n: map<string, string>)
    requires i <= |args| && NoParenthesis(m) && NoParenthesis(n)
    requires ReadEntries(args, i, m) + "]\n" == ReadEntries(args, i, n) + "]\n"
    ensures forall j :: i <= j < |args| ==> Shown(m, args[j].key) == Shown(n, args[j].key)
    decreases |args| - i
  {
    if i < |args| {
      var key := args[i].key;
      var x, y := ReadEntries(args, i + 1, m) + "]\n", ReadEntries(args, i + 1, n) + "]\n";
      NextEntry(args, i, m);
      NextEntry(args, i, n);
      EntryTells(key, Shown(m, key), x, Shown(n, key), y);
      EntriesTell(args, i + 1, m, n);
    }
  }

  lemma NextEntry(args: seq<Pair>, i: nat, m: map<string, string>)
    requires i < |args|
    ensures ReadEntries(args, i, m) + "]\n" ==
            "(" + args[i].key + "," + Shown(m, args[i].key) + ")" + (ReadEntries(args, i + 1, m) + "]\n")
  {
    Assoc("(" + args[i].key + "," + Shown(m, args[i].key) + ")", ReadEntries(args, i + 1, m), "]\n");
  }

  /** The text of a READ tells the value of every key it names, the value "KVSERROR" aside. */
  lemma ReadTells(keys: seq<string>, t: Table, u: Table)
    requires ValidCommand(Read(keys)) && WellFormed(t) && WellFormed(u)
    requires NoParenthesis(ToMap(t)) && NoParenthesis(ToMap(u))
    requires ExecText(Read(keys), t) == ExecText(Read(keys), u)
    ensures forall k :: k in keys ==>
              (if k in ToMap(t) then ToMap(t)[k] else "KVSERROR") == (if k in ToMap(u) then ToMap(u)[k] else "KVSERROR")
  {
    ReadMeans(keys, t);
    ReadMeans(keys, u);
    var args := Args(Read(keys));
    var x, y := ReadEntries(args, 0, ToMap(t)) + "]\n", ReadEntries(args, 0, ToMap(u)) + "]\n";
    hide ToMap, Sort, NoParenthesis;
    Assoc("[", ReadEntries(args, 0, ToMap(t)), "]\n");
    Assoc("[", ReadEntries(args, 0, ToMap(u)), "]\n");
    assert ("[" + x)[1..] == x && ("[" + y)[1..] == y;
    EntriesTell(args, 0, ToMap(t), ToMap(u));
    forall k | k in keys ensures Shown(ToMap(t), k) == Shown(ToMap(u), k) {
      var i := Position(keys, k);
      assert args[i].key == k;
    }
  }

  /** Where a key of the command comes to stand. */
  lemma Position(keys: seq<string>, key: string) returns (i: nat)
    requires key in keys
    ensures i < |keys| && Sort(WithoutValues(keys))[i].key == key
  {
    var j :| 0 <= j < |keys| && keys[j] == key;
    SortedValid(WithoutValues(keys));
    assert WithoutValues(keys)[j] in Sort(WithoutValues(keys));
    i :| 0 <= i < |keys| && Sort(WithoutValues(keys))[i] == WithoutValues(keys)[j];
  }

  // DELETE.

  /** What is printed about keys that were not found. */
  function Report(missing: seq<string>): string {
    if missing == [] then ""
    else "[" + Concat(seq(|missing|, i requires 0 <= i < |missing| => "(" + missing[i] + ",KVSMISSING)")) + "]\n"
  }

  lemma {:induction false} MissingText(missing: seq<string>, entries: seq<string>)
    requires |missing| == |entries|
    requires forall i :: 0 <= i < |missing| ==> entries[i] == "(" + missing[i] + ",KVSMISSING)"
    ensures MissingEntries(missing) == Concat(entries)
  {
    if missing != [] {
      MissingText(missing[1..], entries[1..]);
    }
  }

  lemma {:induction false} MissingAreSorted(args: seq<Pair>, i: nat, live: set<string>)
    requires i <= |args| && Sorted(args)
    ensures forall k :: k in Missing(args, i, live) ==> exists j :: i <= j < |args| && args[j].key == k
    ensures Ascending(Missing(args, i, live))
    decreases |args| - i
  {
    if i < |args| {
      var key := args[i].key;
      var rest := Missing(args, i + 1, if key in live then live - {key} else live);
      MissingAreSorted(args, i + 1, if key in live then live - {key} else live);
      hide AtMost;
      forall k | k in rest ensures AtMost(key, k) {
        var j :| i + 1 <= j < |args| && args[j].key == k;
      }
      FirstIsLeast(key, rest);
    }
  }

  predicate Ascending(keys: seq<string>) {
    forall a, b :: 0 <= a < b < |keys| ==> AtMost(keys[a], keys[b])
  }

  lemma FirstIsLeast(key: string, rest: seq<string>)
    requires Ascending(rest) && forall k :: k in rest ==> AtMost(key, k)
    ensures Ascending([key] + rest)
  {
  }

  /**
   DELETE prints nothing, or "(key,KVSMISSING)" for each key it missed, in `strcmp` order, in brackets, on a
   line: a key named n times n - 1 times if it was live, n times if not.
   */
  lemma DeleteText(keys: seq<string>, t: Table) returns (missing: seq<string>)
    requires ValidCommand(Delete(keys)) && WellFormed(t)
    ensures ExecText(Delete(keys), t) == Report(missing)
    ensures forall i, j :: 0 <= i < j < |missing| ==> AtMost(missing[i], missing[j])
    ensures forall k :: Count(missing, k) ==
                        if k in ToMap(t) && Count(keys, k) > 0 then Count(keys, k) - 1 else Count(keys, k)
  {
    var args, live := Args(Delete(keys)), ToMap(t).Keys;
    missing := Missing(args, 0, live);
    DeleteMeans(keys, t);
    SortIsStable(WithoutValues(keys));
    MissingAreSorted(args, 0, live);
    hide ToMap, Sort, AtMost, Missing, Report, ExecText, WellFormed, Hash;
    ReportText(missing);
    forall k
      ensures Count(missing, k) == if k in live && Count(keys, k) > 0 then Count(keys, k) - 1 else Count(keys, k)
    {
      MissingCount(keys, live, k);
    }
  }

  lemma ReportText(missing: seq<string>)
    ensures Report(missing) == if missing == [] then "" else "[" + (MissingEntries(missing) + "]\n")
  {
    MissingText(missing, seq(|missing|, i requires 0 <= i < |missing| => "(" + missing[i] + ",KVSMISSING)"));
    Assoc("[", MissingEntries(missing), "]\n");
  }

  /** DELETE of one key. */
  lemma DeleteOne(key: string, t: Table)
    requires ValidKey(key) && WellFormed(t)
    ensures ValidCommand(Delete([key]))
    ensures ExecText(Delete([key]), t) == if key in ToMap(t) then "" else "[(" + key + ",KVSMISSING)]\n"
  {
    OneArgument(key);
    DeleteMeans([key], t);
    hide ToMap, Sort, Hash, AtMost, WellFormed, ExecText, MissingEntries;
    OneMissing(key, ToMap(t).Keys);
    OneReport(key);
    ReportText([key]);
  }

  lemma OneMissing(key: string, live: set<string>)
    ensures Missing([Pair(key, "")], 0, live) == if key in live then [] else [key]
  {
    var args := [Pair(key, "")];
    assert Missing(args, 1, live) == [] == Missing(args, 1, live - {key});
  }

  lemma OneReport(key: string)
    ensures Report([key]) == "[(" + key + ",KVSMISSING)]\n"
  {
    var entry := "(" + key + ",KVSMISSING)";
    assert seq(|[key]|, i requires 0 <= i < |[key]| => "(" + [key][i] + ",KVSMISSING)") == [entry];
    OneEntry(entry);
    assert "[" + entry + "]\n" == "[(" + key + ",KVSMISSING)]\n";
  }

  predicate NoCommas(keys: seq<string>) {
    forall i :: 0 <= i < |keys| ==> ',' !in keys[i]
  }

  lemma ReportEntryTells(k: string, x: string, l: string, y: string)
    requires "(" + k + ",KVSMISSING)" + x == "(" + l + ",KVSMISSING)" + y && ',' !in k && ',' !in l
    ensures k == l && x == y
  {
    var x', y' := "KVSMISSING)" + x, "KVSMISSING)" + y;
    assert ("(" + k + ",KVSMISSING)" + x)[1..] == k + [','] + x';
    assert ("(" + l + ",KVSMISSING)" + y)[1..] == l + [','] + y';
    Listing.SplitAtFirst(k, x', l, y', ',');
    assert x == x'[|"KVSMISSING)"|..] && y == y'[|"KVSMISSING)"|..];
  }

  lemma EntriesOpen(ks: seq<string>)
    ensures (MissingEntries(ks) + "]\n")[0] == if ks == [] then ']' else '('
  {
  }

  lemma {:induction false} MissingEntriesTell(ks: seq<string>, ls: seq<string>)
    requires NoCommas(ks) && NoCommas(ls) && MissingEntries(ks) + "]\n" == MissingEntries(ls) + "]\n"
    ensures ks == ls
  {
    EntriesOpen(ks);
    EntriesOpen(ls);
    if ks != [] && ls != [] {
      var x, y := MissingEntries(ks[1..]) + "]\n", MissingEntries(ls[1..]) + "]\n";
      Assoc("(" + ks[0] + ",KVSMISSING)", MissingEntries(ks[1..]), "]\n");
      Assoc("(" + ls[0] + ",KVSMISSING)", MissingEntries(ls[1..]), "]\n");
      ReportEntryTells(ks[0], x, ls[0], y);
      MissingEntriesTell(ks[1..], ls[1..]);
      assert ks == [ks[0]] + ks[1..] && ls == [ls[0]] + ls[1..];
    }
  }

  /** A report tells its keys: what DELETE prints determines what it missed. */
  lemma ReportTells(ks: seq<string>, ls: seq<string>)
    requires NoCommas(ks) && NoCommas(ls) && Report(ks) == Report(ls)
    ensures ks == ls
  {
    ReportText(ks);
    ReportText(ls);
    hide Report;
    var x, y := MissingEntries(ks) + "]\n", MissingEntries(ls) + "]\n";
    assert ("[" + x)[1..] == x && ("[" + y)[1..] == y;
    if ks != [] && ls != [] {
      MissingEntriesTell(ks, ls);
    }
  }
}
