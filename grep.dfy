/** The distributed grep job: the mapper emits (file name, 1) once per
    successive match of the pattern in a line, and the reducer sums. The
    regular-expression engine itself is not modelled: a Searcher stands for
    the compiled pattern. As in java.util.regex, the text is the line's
    UTF-16 code units and every index counts code units. */
module Grep {
  import opened Wrappers
  import opened Numbers
  import opened MapReduce
  import opened Tokenizer

  /** A match: the code units text[start..end]. */
  datatype Span = Span(start: nat, end: nat)

  /** What the regex engine guarantees of a search from index i: a match, if
      one is reported, starts at or after i and lies inside the text. */
  ghost predicate SearchesForward(f: (seq<Unit>, nat) -> Option<Span>) {
    forall t: seq<Unit>, i: nat {:trigger f(t, i)} ::
      f(t, i).Some? ==> i <= f(t, i).value.start <= f(t, i).value.end <= |t|
  }

  /** The compiled pattern as the mapper uses it: given the text and an
      index, the engine's next match starting at or after that index. */
  type Searcher = f: (seq<Unit>, nat) -> Option<Span> | SearchesForward(f)
    witness (t: seq<Unit>, i: nat) => None

  /** Where Matcher.find searches after the match m: at its end, or one
      code unit further when m was empty, so that the same empty match is not found
      again. */
  function NextFrom(m: Span): nat {
    if m.end == m.start then m.end + 1 else m.end
  }

  /** The matches successive calls of find() report, searching from index
      from. Every find moves past at least one index, so there are at most
      as many matches as search positions left. */
  function MatchesFrom(search: Searcher, text: seq<Unit>, from: nat): (ms: seq<Span>)
    ensures ms != [] ==> from + |ms| <= |text| + 1
    decreases |text| + 1 - from
  {
    if from > |text| then []
    else match search(text, from)
      case None => []
      case Some(m) => [m] + MatchesFrom(search, text, NextFrom(m))
  }

  /** The matches in a line: at most one more than String.length(). */
  function Matches(search: Searcher, line: string): (ms: seq<Span>)
    ensures |ms| <= Utf16Length(line) + 1
  {
    MatchesFrom(search, Utf16(line), 0)
  }

  /** The matches lie inside the text, in order, and do not overlap: each
      starts where the previous one ended or later (strictly later after an
      empty match). */
  lemma {:induction false} MatchesInOrder(search: Searcher, text: seq<Unit>, from: nat)
    ensures var ms := MatchesFrom(search, text, from);
      && (forall i :: 0 <= i < |ms| ==> from <= ms[i].start <= ms[i].end <= |text|)
      && (forall i :: 0 < i < |ms| ==> NextFrom(ms[i - 1]) <= ms[i].start)
    decreases |text| + 1 - from
  {
    if from <= |text| && search(text, from).Some? {
      var m := search(text, from).value;
      var ms := MatchesFrom(search, text, from);
      MatchesInOrder(search, text, NextFrom(m));
      assert ms[1..] == MatchesFrom(search, text, NextFrom(m));
      forall i | 0 < i < |ms| ensures NextFrom(ms[i - 1]) <= ms[i].start {
        assert ms[i] == ms[1..][i - 1];
        if i > 1 { assert ms[i - 1] == ms[1..][i - 2]; }
      }
    }
  }

  /** java.util.regex.Matcher over the code units of one line: first and
      last delimit the previous match. first is -1 before the first find and
      after a search that failed; last then keeps its value, so a later find
      searches again from there. */
  class Matcher {
    const search: Searcher
    const text: seq<Unit>
    var first: int
    var last: nat

    ghost predicate Valid()
      reads this
    {
      last <= |text| && (first == -1 || 0 <= first <= last)
    }

    function NextSearchIndex(): nat
      reads this
    {
      if last == first then last + 1 else last
    }

    /** The matches that further calls of find() will report, up to the
        first call that fails. */
    ghost function Pending(): seq<Span>
      reads this
      requires Valid()
    {
      MatchesFrom(search, text, NextSearchIndex())
    }

    constructor (search: Searcher, line: string)
      ensures Valid() && this.search == search && text == Utf16(line)
      ensures Pending() == Matches(search, line)
    {
      this.search := search;
      text := Utf16(line);
      first := -1;
      last := 0;
    }

    method Find() returns (found: bool)
      requires Valid()
      modifies this
      ensures Valid()
      ensures found <==> old(Pending()) != []
      ensures found ==> Pending() == old(Pending())[1..]
      ensures found ==> first == old(Pending())[0].start && last == old(Pending())[0].end
      ensures !found ==> last == old(last)
      ensures !found ==> if old(NextSearchIndex()) > |text| then first == old(first) else first == -1
    {
      var from := NextSearchIndex();
      if from > |text| {
        return false;
      }
      match search(text, from)
      case None =>
        first := -1;
        return false;
      case Some(m) =>
        first, last := m.start, m.end;
        return true;
    }
  }

  /** The pairs the mapper emits for n matches in a file's line. */
  function Emissions(fileName: string, n: nat): (ps: seq<Pair>)
    ensures |ps| == n
  {
    seq(n, _ => Pair(fileName, 1))
  }

  /** The pairs the mapper emits for one line of the file fileName. */
  function MapLine(search: Searcher, fileName: string, line: string): (ps: seq<Pair>)
    ensures |ps| == |Matches(search, line)|
    ensures forall i :: 0 <= i < |ps| ==> ps[i] == Pair(fileName, 1)
  {
    Emissions(fileName, |Matches(search, line)|)
  }

  /** GrepMapper.map: one (file name, 1) per successive match. The pattern
      comes compiled, and the file name of the split is passed in. */
  method Map(text: string, fileName: string, search: Searcher, context: Context)
    modifies context
    ensures context.written == old(context.written) + MapLine(search, fileName, text)
  {
    var matcher := new Matcher(search, text);
    ghost var left := |matcher.Pending()|;
    var found := matcher.Find();
    while found
      invariant matcher.Valid() && matcher.search == search && matcher.text == Utf16(text)
      invariant found ==> left == |matcher.Pending()| + 1
      invariant !found ==> left == 0
      invariant context.written + Emissions(fileName, left) == old(context.written) + MapLine(search, fileName, text)
      decreases left
    {
      assert Emissions(fileName, left) == [Pair(fileName, 1)] + Emissions(fileName, left - 1);
      context.Write(fileName, 1);
      left := left - 1;
      found := matcher.Find();
    }
  }

  /** GrepReducer.reduce: an int accumulator over IntWritable values. */
  method Reduce(key: string, values: seq<int>, context: Context)
    requires forall i :: 0 <= i < |values| ==> InInt32(values[i])
    modifies context
    ensures context.written == old(context.written) + [Pair(key, IntSum(values))]
  {
    var sum := 0;
    var i := 0;
    while i < |values|
      invariant i <= |values|
      invariant sum == Wrap32(Sum(values[..i]))
      invariant context.written == old(context.written)
    {
      assert values[..i + 1][..i] == values[..i];
      Wrap32AddWrapped(Sum(values[..i]), values[i]);
      sum := Wrap32(sum + values[i]);
      i := i + 1;
    }
    assert values[..|values|] == values;
    context.Write(key, sum);
  }

  /** For a line with k matches the mapper emits exactly k pairs, all of
      them (file name, 1): the file's group gains k ones, no other key
      gains anything. */
  lemma MapLineGroups(search: Searcher, fileName: string, line: string, k: string)
    ensures |MapLine(search, fileName, line)| == |Matches(search, line)|
    ensures Group(MapLine(search, fileName, line), fileName) == Ones(|Matches(search, line)|)
    ensures k != fileName ==> Group(MapLine(search, fileName, line), k) == []
  {
    EmissionsGroups(fileName, |Matches(search, line)|, k);
  }

  lemma {:induction false} EmissionsGroups(fileName: string, n: nat, k: string)
    ensures Group(Emissions(fileName, n), fileName) == Ones(n)
    ensures k != fileName ==> Group(Emissions(fileName, n), k) == []
  {
    if n > 0 {
      EmissionsGroups(fileName, n - 1, k);
      assert Emissions(fileName, n)[1..] == Emissions(fileName, n - 1);
      assert Ones(n) == [1] + Ones(n - 1);
    }
  }

  // ---------------------------------------------------------------------
  // The job end to end.

  /** One input record: a line and the name of the file its split is from. */
  datatype Record = Record(fileName: string, line: string)

  /** All mappers' emissions over the records, record after record. */
  function MapRecords(search: Searcher, recs: seq<Record>): seq<Pair> {
    if recs == [] then []
    else MapLine(search, recs[0].fileName, recs[0].line) + MapRecords(search, recs[1..])
  }

  function MatchesIn(search: Searcher, fileName: string, r: Record): nat {
    if r.fileName == fileName then |Matches(search, r.line)| else 0
  }

  /** The number of matches over all lines of the file fileName. */
  function MatchTotal(search: Searcher, recs: seq<Record>, fileName: string): nat {
    if recs == [] then 0 else MatchesIn(search, fileName, recs[0]) + MatchTotal(search, recs[1..], fileName)
  }

  lemma {:induction false} GroupOfMapRecords(search: Searcher, recs: seq<Record>, fileName: string)
    ensures Group(MapRecords(search, recs), fileName) == Ones(MatchTotal(search, recs, fileName))
  {
    if recs != [] {
      var r := recs[0];
      GroupOfMapRecords(search, recs[1..], fileName);
      GroupAppend(MapLine(search, r.fileName, r.line), MapRecords(search, recs[1..]), fileName);
      MapLineGroups(search, r.fileName, r.line, fileName);
      OnesAppend(MatchesIn(search, fileName, r), MatchTotal(search, recs[1..], fileName));
    }
  }

  lemma OnesAppend(a: nat, b: nat)
    ensures Ones(a) + Ones(b) == Ones(a + b)
  {
  }

  /** The job's result: one output pair per file with at least one match,
      holding that file's total number of matches over all its lines (in
      the reducer's 32-bit accumulator). */
  lemma GrepEndToEnd(search: Searcher, recs: seq<Record>, keys: seq<string>)
    requires Enumerates(keys, KeysOf(MapRecords(search, recs)))
    ensures |ReduceGroups(MapRecords(search, recs), keys)| == |keys|
    ensures forall i :: 0 <= i < |keys| ==>
      ReduceGroups(MapRecords(search, recs), keys)[i] == Pair(keys[i], Wrap32(MatchTotal(search, recs, keys[i])))
    ensures forall f :: f in keys <==> MatchTotal(search, recs, f) > 0
  {
    var ps := MapRecords(search, recs);
    forall i | 0 <= i < |keys|
      ensures ReduceGroups(ps, keys)[i] == Pair(keys[i], Wrap32(MatchTotal(search, recs, keys[i])))
    {
      ReduceGroupsAt(ps, keys, i);
      GroupOfMapRecords(search, recs, keys[i]);
      SumOnes(MatchTotal(search, recs, keys[i]));
    }
    forall f ensures f in keys <==> MatchTotal(search, recs, f) > 0 {
      GroupOfMapRecords(search, recs, f);
      GroupNonEmptyIff(ps, f);
    }
  }

  lemma {:induction false} MatchTotalIsSumOf(search: Searcher, recs: seq<Record>, fileName: string, f: Record -> int)
    requires forall r :: f(r) == MatchesIn(search, fileName, r)
    ensures MatchTotal(search, recs, fileName) == SumOf(recs, f)
  {
    if recs != [] {
      MatchTotalIsSumOf(search, recs[1..], fileName, f);
    }
  }

  /** The count for a file does not depend on how records are batched or
      in which order workers process them. */
  lemma MatchTotalOrderFree(search: Searcher, recs: seq<Record>, recs': seq<Record>, fileName: string)
    requires multiset(recs) == multiset(recs')
    ensures MatchTotal(search, recs, fileName) == MatchTotal(search, recs', fileName)
  {
    var f := (r: Record) => MatchesIn(search, fileName, r);
    MatchTotalIsSumOf(search, recs, fileName, f);
    MatchTotalIsSumOf(search, recs', fileName, f);
    SumOfPermutation(recs, recs', f);
  }

  // ---------------------------------------------------------------------
  // Worked cases.

  predicate OccursAt(pat: seq<Unit>, t: seq<Unit>, j: nat) {
    j + |pat| <= |t| && t[j..j + |pat|] == pat
  }

  /** The leftmost occurrence of the non-empty literal pat in t at or
      after index i. */
  function FindLiteral(pat: seq<Unit>, t: seq<Unit>, i: nat): (r: Option<Span>)
    requires |pat| > 0
    ensures r.Some? ==> r.value == Span(r.value.start, r.value.start + |pat|) && i <= r.value.start
    ensures r.Some? ==> OccursAt(pat, t, r.value.start)
    ensures forall j :: i <= j && (r.None? || j < r.value.start) ==> !OccursAt(pat, t, j)
    decreases |t| - i
  {
    if i + |pat| > |t| then None
    else if t[i..i + |pat|] == pat then Some(Span(i, i + |pat|))
    else FindLiteral(pat, t, i + 1)
  }

  /** A pattern without metacharacters matches its own code units. */
  function LiteralSearcher(pat: string): Searcher
    requires |pat| > 0
  {
    (t: seq<Unit>, i: nat) => FindLiteral(Utf16(pat), t, i)
  }

  /** The code units of the ASCII texts of the examples below. */
  lemma FooUnits()
    ensures Utf16("foo") == [102, 111, 111]
  {
    Utf16Bmp("foo");
  }

  lemma FooBarUnits()
    ensures Utf16("foo bar") == [102, 111, 111, 32, 98, 97, 114]
  {
    var s := "foo bar";
    Utf16Bmp(s);
    assert Utf16(s)[3] == 32 && Utf16(s)[4] == 98 && Utf16(s)[5] == 97 && Utf16(s)[6] == 114;
  }

  lemma FooFooUnits()
    ensures Utf16("foo foo") == [102, 111, 111, 32, 102, 111, 111]
  {
    var s := "foo foo";
    Utf16Bmp(s);
    assert Utf16(s)[3] == 32 && Utf16(s)[4] == 102 && Utf16(s)[5] == 111 && Utf16(s)[6] == 111;
  }

  lemma FooBarMatches()
    ensures Matches(LiteralSearcher("foo"), "foo bar") == [Span(0, 3)]
  {
    var t := Utf16("foo bar");
    var foo := Utf16("foo");
    FooUnits();
    FooBarUnits();
    assert OccursAt(foo, t, 0);
    assert t[3..6][0] == 32 && t[4..7][0] == 98;
    assert !OccursAt(foo, t, 3) && !OccursAt(foo, t, 4);
    assert FindLiteral(foo, t, 0) == Some(Span(0, 3));
    assert FindLiteral(foo, t, 3) == None;
  }

  lemma FooFooMatches()
    ensures Matches(LiteralSearcher("foo"), "foo foo") == [Span(0, 3), Span(4, 7)]
  {
    var t := Utf16("foo foo");
    var foo := Utf16("foo");
    FooUnits();
    FooFooUnits();
    assert OccursAt(foo, t, 0) && OccursAt(foo, t, 4);
    assert t[3..6][0] == 32;
    assert !OccursAt(foo, t, 3);
    assert FindLiteral(foo, t, 0) == Some(Span(0, 3));
    assert FindLiteral(foo, t, 3) == Some(Span(4, 7));
    assert FindLiteral(foo, t, 7) == None;
    assert MatchesFrom(LiteralSearcher("foo"), t, 7) == [];
  }

  /** The empty pattern: an empty match at every index it is asked about. */
  function EmptyPattern(): Searcher {
    (t: seq<Unit>, i: nat) => if i <= |t| then Some(Span(i, i)) else None
  }

  /** The empty pattern on a line holding one character beyond the Basic
      Multilingual Plane: find() steps one code unit past each empty match,
      so it matches before, between and after the two surrogates, and the
      mapper writes three pairs. */
  lemma EmptyMatchesPerCodeUnit()
    ensures Matches(EmptyPattern(), "\U{1F600}") == [Span(0, 0), Span(1, 1), Span(2, 2)]
    ensures MapLine(EmptyPattern(), "a.txt", "\U{1F600}") == [Pair("a.txt", 1), Pair("a.txt", 1), Pair("a.txt", 1)]
  {
    var t := Utf16("\U{1F600}");
    assert |t| == 2;
    var e := EmptyPattern();
    assert MatchesFrom(e, t, 3) == [];
    assert MatchesFrom(e, t, 2) == [Span(2, 2)];
    assert MatchesFrom(e, t, 1) == [Span(1, 1), Span(2, 2)];
  }

  /** The pattern ^: an empty match at index 0 and nowhere else. */
  function StartAnchor(): Searcher {
    (t: seq<Unit>, i: nat) => if i == 0 then Some(Span(0, 0)) else None
  }

  /** ^ on "b": find() reports the match, then fails searching from index 1.
      The failed search sets first to -1 and keeps last at 0, so the third
      find() searches from 0 again and reports the match once more. */
  method StartAnchorFindsAgain() returns (f1: bool, f2: bool, f3: bool)
    ensures f1 && !f2 && f3
  {
    var m := new Matcher(StartAnchor(), "b");
    f1 := m.Find();
    f2 := m.Find();
    f3 := m.Find();
  }

  /** The empty pattern on "": find() reports the match at 0. The next
      search would start past the end, so find() fails and leaves first
      and last as they were, and every later find() fails the same way. */
  method EmptyTextFindsOnce() returns (f1: bool, f2: bool, f3: bool)
    ensures f1 && !f2 && !f3
  {
    var m := new Matcher(EmptyPattern(), "");
    f1 := m.Find();
    f2 := m.Find();
    f3 := m.Find();
  }

  /** File a.txt with lines "foo bar" and "foo foo", pattern foo: the
      reducer writes 3 for a.txt. */
  lemma GrepExample()
    ensures var recs := [Record("a.txt", "foo bar"), Record("a.txt", "foo foo")];
      ReduceGroups(MapRecords(LiteralSearcher("foo"), recs), ["a.txt"]) == [Pair("a.txt", 3)]
  {
    var search := LiteralSearcher("foo");
    var recs := [Record("a.txt", "foo bar"), Record("a.txt", "foo foo")];
    FooBarMatches();
    FooFooMatches();
    assert MatchTotal(search, recs, "a.txt") == 3 by {
      assert recs[1..][1..] == [];
    }
    GroupOfMapRecords(search, recs, "a.txt");
    SumOnes(3);
  }
}
