/** The word-mean job end to end: the mappers over a corpus cut into
    splits, any combiner runs, the shuffle, the reducer, the text sink, and
    the reader of that text. */
module WordMeanJob {
  import opened Wrappers
  import opened Numbers
  import opened Tokenizer
  import opened MapReduce
  import opened WordMean

  /** The mappers' emissions for a run of lines, line after line. */
  function MapLines(lines: seq<string>): seq<Pair> {
    if lines == [] then [] else MapLine(lines[0]) + MapLines(lines[1..])
  }

  /** All map tasks' emissions: one task per split, in split order. */
  function MapSplits(splits: seq<seq<string>>): seq<Pair> {
    if splits == [] then [] else MapLines(splits[0]) + MapSplits(splits[1..])
  }

  /** The corpus the splits were cut from. */
  function Flatten(splits: seq<seq<string>>): seq<string> {
    if splits == [] then [] else splits[0] + Flatten(splits[1..])
  }

  /** Every token of the corpus, in order. */
  function AllTokens(lines: seq<string>): seq<string> {
    if lines == [] then [] else Tokens(lines[0]) + AllTokens(lines[1..])
  }

  /** The number of non-delimiter characters in the corpus. */
  function CorpusChars(lines: seq<string>): nat {
    if lines == [] then 0 else Utf16Length(NonDelimiters(lines[0])) + CorpusChars(lines[1..])
  }

  lemma {:induction false} MapLinesAppend(a: seq<string>, b: seq<string>)
    ensures MapLines(a + b) == MapLines(a) + MapLines(b)
  {
    if a == [] {
      assert a + b == b;
    } else {
      assert (a + b)[1..] == a[1..] + b;
      MapLinesAppend(a[1..], b);
    }
  }

  /** Cutting the corpus into splits differently does not change what the
      mappers emit, only which task emits it. */
  lemma {:induction false} SplitsDoNotMatter(splits: seq<seq<string>>)
    ensures MapSplits(splits) == MapLines(Flatten(splits))
  {
    if splits != [] {
      SplitsDoNotMatter(splits[1..]);
      MapLinesAppend(splits[0], Flatten(splits[1..]));
    }
  }

  lemma {:induction false} MapTokensAppend(a: seq<string>, b: seq<string>)
    ensures MapTokens(a + b) == MapTokens(a) + MapTokens(b)
  {
    if a == [] {
      assert a + b == b;
    } else {
      assert (a + b)[1..] == a[1..] + b;
      MapTokensAppend(a[1..], b);
    }
  }

  lemma {:induction false} MapLinesIsMapTokens(lines: seq<string>)
    ensures MapLines(lines) == MapTokens(AllTokens(lines))
  {
    if lines != [] {
      MapLinesIsMapTokens(lines[1..]);
      MapTokensAppend(Tokens(lines[0]), AllTokens(lines[1..]));
    }
  }

  lemma {:induction false} SumLengthsAppend(a: seq<string>, b: seq<string>)
    ensures SumLengths(a + b) == SumLengths(a) + SumLengths(b)
  {
    if a == [] {
      assert a + b == b;
    } else {
      assert (a + b)[1..] == a[1..] + b;
      SumLengthsAppend(a[1..], b);
    }
  }

  lemma {:induction false} AllTokensLengths(lines: seq<string>)
    ensures SumLengths(AllTokens(lines)) == CorpusChars(lines)
  {
    if lines != [] {
      AllTokensLengths(lines[1..]);
      SumLengthsAppend(Tokens(lines[0]), AllTokens(lines[1..]));
      TokenLengthsSum(lines[0]);
    }
  }

  /** Over a corpus, the COUNT group sums to the number of tokens, the
      LENGTH group to the number of non-delimiter characters, and those
      are the only keys, present exactly when there is a token. */
  lemma CorpusGroups(lines: seq<string>)
    ensures Sum(Group(MapLines(lines), COUNT)) == |AllTokens(lines)|
    ensures Sum(Group(MapLines(lines), LENGTH)) == CorpusChars(lines)
    ensures KeysOf(MapLines(lines)) == if AllTokens(lines) == [] then {} else {COUNT, LENGTH}
  {
    var ts := AllTokens(lines);
    var ps := MapLines(lines);
    MapLinesIsMapTokens(lines);
    MapTokensGroups(ts, COUNT);
    SumOnes(|ts|);
    AllTokensLengths(lines);
    forall k ensures k in KeysOf(ps) <==> k in (if ts == [] then {} else {COUNT, LENGTH}) {
      MapTokensGroups(ts, k);
      GroupNonEmptyIff(ps, k);
    }
  }

  lemma SinkLineParses(key: string, v: int)
    requires key == COUNT || key == LENGTH
    requires InInt64(v)
    ensures ParseLine(SinkLine(Pair(key, v))) ==
      Success(if key == COUNT then SetCount(v) else SetLength(v))
  {
    var s := LongToString(v);
    assert IsWord(s);
    assert IsWord(key) by {
      assert forall i :: 0 <= i < |key| ==> key[i] in "countlength";
    }
    assert SinkLine(Pair(key, v)) == Join([key, s], '\t');
    ParseKeyValueLine(key, s, '\t');
    LongRoundTrip(v);
  }

  lemma SinkLinesOfTwo(p: Pair, q: Pair)
    ensures SinkLines([p, q]) == [SinkLine(p), SinkLine(q)]
  {
    assert [p, q][1..] == [q];
    assert [q][1..] == [];
  }

  lemma ReadTwoLines(x: string, y: string)
    requires ParseLine(x).Success? && ParseLine(y).Success?
    ensures ReadCounts([x, y]) == Success(Apply(Apply(Counts(0, 0), ParseLine(x).value), ParseLine(y).value))
  {
    var c1 := Apply(Counts(0, 0), ParseLine(x).value);
    var c2 := Apply(c1, ParseLine(y).value);
    assert [x, y][0] == x && [x, y][1..] == [y];
    assert [y][0] == y && [y][1..] == [];
    assert ReadFrom(c2, []) == Success(c2);
    assert ReadFrom(c1, [y]) == ReadFrom(c2, []);
    assert ReadFrom(Counts(0, 0), [x, y]) == ReadFrom(c1, [y]);
  }

  /** The sink's two lines, in either order, read back as the two totals. */
  lemma ReadBothTotals(out: seq<Pair>, c: int, l: int)
    requires InInt64(c) && InInt64(l)
    requires out == [Pair(COUNT, c), Pair(LENGTH, l)] || out == [Pair(LENGTH, l), Pair(COUNT, c)]
    ensures ReadCounts(SinkLines(out)) == Success(Counts(c, l))
  {
    SinkLinesOfTwo(out[0], out[1]);
    SinkLineParses(out[0].key, out[0].value);
    SinkLineParses(out[1].key, out[1].value);
    ReadTwoLines(SinkLine(out[0]), SinkLine(out[1]));
  }

  lemma EnumerateBoth(keys: seq<string>)
    requires Enumerates(keys, {COUNT, LENGTH})
    ensures keys == [COUNT, LENGTH] || keys == [LENGTH, COUNT]
  {
    EnumeratesSize(keys, {COUNT, LENGTH});
    assert keys[0] in keys && keys[1] in keys;
  }

  /** The reducer's output on the raw emissions of a corpus, read back. */
  lemma ReduceCorpus(corpus: seq<string>, keys: seq<string>)
    requires Enumerates(keys, KeysOf(MapLines(corpus)))
    ensures ReadCounts(SinkLines(ReduceGroups(MapLines(corpus), keys))) ==
      Success(Counts(Wrap32(|AllTokens(corpus)|), Wrap32(CorpusChars(corpus))))
    ensures AllTokens(corpus) == [] ==> keys == []
  {
    var raw := MapLines(corpus);
    CorpusGroups(corpus);
    var c, l := IntSum(Group(raw, COUNT)), IntSum(Group(raw, LENGTH));
    if AllTokens(corpus) == [] {
      EnumeratesSize(keys, {});
      AllTokensLengths(corpus);
    } else {
      EnumerateBoth(keys);
      var out := ReduceGroups(raw, keys);
      ReduceGroupsAt(raw, keys, 0);
      ReduceGroupsAt(raw, keys, 1);
      assert out == [out[0], out[1]];
      ReadBothTotals(out, c, l);
    }
  }

  /** The whole job: however the corpus is cut into splits and however
      often the combiner runs on whatever runs of pairs, the reader gets
      back COUNT = the number of tokens and LENGTH = the number of
      non-delimiter characters (each narrowed to the reducer's 32-bit
      accumulator). An empty corpus writes no line and reads back 0 and 0. */
  lemma WordMeanEndToEnd(splits: seq<seq<string>>, steps: seq<Step>, keys: seq<string>)
    requires RunOk(MapSplits(splits), steps)
    requires Enumerates(keys, KeysOf(Run(MapSplits(splits), steps)))
    ensures var corpus := Flatten(splits);
      ReadCounts(SinkLines(ReduceGroups(Run(MapSplits(splits), steps), keys))) ==
        Success(Counts(Wrap32(|AllTokens(corpus)|), Wrap32(CorpusChars(corpus))))
    ensures AllTokens(Flatten(splits)) == [] ==> keys == []
  {
    SplitsDoNotMatter(splits);
    ReduceAfterCombining(MapSplits(splits), steps, keys);
    ReduceCorpus(Flatten(splits), keys);
  }

  lemma SmallLongs()
    ensures LongToString(20) == "20" && LongToString(4) == "4"
  {
    assert Digits(20) == Digits(2) + [DigitChar(0)];
  }

  /** The persisted lines "count TAB 4" and "length TAB 20", in either
      order, read back as count 4 and length 20. */
  lemma ReadExample()
    ensures ReadCounts(["length\t20", "count\t4"]) == Success(Counts(4, 20))
    ensures ReadCounts(["count\t4", "length\t20"]) == Success(Counts(4, 20))
  {
    SmallLongs();
    assert SinkLine(Pair(LENGTH, 20)) == "length\t20";
    assert SinkLine(Pair(COUNT, 4)) == "count\t4";
    SinkLinesOfTwo(Pair(LENGTH, 20), Pair(COUNT, 4));
    SinkLinesOfTwo(Pair(COUNT, 4), Pair(LENGTH, 20));
    ReadBothTotals([Pair(LENGTH, 20), Pair(COUNT, 4)], 4, 20);
    ReadBothTotals([Pair(COUNT, 4), Pair(LENGTH, 20)], 4, 20);
  }
}
