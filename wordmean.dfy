/** The word-mean job: a mapper that emits each token's length and a count
    of one, a summing reducer that also serves as the combiner, and the
    reader that parses the job's output back into the two totals. */
module WordMean {
  import opened Wrappers
  import opened Numbers
  import opened Tokenizer
  import opened MapReduce

  const LENGTH: string := "length"
  const COUNT: string := "count"
  const ONE: int := 1

  /** The pairs the mapper emits for the tokens ts: per token, its length
      under LENGTH and then ONE under COUNT. */
  function MapTokens(ts: seq<string>): (out: seq<Pair>)
    ensures |out| == 2 * |ts|
  {
    if ts == [] then []
    else [Pair(LENGTH, Utf16Length(ts[0])), Pair(COUNT, ONE)] + MapTokens(ts[1..])
  }

  /** The pairs the mapper emits for one line of input: two per token. */
  function MapLine(line: string): (out: seq<Pair>)
    ensures |out| == 2 * |Tokens(line)|
  {
    MapTokens(Tokens(line))
  }

  /** For the i-th token the mapper emits exactly two pairs, at 2i and
      2i+1: its length under LENGTH, then 1 under COUNT. */
  lemma {:induction false} MapTokensAt(ts: seq<string>, i: nat)
    requires i < |ts|
    ensures |MapTokens(ts)| == 2 * |ts|
    ensures MapTokens(ts)[2 * i] == Pair(LENGTH, Utf16Length(ts[i]))
    ensures MapTokens(ts)[2 * i + 1] == Pair(COUNT, 1)
  {
    var tail := MapTokens(ts[1..]);
    assert MapTokens(ts) == [Pair(LENGTH, Utf16Length(ts[0])), Pair(COUNT, ONE)] + tail;
    if i > 0 {
      MapTokensAt(ts[1..], i - 1);
      assert ts[i] == ts[1..][i - 1];
      assert MapTokens(ts)[2 * i] == tail[2 * (i - 1)];
      assert MapTokens(ts)[2 * i + 1] == tail[2 * (i - 1) + 1];
    }
  }

  lemma MapTokensShape(ts: seq<string>)
    ensures |MapTokens(ts)| == 2 * |ts|
    ensures forall i :: 0 <= i < |ts| ==>
      MapTokens(ts)[2 * i] == Pair(LENGTH, Utf16Length(ts[i])) && MapTokens(ts)[2 * i + 1] == Pair(COUNT, 1)
  {
    forall i | 0 <= i < |ts|
      ensures MapTokens(ts)[2 * i] == Pair(LENGTH, Utf16Length(ts[i])) && MapTokens(ts)[2 * i + 1] == Pair(COUNT, 1)
    {
      MapTokensAt(ts, i);
    }
  }

  /** A line's emissions: two per token, in the token order; a line that is
      empty or all delimiters emits nothing. */
  lemma MapLineShape(line: string)
    ensures |MapLine(line)| == 2 * |Tokens(line)|
    ensures forall i :: 0 <= i < |Tokens(line)| ==>
      MapLine(line)[2 * i] == Pair(LENGTH, Utf16Length(Tokens(line)[i])) && MapLine(line)[2 * i + 1] == Pair(COUNT, 1)
    ensures MapLine(line) == [] <==> forall j :: 0 <= j < |line| ==> IsDelimiter(line[j])
  {
    MapTokensShape(Tokens(line));
    NoTokensIffBlank(line);
  }

  /** The per-key groups of the mapper's emissions for tokens ts: one 1 per
      token under COUNT, the token lengths under LENGTH, nothing else. */
  lemma {:induction false} MapTokensGroups(ts: seq<string>, k: string)
    ensures Group(MapTokens(ts), COUNT) == Ones(|ts|)
    ensures Sum(Group(MapTokens(ts), LENGTH)) == SumLengths(ts)
    ensures |Group(MapTokens(ts), LENGTH)| == |ts|
    ensures k != COUNT && k != LENGTH ==> Group(MapTokens(ts), k) == []
  {
    if ts != [] {
      var head := [Pair(LENGTH, Utf16Length(ts[0])), Pair(COUNT, ONE)];
      MapTokensGroups(ts[1..], k);
      GroupAppend(head, MapTokens(ts[1..]), k);
      GroupAppend(head, MapTokens(ts[1..]), COUNT);
      GroupAppend(head, MapTokens(ts[1..]), LENGTH);
      assert head[1..][1..] == [];
      assert Group(head, COUNT) == [1];
      assert Group(head, LENGTH) == [Utf16Length(ts[0])];
      assert Ones(|ts|) == [1] + Ones(|ts| - 1);
      SumAppend([Utf16Length(ts[0])], Group(MapTokens(ts[1..]), LENGTH));
      assert [Utf16Length(ts[0])][..0] == [];
    }
  }

  /** Over one line, the COUNT values sum to the number of tokens and the
      LENGTH values to the number of non-delimiter characters. */
  lemma MapLineSums(line: string)
    ensures Sum(Group(MapLine(line), COUNT)) == |Tokens(line)|
    ensures Sum(Group(MapLine(line), LENGTH)) == SumLengths(Tokens(line)) == Utf16Length(NonDelimiters(line))
  {
    MapTokensGroups(Tokens(line), COUNT);
    SumOnes(|Tokens(line)|);
    TokenLengthsSum(line);
  }

  /** A character beyond the Basic Multilingual Plane is one token whose
      length, as String.length() counts it, is 2. */
  lemma SupplementaryCharLength()
    ensures MapLine("\U{1F600}") == [Pair(LENGTH, 2), Pair(COUNT, 1)]
  {
    WordTokens("\U{1F600}");
  }

  /** WordMeanMapper; wordlen is the LongWritable the source reuses for
      every token. */
  class WordMeanMapper {
    var wordlen: int

    constructor ()
      ensures wordlen == 0
    {
      wordlen := 0;
    }

    method Map(value: string, context: Context)
      modifies this, context
      ensures context.written == old(context.written) + MapLine(value)
    {
      var iter := new StringTokenizer(value);
      var more := iter.HasMoreTokens();
      while more
        invariant iter.Valid() && iter.str == value
        invariant more <==> iter.Remaining() != []
        invariant context.written + MapTokens(iter.Remaining()) == old(context.written) + MapLine(value)
        decreases |iter.Remaining()|
      {
        ghost var rest := iter.Remaining();
        var token := iter.NextToken();
        wordlen := Utf16Length(token.value);
        context.Write(LENGTH, wordlen);
        context.Write(COUNT, ONE);
        assert MapTokens(rest) == [Pair(LENGTH, wordlen), Pair(COUNT, ONE)] + MapTokens(iter.Remaining());
        more := iter.HasMoreTokens();
      }
    }
  }

  /** WordMeanReducer, registered both as reducer and as combiner; sum is
      the LongWritable it reuses for its output. */
  class WordMeanReducer {
    var sum: int

    constructor ()
      ensures sum == 0
    {
      sum := 0;
    }

    /** theSum is an int: `theSum += value.get()` adds in long and narrows
        the result back to int. */
    method Reduce(key: string, values: seq<int>, context: Context)
      modifies this, context
      ensures sum == IntSum(values)
      ensures context.written == old(context.written) + [Pair(key, IntSum(values))]
    {
      var theSum := 0;
      for i := 0 to |values|
        invariant theSum == Wrap32(Sum(values[..i]))
        invariant context.written == old(context.written)
      {
        assert values[..i + 1][..i] == values[..i];
        Wrap32OfWrap64(theSum + values[i]);
        Wrap32AddWrapped(Sum(values[..i]), values[i]);
        theSum := Wrap32(Wrap64(theSum + values[i]));
      }
      assert values[..|values|] == values;
      sum := theSum;
      context.Write(key, sum);
    }
  }

  // ---------------------------------------------------------------------
  // Reading the job's output back (readAndCalcMean, without the file
  // system and without the final floating-point division).

  /** The two totals the reader extracts; the mean is length / count. */
  datatype Counts = Counts(count: int, length: int)

  /** The exceptions the parsing loop can throw. */
  datatype ReadError =
    | NoSuchElement                // nextToken() with no token left
    | NumberFormat(input: string)  // Long.parseLong on a non-number

  /** What one output line does to the totals. */
  datatype Entry = SetCount(n: int) | SetLength(n: int) | Ignore

  /** One iteration of the reading loop on a line: the first token names
      the total, the second is parsed as its value. A line sets a total only
      to the parsed value of its second token, and throws NumberFormat only
      for that token. */
  function ParseLine(line: string): (r: Result<Entry, ReadError>)
    ensures r.Success? && !r.value.Ignore? ==>
      (&& |Tokens(line)| >= 2
       && Tokens(line)[0] == (if r.value.SetCount? then COUNT else LENGTH)
       && ParseLong(Tokens(line)[1]) == Success(r.value.n))
    ensures r.Failure? && r.error.NumberFormat? ==>
      (|Tokens(line)| >= 2 && r.error.input == Tokens(line)[1] && ParseLong(Tokens(line)[1]).Failure?)
    ensures r == Success(Ignore) <==> (Tokens(line) != [] && Tokens(line)[0] != COUNT && Tokens(line)[0] != LENGTH)
  {
    var ts := Tokens(line);
    if |ts| == 0 then Failure(NoSuchElement)
    else if ts[0] != COUNT && ts[0] != LENGTH then Success(Ignore)
    else if |ts| < 2 then Failure(NoSuchElement)
    else match ParseLong(ts[1])
      case Failure(s) => Failure(NumberFormat(s))
      case Success(n) => Success(if ts[0] == COUNT then SetCount(n) else SetLength(n))
  }

  /** An entry changes at most the total it names. */
  function Apply(c: Counts, e: Entry): (d: Counts)
    ensures e.SetCount? ==> d == Counts(e.n, c.length)
    ensures e.SetLength? ==> d == Counts(c.count, e.n)
    ensures e.Ignore? ==> d == c
  {
    match e
    case SetCount(n) => c.(count := n)
    case SetLength(n) => c.(length := n)
    case Ignore => c
  }

  /** The totals after reading lines, starting from c; the first line that
      throws ends the read. */
  function ReadFrom(c: Counts, lines: seq<string>): (r: Result<Counts, ReadError>)
    ensures r.Success? <==> forall j :: 0 <= j < |lines| ==> ParseLine(lines[j]).Success?
    decreases |lines|
  {
    if lines == [] then Success(c)
    else match ParseLine(lines[0])
      case Failure(e) => Failure(e)
      case Success(entry) => ReadFrom(Apply(c, entry), lines[1..])
  }

  /** The totals read from a whole output file; both start at 0, and the
      reader never invents a value: each total is 0 or was set by a line. */
  function ReadCounts(lines: seq<string>): (r: Result<Counts, ReadError>)
    ensures r.Success? ==>
      r.value.count == 0 || exists j :: 0 <= j < |lines| && ParseLine(lines[j]) == Success(SetCount(r.value.count))
    ensures r.Success? ==>
      r.value.length == 0 || exists j :: 0 <= j < |lines| && ParseLine(lines[j]) == Success(SetLength(r.value.length))
  {
    ReadFromOrigin(Counts(0, 0), lines);
    ReadFrom(Counts(0, 0), lines)
  }

  /** Each total after a read is the starting one or was set by a line. */
  lemma {:induction false} ReadFromOrigin(c: Counts, lines: seq<string>)
    ensures ReadFrom(c, lines).Success? ==>
      var d := ReadFrom(c, lines).value;
      && (d.count == c.count || exists j :: 0 <= j < |lines| && ParseLine(lines[j]) == Success(SetCount(d.count)))
      && (d.length == c.length || exists j :: 0 <= j < |lines| && ParseLine(lines[j]) == Success(SetLength(d.length)))
    decreases |lines|
  {
    if lines != [] && ReadFrom(c, lines).Success? {
      var e := ParseLine(lines[0]).value;
      var c' := Apply(c, e);
      ReadFromOrigin(c', lines[1..]);
      var d := ReadFrom(c', lines[1..]).value;
      assert ReadFrom(c, lines).value == d;
      if d.count != c'.count {
        var j :| 0 <= j < |lines[1..]| && ParseLine(lines[1..][j]) == Success(SetCount(d.count));
        assert lines[1..][j] == lines[j + 1];
      } else if e.SetCount? {
        assert ParseLine(lines[0]) == Success(SetCount(d.count));
      }
      if d.length != c'.length {
        var j :| 0 <= j < |lines[1..]| && ParseLine(lines[1..][j]) == Success(SetLength(d.length));
        assert lines[1..][j] == lines[j + 1];
      } else if e.SetLength? {
        assert ParseLine(lines[0]) == Success(SetLength(d.length));
      }
    }
  }

  /** The parsing loop of readAndCalcMean over the lines of the output
      file, returning the two totals or the exception it throws. */
  method ReadAndCalcMean(lines: seq<string>) returns (r: Result<Counts, ReadError>)
    ensures r == ReadCounts(lines)
  {
    var count := 0;
    var length := 0;
    var i := 0;
    while i < |lines|
      invariant i <= |lines|
      invariant ReadFrom(Counts(count, length), lines[i..]) == ReadCounts(lines)
    {
      var line := lines[i];
      assert lines[i..][1..] == lines[i + 1..];
      var tokenizer := new StringTokenizer(line);
      var type_ := tokenizer.NextToken();
      if type_.None? {
        return Failure(NoSuchElement);
      }
      if type_.value == COUNT {
        var countlit := tokenizer.NextToken();
        if countlit.None? {
          return Failure(NoSuchElement);
        }
        var parsed := ParseLong(countlit.value);
        if parsed.Failure? {
          return Failure(NumberFormat(parsed.error));
        }
        count := parsed.value;
      } else if type_.value == LENGTH {
        var lengthlit := tokenizer.NextToken();
        if lengthlit.None? {
          return Failure(NoSuchElement);
        }
        var parsed := ParseLong(lengthlit.value);
        if parsed.Failure? {
          return Failure(NumberFormat(parsed.error));
        }
        length := parsed.value;
      }
      i := i + 1;
    }
    return Success(Counts(count, length));
  }

  // Properties of the reader.

  lemma {:induction false} ReadFromAppend(c: Counts, a: seq<string>, b: seq<string>)
    ensures ReadFrom(c, a + b) ==
      match ReadFrom(c, a)
      case Failure(e) => Failure(e)
      case Success(c') => ReadFrom(c', b)
    decreases |a|
  {
    if a == [] {
      assert a + b == b;
    } else {
      assert (a + b)[1..] == a[1..] + b;
      match ParseLine(a[0])
      case Failure(e) =>
      case Success(entry) => ReadFromAppend(Apply(c, entry), a[1..], b);
    }
  }

  /** The read fails exactly when some line fails to parse, and then with
      the exception of the first such line. */
  lemma {:induction false} ReadFailsAtFirstBadLine(c: Counts, lines: seq<string>, i: nat)
    requires i < |lines| && ParseLine(lines[i]).Failure?
    requires forall j :: 0 <= j < i ==> ParseLine(lines[j]).Success?
    ensures ReadFrom(c, lines) == Failure(ParseLine(lines[i]).error)
    decreases |lines|
  {
    if i > 0 {
      ReadFailsAtFirstBadLine(Apply(c, ParseLine(lines[0]).value), lines[1..], i - 1);
    }
  }

  predicate SetsCount(line: string) {
    ParseLine(line).Success? && ParseLine(line).value.SetCount?
  }

  predicate SetsLength(line: string) {
    ParseLine(line).Success? && ParseLine(line).value.SetLength?
  }

  /** Lines that set neither total leave it where it was. */
  lemma {:induction false} ReadKeepsUnsetTotals(c: Counts, lines: seq<string>)
    requires ReadFrom(c, lines).Success?
    ensures (forall j :: 0 <= j < |lines| ==> !SetsCount(lines[j])) ==> ReadFrom(c, lines).value.count == c.count
    ensures (forall j :: 0 <= j < |lines| ==> !SetsLength(lines[j])) ==> ReadFrom(c, lines).value.length == c.length
    decreases |lines|
  {
    if lines != [] {
      var c' := Apply(c, ParseLine(lines[0]).value);
      ReadKeepsUnsetTotals(c', lines[1..]);
      if forall j :: 0 <= j < |lines| ==> !SetsCount(lines[j]) {
        assert !SetsCount(lines[0]);
        assert forall j :: 0 <= j < |lines[1..]| ==> !SetsCount(lines[1..][j]) by {
          forall j | 0 <= j < |lines[1..]| ensures !SetsCount(lines[1..][j]) {
            assert lines[1..][j] == lines[j + 1];
          }
        }
      }
      if forall j :: 0 <= j < |lines| ==> !SetsLength(lines[j]) {
        assert !SetsLength(lines[0]);
        assert forall j :: 0 <= j < |lines[1..]| ==> !SetsLength(lines[1..][j]) by {
          forall j | 0 <= j < |lines[1..]| ensures !SetsLength(lines[1..][j]) {
            assert lines[1..][j] == lines[j + 1];
          }
        }
      }
    }
  }

  /** A key that no line mentions keeps its initial 0. */
  lemma MissingKeyIsZero(lines: seq<string>)
    requires ReadCounts(lines).Success?
    ensures (forall j :: 0 <= j < |lines| ==> !SetsCount(lines[j])) ==> ReadCounts(lines).value.count == 0
    ensures (forall j :: 0 <= j < |lines| ==> !SetsLength(lines[j])) ==> ReadCounts(lines).value.length == 0
  {
    ReadKeepsUnsetTotals(Counts(0, 0), lines);
  }

  /** The last line that sets a total decides it: later lines for the same
      key override earlier ones. */
  lemma LastLineWins(lines: seq<string>, i: nat)
    requires ReadCounts(lines).Success?
    requires i < |lines| && ParseLine(lines[i]).Success? && !ParseLine(lines[i]).value.Ignore?
    ensures ParseLine(lines[i]).value.SetCount? && (forall j :: i < j < |lines| ==> !SetsCount(lines[j])) ==>
      ReadCounts(lines).value.count == ParseLine(lines[i]).value.n
    ensures ParseLine(lines[i]).value.SetLength? && (forall j :: i < j < |lines| ==> !SetsLength(lines[j])) ==>
      ReadCounts(lines).value.length == ParseLine(lines[i]).value.n
  {
    var a, b := lines[..i + 1], lines[i + 1..];
    assert lines == a + b;
    ReadFromAppend(Counts(0, 0), a, b);
    assert a == a[..i] + [lines[i]];
    ReadFromAppend(Counts(0, 0), a[..i], [lines[i]]);
    var mid := ReadFrom(Counts(0, 0), a).value;
    assert mid == Apply(ReadFrom(Counts(0, 0), a[..i]).value, ParseLine(lines[i]).value);
    ReadKeepsUnsetTotals(mid, b);
    forall j | 0 <= j < |b| ensures b[j] == lines[i + 1 + j] { }
  }

  /** Swapping two neighbouring lines that do not set the same total does
      not change what is read: the reader does not depend on the order of
      the count and length lines. */
  lemma SwapNeighbours(lines: seq<string>, i: nat)
    requires i + 1 < |lines|
    requires ParseLine(lines[i]).Success? && ParseLine(lines[i + 1]).Success?
    requires !(SetsCount(lines[i]) && SetsCount(lines[i + 1]))
    requires !(SetsLength(lines[i]) && SetsLength(lines[i + 1]))
    ensures ReadCounts(lines[..i] + [lines[i + 1], lines[i]] + lines[i + 2..]) == ReadCounts(lines)
  {
    var p, s := lines[..i], lines[i + 2..];
    var x, y := lines[i], lines[i + 1];
    assert lines == p + [x, y] + s;
    ReadFromAppend(Counts(0, 0), p + [x, y], s);
    ReadFromAppend(Counts(0, 0), p + [y, x], s);
    ReadFromAppend(Counts(0, 0), p, [x, y]);
    ReadFromAppend(Counts(0, 0), p, [y, x]);
    assert [x, y][1..] == [y] && [y, x][1..] == [x];
    assert [y][1..] == [] && [x][1..] == [];
  }

  /** What a line means to the reader, stated on the text of the line: a
      blank line throws, and so does a count or length key with nothing but
      delimiters around it. */
  lemma ParseLineByShape(line: string)
    ensures (forall j :: 0 <= j < |line| ==> IsDelimiter(line[j])) ==> ParseLine(line) == Failure(NoSuchElement)
  {
    NoTokensIffBlank(line);
  }

  /** A count or length key with only delimiters before and after it. */
  lemma KeyWithoutValue(pre: string, key: string, post: string)
    requires key == COUNT || key == LENGTH
    requires forall j :: 0 <= j < |pre| ==> IsDelimiter(pre[j])
    requires forall j :: 0 <= j < |post| ==> IsDelimiter(post[j])
    ensures ParseLine(pre + key + post) == Failure(NoSuchElement)
  {
    assert IsWord(key) by {
      assert forall i :: 0 <= i < |key| ==> key[i] in "countlength";
    }
    WordTokens(key);
    NoTokensIffBlank(pre);
    NoTokensIffBlank(post);
    TokensAppend(key, post);
    assert pre + key + post == pre + (key + post);
    TokensAppend(pre, key + post);
    assert Tokens(pre + key + post) == [key];
  }

  lemma ParseKeyValueLine(key: string, v: string, sep: char)
    requires IsWord(key) && IsWord(v) && IsDelimiter(sep)
    ensures key == COUNT ==>
      ParseLine(Join([key, v], sep)) ==
        (match ParseLong(v) case Failure(s) => Failure(NumberFormat(v)) case Success(n) => Success(SetCount(n)))
    ensures key == LENGTH ==>
      ParseLine(Join([key, v], sep)) ==
        (match ParseLong(v) case Failure(s) => Failure(NumberFormat(v)) case Success(n) => Success(SetLength(n)))
    ensures key != COUNT && key != LENGTH ==> ParseLine(Join([key, v], sep)) == Success(Ignore)
  {
    TokensOfJoin([key, v], sep);
  }
}
