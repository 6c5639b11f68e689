/** The parts of Hadoop's MapReduce model both jobs rely on: emitted pairs,
    the context that collects them, grouping by key (the shuffle), the
    reducers' int accumulator, combiner runs, and the text sink's lines. */
module MapReduce {
  import opened Numbers

  /** One emission: a Text key and a LongWritable or IntWritable value. */
  datatype Pair = Pair(key: string, value: int)

  /** A task's context: everything written through it so far, in order.
      Hadoop serializes a value when it is written, so a writable the caller
      reuses afterwards does not change what was emitted. */
  class Context {
    var written: seq<Pair>

    constructor ()
      ensures written == []
    {
      written := [];
    }

    method Write(key: string, value: int)
      modifies this
      ensures written == old(written) + [Pair(key, value)]
    {
      written := written + [Pair(key, value)];
    }
  }

  function Sum(vs: seq<int>): int {
    if vs == [] then 0 else Sum(vs[..|vs| - 1]) + vs[|vs| - 1]
  }

  lemma {:induction false} SumAppend(a: seq<int>, b: seq<int>)
    ensures Sum(a + b) == Sum(a) + Sum(b)
  {
    if b == [] {
      assert a + b == a;
    } else {
      assert (a + b)[..|a + b| - 1] == a + b[..|b| - 1];
      SumAppend(a, b[..|b| - 1]);
    }
  }

  /** n copies of the value 1. */
  function Ones(n: nat): (r: seq<int>)
    ensures |r| == n
  {
    seq(n, _ => 1)
  }

  lemma {:induction false} SumOnes(n: nat)
    ensures Sum(Ones(n)) == n
  {
    if n > 0 {
      assert Ones(n)[..n - 1] == Ones(n - 1);
      SumOnes(n - 1);
    }
  }

  /** What a Java `int` accumulator holds after adding up vs from 0: the
      exact sum when it fits in 32 bits, otherwise the sum wrapped. */
  function IntSum(vs: seq<int>): (r: int)
    ensures InInt32(r)
    ensures InInt32(Sum(vs)) ==> r == Sum(vs)
  {
    Wrap32(Sum(vs))
  }

  /** When every value is 1 the reducer's output is the number of values. */
  lemma IntSumOnes(n: nat)
    ensures IntSum(Ones(n)) == Wrap32(n)
    ensures n < TWO_31 ==> IntSum(Ones(n)) == n
  {
    SumOnes(n);
  }

  /** Combiner safety: summing the partial sums of two parts gives what
      summing everything gives. */
  lemma CombinerSafe(xs: seq<int>, ys: seq<int>)
    ensures IntSum([IntSum(xs), IntSum(ys)]) == IntSum(xs + ys)
  {
    SumAppend(xs, ys);
    assert [IntSum(xs), IntSum(ys)][..1] == [IntSum(xs)];
    assert Sum([IntSum(xs)]) == IntSum(xs) by {
      assert [IntSum(xs)][..0] == [];
    }
    Wrap32AddWrapped(Sum(xs), IntSum(ys));
    Wrap32AddWrapped(Sum(ys), Sum(xs));
  }

  function SumOf<T>(xs: seq<T>, f: T -> int): int {
    if xs == [] then 0 else f(xs[0]) + SumOf(xs[1..], f)
  }

  lemma {:induction false} SumOfAppend<T>(xs: seq<T>, ys: seq<T>, f: T -> int)
    ensures SumOf(xs + ys, f) == SumOf(xs, f) + SumOf(ys, f)
  {
    if xs == [] {
      assert xs + ys == ys;
    } else {
      assert (xs + ys)[1..] == xs[1..] + ys;
      SumOfAppend(xs[1..], ys, f);
    }
  }

  /** A sum over a collection does not depend on the order of its elements. */
  lemma {:induction false} SumOfPermutation<T>(xs: seq<T>, ys: seq<T>, f: T -> int)
    requires multiset(xs) == multiset(ys)
    ensures SumOf(xs, f) == SumOf(ys, f)
  {
    if xs == [] {
      assert |ys| == |multiset(ys)| == 0;
    } else {
      var x := xs[0];
      assert x in multiset(ys);
      var i :| 0 <= i < |ys| && ys[i] == x;
      var rest := ys[..i] + ys[i + 1..];
      RemoveFromBoth(xs, ys, i);
      SumOfPermutation(xs[1..], rest, f);
      SumOfRemoveAt(ys, i, f);
    }
  }

  lemma RemoveFromBoth<T>(xs: seq<T>, ys: seq<T>, i: nat)
    requires multiset(xs) == multiset(ys)
    requires xs != [] && i < |ys| && ys[i] == xs[0]
    ensures multiset(xs[1..]) == multiset(ys[..i] + ys[i + 1..])
  {
    assert xs == [xs[0]] + xs[1..];
    assert ys == ys[..i] + [ys[i]] + ys[i + 1..];
    var rest := ys[..i] + ys[i + 1..];
    assert multiset(xs) == multiset{xs[0]} + multiset(xs[1..]);
    assert multiset(ys) == multiset{xs[0]} + multiset(rest);
    forall y ensures multiset(xs[1..])[y] == multiset(rest)[y] {
      assert multiset(xs)[y] == multiset{xs[0]}[y] + multiset(xs[1..])[y];
      assert multiset(ys)[y] == multiset{xs[0]}[y] + multiset(rest)[y];
    }
  }

  lemma SumOfRemoveAt<T>(ys: seq<T>, i: nat, f: T -> int)
    requires i < |ys|
    ensures SumOf(ys, f) == f(ys[i]) + SumOf(ys[..i] + ys[i + 1..], f)
  {
    var pre, x, post := ys[..i], ys[i], ys[i + 1..];
    assert ys == pre + ([x] + post);
    SumOfAppend(pre, [x] + post, f);
    SumOfAppend(pre, post, f);
    assert ([x] + post)[1..] == post;
    assert SumOf([x] + post, f) == f(x) + SumOf(post, f);
  }

  lemma {:induction false} SumIsSumOf(vs: seq<int>)
    ensures Sum(vs) == SumOf(vs, v => v)
  {
    if vs != [] {
      SumIsSumOf(vs[..|vs| - 1]);
      SumOfAppend(vs[..|vs| - 1], [vs[|vs| - 1]], v => v);
      assert vs == vs[..|vs| - 1] + [vs[|vs| - 1]];
    }
  }

  /** The int accumulator's result does not depend on the order in which
      the values arrive. */
  lemma IntSumPermutation(xs: seq<int>, ys: seq<int>)
    requires multiset(xs) == multiset(ys)
    ensures IntSum(xs) == IntSum(ys)
  {
    SumIsSumOf(xs);
    SumIsSumOf(ys);
    SumOfPermutation(xs, ys, v => v);
  }

  // ---------------------------------------------------------------------
  // The shuffle, as a specification: group the emitted pairs by key.

  /** The values emitted under key k, in emission order: the group the
      shuffle hands to the reducer invocation for k; never more values than
      pairs. */
  function Group(ps: seq<Pair>, k: string): (g: seq<int>)
    ensures |g| <= |ps|
  {
    if ps == [] then []
    else (if ps[0].key == k then [ps[0].value] else []) + Group(ps[1..], k)
  }

  /** The distinct keys emitted; one reducer invocation runs per key, and
      there is none exactly when nothing was emitted. */
  function KeysOf(ps: seq<Pair>): (ks: set<string>)
    ensures ks == {} <==> ps == []
  {
    var ks := set p | p in ps :: p.key;
    assert ps != [] ==> ps[0].key in ks;
    ks
  }

  /** keys lists every key of s exactly once, in some order. */
  ghost predicate Enumerates(keys: seq<string>, s: set<string>) {
    && (forall i, j :: 0 <= i < j < |keys| ==> keys[i] != keys[j])
    && (forall k :: k in keys <==> k in s)
  }

  /** A list of keys that enumerates a set is as long as the set is large. */
  lemma {:induction false} EnumeratesSize(keys: seq<string>, s: set<string>)
    requires Enumerates(keys, s)
    ensures |keys| == |s|
    decreases |keys|
  {
    if keys != [] {
      var rest := s - {keys[0]};
      assert keys[0] !in keys[1..] by {
        forall j | 0 <= j < |keys[1..]| ensures keys[1..][j] != keys[0] {
          assert keys[1..][j] == keys[j + 1];
        }
      }
      forall k ensures k in keys[1..] <==> k in rest {
        assert k in keys <==> k == keys[0] || k in keys[1..] by {
          assert keys == [keys[0]] + keys[1..];
        }
      }
      EnumeratesSize(keys[1..], rest);
    } else {
      assert forall k :: k !in s;
      assert s == {};
    }
  }

  lemma {:induction false} GroupAppend(a: seq<Pair>, b: seq<Pair>, k: string)
    ensures Group(a + b, k) == Group(a, k) + Group(b, k)
  {
    if a == [] {
      assert a + b == b;
    } else {
      var head := if a[0].key == k then [a[0].value] else [];
      assert (a + b)[0] == a[0];
      assert (a + b)[1..] == a[1..] + b;
      assert Group(a + b, k) == head + Group(a[1..] + b, k);
      GroupAppend(a[1..], b, k);
      assert Group(a, k) == head + Group(a[1..], k);
    }
  }

  /** A key has a non-empty group exactly when some pair carries it. */
  lemma {:induction false} GroupNonEmptyIff(ps: seq<Pair>, k: string)
    ensures Group(ps, k) != [] <==> k in KeysOf(ps)
  {
    if ps != [] {
      GroupNonEmptyIff(ps[1..], k);
      assert ps == [ps[0]] + ps[1..];
      assert KeysOf(ps) == {ps[0].key} + KeysOf(ps[1..]);
    }
  }

  function GroupSizes(ps: seq<Pair>, keys: seq<string>): nat {
    if keys == [] then 0 else |Group(ps, keys[0])| + GroupSizes(ps, keys[1..])
  }

  lemma {:induction false} GroupSizesOfOne(p: Pair, keys: seq<string>)
    requires forall i, j :: 0 <= i < j < |keys| ==> keys[i] != keys[j]
    ensures GroupSizes([p], keys) == if p.key in keys then 1 else 0
  {
    if keys != [] {
      assert [p][1..] == [];
      assert |Group([p], keys[0])| == if p.key == keys[0] then 1 else 0;
      GroupSizesOfOne(p, keys[1..]);
      assert keys[0] !in keys[1..] by {
        forall j | 0 <= j < |keys[1..]| ensures keys[1..][j] != keys[0] {
          assert keys[1..][j] == keys[j + 1];
        }
      }
      assert p.key in keys <==> p.key == keys[0] || p.key in keys[1..] by {
        assert keys == [keys[0]] + keys[1..];
      }
    }
  }

  lemma {:induction false} GroupSizesAppend(a: seq<Pair>, b: seq<Pair>, keys: seq<string>)
    ensures GroupSizes(a + b, keys) == GroupSizes(a, keys) + GroupSizes(b, keys)
  {
    if keys != [] {
      GroupAppend(a, b, keys[0]);
      GroupSizesAppend(a, b, keys[1..]);
    }
  }

  /** No loss, no duplication: the groups of all emitted keys together hold
      exactly as many values as pairs were emitted. */
  lemma {:induction false} GroupsPartition(ps: seq<Pair>, keys: seq<string>)
    requires Enumerates(keys, KeysOf(ps))
    ensures GroupSizes(ps, keys) == |ps|
  {
    GroupsPartitionAll(ps, keys);
  }

  lemma {:induction false} GroupsPartitionAll(ps: seq<Pair>, keys: seq<string>)
    requires forall i, j :: 0 <= i < j < |keys| ==> keys[i] != keys[j]
    requires forall p :: p in ps ==> p.key in keys
    ensures GroupSizes(ps, keys) == |ps|
  {
    if ps == [] {
      GroupSizesEmpty(keys);
    } else {
      assert ps == [ps[0]] + ps[1..];
      GroupSizesAppend([ps[0]], ps[1..], keys);
      GroupSizesOfOne(ps[0], keys);
      GroupsPartitionAll(ps[1..], keys);
    }
  }

  lemma {:induction false} GroupSizesEmpty(keys: seq<string>)
    ensures GroupSizes([], keys) == 0
  {
    if keys != [] { GroupSizesEmpty(keys[1..]); }
  }

  /** The reducer (or the combiner, the same class) run once per key of
      keys, each on that key's group; one output pair per invocation. */
  function ReduceGroups(ps: seq<Pair>, keys: seq<string>): (out: seq<Pair>)
    ensures |out| == |keys|
  {
    if keys == [] then []
    else [Pair(keys[0], IntSum(Group(ps, keys[0])))] + ReduceGroups(ps, keys[1..])
  }

  lemma {:induction false} ReduceGroupsAt(ps: seq<Pair>, keys: seq<string>, i: nat)
    requires i < |keys|
    ensures |ReduceGroups(ps, keys)| == |keys|
    ensures ReduceGroups(ps, keys)[i] == Pair(keys[i], IntSum(Group(ps, keys[i])))
  {
    if i > 0 {
      ReduceGroupsAt(ps, keys[1..], i - 1);
    }
  }

  /** After reducing, each key's group is the one reduced value. */
  lemma {:induction false} GroupOfReduceGroups(ps: seq<Pair>, keys: seq<string>, k: string)
    requires forall i, j :: 0 <= i < j < |keys| ==> keys[i] != keys[j]
    ensures Group(ReduceGroups(ps, keys), k) == if k in keys then [IntSum(Group(ps, k))] else []
  {
    if keys != [] {
      var out := ReduceGroups(ps, keys);
      assert out[1..] == ReduceGroups(ps, keys[1..]);
      GroupOfReduceGroups(ps, keys[1..], k);
      assert keys[0] !in keys[1..] by {
        forall j | 0 <= j < |keys[1..]| ensures keys[1..][j] != keys[0] {
          assert keys[1..][j] == keys[j + 1];
        }
      }
      assert k in keys <==> k == keys[0] || k in keys[1..] by {
        assert keys == [keys[0]] + keys[1..];
      }
    }
  }

  lemma {:induction false} KeysOfReduceGroups(ps: seq<Pair>, keys: seq<string>)
    ensures forall k :: k in KeysOf(ReduceGroups(ps, keys)) <==> k in keys
  {
    if keys != [] {
      KeysOfReduceGroups(ps, keys[1..]);
      var out := ReduceGroups(ps, keys);
      assert out == [out[0]] + ReduceGroups(ps, keys[1..]);
      assert KeysOf(out) == {keys[0]} + KeysOf(ReduceGroups(ps, keys[1..]));
      assert keys == [keys[0]] + keys[1..];
    }
  }

  // ---------------------------------------------------------------------
  // Combiner runs. Between the mappers and the reducer, Hadoop may sort and
  // merge the emitted pairs and may run the combiner any number of times,
  // each time on some contiguous run of them (a spill, a merge).

  datatype Step =
    | Combine(lo: nat, hi: nat, keys: seq<string>)  // run the combiner on ps[lo..hi]
    | Reorder(to: seq<Pair>)                       // sort / merge: any permutation

  ghost predicate StepOk(ps: seq<Pair>, s: Step) {
    match s
    case Combine(lo, hi, keys) => lo <= hi <= |ps| && Enumerates(keys, KeysOf(ps[lo..hi]))
    case Reorder(to) => multiset(to) == multiset(ps)
  }

  function ApplyStep(ps: seq<Pair>, s: Step): seq<Pair>
    requires StepOk(ps, s)
  {
    match s
    case Combine(lo, hi, keys) => ps[..lo] + ReduceGroups(ps[lo..hi], keys) + ps[hi..]
    case Reorder(to) => to
  }

  ghost predicate RunOk(ps: seq<Pair>, steps: seq<Step>)
    decreases |steps|
  {
    steps == [] || (StepOk(ps, steps[0]) && RunOk(ApplyStep(ps, steps[0]), steps[1..]))
  }

  function Run(ps: seq<Pair>, steps: seq<Step>): seq<Pair>
    requires RunOk(ps, steps)
    decreases |steps|
  {
    if steps == [] then ps else Run(ApplyStep(ps, steps[0]), steps[1..])
  }

  /** What the combiner must keep: the same keys, and per key the same
      value once the reducer's int accumulator has summed the group. */
  ghost predicate SameTotals(ps: seq<Pair>, qs: seq<Pair>) {
    && KeysOf(ps) == KeysOf(qs)
    && forall k :: IntSum(Group(ps, k)) == IntSum(Group(qs, k))
  }

  lemma {:induction false} GroupAsSumOf(ps: seq<Pair>, k: string)
    ensures Sum(Group(ps, k)) == SumOf(ps, (p: Pair) => if p.key == k then p.value else 0)
  {
    if ps != [] {
      GroupAsSumOf(ps[1..], k);
      var head := if ps[0].key == k then [ps[0].value] else [];
      SumAppend(head, Group(ps[1..], k));
      assert head == [] || head[..0] == [];
    }
  }

  lemma ReorderKeepsTotals(ps: seq<Pair>, qs: seq<Pair>)
    requires multiset(ps) == multiset(qs)
    ensures SameTotals(ps, qs)
  {
    forall k ensures IntSum(Group(ps, k)) == IntSum(Group(qs, k)) {
      GroupAsSumOf(ps, k);
      GroupAsSumOf(qs, k);
      SumOfPermutation(ps, qs, (p: Pair) => if p.key == k then p.value else 0);
    }
    assert forall p :: p in ps <==> p in qs by {
      forall p ensures p in ps <==> p in qs {
        assert p in ps <==> p in multiset(ps);
        assert p in qs <==> p in multiset(qs);
      }
    }
  }

  lemma {:induction false} KeysOfAppend(a: seq<Pair>, b: seq<Pair>)
    ensures KeysOf(a + b) == KeysOf(a) + KeysOf(b)
  {
    assert forall p :: p in a + b <==> p in a || p in b;
  }

  lemma GroupAppend3(a: seq<Pair>, m: seq<Pair>, c: seq<Pair>, k: string)
    ensures Group(a + m + c, k) == Group(a, k) + Group(m, k) + Group(c, k)
  {
    GroupAppend(a + m, c, k);
    GroupAppend(a, m, k);
  }

  lemma SumAppend3(x: seq<int>, y: seq<int>, z: seq<int>)
    ensures Sum(x + y + z) == Sum(x) + Sum(y) + Sum(z)
  {
    SumAppend(x + y, z);
    SumAppend(x, y);
  }

  /** Replacing a middle run of values by its int sum keeps the int sum. */
  lemma IntSumReplaceMiddle(ga: seq<int>, gm: seq<int>, gc: seq<int>, gr: seq<int>)
    requires Sum(gr) == IntSum(gm)
    ensures IntSum(ga + gm + gc) == IntSum(ga + gr + gc)
  {
    SumAppend3(ga, gm, gc);
    SumAppend3(ga, gr, gc);
    Wrap32AddWrapped(Sum(gm), Sum(ga) + Sum(gc));
  }

  /** Combining ps[lo..hi] keeps the total of one key. */
  lemma CombineKeepsKeyTotal(ps: seq<Pair>, lo: nat, hi: nat, keys: seq<string>, k: string)
    requires lo <= hi <= |ps| && Enumerates(keys, KeysOf(ps[lo..hi]))
    ensures IntSum(Group(ps, k)) == IntSum(Group(ps[..lo] + ReduceGroups(ps[lo..hi], keys) + ps[hi..], k))
  {
    var a, m, c := ps[..lo], ps[lo..hi], ps[hi..];
    var r := ReduceGroups(m, keys);
    assert ps == a + m + c;
    GroupAppend3(a, m, c, k);
    GroupAppend3(a, r, c, k);
    GroupOfReduceGroups(m, keys, k);
    if k in keys {
      var gm := Group(m, k);
      assert Sum([IntSum(gm)]) == IntSum(gm) by {
        assert [IntSum(gm)][..0] == [];
      }
      IntSumReplaceMiddle(Group(a, k), gm, Group(c, k), Group(r, k));
    } else {
      GroupNonEmptyIff(m, k);
    }
  }

  lemma CombineKeepsKeys(ps: seq<Pair>, lo: nat, hi: nat, keys: seq<string>)
    requires lo <= hi <= |ps| && Enumerates(keys, KeysOf(ps[lo..hi]))
    ensures KeysOf(ps) == KeysOf(ps[..lo] + ReduceGroups(ps[lo..hi], keys) + ps[hi..])
  {
    var a, m, c := ps[..lo], ps[lo..hi], ps[hi..];
    var r := ReduceGroups(m, keys);
    assert ps == a + m + c;
    KeysOfAppend(a + m, c);
    KeysOfAppend(a, m);
    KeysOfAppend(a + r, c);
    KeysOfAppend(a, r);
    KeysOfReduceGroups(m, keys);
  }

  lemma CombineKeepsTotals(ps: seq<Pair>, lo: nat, hi: nat, keys: seq<string>)
    requires lo <= hi <= |ps| && Enumerates(keys, KeysOf(ps[lo..hi]))
    ensures SameTotals(ps, ps[..lo] + ReduceGroups(ps[lo..hi], keys) + ps[hi..])
  {
    var qs := ps[..lo] + ReduceGroups(ps[lo..hi], keys) + ps[hi..];
    forall k ensures IntSum(Group(ps, k)) == IntSum(Group(qs, k)) {
      CombineKeepsKeyTotal(ps, lo, hi, keys, k);
    }
    CombineKeepsKeys(ps, lo, hi, keys);
  }

  /** Any number of combiner passes and re-orderings keep the totals. */
  lemma {:induction false} RunKeepsTotals(ps: seq<Pair>, steps: seq<Step>)
    requires RunOk(ps, steps)
    ensures SameTotals(ps, Run(ps, steps))
    decreases |steps|
  {
    if steps != [] {
      match steps[0] {
        case Combine(lo, hi, keys) => CombineKeepsTotals(ps, lo, hi, keys);
        case Reorder(to) => ReorderKeepsTotals(ps, to);
      }
      RunKeepsTotals(ApplyStep(ps, steps[0]), steps[1..]);
    }
  }

  /** The reducer's output after any combiner runs is the output it gives
      on the mappers' raw emissions. */
  lemma ReduceAfterCombining(ps: seq<Pair>, steps: seq<Step>, keys: seq<string>)
    requires RunOk(ps, steps)
    requires Enumerates(keys, KeysOf(Run(ps, steps)))
    ensures Enumerates(keys, KeysOf(ps))
    ensures ReduceGroups(Run(ps, steps), keys) == ReduceGroups(ps, keys)
  {
    RunKeepsTotals(ps, steps);
    ReduceGroupsSame(ps, Run(ps, steps), keys);
  }

  lemma {:induction false} ReduceGroupsSame(ps: seq<Pair>, qs: seq<Pair>, keys: seq<string>)
    requires SameTotals(ps, qs)
    ensures ReduceGroups(qs, keys) == ReduceGroups(ps, keys)
  {
    if keys != [] {
      ReduceGroupsSame(ps, qs, keys[1..]);
    }
  }

  // ---------------------------------------------------------------------
  // The sink: TextOutputFormat writes each output pair as key TAB value.

  function SinkLine(p: Pair): string {
    p.key + "\t" + LongToString(p.value)
  }

  function SinkLines(ps: seq<Pair>): (lines: seq<string>)
    ensures |lines| == |ps|
  {
    if ps == [] then [] else [SinkLine(ps[0])] + SinkLines(ps[1..])
  }
}
