/** java.util.StringTokenizer with its default delimiters, as both jobs'
    code uses it: a specification of the tokens of a string and the
    tokenizer object that hands them out one at a time. */
module Tokenizer {
  import opened Wrappers

  /** The default delimiter set " \t\n\r\f". */
  predicate IsDelimiter(c: char) {
    c == ' ' || c == '\t' || c == '\n' || c == '\r' || c == '\U{000C}'
  }

  /** A token: non-empty and free of delimiters. */
  predicate IsWord(w: string) {
    |w| > 0 && forall i :: 0 <= i < |w| ==> !IsDelimiter(w[i])
  }

  /** The length of the longest delimiter-free prefix of s. */
  function WordLength(s: string): (n: nat)
    ensures n <= |s|
    ensures forall i :: 0 <= i < n ==> !IsDelimiter(s[i])
    ensures n < |s| ==> IsDelimiter(s[n])
  {
    if s == [] || IsDelimiter(s[0]) then 0 else 1 + WordLength(s[1..])
  }

  /** The tokens of s, left to right: the maximal delimiter-free runs. */
  function Tokens(s: string): seq<string>
    decreases |s|
  {
    if s == [] then []
    else if IsDelimiter(s[0]) then Tokens(s[1..])
    else
      var n := WordLength(s);
      [s[..n]] + Tokens(s[n..])
  }

  /** The characters of s that are not delimiters, in order. */
  function NonDelimiters(s: string): (r: string)
    ensures |r| <= |s|
  {
    if s == [] then []
    else (if IsDelimiter(s[0]) then [] else [s[0]]) + NonDelimiters(s[1..])
  }

  /** The tokens laid end to end. */
  function Concat(ts: seq<string>): string {
    if ts == [] then [] else ts[0] + Concat(ts[1..])
  }

  /** The words joined with one separator character between neighbours. */
  function Join(ws: seq<string>, sep: char): string {
    if |ws| == 0 then []
    else if |ws| == 1 then ws[0]
    else ws[0] + [sep] + Join(ws[1..], sep)
  }

  /** Every token is a non-empty run of non-delimiters. */
  lemma {:induction false} TokensAreWords(s: string)
    ensures forall i :: 0 <= i < |Tokens(s)| ==> IsWord(Tokens(s)[i])
    decreases |s|
  {
    if s != [] {
      if IsDelimiter(s[0]) {
        TokensAreWords(s[1..]);
      } else {
        TokensAreWords(s[WordLength(s)..]);
      }
    }
  }

  /** A string has no tokens exactly when it is empty or all delimiters. */
  lemma {:induction false} NoTokensIffBlank(s: string)
    ensures Tokens(s) == [] <==> forall i :: 0 <= i < |s| ==> IsDelimiter(s[i])
    decreases |s|
  {
    if s != [] && IsDelimiter(s[0]) {
      NoTokensIffBlank(s[1..]);
      if forall i :: 0 <= i < |s[1..]| ==> IsDelimiter(s[1..][i]) {
        forall i | 0 <= i < |s| ensures IsDelimiter(s[i]) {
          if i > 0 { assert s[i] == s[1..][i - 1]; }
        }
      }
    }
  }

  /** The tokens together hold exactly the non-delimiter characters of s,
      in order: nothing is dropped or duplicated. */
  lemma {:induction false} TokensCoverNonDelimiters(s: string)
    ensures Concat(Tokens(s)) == NonDelimiters(s)
    decreases |s|
  {
    if s != [] {
      if IsDelimiter(s[0]) {
        TokensCoverNonDelimiters(s[1..]);
      } else {
        var n := WordLength(s);
        TokensCoverNonDelimiters(s[n..]);
        WordNonDelimiters(s, n);
      }
    }
  }

  /** The first n characters of s are non-delimiters, so they all survive. */
  lemma {:induction false} WordNonDelimiters(s: string, n: nat)
    requires n <= |s|
    requires forall i :: 0 <= i < n ==> !IsDelimiter(s[i])
    ensures NonDelimiters(s) == s[..n] + NonDelimiters(s[n..])
  {
    if n > 0 {
      WordNonDelimiters(s[1..], n - 1);
      assert s[1..][n - 1..] == s[n..];
      assert s[..n] == [s[0]] + s[1..][..n - 1];
    }
  }

  /** Java's String.length(): the number of UTF-16 code units, in which a
      character beyond the Basic Multilingual Plane takes two. */
  function Utf16Length(s: string): (n: nat)
    ensures |s| <= n <= 2 * |s|
  {
    if s == [] then 0
    else (if s[0] as int >= 0x1_0000 then 2 else 1) + Utf16Length(s[1..])
  }

  lemma {:induction false} Utf16LengthAppend(a: string, b: string)
    ensures Utf16Length(a + b) == Utf16Length(a) + Utf16Length(b)
  {
    if a == [] {
      assert a + b == b;
    } else {
      assert (a + b)[1..] == a[1..] + b;
      Utf16LengthAppend(a[1..], b);
    }
  }

  /** Within the Basic Multilingual Plane, String.length() counts characters. */
  lemma {:induction false} Utf16LengthBmp(s: string)
    requires forall i :: 0 <= i < |s| ==> s[i] as int < 0x1_0000
    ensures Utf16Length(s) == |s|
  {
    if s != [] {
      assert s[0] as int < 0x1_0000;
      Utf16LengthBmp(s[1..]);
    }
  }

  /** A UTF-16 code unit: one element of a Java String. */
  type Unit = x: int | 0 <= x < 0x1_0000

  predicate IsHighSurrogate(x: Unit) {
    0xD800 <= x < 0xDC00
  }

  predicate IsLowSurrogate(x: Unit) {
    0xDC00 <= x < 0xE000
  }

  /** The code units of one character: the character itself inside the
      Basic Multilingual Plane, otherwise a high and a low surrogate. */
  function EncodeChar(c: char): seq<Unit> {
    if c as int < 0x1_0000 then [c as int]
    else
      var v := c as int - 0x1_0000;
      [0xD800 + v / 0x400, 0xDC00 + v % 0x400]
  }

  /** The code units a Java String holds for s; there are String.length()
      of them. */
  function Utf16(s: string): (u: seq<Unit>)
    ensures |u| == Utf16Length(s)
  {
    if s == [] then [] else EncodeChar(s[0]) + Utf16(s[1..])
  }

  /** The characters that well-formed code units stand for, and None at an
      unpaired surrogate. */
  function Decode(u: seq<Unit>): Option<string>
    decreases |u|
  {
    if u == [] then Some([])
    else if |u| >= 2 && IsHighSurrogate(u[0]) && IsLowSurrogate(u[1]) then
      var c := (0x1_0000 + (u[0] as int - 0xD800) * 0x400 + (u[1] as int - 0xDC00)) as char;
      match Decode(u[2..])
      case None => None
      case Some(s) => Some([c] + s)
    else if IsHighSurrogate(u[0]) || IsLowSurrogate(u[0]) then None
    else
      match Decode(u[1..])
      case None => None
      case Some(s) => Some([u[0] as char] + s)
  }

  /** The code units of every string decode back to it. */
  lemma {:induction false} Utf16RoundTrip(s: string)
    ensures Decode(Utf16(s)) == Some(s)
  {
    if s != [] {
      var u := Utf16(s);
      var rest := Utf16(s[1..]);
      Utf16RoundTrip(s[1..]);
      assert u == EncodeChar(s[0]) + rest;
      if s[0] as int < 0x1_0000 {
        assert u[1..] == rest;
      } else {
        var v := s[0] as int - 0x1_0000;
        assert u[0] == 0xD800 + v / 0x400 && u[1] == 0xDC00 + v % 0x400;
        assert (u[0] as int - 0xD800) * 0x400 + (u[1] as int - 0xDC00) == v;
        assert u[2..] == rest;
      }
      assert s == [s[0]] + s[1..];
    }
  }

  /** Inside the Basic Multilingual Plane the code units are the characters. */
  lemma {:induction false} Utf16Bmp(s: string)
    requires forall i :: 0 <= i < |s| ==> s[i] as int < 0x1_0000
    ensures |Utf16(s)| == |s|
    ensures forall i :: 0 <= i < |s| ==> Utf16(s)[i] == s[i] as int
  {
    if s != [] {
      assert s[0] as int < 0x1_0000;
      Utf16Bmp(s[1..]);
      assert Utf16(s) == [s[0] as int] + Utf16(s[1..]);
      forall i | 0 < i < |s| ensures Utf16(s)[i] == s[i] as int {
        assert s[i] == s[1..][i - 1];
      }
    }
  }

  /** The total String.length() of the tokens. */
  function SumLengths(ts: seq<string>): nat {
    if ts == [] then 0 else Utf16Length(ts[0]) + SumLengths(ts[1..])
  }

  lemma {:induction false} ConcatLength(ts: seq<string>)
    ensures Utf16Length(Concat(ts)) == SumLengths(ts)
  {
    if ts != [] {
      ConcatLength(ts[1..]);
      Utf16LengthAppend(ts[0], Concat(ts[1..]));
    }
  }

  /** The token lengths add up to the length of the line's non-delimiter
      characters. */
  lemma TokenLengthsSum(s: string)
    ensures SumLengths(Tokens(s)) == Utf16Length(NonDelimiters(s))
  {
    TokensCoverNonDelimiters(s);
    ConcatLength(Tokens(s));
  }

  lemma {:induction false} WordLengthAppend(a: string, b: string)
    ensures WordLength(a + b) == if WordLength(a) < |a| then WordLength(a) else |a| + WordLength(b)
  {
    if a == [] {
      assert a + b == b;
    } else {
      assert (a + b)[1..] == a[1..] + b;
      WordLengthAppend(a[1..], b);
    }
  }

  /** Tokenizing splits at a delimiter boundary: a string that ends in a
      delimiter (or is empty) tokenizes independently of what follows, and
      likewise before a string that starts with a delimiter. */
  lemma {:induction false} TokensAppend(a: string, b: string)
    requires a == [] || b == [] || IsDelimiter(a[|a| - 1]) || IsDelimiter(b[0])
    ensures Tokens(a + b) == Tokens(a) + Tokens(b)
    decreases |a|
  {
    if a == [] {
      assert a + b == b;
    } else if b == [] {
      assert a + b == a;
    } else if IsDelimiter(a[0]) {
      assert (a + b)[1..] == a[1..] + b;
      TokensAppend(a[1..], b);
    } else {
      var n := WordLength(a);
      WordLengthAppend(a, b);
      if n < |a| {
        assert (a + b)[..n] == a[..n];
        assert (a + b)[n..] == a[n..] + b;
        TokensAppend(a[n..], b);
      } else {
        WholeWordThenDelimiter(a, b);
      }
    }
  }

  /** A word followed by a string that starts with a delimiter: the word is
      the first token, and the rest tokenizes on its own. */
  lemma WholeWordThenDelimiter(a: string, b: string)
    requires a != [] && b != [] && IsDelimiter(b[0])
    requires WordLength(a) == |a|
    ensures Tokens(a + b) == Tokens(a) + Tokens(b)
  {
    var ab := a + b;
    WordLengthAppend(a, b);
    var n := WordLength(ab);
    assert n == |a|;
    assert ab[0] == a[0] && !IsDelimiter(a[0]);
    assert ab[..n] == a && ab[n..] == b;
    assert Tokens(ab) == [ab[..n]] + Tokens(ab[n..]);
    assert a[..|a|] == a && a[|a|..] == [];
    assert Tokens(a) == [a[..|a|]] + Tokens(a[|a|..]);
  }

  /** A single word is its own only token. */
  lemma WordTokens(w: string)
    requires IsWord(w)
    ensures Tokens(w) == [w]
  {
    WordLengthAppend(w, []);
    assert w + [] == w;
    assert w[..|w|] == w;
    assert w[|w|..] == [];
  }

  /** Joining words with a delimiter and tokenizing gives the words back. */
  lemma {:induction false} TokensOfJoin(ws: seq<string>, sep: char)
    requires forall i :: 0 <= i < |ws| ==> IsWord(ws[i])
    requires IsDelimiter(sep)
    ensures Tokens(Join(ws, sep)) == ws
  {
    if |ws| == 1 {
      WordTokens(ws[0]);
    } else if |ws| > 1 {
      var rest := Join(ws[1..], sep);
      assert Join(ws, sep) == ws[0] + ([sep] + rest);
      TokensAppend(ws[0], [sep] + rest);
      WordTokens(ws[0]);
      assert ([sep] + rest)[1..] == rest;
      TokensOfJoin(ws[1..], sep);
    }
  }

  /** A StringTokenizer over str with the default delimiters; position is
      the index from which the next token is searched. */
  class StringTokenizer {
    const str: string
    var position: nat

    ghost predicate Valid()
      reads this
    {
      position <= |str|
    }

    /** The tokens not yet handed out. */
    ghost function Remaining(): seq<string>
      reads this
      requires Valid()
    {
      Tokens(str[position..])
    }

    constructor (s: string)
      ensures Valid() && str == s && Remaining() == Tokens(s)
    {
      str := s;
      position := 0;
    }

    /** The first index at or after from that is not a delimiter. */
    method SkipDelimiters(from: nat) returns (p: nat)
      requires from <= |str|
      ensures from <= p <= |str|
      ensures p < |str| ==> !IsDelimiter(str[p])
      ensures Tokens(str[p..]) == Tokens(str[from..])
    {
      p := from;
      while p < |str| && IsDelimiter(str[p])
        invariant from <= p <= |str|
        invariant Tokens(str[p..]) == Tokens(str[from..])
      {
        assert str[p..][1..] == str[p + 1..];
        p := p + 1;
      }
    }

    /** The end of the token that starts at from. */
    method ScanToken(from: nat) returns (p: nat)
      requires from <= |str|
      ensures p == from + WordLength(str[from..])
    {
      p := from;
      while p < |str| && !IsDelimiter(str[p])
        invariant from <= p <= |str|
        invariant WordLength(str[from..]) == (p - from) + WordLength(str[p..])
      {
        assert str[p..][1..] == str[p + 1..];
        p := p + 1;
      }
    }

    method HasMoreTokens() returns (more: bool)
      requires Valid()
      ensures more <==> Remaining() != []
    {
      var p := SkipDelimiters(position);
      more := p < |str|;
    }

    /** The next token, or None where Java throws NoSuchElementException. */
    method NextToken() returns (t: Option<string>)
      requires Valid()
      modifies this
      ensures Valid()
      ensures old(Remaining()) == [] ==> t == None && Remaining() == []
      ensures old(Remaining()) != [] ==>
        t == Some(old(Remaining())[0]) && Remaining() == old(Remaining())[1..]
    {
      position := SkipDelimiters(position);
      if position >= |str| {
        return None;
      }
      var start := position;
      position := ScanToken(position);
      t := Some(str[start..position]);
      assert str[start..][..position - start] == str[start..position];
      assert str[start..][position - start..] == str[position..];
    }
  }
}
