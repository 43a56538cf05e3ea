/**
  The string operations of Python (and the two of .NET) that the modelled code
  relies on, with the exact character classes and edge cases of the originals:
  str.split() and str.strip() without arguments, sep.join, str.replace of one
  character, str.split of one separator, and the decimal rendering of integers.
 */
module Text {
  import opened Wrappers

  // ---------------------------------------------------------------- whitespace

  /** Python's str.isspace() for one character; split() and strip() without
      arguments use exactly this class. */
  predicate IsSpace(c: char)
  {
    || c == '\t' || c == '\n' || c == '\U{b}' || c == '\U{c}' || c == '\r'
    || ('\U{1c}' <= c <= '\U{1f}') || c == ' ' || c == '\U{85}' || c == '\U{a0}'
    || c == '\U{1680}' || ('\U{2000}' <= c <= '\U{200a}')
    || c == '\U{2028}' || c == '\U{2029}' || c == '\U{202f}' || c == '\U{205f}'
    || c == '\U{3000}'
  }

  /** A piece that split() can yield: non-empty and free of whitespace. */
  predicate IsWord(w: string)
  {
    w != [] && forall i :: 0 <= i < |w| ==> !IsSpace(w[i])
  }

  predicate AllWords(ws: seq<string>)
  {
    forall i :: 0 <= i < |ws| ==> IsWord(ws[i])
  }

  predicate AllSpace(s: string)
  {
    forall i :: 0 <= i < |s| ==> IsSpace(s[i])
  }

  // ----------------------------------------------------------------- split()

  /** Length of the run of non-whitespace characters that starts s. */
  function WordLength(s: string): (n: nat)
    ensures n <= |s|
    ensures forall i :: 0 <= i < n ==> !IsSpace(s[i])
    ensures n < |s| ==> IsSpace(s[n])
  {
    if s == [] || IsSpace(s[0]) then 0 else 1 + WordLength(s[1..])
  }

  /** Python's s.split() without a separator: the maximal runs of
      non-whitespace characters, in order. */
  function Words(s: string): (ws: seq<string>)
    ensures AllWords(ws)
    ensures ws == [] <==> AllSpace(s)
    decreases |s|
  {
    if s == [] then []
    else if IsSpace(s[0]) then Words(s[1..])
    else
      var n := WordLength(s);
      [s[..n]] + Words(s[n..])
  }

  /** A word that is followed by whitespace (or by nothing) ends where it ended
      before anything was appended. */
  lemma {:induction false} WordLengthAppend(s: string, t: string)
    requires WordLength(s) < |s| || t == [] || IsSpace(t[0])
    ensures WordLength(s + t) == WordLength(s)
    decreases |s|
  {
    if s == [] {
      assert s + t == t;
    } else {
      assert (s + t)[0] == s[0];
      if !IsSpace(s[0]) {
        assert (s + t)[1..] == s[1..] + t;
        WordLengthAppend(s[1..], t);
      }
    }
  }

  /** A whitespace character separates the words on its two sides. */
  lemma {:induction false} WordsAroundSpace(a: string, c: char, b: string)
    requires IsSpace(c)
    ensures Words(a + [c] + b) == Words(a) + Words(b)
    decreases |a|
  {
    if a == [] {
      SpaceBeforeAll(c, b);
    } else if IsSpace(a[0]) {
      WordsAroundSpace(a[1..], c, b);
      SpaceStep(a, c, b);
    } else {
      WordsAroundSpace(a[WordLength(a)..], c, b);
      WordStep(a, c, b);
    }
  }

  lemma SpaceBeforeAll(c: char, b: string)
    requires IsSpace(c)
    ensures Words([] + [c] + b) == Words([]) + Words(b)
  {
    SpaceFirst([c] + b);
    assert [] + [c] + b == [c] + b;
    assert ([c] + b)[1..] == b;
  }

  lemma SpaceStep(a: string, c: char, b: string)
    requires a != [] && IsSpace(a[0])
    requires Words(a[1..] + [c] + b) == Words(a[1..]) + Words(b)
    ensures Words(a + [c] + b) == Words(a) + Words(b)
  {
    SpaceFirst(a + [c] + b);
    SpaceFirst(a);
    ThreeParts(a, c, b);
  }

  lemma WordStep(a: string, c: char, b: string)
    requires IsSpace(c)
    requires a != [] && !IsSpace(a[0])
    requires Words(a[WordLength(a)..] + [c] + b) == Words(a[WordLength(a)..]) + Words(b)
    ensures Words(a + [c] + b) == Words(a) + Words(b)
  {
    var n := WordLength(a);
    var first, rest := a[..n], a[n..];
    ThreeParts(a, c, b);
    assert ([c] + b)[0] == c;
    FirstWordKept(a, [c] + b);
    ThreeParts(rest, c, b);
    WordsStartingWithWord(a);
    calc {
      Words(a + [c] + b);
      [first] + Words(rest + [c] + b);
      [first] + (Words(rest) + Words(b));
      { AppendAssoc([first], Words(rest), Words(b)); }
      [first] + Words(rest) + Words(b);
      Words(a) + Words(b);
    }
  }

  lemma AppendAssoc<T>(x: seq<T>, y: seq<T>, z: seq<T>)
    ensures x + (y + z) == x + y + z
  {
  }

  lemma SpaceFirst(s: string)
    requires s != [] && IsSpace(s[0])
    ensures Words(s) == Words(s[1..])
  {
  }

  lemma ThreeParts(a: string, c: char, b: string)
    ensures a + [c] + b == a + ([c] + b)
    ensures a != [] ==> (a + [c] + b)[0] == a[0] && (a + [c] + b)[1..] == a[1..] + [c] + b
  {
  }

  /** Appending text that starts with whitespace (or any text after a word
      that already ended) leaves the first word of a in place. */
  lemma FirstWordKept(a: string, rest: string)
    requires a != [] && !IsSpace(a[0])
    requires WordLength(a) < |a| || rest == [] || IsSpace(rest[0])
    ensures Words(a + rest) == [a[..WordLength(a)]] + Words(a[WordLength(a)..] + rest)
  {
    var s := a + rest;
    var n := WordLength(a);
    WordLengthAppend(a, rest);
    assert s[0] == a[0];
    WordsStartingWithWord(s);
    PrefixOfAppend(a, rest, n);
    SuffixOfAppend(a, rest, n);
  }

  lemma PrefixOfAppend(a: string, rest: string, n: nat)
    requires n <= |a|
    ensures (a + rest)[..n] == a[..n]
  {
  }

  lemma SuffixOfAppend(a: string, rest: string, n: nat)
    requires n <= |a|
    ensures (a + rest)[n..] == a[n..] + rest
  {
  }

  /** A string that starts with a non-whitespace character splits into its
      first word and the words of the rest. */
  lemma WordsStartingWithWord(s: string)
    requires s != [] && !IsSpace(s[0])
    ensures Words(s) == [s[..WordLength(s)]] + Words(s[WordLength(s)..])
  {
  }

  /** split() of a single word gives that word back. */
  lemma WordsOfWord(w: string)
    requires IsWord(w)
    ensures Words(w) == [w]
  {
    var n := WordLength(w);
    assert !IsSpace(w[0]);
    assert n == |w|;
    WordsStartingWithWord(w);
    assert w[..n] == w && w[n..] == [];
  }

  // ---------------------------------------------------------------- sep.join

  /** Python's sep.join(ws) for a one-character separator. */
  function JoinWith(ws: seq<string>, sep: char): (s: string)
    ensures ws != [] ==> |s| >= |ws[|ws| - 1]|
    decreases |ws|
  {
    if ws == [] then ""
    else if |ws| == 1 then ws[0]
    else JoinWith(ws[..|ws| - 1], sep) + [sep] + ws[|ws| - 1]
  }

  /** Joining one more string appends the separator and that string. */
  lemma JoinWithSnoc(ws: seq<string>, w: string, sep: char)
    requires ws != []
    ensures JoinWith(ws + [w], sep) == JoinWith(ws, sep) + [sep] + w
  {
    assert (ws + [w])[..|ws|] == ws;
  }

  /** The words of every string of ss, in order: the concatenation of
      ss[0].split(), ss[1].split(), ... */
  function WordsOfAll(ss: seq<string>): seq<string>
    decreases |ss|
  {
    if ss == [] then [] else WordsOfAll(ss[..|ss| - 1]) + Words(ss[|ss| - 1])
  }

  /** The concatenation of a sequence of word lists. */
  function Concat(xss: seq<seq<string>>): seq<string>
    decreases |xss|
  {
    if xss == [] then [] else Concat(xss[..|xss| - 1]) + xss[|xss| - 1]
  }

  /** Joining with whitespace neither loses, adds nor reorders words:
      (sep.join(ss)).split() is the concatenation of the s.split(). */
  lemma {:induction false} WordsOfJoin(ss: seq<string>, sep: char)
    requires IsSpace(sep)
    ensures Words(JoinWith(ss, sep)) == WordsOfAll(ss)
    decreases |ss|
  {
    if |ss| == 1 {
      assert ss[..0] == [];
    } else if |ss| > 1 {
      var init := ss[..|ss| - 1];
      WordsOfJoin(init, sep);
      WordsAroundSpace(JoinWith(init, sep), sep, ss[|ss| - 1]);
    }
  }

  /** Splitting each of a list of words gives the list back. */
  lemma {:induction false} WordsOfAllWords(ws: seq<string>)
    requires AllWords(ws)
    ensures WordsOfAll(ws) == ws
    decreases |ws|
  {
    if ws != [] {
      var init := ws[..|ws| - 1];
      WordsOfAllWords(init);
      WordsOfWord(ws[|ws| - 1]);
      assert ws == init + [ws[|ws| - 1]];
    }
  }

  /** " ".join(ws).split() == ws for a list of words: the round trip that makes
      a chunk's words recoverable. */
  lemma WordsOfJoinedWords(ws: seq<string>, sep: char)
    requires AllWords(ws) && IsSpace(sep)
    ensures Words(JoinWith(ws, sep)) == ws
  {
    WordsOfJoin(ws, sep);
    WordsOfAllWords(ws);
  }

  // ------------------------------------------------------------------- strip()

  /** Number of whitespace characters that start s. */
  function LeadingSpaces(s: string): (n: nat)
    ensures n <= |s|
    ensures forall i :: 0 <= i < n ==> IsSpace(s[i])
    ensures n < |s| ==> !IsSpace(s[n])
  {
    if s != [] && IsSpace(s[0]) then 1 + LeadingSpaces(s[1..]) else 0
  }

  /** Number of whitespace characters that end s. */
  function TrailingSpaces(s: string): (n: nat)
    ensures n <= |s|
    ensures forall i :: |s| - n <= i < |s| ==> IsSpace(s[i])
    ensures n < |s| ==> !IsSpace(s[|s| - 1 - n])
  {
    if s != [] && IsSpace(s[|s| - 1]) then 1 + TrailingSpaces(s[..|s| - 1]) else 0
  }

  /** Python's s.strip() without an argument. */
  function Strip(s: string): (r: string)
    ensures |r| <= |s|
  {
    var k := LeadingSpaces(s);
    var rest := s[k..];
    rest[..|rest| - TrailingSpaces(rest)]
  }

  /** Stripping keeps a middle slice of s that neither starts nor ends with
      whitespace, and leaves nothing exactly when s is all whitespace. */
  lemma StripProperties(s: string)
    ensures var r := Strip(s);
      && (r == [] <==> AllSpace(s))
      && (r != [] ==> !IsSpace(r[0]) && !IsSpace(r[|r| - 1]))
      && (forall x :: x in r ==> x in s)
      && (exists i, j :: 0 <= i <= j <= |s| && r == s[i..j] && AllSpace(s[..i]) && AllSpace(s[j..]))
  {
    var k := LeadingSpaces(s);
    var rest := s[k..];
    var t := TrailingSpaces(rest);
    var r := rest[..|rest| - t];
    assert AllSpace(s) ==> k == |s|;
    assert r == s[k..|s| - t];
    assert forall i :: 0 <= i < |r| ==> r[i] == s[k + i];
    assert AllSpace(s[..k]);
    var tail := s[|s| - t..];
    assert forall i :: 0 <= i < t ==> tail[i] == rest[|rest| - t + i];
    assert AllSpace(tail);
  }

  // -------------------------------------------------------- replace(c, "")

  /** Python's s.replace(c, "") for a one-character c: every occurrence of c
      removed, every other character kept in order. */
  function Remove(s: string, c: char): (r: string)
    ensures |r| <= |s|
    decreases |s|
  {
    if s == [] then []
    else
      var init, last := s[..|s| - 1], s[|s| - 1];
      Remove(init, c) + (if last == c then [] else [last])
  }

  /** Removing c leaves no c and every other character as often as before. */
  lemma {:induction false} RemoveProperties(s: string, c: char)
    ensures c !in Remove(s, c)
    ensures forall x :: x != c ==> multiset(Remove(s, c))[x] == multiset(s)[x]
    decreases |s|
  {
    if s != [] {
      var init, last := s[..|s| - 1], s[|s| - 1];
      assert s == init + [last];
      RemoveProperties(init, c);
    }
  }

  /** Removal works piecewise and keeps the order of what stays: removing
      from a concatenation is removing from each part. */
  lemma {:induction false} RemoveAppend(a: string, b: string, c: char)
    ensures Remove(a + b, c) == Remove(a, c) + Remove(b, c)
    decreases |b|
  {
    if b == [] {
      assert a + b == a;
    } else {
      var init, last := b[..|b| - 1], b[|b| - 1];
      RemoveAppend(a, init, c);
      assert (a + b)[..|a + b| - 1] == a + init;
      assert (a + b)[|a + b| - 1] == last;
    }
  }

  // ------------------------------------------------------------ split(sep)

  /** Index of the last occurrence of c in s. */
  function LastIndexOf(s: string, c: char): (i: nat)
    requires c in s
    ensures i < |s| && s[i] == c && c !in s[i + 1..]
  {
    if s[|s| - 1] == c then |s| - 1
    else
      assert c in s[..|s| - 1] by {
        var j :| 0 <= j < |s| && s[j] == c;
        assert s[..|s| - 1][j] == c;
      }
      LastIndexOf(s[..|s| - 1], c)
  }

  /** Python's s.split(sep) for a one-character separator: the pieces
      between the separators, in order, empty ones included. */
  function SplitOn(s: string, sep: char): (pieces: seq<string>)
    ensures |pieces| >= 1
    decreases |s|
  {
    if sep !in s then [s]
    else
      var i := LastIndexOf(s, sep);
      SplitOn(s[..i], sep) + [s[i + 1..]]
  }

  /** The pieces are free of the separator and joining them with it gives s
      back, which fixes them uniquely. */
  lemma {:induction false} SplitOnJoin(s: string, sep: char)
    ensures forall k :: 0 <= k < |SplitOn(s, sep)| ==> sep !in SplitOn(s, sep)[k]
    ensures JoinWith(SplitOn(s, sep), sep) == s
    decreases |s|
  {
    if sep in s {
      var i := LastIndexOf(s, sep);
      var init := SplitOn(s[..i], sep);
      SplitOnJoin(s[..i], sep);
      JoinWithSnoc(init, s[i + 1..], sep);
      assert s == s[..i] + [sep] + s[i + 1..];
    }
  }

  // -------------------------------------------------------- decimal numbers

  predicate IsDigit(c: char)
  {
    '0' <= c <= '9'
  }

  predicate AllDigits(s: string)
  {
    forall i :: 0 <= i < |s| ==> IsDigit(s[i])
  }

  function DigitChar(d: nat): (c: char)
    requires d < 10
    ensures IsDigit(c)
  {
    ('0' as int + d) as char
  }

  function DigitValue(c: char): nat
    requires IsDigit(c)
  {
    c as int - '0' as int
  }

  /** The decimal digits of n, most significant first, without leading zeros. */
  function NatToDecimal(n: nat): (s: string)
    ensures s != [] && AllDigits(s)
    decreases n
  {
    if n < 10 then [DigitChar(n)] else NatToDecimal(n / 10) + [DigitChar(n % 10)]
  }

  /** str(n) in Python and n.ToString() in .NET for an integer n. */
  function IntToDecimal(n: int): (s: string)
    ensures s != []
    ensures s[0] == '-' <==> n < 0
    ensures s[0] == '-' || IsDigit(s[0])
    ensures forall i :: 1 <= i < |s| ==> IsDigit(s[i])
  {
    if n < 0 then "-" + NatToDecimal(-n) else NatToDecimal(n)
  }

  /** The value of a string of decimal digits. */
  function DigitsValue(s: string): nat
    requires AllDigits(s)
    decreases |s|
  {
    if s == [] then 0 else DigitsValue(s[..|s| - 1]) * 10 + DigitValue(s[|s| - 1])
  }

  /** Reading an integer back from an optional minus sign and decimal digits. */
  function ParseInt(s: string): Option<int>
  {
    if s != [] && s[0] == '-' then
      if |s| > 1 && AllDigits(s[1..]) then Some(-(DigitsValue(s[1..]) as int)) else None
    else if s != [] && AllDigits(s) then Some(DigitsValue(s))
    else None
  }

  lemma {:induction false} DigitsValueOfNat(n: nat)
    ensures DigitsValue(NatToDecimal(n)) == n
    decreases n
  {
    var s := NatToDecimal(n);
    if n >= 10 {
      DigitsValueOfNat(n / 10);
      assert s[..|s| - 1] == NatToDecimal(n / 10);
    }
  }

  /** Rendering an integer in decimal and reading it back gives the integer. */
  lemma IntToDecimalRoundTrip(n: int)
    ensures ParseInt(IntToDecimal(n)) == Some(n)
  {
    var s := IntToDecimal(n);
    if n < 0 {
      DigitsValueOfNat(-n);
      assert s[1..] == NatToDecimal(-n);
    } else {
      DigitsValueOfNat(n);
    }
  }

  /** Distinct integers have distinct decimal renderings. */
  lemma IntToDecimalInjective(a: int, b: int)
    requires IntToDecimal(a) == IntToDecimal(b)
    ensures a == b
  {
    IntToDecimalRoundTrip(a);
    IntToDecimalRoundTrip(b);
  }

  /** A decimal rendering followed by text that does not start with a digit
      can be told apart from the text: equal strings of that shape carry the
      same integer and the same text. */
  lemma DecimalPrefixUnique(a: int, b: int, t: string, u: string)
    requires t != [] && !IsDigit(t[0])
    requires u != [] && !IsDigit(u[0])
    requires IntToDecimal(a) + t == IntToDecimal(b) + u
    ensures a == b && t == u
  {
    var da, db := IntToDecimal(a), IntToDecimal(b);
    assert (da + t)[|da|] == t[0] && (db + u)[|db|] == u[0];
    assert (db + u)[|da|] == (da + t)[|da|] && (da + t)[|db|] == (db + u)[|db|];
    assert |da| == |db|;
    assert da == (da + t)[..|da|] && db == (db + u)[..|db|];
    assert t == (da + t)[|da|..] && u == (db + u)[|db|..];
    IntToDecimalInjective(a, b);
  }

  lemma CancelPrefix(h: string, x: string, y: string)
    requires h + x == h + y
    ensures x == y
  {
    assert x == (h + x)[|h|..] && y == (h + y)[|h|..];
  }

  lemma CancelSuffix(x: string, y: string, t: string)
    requires x + t == y + t
    ensures x == y
  {
    assert x == (x + t)[..|x|] && y == (y + t)[..|y|];
  }
}
