/**
 * The Rust `str` operations the probing modules rely on, over text in which
 * every character is one byte (ASCII): character classes, prefix and
 * substring search, `lines`, `trim`, `split_whitespace` and `u64` parsing.
 */
module Text {
  import opened Wrappers

  /** One more than the largest value of Rust's `u64`. */
  const U64_BOUND: nat := 0x1_0000_0000_0000_0000

  type u64 = x: nat | x < U64_BOUND

  /** `char::is_whitespace` on ASCII: space, tab, line feed, vertical tab, form feed, carriage return. */
  predicate IsWhitespace(c: char) {
    c == ' ' || '\t' <= c <= '\r'
  }

  /** `char::is_alphabetic` on ASCII. */
  predicate IsAlphabetic(c: char) {
    'a' <= c <= 'z' || 'A' <= c <= 'Z'
  }

  predicate IsDigit(c: char) {
    '0' <= c <= '9'
  }

  predicate IsNewline(c: char) {
    c == '\n'
  }

  predicate StartsWith(s: string, prefix: string) {
    |prefix| <= |s| && s[..|prefix|] == prefix
  }

  predicate EndsWith(s: string, suffix: string) {
    |suffix| <= |s| && s[|s| - |suffix|..] == suffix
  }

  /** `s.trim().is_empty()`. */
  predicate Blank(s: string) {
    forall i :: 0 <= i < |s| ==> IsWhitespace(s[i])
  }

  /** Position of the first element satisfying `p`; `str::find` with a character predicate. */
  function FirstIndex<T>(s: seq<T>, p: T -> bool): (r: Option<nat>)
    ensures r.Some? ==> r.value < |s| && p(s[r.value]) && forall j :: 0 <= j < r.value ==> !p(s[j])
    ensures r.None? ==> forall j :: 0 <= j < |s| ==> !p(s[j])
  {
    if s == [] then None
    else if p(s[0]) then Some(0)
    else match FirstIndex(s[1..], p)
      case None => None
      case Some(i) => Some(i + 1)
  }

  predicate OccursAt(s: string, pat: string, i: nat) {
    i + |pat| <= |s| && s[i..i + |pat|] == pat
  }

  function FindFrom(s: string, pat: string, start: nat): (r: Option<nat>)
    ensures r.Some? ==> start <= r.value && OccursAt(s, pat, r.value)
    ensures r.Some? ==> forall j :: start <= j < r.value ==> !OccursAt(s, pat, j)
    ensures r.None? ==> forall j :: start <= j ==> !OccursAt(s, pat, j)
    decreases |s| + 1 - start
  {
    if start + |pat| > |s| then None
    else if s[start..start + |pat|] == pat then Some(start)
    else FindFrom(s, pat, start + 1)
  }

  /** `str::find` with a string pattern: the first offset at which `pat` occurs. */
  function Find(s: string, pat: string): (r: Option<nat>)
    ensures r.Some? ==> OccursAt(s, pat, r.value) && forall j :: 0 <= j < r.value ==> !OccursAt(s, pat, j)
    ensures r.None? ==> forall j :: !OccursAt(s, pat, j)
  {
    FindFrom(s, pat, 0)
  }

  /** `str::contains` with a string pattern. */
  predicate Contains(s: string, pat: string) {
    Find(s, pat).Some?
  }

  /** Drops one carriage return at the end, as `lines` does before a line feed. */
  function StripCr(s: string): string {
    if |s| > 0 && s[|s| - 1] == '\r' then s[..|s| - 1] else s
  }

  /**
   * `str::lines`: the text split at every line feed, a carriage return just
   * before a line feed dropped, and no empty line after a final line feed.
   */
  function Lines(s: string): (ls: seq<string>)
    ensures s == [] <==> ls == []
    ensures forall i :: 0 <= i < |ls| ==> '\n' !in ls[i]
    decreases |s|
  {
    if s == [] then []
    else match FirstIndex(s, IsNewline)
      case None => [s]
      case Some(i) =>
        assert forall j :: 0 <= j < |s[..i]| ==> s[..i][j] != '\n';
        [StripCr(s[..i])] + Lines(s[i + 1..])
  }

  /** The lines with a line feed between each two, `join("\n")`. */
  function JoinLines(ls: seq<string>): string {
    if ls == [] then ""
    else if |ls| == 1 then ls[0]
    else ls[0] + "\n" + JoinLines(ls[1..])
  }

  lemma {:induction false} JoinLinesSnoc(ls: seq<string>, l: string)
    requires ls != []
    ensures JoinLines(ls + [l]) == JoinLines(ls) + "\n" + l
    decreases |ls|
  {
    if |ls| == 1 {
      assert ls + [l] == [ls[0], l];
      assert [ls[0], l][1..] == [l];
    } else {
      assert (ls + [l])[1..] == ls[1..] + [l];
      JoinLinesSnoc(ls[1..], l);
    }
  }

  /** A line that `lines` gives back unchanged: no line feed, no carriage return at its end. */
  predicate PlainLine(l: string) {
    '\n' !in l && !EndsWith(l, "\r")
  }

  /** `lines` cuts at the first line feed. */
  lemma LinesAtNewline(s: string, i: nat)
    requires i < |s| && s[i] == '\n' && '\n' !in s[..i]
    ensures Lines(s) == [StripCr(s[..i])] + Lines(s[i + 1..])
  {
    match FirstIndex(s, IsNewline)
    case None =>
    case Some(k) =>
  }

  /** A non-empty text without a line feed is one line. */
  lemma LinesOfOneLine(s: string)
    requires s != [] && '\n' !in s
    ensures Lines(s) == [s]
  {
    match FirstIndex(s, IsNewline)
    case None =>
    case Some(k) =>
  }

  /** A plain line, a line feed and more text: the line comes first. */
  lemma LinesOfLineFeed(h: string, rest: string)
    requires PlainLine(h)
    ensures Lines(h + "\n" + rest) == [h] + Lines(rest)
  {
    var s := h + "\n" + rest;
    assert s[..|h|] == h;
    assert s[|h| + 1..] == rest;
    LinesAtNewline(s, |h|);
    if |h| > 0 {
      assert h[|h| - 1..] != "\r";
    }
  }

  /** Splitting joined lines gives the lines back, as long as the last one is not empty. */
  lemma {:induction false} LinesOfJoinLines(ls: seq<string>)
    requires ls != [] && ls[|ls| - 1] != []
    requires forall i :: 0 <= i < |ls| ==> PlainLine(ls[i])
    ensures Lines(JoinLines(ls)) == ls
    decreases |ls|
  {
    var h := ls[0];
    assert PlainLine(h);
    if |ls| == 1 {
      assert JoinLines(ls) == h;
      LinesOfOneLine(h);
    } else {
      var t := ls[1..];
      forall i | 0 <= i < |t| ensures PlainLine(t[i]) {
        assert t[i] == ls[i + 1];
      }
      LinesOfJoinLines(t);
      assert ls == [h] + t;
      LinesOfJoinLinesCons(h, t);
    }
  }

  /** One more plain line in front of lines that read back gives lines that read back. */
  lemma LinesOfJoinLinesCons(h: string, t: seq<string>)
    requires PlainLine(h) && t != [] && Lines(JoinLines(t)) == t
    ensures Lines(JoinLines([h] + t)) == [h] + t
  {
    assert ([h] + t)[0] == h && ([h] + t)[1..] == t;
    assert JoinLines([h] + t) == h + "\n" + JoinLines(t);
    LinesOfLineFeed(h, JoinLines(t));
  }

  /** Joining the lines of a text gives it back, when it has no carriage return and no final line feed. */
  lemma {:induction false} JoinLinesOfLines(s: string)
    requires '\r' !in s && !EndsWith(s, "\n")
    ensures JoinLines(Lines(s)) == s
    decreases |s|
  {
    if s != [] {
      var fi := FirstIndex(s, IsNewline);
      if fi.None? {
        assert '\n' !in s;
        LinesOfOneLine(s);
      } else {
        var i := fi.value;
        var h, r := s[..i], s[i + 1..];
        assert s == h + "\n" + r;
        assert '\n' !in h;
        LinesAtNewline(s, i);
        assert r != [];
        assert '\r' !in r && '\r' !in h by {
          assert multiset(s) == multiset(h) + multiset("\n") + multiset(r);
        }
        assert !EndsWith(r, "\n") by {
          assert r[|r| - 1..] == s[|s| - 1..];
        }
        JoinLinesOfLines(r);
        if |h| > 0 {
          assert h[|h| - 1] in h;
        }
        assert StripCr(h) == h;
        assert Lines(r) != [];
      }
    }
  }

  /** Length of the leading run of whitespace. */
  function LeadingWhitespace(s: string): (n: nat)
    ensures n <= |s|
    ensures forall i :: 0 <= i < n ==> IsWhitespace(s[i])
    ensures n < |s| ==> !IsWhitespace(s[n])
  {
    if s == [] || !IsWhitespace(s[0]) then 0 else 1 + LeadingWhitespace(s[1..])
  }

  /** Length of the trailing run of whitespace. */
  function TrailingWhitespace(s: string): (n: nat)
    ensures n <= |s|
    ensures forall i :: |s| - n <= i < |s| ==> IsWhitespace(s[i])
    ensures n < |s| ==> !IsWhitespace(s[|s| - n - 1])
  {
    if s == [] || !IsWhitespace(s[|s| - 1]) then 0 else 1 + TrailingWhitespace(s[..|s| - 1])
  }

  function TrimStart(s: string): (r: string)
    ensures |r| <= |s| && r == s[|s| - |r|..]
    ensures forall i :: 0 <= i < |s| - |r| ==> IsWhitespace(s[i])
    ensures r != [] ==> !IsWhitespace(r[0])
  {
    s[LeadingWhitespace(s)..]
  }

  function TrimEnd(s: string): (r: string)
    ensures |r| <= |s| && r == s[..|r|]
    ensures forall i :: |r| <= i < |s| ==> IsWhitespace(s[i])
    ensures r != [] ==> !IsWhitespace(r[|r| - 1])
  {
    s[..|s| - TrailingWhitespace(s)]
  }

  /**
   * `str::trim`: the text between the first and the last character that is
   * not whitespace; empty exactly when the text is blank.
   */
  function Trim(s: string): (r: string)
    ensures r == [] <==> Blank(s)
    ensures r != [] ==> !IsWhitespace(r[0]) && !IsWhitespace(r[|r| - 1])
    ensures |r| <= |s|
  {
    TrimEnd(TrimStart(s))
  }

  /**
   * `trim` removes only the leading and the trailing whitespace: the result
   * is the slice of the text between a blank prefix and a blank suffix.
   */
  lemma TrimIsSlice(s: string)
    ensures exists a: nat :: a + |Trim(s)| <= |s| && Trim(s) == s[a..a + |Trim(s)|]
                             && Blank(s[..a]) && Blank(s[a + |Trim(s)|..])
  {
    var t := TrimStart(s);
    var r := TrimEnd(t);
    assert Trim(s) == r;
    SliceBetweenBlanks(s, LeadingWhitespace(s), t, r);
  }

  /** A prefix of the tail after a whitespace run, followed only by whitespace, lies between two blanks. */
  lemma SliceBetweenBlanks(s: string, a: nat, t: string, r: string)
    requires a <= |s| && t == s[a..] && |r| <= |t| && r == t[..|r|]
    requires forall i :: 0 <= i < a ==> IsWhitespace(s[i])
    requires forall i :: |r| <= i < |t| ==> IsWhitespace(t[i])
    ensures a + |r| <= |s| && r == s[a..a + |r|] && Blank(s[..a]) && Blank(s[a + |r|..])
  {
    var u := s[a + |r|..];
    forall i | 0 <= i < |u| ensures IsWhitespace(u[i]) {
      assert u[i] == t[|r| + i];
    }
  }

  /** Text without any whitespace character. */
  predicate NoWhitespace(s: string) {
    forall i :: 0 <= i < |s| ==> !IsWhitespace(s[i])
  }

  /** A run of `k` spaces. */
  function Spaces(k: nat): (r: string)
    ensures |r| == k && forall i :: 0 <= i < k ==> r[i] == ' '
  {
    seq(k, _ => ' ')
  }

  /** A field without whitespace, padded with spaces, trims back to the field. */
  lemma TrimOfPadded(w: string, k: nat)
    requires NoWhitespace(w)
    ensures Trim(w + Spaces(k)) == w
  {
    var s := w + Spaces(k);
    if w == [] {
      assert s == Spaces(k) && Blank(s);
    } else {
      assert s[0] == w[0];
      assert TrimStart(s) == s;
      assert s[|w| - 1] == w[|w| - 1];
      assert forall i :: |w| <= i < |s| ==> s[i] == ' ';
      assert |TrimEnd(s)| == |w|;
      assert s[..|w|] == w;
    }
  }

  /** Length of the leading run of characters that are not whitespace. */
  function WordLength(s: string): (n: nat)
    ensures n <= |s|
    ensures forall i :: 0 <= i < n ==> !IsWhitespace(s[i])
    ensures n < |s| ==> IsWhitespace(s[n])
  {
    if s == [] || IsWhitespace(s[0]) then 0 else 1 + WordLength(s[1..])
  }

  /** `str::split_whitespace`: the maximal runs of characters that are not whitespace, in order. */
  function Words(s: string): (ws: seq<string>)
    ensures ws == [] <==> Blank(s)
    decreases |s|
  {
    var t := TrimStart(s);
    if t == [] then []
    else
      var n := WordLength(t);
      [t[..n]] + Words(t[n..])
  }

  /** A field of `split_whitespace`: non-empty, with no whitespace in it. */
  predicate IsWord(w: string) {
    w != [] && forall i :: 0 <= i < |w| ==> !IsWhitespace(w[i])
  }

  /** Every field of `split_whitespace` is non-empty and holds no whitespace. */
  lemma {:induction false} WordsAreWords(s: string)
    ensures forall k :: 0 <= k < |Words(s)| ==> IsWord(Words(s)[k])
    decreases |s|
  {
    var t := TrimStart(s);
    if t != [] {
      var n := WordLength(t);
      var rest := Words(t[n..]);
      WordsAreWords(t[n..]);
      var ws := Words(s);
      assert ws == [t[..n]] + rest;
      assert IsWord(t[..n]);
      forall k | 0 <= k < |ws| ensures IsWord(ws[k]) {
        if k > 0 {
          assert ws[k] == rest[k - 1];
        }
      }
    }
  }

  /** Leading spaces are skipped by `trim_start`. */
  lemma {:induction false} TrimStartOfSpaces(k: nat, rest: string)
    ensures TrimStart(Spaces(k) + rest) == TrimStart(rest)
  {
    if k > 0 {
      var s := Spaces(k) + rest;
      assert s[1..] == Spaces(k - 1) + rest;
      assert LeadingWhitespace(s) == 1 + LeadingWhitespace(s[1..]);
      TrimStartOfSpaces(k - 1, rest);
    } else {
      assert Spaces(k) + rest == rest;
    }
  }

  /** Leading spaces do not change the fields. */
  lemma WordsOfSpaces(k: nat, rest: string)
    ensures Words(Spaces(k) + rest) == Words(rest)
  {
    TrimStartOfSpaces(k, rest);
  }

  /** A word followed by at least one space is the first field; the fields of the rest follow. */
  lemma WordsOfWordThenSpaces(w: string, k: nat, rest: string)
    requires IsWord(w) && k > 0
    ensures Words(w + Spaces(k) + rest) == [w] + Words(Spaces(k) + rest)
  {
    var s := w + Spaces(k) + rest;
    assert s[0] == w[0];
    assert TrimStart(s) == s;
    assert s[|w|] == ' ';
    assert forall i :: 0 <= i < |w| ==> s[i] == w[i];
    assert WordLength(s) == |w|;
    assert s[..|w|] == w && s[|w|..] == Spaces(k) + rest;
  }

  /** A word and at least one space split off as the first field. */
  lemma WordsAfterWord(w: string, k: nat, rest: string)
    requires IsWord(w) && k > 0
    ensures Words(w + Spaces(k) + rest) == [w] + Words(rest)
  {
    WordsOfWordThenSpaces(w, k, rest);
    WordsOfSpaces(k, rest);
  }

  /** The second field of a word, spaces, a second word, spaces and anything is that second word. */
  lemma SecondWord(w: string, k1: nat, v: string, k2: nat, rest: string)
    requires IsWord(w) && IsWord(v) && k1 > 0 && k2 > 0
    ensures var ws := Words(w + Spaces(k1) + v + Spaces(k2) + rest); |ws| >= 2 && ws[1] == v
  {
    var tail := v + Spaces(k2) + rest;
    assert Words(w + Spaces(k1) + v + Spaces(k2) + rest) == [w] + Words(tail) by {
      Regroup(w + Spaces(k1), v, Spaces(k2), rest);
      WordsAfterWord(w, k1, tail);
    }
    WordsAfterWord(v, k2, rest);
  }

  /** Concatenation regrouped to the right. */
  lemma Regroup(a: string, b: string, c: string, d: string)
    ensures a + b + c + d == a + (b + c + d)
  {
  }

  /** A single word is its own only field. */
  lemma WordsOfWord(w: string)
    requires IsWord(w)
    ensures Words(w) == [w]
  {
    assert TrimStart(w) == w by { assert !IsWhitespace(w[0]); }
    assert WordLength(w) == |w|;
    assert w[..|w|] == w && w[|w|..] == [];
    assert Words([]) == [];
  }

  function DigitValue(c: char): nat
    requires IsDigit(c)
  {
    (c - '0') as nat
  }

  predicate AllDigits(s: string) {
    forall i :: 0 <= i < |s| ==> IsDigit(s[i])
  }

  /** The number a string of decimal digits denotes. */
  function DigitsValue(d: string): nat
    requires AllDigits(d)
  {
    if d == [] then 0 else DigitsValue(d[..|d| - 1]) * 10 + DigitValue(d[|d| - 1])
  }

  /**
   * `str::parse::<u64>`: one optional '+', then at least one decimal digit
   * and nothing else, denoting a value that fits in 64 bits.
   */
  function ParseU64(s: string): (r: Option<u64>)
    ensures r.Some? ==> s != [] && (IsDigit(s[0]) || s[0] == '+')
    ensures r.Some? ==> s != "+" && forall i :: 0 <= i < |s| ==> IsDigit(s[i]) || (i == 0 && s[i] == '+')
  {
    var d := if |s| > 0 && s[0] == '+' then s[1..] else s;
    if d == [] || !AllDigits(d) then None
    else
      var v := DigitsValue(d);
      if v < U64_BOUND then Some(v) else None
  }

  /** The decimal digits of `n`, most significant first, without leading zeros. */
  function Decimal(n: nat): (d: string)
    ensures d != [] && AllDigits(d)
  {
    var last := ['0' + (n % 10) as char];
    if n < 10 then last else Decimal(n / 10) + last
  }

  lemma {:induction false} DecimalValue(n: nat)
    ensures DigitsValue(Decimal(n)) == n
  {
    if n >= 10 {
      var d := Decimal(n);
      DecimalValue(n / 10);
      assert d[..|d| - 1] == Decimal(n / 10);
    }
  }

  /** Parsing the decimal form of a 64-bit value gives the value back. */
  lemma ParseU64Decimal(n: u64)
    ensures ParseU64(Decimal(n)) == Some(n)
  {
    DecimalValue(n);
  }

  /** Digits, with or without one leading '+' and leading zeros, parse to the value they denote. */
  lemma ParseU64Digits(d: string)
    requires d != [] && AllDigits(d) && DigitsValue(d) < U64_BOUND
    ensures ParseU64(d) == Some(DigitsValue(d) as u64)
    ensures ParseU64("+" + d) == Some(DigitsValue(d) as u64)
  {
    assert ("+" + d)[1..] == d;
  }

  /** Digits denoting a number that does not fit in 64 bits fail to parse, with or without a leading '+'. */
  lemma ParseU64TooLarge(d: string)
    requires d != [] && AllDigits(d) && DigitsValue(d) >= U64_BOUND
    ensures ParseU64(d).None? && ParseU64("+" + d).None?
  {
    assert ("+" + d)[1..] == d;
  }

  /** No `a` in `s` is directly followed by `b`. */
  predicate NoAdjacent(s: string, a: char, b: char) {
    forall j :: 0 <= j < |s| - 1 ==> !(s[j] == a && s[j + 1] == b)
  }

  lemma NoAdjacentOfMissing(s: string, a: char, b: char)
    requires a !in s || b !in s
    ensures NoAdjacent(s, a, b)
  {
    forall j | 0 <= j < |s| - 1 ensures !(s[j] == a && s[j + 1] == b) {
      assert s[j] in s && s[j + 1] in s;
    }
  }

  lemma NoAdjacentConcat(x: string, y: string, a: char, b: char)
    requires NoAdjacent(x, a, b) && NoAdjacent(y, a, b) && (x == [] || x[|x| - 1] != a)
    ensures NoAdjacent(x + y, a, b)
  {
    var s := x + y;
    forall j | 0 <= j < |s| - 1 ensures !(s[j] == a && s[j + 1] == b) {
      if j + 1 < |x| {
        assert s[j] == x[j] && s[j + 1] == x[j + 1];
      } else if j >= |x| {
        assert s[j] == y[j - |x|] && s[j + 1] == y[j + 1 - |x|];
      }
    }
  }

  /** A text containing `pat` has the first two characters of `pat` side by side. */
  lemma ContainsAdjacent(s: string, pat: string)
    requires |pat| >= 2
    ensures Contains(s, pat) ==> !NoAdjacent(s, pat[0], pat[1])
  {
    if Contains(s, pat) {
      var j := Find(s, pat).value;
      assert s[j] == pat[0] && s[j + 1] == pat[1];
    }
  }
}
