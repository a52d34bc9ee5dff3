/** String helpers the puzzle parsers share: `str::split_once` on a one-character
    separator and `str::parse` of decimal integers (an optional sign followed by
    at least one ASCII digit).  Width checks of the target integer type are not
    modelled: values are unbounded. */
module Strings {
  import opened Wrappers

  predicate IsDigit(c: char)
  {
    '0' <= c <= '9'
  }

  function DigitValue(c: char): (d: nat)
    requires IsDigit(c)
    ensures d < 10
  {
    c as int - '0' as int
  }

  function DigitChar(d: nat): (c: char)
    requires d < 10
    ensures IsDigit(c) && DigitValue(c) == d
  {
    ('0' as int + d) as char
  }

  predicate AllDigits(s: string)
  {
    forall i :: 0 <= i < |s| ==> IsDigit(s[i])
  }

  /** The value of a run of decimal digits, most significant first. */
  function DigitsValue(s: string): nat
    requires AllDigits(s)
  {
    if |s| == 0 then 0 else DigitsValue(s[..|s| - 1]) * 10 + DigitValue(s[|s| - 1])
  }

  /** `str::parse` for an unsigned type: an optional '+', then one or more digits. */
  function ParseNat(s: string): Option<nat>
  {
    var digits := if |s| > 0 && s[0] == '+' then s[1..] else s;
    if |digits| > 0 && AllDigits(digits) then Some(DigitsValue(digits)) else None
  }

  /** `str::parse` for a signed type: an optional '+' or '-', then one or more digits. */
  function ParseInt(s: string): Option<int>
  {
    if |s| > 0 && s[0] == '-' then
      if |s| > 1 && AllDigits(s[1..]) then Some(-(DigitsValue(s[1..]) as int)) else None
    else
      match ParseNat(s)
      case Some(n) => Some(n as int)
      case None => None
  }

  /** The decimal text of n without leading zeros. */
  function NatToString(n: nat): (s: string)
    ensures |s| > 0 && AllDigits(s)
  {
    if n < 10 then [DigitChar(n)] else NatToString(n / 10) + [DigitChar(n % 10)]
  }

  lemma {:induction false} NatToStringValue(n: nat)
    ensures DigitsValue(NatToString(n)) == n
  {
    if n >= 10 {
      NatToStringValue(n / 10);
      var s := NatToString(n);
      assert s[..|s| - 1] == NatToString(n / 10);
    }
  }

  /** Parsing the decimal text of a number gives the number back. */
  lemma ParseNatToString(n: nat)
    ensures ParseNat(NatToString(n)) == Some(n)
    ensures ParseInt(NatToString(n)) == Some(n as int)
  {
    NatToStringValue(n);
  }

  /** A negative number written with a leading '-' parses back as a signed value. */
  lemma ParseNegative(n: nat)
    requires n > 0
    ensures ParseInt("-" + NatToString(n)) == Some(-(n as int))
  {
    NatToStringValue(n);
    assert ("-" + NatToString(n))[1..] == NatToString(n);
  }

  /** Index of the first occurrence of `c`. */
  function FindChar(s: string, c: char): (r: Option<nat>)
    ensures r.None? <==> c !in s
    ensures r.Some? ==> r.value < |s| && s[r.value] == c && c !in s[..r.value]
  {
    if |s| == 0 then None
    else if s[0] == c then Some(0)
    else
      match FindChar(s[1..], c)
      case None => None
      case Some(i) =>
        assert s[1..][..i] == s[1..i + 1];
        Some(i + 1)
  }

  /** `str::split_once` with a one-character separator: the text before and after
      its first occurrence. */
  function SplitOnce(s: string, c: char): (r: Option<(string, string)>)
    ensures r.None? <==> c !in s
    ensures r.Some? ==> s == r.value.0 + [c] + r.value.1 && c !in r.value.0
  {
    match FindChar(s, c)
    case None => None
    case Some(i) =>
      assert s == s[..i] + [c] + s[i + 1..];
      Some((s[..i], s[i + 1..]))
  }

  /** Splitting a joined pair at a separator absent from its left part gives the
      pair back. */
  lemma SplitOnceJoin(l: string, r: string, c: char)
    requires c !in l
    ensures SplitOnce(l + [c] + r, c) == Some((l, r))
  {
    var s := l + [c] + r;
    var p := SplitOnce(s, c);
    SplitAtFirst(l, p.value.0, r, p.value.1, c);
  }

  lemma SplitAtFirst(l1: string, l2: string, r1: string, r2: string, c: char)
    requires c !in l1 && c !in l2 && l1 + [c] + r1 == l2 + [c] + r2
    ensures l1 == l2 && r1 == r2
  {
    var s := l1 + [c] + r1;
    assert s[|l1|] == c && s[|l2|] == c;
    assert |l1| == |l2|;
    assert l1 == s[..|l1|] == l2;
    assert r1 == s[|l1| + 1..] == r2;
  }

  /** `sep` occurs in `s` starting at index i. */
  predicate OccursAt(s: string, sep: string, i: nat)
  {
    i + |sep| <= |s| && s[i..i + |sep|] == sep
  }

  /** Index of the first occurrence of `sep` at or after i. */
  function FindFrom(s: string, sep: string, i: nat): (r: Option<nat>)
    requires |sep| > 0 && i <= |s|
    ensures r.Some? ==> i <= r.value && OccursAt(s, sep, r.value)
    ensures r.Some? ==> forall j: nat :: i <= j < r.value ==> !OccursAt(s, sep, j)
    ensures r.None? ==> forall j: nat :: i <= j ==> !OccursAt(s, sep, j)
    decreases |s| - i
  {
    if i + |sep| > |s| then None
    else if s[i..i + |sep|] == sep then Some(i)
    else FindFrom(s, sep, i + 1)
  }

  /** `str::find` with a string pattern. */
  function FindStr(s: string, sep: string): Option<nat>
    requires |sep| > 0
  {
    FindFrom(s, sep, 0)
  }

  /** `str::split_once` with a string separator. */
  function SplitOnceStr(s: string, sep: string): (r: Option<(string, string)>)
    requires |sep| > 0
    ensures r.Some? ==> s == r.value.0 + sep + r.value.1
  {
    match FindStr(s, sep)
    case None => None
    case Some(i) =>
      assert s == s[..i] + s[i..i + |sep|] + s[i + |sep|..];
      Some((s[..i], s[i + |sep|..]))
  }

  /** `str::split`: the pieces between the non-overlapping occurrences of `sep`,
      found left to right. */
  function SplitStr(s: string, sep: string): (r: seq<string>)
    requires |sep| > 0
    ensures |r| >= 1
    decreases |s|
  {
    match FindStr(s, sep)
    case None => [s]
    case Some(i) => [s[..i]] + SplitStr(s[i + |sep|..], sep)
  }

  /** A separator whose first character is absent from `w` is first found right
      after `w`. */
  lemma FindAfterWord(w: string, sep: string, rest: string)
    requires |sep| > 0 && sep[0] !in w
    ensures FindStr(w + sep + rest, sep) == Some(|w|)
  {
    var s := w + sep + rest;
    assert s[|w|..|w| + |sep|] == sep;
    assert OccursAt(s, sep, |w|);
    assert forall j: nat :: j < |w| ==> !OccursAt(s, sep, j);
    var r := FindStr(s, sep);
    assert r.Some?;
    assert !(r.value < |w|);
  }

  /** Nor is it found inside `w`. */
  lemma NotFoundInWord(w: string, sep: string)
    requires |sep| > 0 && sep[0] !in w
    ensures FindStr(w, sep) == None
  {
  }

  /** Splitting once at such a separator gives the word and the rest. */
  lemma SplitOnceAfterWord(w: string, sep: string, rest: string)
    requires |sep| > 0 && sep[0] !in w
    ensures SplitOnceStr(w + sep + rest, sep) == Some((w, rest))
  {
    var s := w + sep + rest;
    FindAfterWord(w, sep, rest);
    assert s[..|w|] == w;
    assert s[|w| + |sep|..] == rest;
  }

  /** Splitting two such words joined by the separator gives the two words. */
  lemma SplitJoinedWords(w1: string, sep: string, w2: string)
    requires |sep| > 0 && sep[0] !in w1 && sep[0] !in w2
    ensures SplitStr(w1 + sep + w2, sep) == [w1, w2]
    ensures SplitOnceStr(w1 + sep + w2, sep) == Some((w1, w2))
  {
    var s := w1 + sep + w2;
    FindAfterWord(w1, sep, w2);
    assert s[..|w1|] == w1;
    assert s[|w1| + |sep|..] == w2;
    NotFoundInWord(w2, sep);
  }

  /** The ASCII characters `char::is_whitespace` accepts (the other Unicode
      spaces are not modelled). */
  predicate IsWhitespace(c: char)
  {
    c == ' ' || c == '\t' || c == '\n' || c == '\r' || c as int == 11 || c as int == 12
  }

  /** A piece `split_whitespace` can yield: nonempty and free of whitespace. */
  predicate IsWord(w: string)
  {
    |w| > 0 && forall i :: 0 <= i < |w| ==> !IsWhitespace(w[i])
  }

  /** The length of the run of non-whitespace characters at the front of `s`. */
  function WordLen(s: string): (k: nat)
    ensures k <= |s|
    ensures forall i :: 0 <= i < k ==> !IsWhitespace(s[i])
    ensures k < |s| ==> IsWhitespace(s[k])
  {
    if |s| == 0 || IsWhitespace(s[0]) then 0 else 1 + WordLen(s[1..])
  }

  /** `str::split_whitespace`: the maximal runs of non-whitespace characters,
      left to right. */
  function Words(s: string): (ws: seq<string>)
    ensures forall i :: 0 <= i < |ws| ==> IsWord(ws[i])
    decreases |s|
  {
    if |s| == 0 then []
    else if IsWhitespace(s[0]) then Words(s[1..])
    else
      var k := WordLen(s);
      [s[..k]] + Words(s[k..])
  }

  /** Words joined by single spaces. */
  function JoinWords(ws: seq<string>): string
  {
    if |ws| == 0 then ""
    else if |ws| == 1 then ws[0]
    else ws[0] + " " + JoinWords(ws[1..])
  }

  lemma {:induction false} WordLenOfWord(w: string, rest: string)
    requires IsWord(w)
    requires |rest| == 0 || IsWhitespace(rest[0])
    ensures WordLen(w + rest) == |w|
    decreases |w|
  {
    if |w| > 1 {
      assert (w + rest)[1..] == w[1..] + rest;
      WordLenOfWord(w[1..], rest);
    } else {
      assert (w + rest)[1..] == rest;
    }
  }

  /** `split_whitespace` gives back the words that were joined by spaces. */
  lemma {:induction false} WordsOfJoin(ws: seq<string>)
    requires forall i :: 0 <= i < |ws| ==> IsWord(ws[i])
    ensures Words(JoinWords(ws)) == ws
  {
    if |ws| == 1 {
      WordLenOfWord(ws[0], []);
      assert ws[0] + [] == ws[0];
      assert ws[0][|ws[0]|..] == [];
    } else if |ws| > 1 {
      var w, t := ws[0], JoinWords(ws[1..]);
      var s := w + " " + t;
      WordLenOfWord(w, " " + t);
      assert s == w + (" " + t);
      assert s[..|w|] == w;
      assert s[|w|..] == " " + t;
      assert (" " + t)[1..] == t;
      WordsOfJoin(ws[1..]);
    }
  }
}
