/** src/day13.rs: packets are nested lists of integers written with brackets
    and commas.  A line is tokenized, then parsed by recursive descent; two
    packets are ordered by comparing numbers by value and lists element by
    element, a number meeting a list being wrapped into a one-element list. */
module Day13 {
  import opened Wrappers
  import opened Strings

  datatype Token = LBracket | RBracket | Comma | NumberToken(n: int)

  datatype Value = Number(n: int) | List(items: seq<Value>)

  /** `std::cmp::Ordering`. */
  datatype Ordering = Less | Equal | Greater

  function Flip(o: Ordering): Ordering
  {
    match o
    case Less => Greater
    case Equal => Equal
    case Greater => Less
  }

  // ---------------------------------------------------------------- tokenizing

  function Cons(t: Token, o: Option<seq<Token>>): Option<seq<Token>>
  {
    match o
    case None => None
    case Some(ts) => Some([t] + ts)
  }

  function Prepend(ts: seq<Token>, o: Option<seq<Token>>): Option<seq<Token>>
  {
    match o
    case None => None
    case Some(us) => Some(ts + us)
  }

  /** The length of the run of digits that starts `s`. */
  function DigitRun(s: string): (k: nat)
    ensures k <= |s|
    ensures forall i :: 0 <= i < k ==> IsDigit(s[i])
    ensures k < |s| ==> !IsDigit(s[k])
  {
    if |s| > 0 && IsDigit(s[0]) then 1 + DigitRun(s[1..]) else 0
  }

  /** A run of digits followed by a non-digit (or the end) is exactly the run. */
  lemma {:induction false} DigitRunExact(s: string, k: nat)
    requires k <= |s| && AllDigits(s[..k]) && (k < |s| ==> !IsDigit(s[k]))
    ensures DigitRun(s) == k
  {
    if k > 0 {
      assert s[0] == s[..k][0];
      assert s[1..][..k - 1] == s[..k][1..];
      DigitRunExact(s[1..], k - 1);
    }
  }

  /** The tokens of a line, scanned left to right: each bracket and comma is a
      token, a maximal run of digits is one number, and any other character
      makes `tokenize_line` panic (here: `None`). */
  function Tokenize(s: string): (r: Option<seq<Token>>)
    ensures r.Some? ==> |r.value| <= |s| && (|r.value| == 0 <==> |s| == 0)
    ensures r.Some? ==> forall i :: 0 <= i < |r.value| && r.value[i].NumberToken? ==> r.value[i].n >= 0
    decreases |s|
  {
    if |s| == 0 then Some([])
    else if s[0] == '[' then Cons(LBracket, Tokenize(s[1..]))
    else if s[0] == ']' then Cons(RBracket, Tokenize(s[1..]))
    else if s[0] == ',' then Cons(Comma, Tokenize(s[1..]))
    else if IsDigit(s[0]) then
      var k := DigitRun(s);
      Cons(NumberToken(DigitsValue(s[..k])), Tokenize(s[k..]))
    else None
  }

  predicate Accepted(c: char)
  {
    c == '[' || c == ']' || c == ',' || IsDigit(c)
  }

  /** Tokenizing fails exactly when the line holds a character other than a
      bracket, a comma or a digit. */
  lemma {:induction false} TokenizeSucceeds(s: string)
    ensures Tokenize(s).Some? <==> forall i :: 0 <= i < |s| ==> Accepted(s[i])
    decreases |s|
  {
    if |s| > 0 {
      var k := if IsDigit(s[0]) then DigitRun(s) else 1;
      assert k >= 1;
      TokenizeSucceeds(s[k..]);
      assert forall i :: k <= i < |s| ==> s[i] == s[k..][i - k];
      if !Accepted(s[0]) {
        assert Tokenize(s).None?;
      }
    }
  }

  /** One digit run becomes one number token carrying its decimal value. */
  lemma TokenizeDigits(d: string, s: string)
    requires |d| > 0 && AllDigits(d) && (|s| > 0 ==> !IsDigit(s[0]))
    ensures Tokenize(d + s) == Cons(NumberToken(DigitsValue(d)), Tokenize(s))
  {
    var t := d + s;
    assert t[..|d|] == d;
    assert t[|d|..] == s;
    DigitRunExact(t, |d|);
  }

  lemma PrependCons(ts: seq<Token>, t: Token, o: Option<seq<Token>>)
    ensures Prepend(ts, Cons(t, o)) == Prepend(ts + [t], o)
  {
    if o.Some? {
      assert ts + ([t] + o.value) == (ts + [t]) + o.value;
    }
  }

  lemma DigitsSnoc(s: string, c: char)
    requires AllDigits(s) && IsDigit(c)
    ensures AllDigits(s + [c]) && DigitsValue(s + [c]) == DigitsValue(s) * 10 + DigitValue(c)
  {
    assert (s + [c])[..|s|] == s;
  }

  /** The inner loop of `tokenize_line`: the digits from `start` on are
      accumulated into one decimal number, and `i` stops at the first
      non-digit. */
  method ScanNumber(line: string, start: nat) returns (number: int, i: nat)
    requires start < |line| && IsDigit(line[start])
    ensures start < i <= |line|
    ensures Tokenize(line[start..]) == Cons(NumberToken(number), Tokenize(line[i..]))
  {
    number := DigitValue(line[start]);
    i := start + 1;
    assert line[start..i] == [line[start]];
    assert DigitsValue(line[start..i]) == DigitsValue([]) * 10 + DigitValue(line[start]);
    while i < |line| && IsDigit(line[i])
      invariant start < i <= |line|
      invariant AllDigits(line[start..i]) && number == DigitsValue(line[start..i])
      decreases |line| - i
    {
      assert line[start..i + 1] == line[start..i] + [line[i]];
      DigitsSnoc(line[start..i], line[i]);
      number := number * 10 + DigitValue(line[i]);
      i := i + 1;
    }
    assert line[start..] == line[start..i] + line[i..];
    TokenizeDigits(line[start..i], line[i..]);
  }

  /** `tokenize_line`: the character loop; digits are handed to `ScanNumber`. */
  method TokenizeLine(line: string) returns (r: Option<seq<Token>>)
    ensures r == Tokenize(line)
  {
    var tokens: seq<Token> := [];
    var i := 0;
    assert line[0..] == line;
    if Tokenize(line).Some? {
      assert [] + Tokenize(line).value == Tokenize(line).value;
    }
    while i < |line|
      invariant 0 <= i <= |line|
      invariant Tokenize(line) == Prepend(tokens, Tokenize(line[i..]))
      decreases |line| - i
    {
      var token := line[i];
      ghost var here := line[i..];
      assert here[0] == token && here[1..] == line[i + 1..];
      i := i + 1;
      if token == '[' {
        PrependCons(tokens, LBracket, Tokenize(line[i..]));
        tokens := tokens + [LBracket];
      } else if token == ']' {
        PrependCons(tokens, RBracket, Tokenize(line[i..]));
        tokens := tokens + [RBracket];
      } else if token == ',' {
        PrependCons(tokens, Comma, Tokenize(line[i..]));
        tokens := tokens + [Comma];
      } else if IsDigit(token) {
        var number, next := ScanNumber(line, i - 1);
        i := next;
        PrependCons(tokens, NumberToken(number), Tokenize(line[i..]));
        tokens := tokens + [NumberToken(number)];
      } else {
        return None;
      }
    }
    assert line[i..] == [];
    assert tokens + [] == tokens;
    r := Some(tokens);
  }

  // ----------------------------------------------------------------- parsing

  /** `pop_and_expect`: the front token must be `expected`; a missing or
      different token panics. */
  function PopAndExpect(tokens: seq<Token>, expected: Token): (r: Option<seq<Token>>)
    ensures r.Some? <==> |tokens| > 0 && tokens[0] == expected
    ensures r.Some? ==> r.value == tokens[1..]
  {
    if |tokens| > 0 && tokens[0] == expected then Some(tokens[1..]) else None
  }

  predicate IsSuffix(rest: seq<Token>, tokens: seq<Token>)
  {
    |rest| <= |tokens| && rest == tokens[|tokens| - |rest|..]
  }

  lemma SuffixTrans(a: seq<Token>, b: seq<Token>, c: seq<Token>)
    requires IsSuffix(a, b) && IsSuffix(b, c)
    ensures IsSuffix(a, c)
  {
    assert c[|c| - |a|..] == c[|c| - |b|..][|b| - |a|..];
  }

  /** `parse_list`: an opening bracket, then items until a closing bracket or
      the end of the tokens.  Returns the list and the tokens left over, which
      are a strict suffix of the input. */
  function ParseList(tokens: seq<Token>): (r: Option<(Value, seq<Token>)>)
    ensures r.Some? ==> r.value.0.List? && |r.value.1| < |tokens| && IsSuffix(r.value.1, tokens)
    decreases |tokens|, 0
  {
    match PopAndExpect(tokens, LBracket)
    case None => None
    case Some(rest) =>
      var r := ParseItems(rest, []);
      if r.Some? then SuffixTrans(r.value.1, rest, tokens); r else r
  }

  /** The loop of `parse_list` once `list` has been collected: commas are
      skipped, numbers and nested lists appended, and a closing bracket or the
      end of the tokens stops it. */
  function ParseItems(tokens: seq<Token>, list: seq<Value>): (r: Option<(Value, seq<Token>)>)
    ensures r.Some? ==> r.value.0.List? && IsSuffix(r.value.1, tokens)
    decreases |tokens|, 1
  {
    if |tokens| == 0 then Some((List(list), tokens))
    else
      match tokens[0]
      case RBracket => Some((List(list), tokens[1..]))
      case Comma =>
        var r := ParseItems(tokens[1..], list);
        if r.Some? then SuffixTrans(r.value.1, tokens[1..], tokens); r else r
      case NumberToken(n) =>
        var r := ParseItems(tokens[1..], list + [Number(n)]);
        if r.Some? then SuffixTrans(r.value.1, tokens[1..], tokens); r else r
      case LBracket =>
        match ParseList(tokens)
        case None => None
        case Some((v, rest)) =>
          var r := ParseItems(rest, list + [v]);
          if r.Some? then SuffixTrans(r.value.1, rest, tokens); r else r
  }

  /** `parse_list` as written: a loop over the front token that recurses on an
      opening bracket. */
  method ParseListTokens(tokens: seq<Token>) returns (r: Option<(Value, seq<Token>)>)
    ensures r == ParseList(tokens)
    decreases |tokens|
  {
    var popped := PopAndExpect(tokens, LBracket);
    if popped.None? {
      return None;
    }
    var rest := popped.value;
    var list: seq<Value> := [];
    while true
      invariant |rest| < |tokens|
      invariant ParseList(tokens) == ParseItems(rest, list)
      decreases |rest|
    {
      if |rest| == 0 {
        return Some((List(list), rest));
      }
      match rest[0]
      case RBracket =>
        rest := rest[1..];
        return Some((List(list), rest));
      case Comma =>
        rest := rest[1..];
      case LBracket =>
        var sub := ParseListTokens(rest);
        if sub.None? {
          return None;
        }
        list := list + [sub.value.0];
        rest := sub.value.1;
      case NumberToken(n) =>
        rest := rest[1..];
        list := list + [Number(n)];
    }
  }

  /** `tokenize_and_parse`: the first list of the line; tokens after it are
      ignored. */
  function ParseLine(line: string): Option<Value>
  {
    match Tokenize(line)
    case None => None
    case Some(tokens) =>
      match ParseList(tokens)
      case None => None
      case Some((v, _)) => Some(v)
  }

  method TokenizeAndParse(line: string) returns (r: Option<Value>)
    ensures r == ParseLine(line)
    ensures r.Some? ==> r.value.List?
  {
    var tokens := TokenizeLine(line);
    if tokens.None? {
      return None;
    }
    var parsed := ParseListTokens(tokens.value);
    if parsed.None? {
      return None;
    }
    r := Some(parsed.value.0);
  }

  // -------------------------------------------------------------- printing

  /** `stringify_list`: numbers in decimal (a '-' before a negative one),
      lists in brackets with their items separated by commas. */
  function Str(v: Value): string
  {
    match v
    case Number(n) => if n < 0 then "-" + NatToString(-n) else NatToString(n)
    case List(xs) => "[" + StrSeq(xs) + "]"
  }

  function StrSeq(xs: seq<Value>): string
  {
    if |xs| == 0 then ""
    else if |xs| == 1 then Str(xs[0])
    else Str(xs[0]) + "," + StrSeq(xs[1..])
  }

  lemma {:induction false} StrSeqSnoc(xs: seq<Value>, y: Value)
    ensures StrSeq(xs + [y]) == if |xs| == 0 then Str(y) else StrSeq(xs) + "," + Str(y)
  {
    if |xs| > 1 {
      assert (xs + [y])[1..] == xs[1..] + [y];
      StrSeqSnoc(xs[1..], y);
    } else if |xs| == 1 {
      assert (xs + [y])[1..] == [y];
    }
  }

  method StringifyList(v: Value) returns (s: string)
    ensures s == Str(v)
    decreases v
  {
    match v
    case Number(n) =>
      s := if n < 0 then "-" + NatToString(-n) else NatToString(n);
    case List(xs) =>
      s := "[";
      for i := 0 to |xs|
        invariant s == "[" + StrSeq(xs[..i])
      {
        if i > 0 {
          s := s + ",";
        }
        var item := StringifyList(xs[i]);
        StrSeqSnoc(xs[..i], xs[i]);
        assert xs[..i + 1] == xs[..i] + [xs[i]];
        s := s + item;
      }
      assert xs[..|xs|] == xs;
      s := s + "]";
  }

  /** The tokens a value is written as. */
  function TokensOf(v: Value): seq<Token>
  {
    match v
    case Number(n) => [NumberToken(n)]
    case List(xs) => [LBracket] + TokensSeq(xs) + [RBracket]
  }

  function TokensSeq(xs: seq<Value>): seq<Token>
  {
    if |xs| == 0 then []
    else if |xs| == 1 then TokensOf(xs[0])
    else TokensOf(xs[0]) + [Comma] + TokensSeq(xs[1..])
  }

  /** The tokenizer only produces non-negative numbers. */
  predicate NonNeg(v: Value)
  {
    match v
    case Number(n) => n >= 0
    case List(xs) => forall i :: 0 <= i < |xs| ==> NonNeg(xs[i])
  }

  /** The text of a value tokenizes to the tokens of the value, whatever
      follows it (as long as it does not extend its last number). */
  lemma {:induction false} StrTokens(v: Value, s: string)
    requires NonNeg(v) && (|s| > 0 ==> !IsDigit(s[0]))
    ensures Tokenize(Str(v) + s) == Prepend(TokensOf(v), Tokenize(s))
    decreases v, 2
  {
    match v
    case Number(n) =>
      NatToStringValue(n);
      TokenizeDigits(NatToString(n), s);
    case List(xs) =>
      var inner := "]" + s;
      var t := "[" + (StrSeq(xs) + inner);
      calc {
        Tokenize(Str(v) + s);
        { assert Str(v) + s == t; }
        Tokenize(t);
        { assert t[1..] == StrSeq(xs) + inner; }
        Cons(LBracket, Tokenize(StrSeq(xs) + inner));
        { StrSeqTokens(xs, inner); }
        Cons(LBracket, Prepend(TokensSeq(xs), Tokenize(inner)));
        { assert inner[1..] == s; }
        Cons(LBracket, Prepend(TokensSeq(xs), Cons(RBracket, Tokenize(s))));
        { ConsAround(LBracket, TokensSeq(xs), RBracket, Tokenize(s)); }
        Prepend(TokensOf(v), Tokenize(s));
      }
  }

  lemma ConsAround(t: Token, b: seq<Token>, u: Token, o: Option<seq<Token>>)
    ensures Cons(t, Prepend(b, Cons(u, o))) == Prepend([t] + b + [u], o)
  {
    if o.Some? {
      assert [t] + (b + ([u] + o.value)) == ([t] + b + [u]) + o.value;
    }
  }

  lemma {:induction false} StrSeqTokens(xs: seq<Value>, s: string)
    requires forall i :: 0 <= i < |xs| ==> NonNeg(xs[i])
    requires |s| > 0 ==> !IsDigit(s[0])
    ensures Tokenize(StrSeq(xs) + s) == Prepend(TokensSeq(xs), Tokenize(s))
    decreases xs, 1
  {
    if |xs| == 0 {
      assert StrSeq(xs) + s == s;
      if Tokenize(s).Some? {
        assert [] + Tokenize(s).value == Tokenize(s).value;
      }
    } else if |xs| == 1 {
      StrTokens(xs[0], s);
    } else {
      StrSeqConsTokens(xs, s);
    }
  }

  /** The case of several items: the first, a comma, the rest. */
  lemma {:induction false} StrSeqConsTokens(xs: seq<Value>, s: string)
    requires |xs| > 1
    requires forall i :: 0 <= i < |xs| ==> NonNeg(xs[i])
    requires |s| > 0 ==> !IsDigit(s[0])
    ensures Tokenize(StrSeq(xs) + s) == Prepend(TokensSeq(xs), Tokenize(s))
    decreases xs, 0
  {
    var tail := StrSeq(xs[1..]) + s;
    var comma := "," + tail;
    calc {
      Tokenize(StrSeq(xs) + s);
      { assert StrSeq(xs) + s == Str(xs[0]) + comma; }
      Tokenize(Str(xs[0]) + comma);
      { StrTokens(xs[0], comma); }
      Prepend(TokensOf(xs[0]), Tokenize(comma));
      { assert comma[1..] == tail; }
      Prepend(TokensOf(xs[0]), Cons(Comma, Tokenize(tail)));
      { StrSeqTokens(xs[1..], s); }
      Prepend(TokensOf(xs[0]), Cons(Comma, Prepend(TokensSeq(xs[1..]), Tokenize(s))));
      { PrependAround(TokensOf(xs[0]), Comma, TokensSeq(xs[1..]), Tokenize(s)); }
      Prepend(TokensSeq(xs), Tokenize(s));
    }
  }

  lemma PrependAround(a: seq<Token>, t: Token, b: seq<Token>, o: Option<seq<Token>>)
    ensures Prepend(a, Cons(t, Prepend(b, o))) == Prepend(a + [t] + b, o)
  {
    if o.Some? {
      assert a + ([t] + (b + o.value)) == (a + [t] + b) + o.value;
    }
  }

  /** Parsing the tokens of a list yields the list and leaves what follows. */
  lemma {:induction false} ParseTokensOf(xs: seq<Value>, rest: seq<Token>)
    ensures ParseList(TokensOf(List(xs)) + rest) == Some((List(xs), rest))
    decreases xs, 2
  {
    var ts := TokensOf(List(xs)) + rest;
    assert ts[0] == LBracket;
    assert ts[1..] == TokensSeq(xs) + [RBracket] + rest;
    ParseItemsOf(xs, [], rest);
    assert [] + xs == xs;
  }

  /** Parsing one item's tokens appends the item. */
  lemma {:induction false} ParseItem(x: Value, next: seq<Token>, acc: seq<Value>)
    ensures ParseItems(TokensOf(x) + next, acc) == ParseItems(next, acc + [x])
    decreases x, 0
  {
    var ts := TokensOf(x) + next;
    match x {
      case Number(n) =>
        assert ts[0] == NumberToken(n) && ts[1..] == next;
      case List(ys) =>
        assert ts[0] == LBracket;
        ParseTokensOf(ys, next);
    }
  }

  lemma ParseItemsComma(more: seq<Token>, acc: seq<Value>)
    ensures ParseItems([Comma] + more, acc) == ParseItems(more, acc)
  {
    assert ([Comma] + more)[1..] == more;
  }

  lemma ParseItemsClose(rest: seq<Token>, acc: seq<Value>)
    ensures ParseItems([RBracket] + rest, acc) == Some((List(acc), rest))
  {
    assert ([RBracket] + rest)[1..] == rest;
  }

  lemma {:induction false} ParseItemsOf(xs: seq<Value>, acc: seq<Value>, rest: seq<Token>)
    ensures ParseItems(TokensSeq(xs) + [RBracket] + rest, acc) == Some((List(acc + xs), rest))
    decreases xs, 1
  {
    var ts := TokensSeq(xs) + [RBracket] + rest;
    if |xs| == 0 {
      assert ts == [RBracket] + rest;
      ParseItemsClose(rest, acc);
      assert acc + xs == acc;
    } else if |xs| == 1 {
      var x := xs[0];
      calc {
        ParseItems(ts, acc);
        { assert ts == TokensOf(x) + ([RBracket] + rest); }
        ParseItems(TokensOf(x) + ([RBracket] + rest), acc);
        { ParseItem(x, [RBracket] + rest, acc); }
        ParseItems([RBracket] + rest, acc + [x]);
        { ParseItemsClose(rest, acc + [x]); assert xs == [x]; }
        Some((List(acc + xs), rest));
      }
    } else {
      var x := xs[0];
      var more := TokensSeq(xs[1..]) + [RBracket] + rest;
      calc {
        ParseItems(ts, acc);
        { assert ts == TokensOf(x) + ([Comma] + more); }
        ParseItems(TokensOf(x) + ([Comma] + more), acc);
        { ParseItem(x, [Comma] + more, acc); }
        ParseItems([Comma] + more, acc + [x]);
        { ParseItemsComma(more, acc + [x]); }
        ParseItems(more, acc + [x]);
        { ParseItemsOf(xs[1..], acc + [x], rest); }
        Some((List(acc + [x] + xs[1..]), rest));
        { assert acc + [x] + xs[1..] == acc + xs; }
        Some((List(acc + xs), rest));
      }
    }
  }

  /** Round trip: the text `stringify_list` writes for a list of non-negative
      numbers parses back to the same list. */
  lemma PrintParse(v: Value)
    requires v.List? && NonNeg(v)
    ensures ParseLine(Str(v)) == Some(v)
  {
    StrTokens(v, "");
    assert Str(v) + "" == Str(v);
    ParseTokensOf(v.items, []);
    assert TokensOf(v) + [] == TokensOf(v);
  }

  /** The divider packets of `day13b`. */
  function Marker(n: nat): Value
  {
    List([List([Number(n)])])
  }

  /** The divider packets parse from the literal lines of `day13b`. */
  lemma MarkersParse()
    ensures ParseLine("[[2]]") == Some(Marker(2))
    ensures ParseLine("[[6]]") == Some(Marker(6))
  {
    assert NatToString(2) == "2";
    assert NatToString(6) == "6";
    assert Str(Marker(2)) == "[[2]]";
    assert Str(Marker(6)) == "[[6]]";
    PrintParse(Marker(2));
    PrintParse(Marker(6));
  }

  // ----------------------------------------------------------- comparing

  function Size(v: Value): (k: nat)
    ensures k >= 1
  {
    match v
    case Number(_) => 1
    case List(xs) => 1 + SizeSeq(xs)
  }

  function SizeSeq(xs: seq<Value>): nat
  {
    if |xs| == 0 then 0 else Size(xs[0]) + SizeSeq(xs[1..])
  }

  /** Wrapping a number makes a value of size two. */
  lemma SingletonSize(x: int)
    ensures Size(List([Number(x)])) == 2
  {
    assert [Number(x)][1..] == [];
    assert SizeSeq([Number(x)]) == Size(Number(x)) + SizeSeq([]);
  }

  /** The termination measure of the comparison: wrapping a number into a
      list grows the values by one but removes the mismatch. */
  function CompareMeasure(a: Value, b: Value): nat
  {
    2 * (Size(a) + Size(b)) + (if a.Number? == b.Number? then 0 else 3)
  }

  /** `compare_values`. */
  function Compare(a: Value, b: Value): (r: Ordering)
    ensures a.Number? && b.Number? ==> (r == Less <==> a.n < b.n) && (r == Equal <==> a.n == b.n)
    ensures a == List([]) ==> r == (if b == List([]) then Equal else Less)
    decreases CompareMeasure(a, b), 0
  {
    match (a, b)
    case (Number(x), Number(y)) => if x < y then Less else if x == y then Equal else Greater
    case (List(ls), List(rs)) => CompareLists(ls, rs)
    case (Number(x), List(_)) => SingletonSize(x); Compare(List([Number(x)]), b)
    case (List(_), Number(y)) => SingletonSize(y); Compare(a, List([Number(y)]))
  }

  /** The `zip_longest` loop: the first pair that differs decides, and a list
      that runs out first is the smaller. */
  function CompareLists(ls: seq<Value>, rs: seq<Value>): Ordering
    decreases 2 * (SizeSeq(ls) + SizeSeq(rs)) + 3, 1
  {
    if |ls| == 0 && |rs| == 0 then Equal
    else if |rs| == 0 then Greater
    else if |ls| == 0 then Less
    else
      match Compare(ls[0], rs[0])
      case Less => Less
      case Greater => Greater
      case Equal => CompareLists(ls[1..], rs[1..])
  }

  lemma {:induction false} SizeOfItem(xs: seq<Value>, i: nat)
    requires i < |xs|
    ensures Size(xs[i]) <= SizeSeq(xs)
    ensures SizeSeq(xs[i + 1..]) < SizeSeq(xs[i..])
  {
    if i > 0 {
      SizeOfItem(xs[1..], i - 1);
      assert xs[1..][i - 1] == xs[i];
      assert xs[1..][i..] == xs[i + 1..];
      assert xs[1..][i - 1..] == xs[i..];
    }
  }

  /** `compare_values` as written: the loop over the zipped lists with its
      early returns. */
  method CompareValues(left: Value, right: Value) returns (r: Ordering)
    ensures r == Compare(left, right)
    decreases CompareMeasure(left, right)
  {
    match (left, right)
    case (Number(x), Number(y)) =>
      r := if x < y then Less else if x == y then Equal else Greater;
    case (List(ls), List(rs)) =>
      var i := 0;
      assert ls[0..] == ls && rs[0..] == rs;
      while i < |ls| || i < |rs|
        invariant i <= |ls| && i <= |rs|
        invariant CompareLists(ls, rs) == CompareLists(ls[i..], rs[i..])
        decreases |ls| - i
      {
        if i < |ls| && i < |rs| {
          SizeOfItem(ls, i);
          SizeOfItem(rs, i);
          var c := CompareValues(ls[i], rs[i]);
          if c == Less {
            return Less;
          } else if c == Greater {
            return Greater;
          }
          assert ls[i..][1..] == ls[i + 1..] && rs[i..][1..] == rs[i + 1..];
          i := i + 1;
        } else if i < |ls| {
          return Greater;
        } else {
          return Less;
        }
      }
      assert ls[i..] == [] && rs[i..] == [];
      r := Equal;
    case (Number(x), List(_)) =>
      SingletonSize(x);
      r := CompareValues(List([Number(x)]), right);
    case (List(_), Number(y)) =>
      SingletonSize(y);
      r := CompareValues(left, List([Number(y)]));
  }

  /** Every packet is equal to itself. */
  lemma {:induction false} CompareReflexive(v: Value)
    ensures Compare(v, v) == Equal
    decreases Size(v), 0
  {
    if v.List? {
      CompareListsReflexive(v.items);
    }
  }

  lemma {:induction false} CompareListsReflexive(xs: seq<Value>)
    ensures CompareLists(xs, xs) == Equal
    decreases SizeSeq(xs), 1
  {
    if |xs| > 0 {
      CompareReflexive(xs[0]);
      CompareListsReflexive(xs[1..]);
    }
  }

  /** Swapping the operands flips the outcome, so `Equal` is symmetric and
      `Less` one way is `Greater` the other. */
  lemma {:induction false} CompareFlip(a: Value, b: Value)
    ensures Compare(b, a) == Flip(Compare(a, b))
    decreases CompareMeasure(a, b), 0
  {
    match (a, b)
    case (Number(_), Number(_)) =>
    case (List(ls), List(rs)) => CompareListsFlip(ls, rs);
    case (Number(x), List(_)) =>
      SingletonSize(x);
      CompareFlip(List([Number(x)]), b);
    case (List(_), Number(y)) =>
      SingletonSize(y);
      CompareFlip(a, List([Number(y)]));
  }

  lemma {:induction false} CompareListsFlip(ls: seq<Value>, rs: seq<Value>)
    ensures CompareLists(rs, ls) == Flip(CompareLists(ls, rs))
    decreases 2 * (SizeSeq(ls) + SizeSeq(rs)) + 3, 1
  {
    if |ls| > 0 && |rs| > 0 {
      CompareFlip(ls[0], rs[0]);
      if Compare(ls[0], rs[0]) == Equal {
        CompareListsFlip(ls[1..], rs[1..]);
      }
    }
  }

  /** A list that is a proper prefix of another is the smaller one. */
  lemma {:induction false} PrefixIsLess(ls: seq<Value>, rs: seq<Value>)
    requires |ls| < |rs| && rs[..|ls|] == ls
    ensures CompareLists(ls, rs) == Less
    ensures CompareLists(rs, ls) == Greater
  {
    if |ls| > 0 {
      assert rs[0] == ls[0];
      CompareReflexive(ls[0]);
      assert rs[1..][..|ls| - 1] == ls[1..];
      PrefixIsLess(ls[1..], rs[1..]);
    }
  }

  /** The first position where the items compare unequal decides. */
  lemma {:induction false} FirstDifferenceDecides(ls: seq<Value>, rs: seq<Value>, k: nat)
    requires k < |ls| && k < |rs| && ls[..k] == rs[..k]
    requires Compare(ls[k], rs[k]) != Equal
    ensures CompareLists(ls, rs) == Compare(ls[k], rs[k])
  {
    if k > 0 {
      assert ls[0] == ls[..k][0] && rs[0] == rs[..k][0];
      CompareReflexive(ls[0]);
      assert ls[1..][..k - 1] == ls[..k][1..] && rs[1..][..k - 1] == rs[..k][1..];
      FirstDifferenceDecides(ls[1..], rs[1..], k - 1);
    }
  }

  /** A number compares with a list as the one-element list holding it does. */
  lemma NumberAsSingleton(n: int, v: Value)
    ensures v.List? ==> Compare(Number(n), v) == Compare(List([Number(n)]), v)
    ensures v.List? ==> Compare(v, Number(n)) == Compare(v, List([Number(n)]))
  {
  }

  /** `Equal` is not equality: a number and its one-element list compare equal. */
  lemma EqualIsNotIdentity()
    ensures Compare(Number(2), List([Number(2)])) == Equal
    ensures Number(2) != List([Number(2)])
  {
    CompareReflexive(Number(2));
    assert CompareLists([Number(2)][1..], [Number(2)][1..]) == Equal;
  }

  // -------------------------------------------------------------- day13a

  /** `day13a`: the sum of the 1-based indices of the pairs in the right order. */
  function RightOrderSum(pairs: seq<(Value, Value)>): (r: nat)
    ensures 2 * r <= |pairs| * (|pairs| + 1)
    ensures r == 0 <==> forall i :: 0 <= i < |pairs| ==> Compare(pairs[i].0, pairs[i].1) != Less
    ensures (forall i :: 0 <= i < |pairs| ==> Compare(pairs[i].0, pairs[i].1) == Less) ==> 2 * r == |pairs| * (|pairs| + 1)
  {
    if |pairs| == 0 then 0
    else
      var n := |pairs|;
      var front := RightOrderSum(pairs[..n - 1]);
      var last := if Compare(pairs[n - 1].0, pairs[n - 1].1) == Less then n else 0;
      TriangleNext(n, front, last);
      assert forall i :: 0 <= i < n - 1 ==> pairs[..n - 1][i] == pairs[i];
      front + last
  }

  function Swapped(pairs: seq<(Value, Value)>): (r: seq<(Value, Value)>)
    ensures |r| == |pairs|
    ensures forall i :: 0 <= i < |pairs| ==> r[i] == (pairs[i].1, pairs[i].0)
  {
    seq(|pairs|, i requires 0 <= i < |pairs| => (pairs[i].1, pairs[i].0))
  }

  /** When no pair compares equal, every index is counted either for the
      pairs or for the pairs swapped, never both: the two sums add up to
      1 + 2 + ... + n. */
  lemma {:induction false} RightOrderSumSwapped(pairs: seq<(Value, Value)>)
    requires forall i :: 0 <= i < |pairs| ==> Compare(pairs[i].0, pairs[i].1) != Equal
    ensures 2 * (RightOrderSum(pairs) + RightOrderSum(Swapped(pairs))) == |pairs| * (|pairs| + 1)
  {
    var n := |pairs|;
    if n > 0 {
      var front := pairs[..n - 1];
      var last := pairs[n - 1];
      RightOrderSumSwapped(front);
      SwappedLast(pairs);
      var x := if Compare(last.0, last.1) == Less then n else 0;
      var y := if Compare(last.1, last.0) == Less then n else 0;
      assert x + y == n by {
        CompareFlip(last.0, last.1);
      }
      TriangleStep(n, RightOrderSum(front) + RightOrderSum(Swapped(front)));
    }
  }

  lemma SwappedLast(pairs: seq<(Value, Value)>)
    requires |pairs| > 0
    ensures var n := |pairs|; var last := pairs[n - 1];
      RightOrderSum(Swapped(pairs)) == RightOrderSum(Swapped(pairs[..n - 1]))
        + (if Compare(last.1, last.0) == Less then n else 0)
  {
    var n := |pairs|;
    assert Swapped(pairs)[..n - 1] == Swapped(pairs[..n - 1]);
  }

  lemma TriangleNext(n: int, s: int, x: int)
    requires n >= 1 && 0 <= x <= n && 2 * s <= (n - 1) * n
    ensures 2 * (s + x) <= n * (n + 1)
    ensures 2 * s == (n - 1) * n && x == n ==> 2 * (s + x) == n * (n + 1)
  {
  }

  lemma TriangleStep(n: int, s: int)
    requires 2 * s == (n - 1) * n
    ensures 2 * (s + n) == n * (n + 1)
  {
  }

  // -------------------------------------------------------------- day13b

  /** One step of a stable insertion sort by `compare_values`: `x` goes after
      every leading packet it is not less than. */
  function Insert(x: Value, s: seq<Value>): (r: seq<Value>)
    ensures multiset(r) == multiset(s) + multiset{x}
    ensures |r| == |s| + 1
  {
    if |s| == 0 then [x]
    else if Compare(x, s[0]) == Less then [x] + s
    else
      assert s == [s[0]] + s[1..];
      [s[0]] + Insert(x, s[1..])
  }

  /** The sort of `day13b`, written as a stable insertion sort. */
  function Sort(s: seq<Value>): (r: seq<Value>)
    ensures |r| == |s| && multiset(r) == multiset(s)
  {
    if |s| == 0 then []
    else
      assert s == s[..|s| - 1] + [s[|s| - 1]];
      Insert(s[|s| - 1], Sort(s[..|s| - 1]))
  }

  /** Neighbours are in order.  (`compare_values` is not proved transitive
      here, so this is the order a sort can be held to without it.) */
  predicate Sorted(s: seq<Value>)
  {
    forall i :: 0 < i < |s| ==> Compare(s[i - 1], s[i]) != Greater
  }

  lemma {:induction false} InsertSorted(x: Value, s: seq<Value>)
    requires Sorted(s)
    ensures Sorted(Insert(x, s))
    ensures |s| > 0 ==> Insert(x, s)[0] == x || Insert(x, s)[0] == s[0]
  {
    if |s| > 0 && Compare(x, s[0]) != Less {
      InsertSorted(x, s[1..]);
      CompareFlip(x, s[0]);
      var r := Insert(x, s);
      assert r == [s[0]] + Insert(x, s[1..]);
      if |s| > 1 {
        assert Compare(s[0], s[1]) != Greater;
      }
    } else if |s| > 0 {
      assert Compare(x, s[0]) == Less;
    }
  }

  lemma {:induction false} SortSorted(s: seq<Value>)
    ensures Sorted(Sort(s))
  {
    if |s| > 0 {
      SortSorted(s[..|s| - 1]);
      InsertSorted(s[|s| - 1], Sort(s[..|s| - 1]));
    }
  }

  /** `Iterator::position`: the first index holding `x`. */
  function Position(s: seq<Value>, x: Value): (r: Option<nat>)
    ensures r.Some? <==> x in s
    ensures r.Some? ==> r.value < |s| && s[r.value] == x
    ensures r.Some? ==> forall i :: 0 <= i < r.value ==> s[i] != x
  {
    if |s| == 0 then None
    else if s[0] == x then Some(0)
    else
      match Position(s[1..], x)
      case None => None
      case Some(p) => Some(p + 1)
  }

  /** The product of the dividers' 1-based positions in `sorted`; `None`
      where an `unwrap` would panic. */
  function KeyOf(sorted: seq<Value>): (r: Option<nat>)
    ensures r.Some? <==> Marker(2) in sorted && Marker(6) in sorted
    ensures r.Some? ==> exists i, j ::
              && 0 <= i < |sorted| && sorted[i] == Marker(2) && Marker(2) !in sorted[..i]
              && 0 <= j < |sorted| && sorted[j] == Marker(6) && Marker(6) !in sorted[..j]
              && r.value == (i + 1) * (j + 1)
  {
    var p1 := Position(sorted, Marker(2));
    var p2 := Position(sorted, Marker(6));
    if p1.Some? && p2.Some? then Some((p1.value + 1) * (p2.value + 1)) else None
  }

  /** `day13b`: sort the packets with the two dividers added, then take the
      key. */
  function DecoderKey(packets: seq<Value>): (r: Option<nat>)
    ensures r.Some?
    ensures exists i, j ::
              && 0 <= i < |packets| + 2 && Sort(packets + [Marker(2), Marker(6)])[i] == Marker(2)
              && 0 <= j < |packets| + 2 && Sort(packets + [Marker(2), Marker(6)])[j] == Marker(6)
              && r.value == (i + 1) * (j + 1)
  {
    var all := packets + [Marker(2), Marker(6)];
    assert all[|packets|] == Marker(2) && all[|packets| + 1] == Marker(6);
    SortKeeps(all, Marker(2));
    SortKeeps(all, Marker(6));
    KeyOf(Sort(all))
  }

  lemma KeyOfDefined(sorted: seq<Value>)
    requires Marker(2) in sorted && Marker(6) in sorted
    ensures KeyOf(sorted).Some?
    ensures exists p1: nat, p2: nat :: 1 <= p1 <= |sorted| && 1 <= p2 <= |sorted|
              && KeyOf(sorted) == Some(p1 * p2)
  {
    var q1: nat := Position(sorted, Marker(2)).value + 1;
    var q2: nat := Position(sorted, Marker(6)).value + 1;
    assert KeyOf(sorted) == Some(q1 * q2);
    assert 1 <= q1 <= |sorted| && 1 <= q2 <= |sorted| && KeyOf(sorted) == Some(q1 * q2);
  }

  /** The two `unwrap` calls of `day13b` never panic: the sort keeps every
      packet, so both dividers are found, and the key is the product of two
      positions in 1..n+2. */
  lemma DecoderKeyDefined(packets: seq<Value>)
    ensures DecoderKey(packets).Some?
    ensures exists p1: nat, p2: nat :: 1 <= p1 <= |packets| + 2 && 1 <= p2 <= |packets| + 2
              && DecoderKey(packets) == Some(p1 * p2)
  {
    var all := packets + [Marker(2), Marker(6)];
    assert all[|packets|] == Marker(2) && all[|packets| + 1] == Marker(6);
    SortKeeps(all, Marker(2));
    SortKeeps(all, Marker(6));
    KeyOfDefined(Sort(all));
  }

  /** Sorting keeps every packet. */
  lemma SortKeeps(s: seq<Value>, x: Value)
    requires x in s
    ensures x in Sort(s) && |Sort(s)| == |s|
  {
    assert x in multiset(s);
    assert |multiset(Sort(s))| == |multiset(s)|;
  }
}
