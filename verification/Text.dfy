/** The library text functions the program relies on: decimal printing
    (std::to_string), decimal reading (std::stoi) and splitting at white space
    (operator>> on a string stream). */
module Text {

  datatype Option<T> = None | Some(value: T)

  const INT_MIN: int := -0x8000_0000
  const INT_MAX: int := 0x7fff_ffff

  // --------------------------------------------------------------- printing

  function Digit(d: nat): (c: char)
    requires d < 10
    ensures IsDigit(c) && DigitValue(c) == d
  {
    ['0', '1', '2', '3', '4', '5', '6', '7', '8', '9'][d]
  }

  predicate IsDigit(c: char) { '0' <= c <= '9' }

  function DigitValue(c: char): (d: nat)
    requires IsDigit(c)
    ensures d < 10
  {
    c as int - '0' as int
  }

  function Digits(n: nat): (s: string)
    ensures s != [] && AllDigits(s)
  {
    if n < 10 then [Digit(n)] else Digits(n / 10) + [Digit(n % 10)]
  }

  predicate AllDigits(s: string) { forall i :: 0 <= i < |s| ==> IsDigit(s[i]) }

  function ToText(n: int): (s: string)
    ensures s != [] && SpaceFree(s)
  {
    if n < 0 then "-" + Digits(-n) else Digits(n)
  }

  // ---------------------------------------------------------------- reading

  predicate IsSpace(c: char)
  {
    c == ' ' || c == '\t' || c == '\n' || c == '\U{0B}' || c == '\U{0C}' || c == '\r'
  }

  predicate SpaceFree(s: string) { forall i :: 0 <= i < |s| ==> !IsSpace(s[i]) }

  /** The value of a string of digits. */
  function Value(s: string): (n: int)
    requires AllDigits(s)
    ensures n >= 0
  {
    if s == [] then 0 else Value(s[..|s| - 1]) * 10 + DigitValue(s[|s| - 1])
  }

  /** Number of leading white-space characters. */
  function Spaces(s: string): (n: nat)
    ensures n <= |s| && forall i :: 0 <= i < n ==> IsSpace(s[i])
    ensures n < |s| ==> !IsSpace(s[n])
  {
    if s == [] || !IsSpace(s[0]) then 0 else Spaces(s[1..]) + 1
  }

  /** Number of leading digits. */
  function DigitRun(s: string): (n: nat)
    ensures n <= |s| && AllDigits(s[..n])
    ensures n < |s| ==> !IsDigit(s[n])
  {
    if s == [] || !IsDigit(s[0]) then 0 else DigitRun(s[1..]) + 1
  }

  /** std::stoi demanding that the whole text is consumed: optional white
      space, an optional sign, then digits only, within the range of an int. */
  function ParseInt(text: string): Option<int>
  {
    var t := text[Spaces(text)..];
    var negative := t != [] && t[0] == '-';
    var u := if t != [] && (t[0] == '-' || t[0] == '+') then t[1..] else t;
    var n := DigitRun(u);
    if n == 0 || n < |u| then None
    else
      var value := if negative then -Value(u[..n]) else Value(u[..n]);
      if INT_MIN <= value <= INT_MAX then Some(value) else None
  }

  lemma {:induction false} ValueOfDigits(n: nat)
    ensures Value(Digits(n)) == n
    decreases n
  {
    if n >= 10 {
      ValueOfDigits(n / 10);
      assert Digits(n)[..|Digits(n)| - 1] == Digits(n / 10);
    }
  }

  lemma {:induction false} DigitRunOfDigits(s: string)
    requires AllDigits(s)
    ensures DigitRun(s) == |s|
    decreases |s|
  {
    if s != [] { DigitRunOfDigits(s[1..]); }
  }

  /** Reading undoes printing, for every int. */
  lemma ParsePrinted(n: int)
    requires INT_MIN <= n <= INT_MAX
    ensures ParseInt(ToText(n)) == Some(n)
  {
    var d := Digits(if n < 0 then -n else n);
    ValueOfDigits(if n < 0 then -n else n);
    DigitRunOfDigits(d);
    assert d[..|d|] == d;
    assert ToText(n)[0..] == ToText(n);
  }

  /** The text is white space, at most one sign, and digits of this value. */
  ghost predicate Denotes(text: string, n: int)
  {
    exists k: nat, d: nat :: DenotesFrom(text, k, d, n)
  }

  ghost predicate DenotesFrom(text: string, k: nat, d: nat, n: int)
  {
    && k <= d < |text| && (forall i :: 0 <= i < k ==> IsSpace(text[i]))
    && (d == k || (d == k + 1 && (text[k] == '-' || text[k] == '+')))
    && AllDigits(text[d..])
    && n == if d == k + 1 && text[k] == '-' then -Value(text[d..]) else Value(text[d..])
  }

  lemma {:induction false} SpacesExactly(text: string, k: nat)
    requires k <= |text| && (forall i :: 0 <= i < k ==> IsSpace(text[i])) && (k < |text| ==> !IsSpace(text[k]))
    ensures Spaces(text) == k
    decreases k
  {
    if k > 0 { SpacesExactly(text[1..], k - 1); }
  }

  lemma ReadIsDenoted(text: string, n: int)
    requires ParseInt(text) == Some(n)
    ensures INT_MIN <= n <= INT_MAX && Denotes(text, n)
  {
    var k := Spaces(text);
    var t := text[k..];
    var d := if t[0] == '-' || t[0] == '+' then k + 1 else k;
    var u := text[d..];
    assert u == if d == k then t else t[1..];
    assert u[..DigitRun(u)] == u;
    assert DenotesFrom(text, k, d, n);
  }

  lemma DenotedIsRead(text: string, k: nat, d: nat, n: int)
    requires INT_MIN <= n <= INT_MAX && DenotesFrom(text, k, d, n)
    ensures ParseInt(text) == Some(n)
  {
    var t, u := text[k..], text[d..];
    assert d == k ==> text[k] == u[0];
    SpacesExactly(text, k);
    assert u == if d == k then t else t[1..];
    DigitRunOfDigits(u);
    assert u[..|u|] == u && IsDigit(u[0]);
  }

  /** Exactly such texts are read, if their value is an int; a text with anything
      else in it, "12x" or "1 2", is refused. */
  lemma ParseIntExactly(text: string, n: int)
    ensures ParseInt(text) == Some(n) <==> INT_MIN <= n <= INT_MAX && Denotes(text, n)
  {
    if ParseInt(text) == Some(n) { ReadIsDenoted(text, n); }
    if INT_MIN <= n <= INT_MAX && Denotes(text, n) {
      var k: nat, d: nat :| DenotesFrom(text, k, d, n);
      DenotedIsRead(text, k, d, n);
    }
  }

  /** Printing is injective: it can be undone without knowing the range. */
  lemma PrintInjective(m: int, n: int)
    requires ToText(m) == ToText(n)
    ensures m == n
  {
    var dm := Digits(if m < 0 then -m else m);
    var dn := Digits(if n < 0 then -n else n);
    ValueOfDigits(if m < 0 then -m else m);
    ValueOfDigits(if n < 0 then -n else n);
    assert m < 0 ==> ToText(m)[0] == '-' && ToText(m)[1..] == dm;
    assert n < 0 ==> ToText(n)[0] == '-' && ToText(n)[1..] == dn;
    assert IsDigit(dm[0]) && IsDigit(dn[0]);
  }

  // -------------------------------------------------------------- splitting

  /** Number of leading characters other than white space. */
  function WordRun(s: string): (n: nat)
    ensures n <= |s| && SpaceFree(s[..n])
    ensures n < |s| ==> IsSpace(s[n])
  {
    if s == [] || IsSpace(s[0]) then 0 else WordRun(s[1..]) + 1
  }

  /** One `stream >> token`: white space is skipped, then a word is taken. */
  function NextWord(s: string): (r: (string, string))
    ensures r.0 != [] ==> |r.1| < |s|
  {
    var t := s[Spaces(s)..];
    (t[..WordRun(t)], t[WordRun(t)..])
  }

  function Tokens(line: string): (r: seq<string>)
    ensures forall i :: 0 <= i < |r| ==> r[i] != [] && SpaceFree(r[i])
    decreases |line|
  {
    var (word, rest) := NextWord(line);
    if word == [] then [] else [word] + Tokens(rest)
  }

  method Tokenize(line: string) returns (tokens: seq<string>)
    ensures tokens == Tokens(line)
  {
    tokens := [];
    var stream := line;
    var (token, rest) := NextWord(stream);
    while token != []
      invariant (token, rest) == NextWord(stream)
      invariant tokens + Tokens(stream) == Tokens(line)
      decreases |stream|
    {
      tokens := tokens + [token];
      stream := rest;
      var next := NextWord(stream);
      token, rest := next.0, next.1;
    }
  }

  lemma {:induction false} WordRunOfWord(w: string, rest: string)
    requires SpaceFree(w) && (rest == [] || IsSpace(rest[0]))
    ensures WordRun(w + rest) == |w|
    decreases |w|
  {
    if w != [] {
      assert (w + rest)[1..] == w[1..] + rest;
      WordRunOfWord(w[1..], rest);
    }
  }

  /** A word followed by nothing or by white space is the first token. */
  lemma TokensOfWord(w: string, rest: string)
    requires w != [] && SpaceFree(w) && (rest == [] || IsSpace(rest[0]))
    ensures Tokens(w + rest) == [w] + Tokens(rest)
  {
    WordRunOfWord(w, rest);
    assert !IsSpace((w + rest)[0]);
    assert (w + rest)[0..] == w + rest;
    assert (w + rest)[..|w|] == w && (w + rest)[|w|..] == rest;
  }

  lemma TokensOfSpace(c: char, rest: string)
    requires IsSpace(c)
    ensures Tokens([c] + rest) == Tokens(rest)
  {
    assert ([c] + rest)[1..] == rest;
    assert ([c] + rest)[Spaces([c] + rest)..] == rest[Spaces(rest)..];
  }

  lemma FirstToken(word: string, rest: string)
    requires word != [] && SpaceFree(word)
    ensures Tokens(word + (" " + rest)) == [word] + Tokens(rest)
  {
    TokensOfWord(word, " " + rest);
    TokensOfSpace(' ', rest);
  }

  lemma OnlyToken(word: string)
    requires word != [] && SpaceFree(word)
    ensures Tokens(word) == [word]
  {
    TokensOfWord(word, "");
    assert word + "" == word;
  }

  /** Words put side by side with single spaces between them. */
  function Joined(words: seq<string>): string
  {
    if words == [] then "" else if |words| == 1 then words[0] else words[0] + (" " + Joined(words[1..]))
  }

  /** Splitting undoes joining, for every sequence of words. */
  lemma {:induction false} TokensOfJoined(words: seq<string>)
    requires forall i :: 0 <= i < |words| ==> words[i] != [] && SpaceFree(words[i])
    ensures Tokens(Joined(words)) == words
    decreases |words|
  {
    if |words| == 1 {
      OnlyToken(words[0]);
    } else if |words| > 1 {
      var rest := Joined(words[1..]);
      TokensOfJoined(words[1..]);
      FirstToken(words[0], rest);
    }
  }

  function Concatenated(words: seq<string>): string
  {
    if words == [] then "" else words[0] + Concatenated(words[1..])
  }

  function WithoutSpaces(s: string): string
  {
    if s == [] then "" else (if IsSpace(s[0]) then "" else [s[0]]) + WithoutSpaces(s[1..])
  }

  /** Splitting loses nothing but white space, for every line. */
  lemma {:induction false} TokensKeepText(line: string)
    ensures Concatenated(Tokens(line)) == WithoutSpaces(line)
    decreases |line|
  {
    var (word, rest) := NextWord(line);
    NextWordKeepsText(line);
    if word != [] { TokensKeepText(rest); }
  }

  lemma NextWordKeepsText(line: string)
    ensures WithoutSpaces(line) == NextWord(line).0 + WithoutSpaces(NextWord(line).1)
    ensures NextWord(line).0 == [] ==> NextWord(line).1 == []
  {
    var n := Spaces(line);
    var t := line[n..];
    var w := t[..WordRun(t)];
    assert line == line[..n] + t && t == w + t[|w|..];
    WithoutSpacesSplit(line[..n], t);
    SpacesVanish(line[..n]);
    WithoutSpacesSplit(w, t[|w|..]);
    WordStays(w);
  }

  lemma {:induction false} WithoutSpacesSplit(a: string, b: string)
    ensures WithoutSpaces(a + b) == WithoutSpaces(a) + WithoutSpaces(b)
    decreases |a|
  {
    if a == [] {
      assert a + b == b;
    } else {
      assert (a + b)[1..] == a[1..] + b;
      WithoutSpacesSplit(a[1..], b);
    }
  }

  lemma {:induction false} SpacesVanish(s: string)
    requires forall i :: 0 <= i < |s| ==> IsSpace(s[i])
    ensures WithoutSpaces(s) == ""
    decreases |s|
  {
    if s != [] { SpacesVanish(s[1..]); }
  }

  lemma {:induction false} WordStays(s: string)
    requires SpaceFree(s)
    ensures WithoutSpaces(s) == s
    decreases |s|
  {
    if s != [] { WordStays(s[1..]); }
  }
}
