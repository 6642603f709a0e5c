/**
 * Building blocks for the hand-written matchers that stand for the output parsers' regular
 * expressions. A matcher reads a string from its first character and returns what it captured
 * together with the rest of the string, or `None` when the pattern does not match there.
 *
 * Every pattern the parsers use is deterministic once its quantifiers are read greedily: each
 * `\d+` is followed by something that is not a digit, each `s?` by `\s+`, and each optional
 * group is tried before it is skipped. So a matcher that commits to the greedy choice matches
 * exactly where the backtracking engine does, and `String.prototype.match` (the leftmost match)
 * is `Search`, `matchAll` with the `g` flag is `MatchAll`.
 */
module Scan {
  import opened Wrappers
  import opened Text

  /** A run of digits matched by `\d+`, and the text after it. */
  datatype Num = Num(digits: string, rest: string)
  {
    /** `Number(match[k])` of the captured digits. */
    function Value(): nat
    {
      NumberOf(digits)
    }
  }

  /** A case-insensitive literal: the rest after `lit` when `t` starts with it up to ASCII case. */
  function LitI(t: string, lit: string): (r: Option<string>)
    ensures r.Some? ==> |lit| <= |t| && r.value == t[|lit|..]
    ensures r.Some? <==> |lit| <= |t| && forall k :: 0 <= k < |lit| ==> Lower(t[k]) == Lower(lit[k])
  {
    if lit == [] then Some(t)
    else if t != [] && Lower(t[0]) == Lower(lit[0]) then
      var r := LitI(t[1..], lit[1..]);
      assert r.Some? ==> forall k :: 1 <= k < |lit| ==> Lower(t[k]) == Lower(lit[k]) by {
        if r.Some? {
          forall k | 1 <= k < |lit| ensures Lower(t[k]) == Lower(lit[k]) {
            assert t[1..][k - 1] == t[k] && lit[1..][k - 1] == lit[k];
          }
        }
      }
      r
    else None
  }

  /** A case-sensitive literal. */
  function Lit(t: string, lit: string): (r: Option<string>)
    ensures r.Some? <==> StartsWith(t, lit)
    ensures r.Some? ==> t == lit + r.value
  {
    if StartsWith(t, lit) then Some(t[|lit|..]) else None
  }

  /** `\s*` */
  function Ws0(t: string): string
  {
    TrimStart(t)
  }

  /** `\s+` */
  function Ws1(t: string): (r: Option<string>)
    ensures r.Some? <==> t != [] && IsSpace(t[0])
    ensures r.Some? ==> r.value == TrimStart(t)
  {
    if t != [] && IsSpace(t[0]) then Some(TrimStart(t)) else None
  }

  /** Length of the longest digit prefix of `t`. */
  function DigitPrefix(t: string): (n: nat)
    ensures n <= |t| && IsDigits(t[..n])
    ensures n == |t| || !IsDigit(t[n])
  {
    if t != [] && IsDigit(t[0]) then
      var n := 1 + DigitPrefix(t[1..]);
      assert forall k :: 1 <= k < n ==> t[..n][k] == t[1..][..n - 1][k - 1];
      n
    else 0
  }

  /** `(\d+)`: the longest non-empty digit prefix. */
  function Digits1(t: string): (r: Option<Num>)
    ensures r.None? <==> t == [] || !IsDigit(t[0])
    ensures r.Some? ==> r.value.digits != [] && IsDigits(r.value.digits) && t == r.value.digits + r.value.rest
    ensures r.Some? ==> r.value.rest == [] || !IsDigit(r.value.rest[0])
  {
    var n := DigitPrefix(t);
    if n == 0 then None else Some(Num(t[..n], t[n..]))
  }

  /** A literal, in either case, is matched and consumed whatever follows it. */
  lemma {:induction false} LitIOf(lit: string, rest: string)
    ensures LitI(lit + rest, lit) == Some(rest)
  {
    if lit != [] {
      assert (lit + rest)[1..] == lit[1..] + rest;
      LitIOf(lit[1..], rest);
    }
  }

  /** A word that equals the literal up to ASCII case is matched and consumed. */
  lemma LitICaseOf(word: string, lit: string, rest: string)
    requires |word| == |lit| && forall k :: 0 <= k < |lit| ==> Lower(word[k]) == Lower(lit[k])
    ensures LitI(word + rest, lit) == Some(rest)
  {
    var t := word + rest;
    assert forall k :: 0 <= k < |lit| ==> t[k] == word[k];
    assert t[|lit|..] == rest;
  }

  lemma LitOf(lit: string, rest: string)
    ensures Lit(lit + rest, lit) == Some(rest)
  {
    assert (lit + rest)[..|lit|] == lit;
  }

  /** Whitespace before a non-space is consumed by `\s*`. */
  lemma {:induction false} Ws0Of(w: string, rest: string)
    requires IsBlank(w)
    requires rest == [] || !IsSpace(rest[0])
    ensures Ws0(w + rest) == rest
  {
    if w != [] {
      assert (w + rest)[1..] == w[1..] + rest;
      Ws0Of(w[1..], rest);
    } else {
      assert w + rest == rest;
    }
  }

  /** Non-empty whitespace before a non-space is consumed by `\s+`. */
  lemma Ws1Of(w: string, rest: string)
    requires w != [] && IsBlank(w)
    requires rest == [] || !IsSpace(rest[0])
    ensures Ws1(w + rest) == Some(rest)
  {
    Ws0Of(w, rest);
  }

  lemma {:induction false} DigitPrefixOf(d: string, rest: string)
    requires IsDigits(d)
    requires rest == [] || !IsDigit(rest[0])
    ensures DigitPrefix(d + rest) == |d|
  {
    if d != [] {
      assert (d + rest)[1..] == d[1..] + rest;
      DigitPrefixOf(d[1..], rest);
    } else {
      assert d + rest == rest;
    }
  }

  /** A run of digits followed by a non-digit is captured whole. */
  lemma Digits1Of(d: string, rest: string)
    requires d != [] && IsDigits(d)
    requires rest == [] || !IsDigit(rest[0])
    ensures Digits1(d + rest) == Some(Num(d, rest))
  {
    DigitPrefixOf(d, rest);
    assert (d + rest)[..|d|] == d;
  }

  /** What `String(n)` printed is read back as n. */
  lemma NumberRoundTrip(n: nat, rest: string)
    requires rest == [] || !IsDigit(rest[0])
    ensures Digits1(NatToString(n) + rest).Some?
    ensures Digits1(NatToString(n) + rest).value == Num(NatToString(n), rest)
    ensures Digits1(NatToString(n) + rest).value.Value() == n
  {
    NatToStringDigits(n);
    Digits1Of(NatToString(n), rest);
    NumberOfNatToString(n);
  }

  /** `c?` in either case: consumes one `c` when it comes next. */
  function OptI(t: string, c: char): string
  {
    if t != [] && Lower(t[0]) == Lower(c) then t[1..] else t
  }

  /** `ws?`: a word with an optional plural `s`, the rest after it. */
  function WordS(t: string, w: string): Option<string>
  {
    var a :- LitI(t, w);
    Some(OptI(a, 's'))
  }

  /** `(\d+)\s+ws?`: a count and the word it counts; the rest is what follows the word. */
  function CountWord(t: string, w: string): Option<Num>
  {
    var n :- Digits1(t);
    var b :- SpacedWord(n.rest, w);
    Some(Num(n.digits, b))
  }

  /** `\s+ws?` */
  function SpacedWord(t: string, w: string): Option<string>
  {
    var a :- Ws1(t);
    WordS(a, w)
  }

  /** How the tools print a count of things: "1 file", "2 files". */
  function Counted(n: nat, w: string): string
  {
    NatToString(n) + (" " + Noun(n, w))
  }

  predicate NotS(rest: string)
  {
    rest == [] || Lower(rest[0]) != 's'
  }

  lemma WordSOf(n: nat, w: string, rest: string)
    requires NotS(rest)
    ensures WordS(Noun(n, w) + rest, w) == Some(rest)
  {
    if n == 1 {
      LitIOf(w, rest);
    } else {
      assert Noun(n, w) + rest == w + ("s" + rest);
      LitIOf(w, "s" + rest);
      assert ("s" + rest)[1..] == rest;
    }
  }

  /** A printed count is read back with its digits, whatever word form the tool chose. */
  lemma CountWordOf(n: nat, w: string, rest: string)
    requires w != [] && !IsSpace(w[0])
    requires NotS(rest)
    ensures CountWord(Counted(n, w) + rest, w) == Some(Num(NatToString(n), rest))
  {
    var d, t2 := NatToString(n), Noun(n, w) + rest;
    var t := Counted(n, w) + rest;
    assert t == d + (" " + t2);
    assert Digits1(t) == Some(Num(d, " " + t2)) by {
      NumberRoundTrip(n, " " + t2);
    }
    assert SpacedWord(" " + t2, w) == Some(rest) by {
      SpacedWordOf(n, w, rest);
    }
  }

  lemma SpacedWordOf(n: nat, w: string, rest: string)
    requires w != [] && !IsSpace(w[0])
    requires NotS(rest)
    ensures SpacedWord(" " + (Noun(n, w) + rest), w) == Some(rest)
  {
    var t2 := Noun(n, w) + rest;
    assert t2[0] == w[0];
    Ws1Of(" ", t2);
    WordSOf(n, w, rest);
  }

  /** The index at which a match ends, given the text left after it. */
  function EndOf(s: string, rest: string): nat
  {
    if |rest| <= |s| then |s| - |rest| else |s|
  }

  /**
   * Leftmost search: the result of `at` at the least position of [i, n] where it matches.
   * `at(k)` stands for trying the pattern at position k.
   */
  function FirstMatch<X>(at: nat -> Option<X>, i: nat, n: nat): (r: Option<X>)
    decreases n + 1 - i
    ensures r.Some? ==> exists k :: i <= k <= n && at(k) == r && forall j :: i <= j < k ==> at(j).None?
    ensures r.None? <==> forall j :: i <= j <= n ==> at(j).None?
  {
    if i > n then None
    else if at(i).Some? then at(i)
    else FirstMatch(at, i + 1, n)
  }

  /** The search returns the match at k when k is the least matching position. */
  lemma {:induction false} FirstMatchIs<X>(at: nat -> Option<X>, i: nat, n: nat, k: nat)
    requires i <= k <= n && at(k).Some?
    requires forall j :: i <= j < k ==> at(j).None?
    ensures FirstMatch(at, i, n) == at(k)
    decreases k - i
  {
    if i < k {
      FirstMatchIs(at, i + 1, n, k);
    }
  }

  /** `s.match(re)` without the `g` flag, for a pattern given as a matcher `m`. */
  function Search<X>(s: string, m: string -> Option<X>): Option<X>
  {
    FirstMatch((i: nat) => if i <= |s| then m(s[i..]) else None, 0, |s|)
  }

  /** The search finds the match at the least position where the pattern matches, and nothing when it matches nowhere. */
  lemma SearchSpec<X>(s: string, m: string -> Option<X>)
    ensures var r := Search(s, m);
      (r.Some? ==> exists k :: 0 <= k <= |s| && m(s[k..]) == r && forall j :: 0 <= j < k ==> m(s[j..]).None?) &&
      (r.None? <==> forall k :: 0 <= k <= |s| ==> m(s[k..]).None?)
  {
    var at := (i: nat) => if i <= |s| then m(s[i..]) else None;
    assert forall k :: 0 <= k <= |s| ==> at(k) == m(s[k..]);
  }

  /** The search returns the match at k when k is the least position where the pattern matches. */
  lemma SearchFirst<X>(s: string, m: string -> Option<X>, k: nat)
    requires k <= |s| && m(s[k..]).Some?
    requires forall j :: 0 <= j < k ==> m(s[j..]).None?
    ensures Search(s, m) == m(s[k..])
  {
    SearchSpec(s, m);
  }

  /** `u` is what is left of `t` after some prefix. */
  predicate SuffixOf(u: string, t: string)
  {
    |u| <= |t| && t[|t| - |u|..] == u
  }

  lemma SuffixTrans(u: string, v: string, t: string)
    requires SuffixOf(u, v) && SuffixOf(v, t)
    ensures SuffixOf(u, t)
  {
    assert t[|t| - |u|..] == t[|t| - |v|..][|v| - |u|..];
  }

  lemma Ws1Suffix(t: string)
    ensures Ws1(t).Some? ==> SuffixOf(Ws1(t).value, t)
  {
    TrimStartSuffix(t);
  }

  lemma LitISuffix(t: string, lit: string)
    ensures LitI(t, lit).Some? ==> SuffixOf(LitI(t, lit).value, t)
  {
  }

  lemma Digits1Suffix(t: string)
    ensures Digits1(t).Some? ==> SuffixOf(Digits1(t).value.rest, t)
  {
    if Digits1(t).Some? {
      var n := Digits1(t).value;
      assert t[|t| - |n.rest|..] == (n.digits + n.rest)[|n.digits|..];
    }
  }

  /** No character of `t` is a decimal digit. */
  predicate NoDigits(t: string)
  {
    forall k :: 0 <= k < |t| ==> !IsDigit(t[k])
  }

  lemma NoDigitsCat(a: string, b: string)
    requires NoDigits(a) && NoDigits(b)
    ensures NoDigits(a + b)
  {
    forall k | 0 <= k < |a + b|
      ensures !IsDigit((a + b)[k])
    {
      if k >= |a| {
        assert (a + b)[k] == b[k - |a|];
      }
    }
  }

  /**
   * A pattern that can only match at a digit finds nothing around a printed number when it
   * fails at each position inside the number.
   */
  lemma SearchAroundNumber<X>(a: string, d: string, b: string, m: string -> Option<X>)
    requires NoDigits(a) && IsDigits(d) && NoDigits(b)
    requires forall u :: m(u).Some? ==> u != [] && IsDigit(u[0])
    requires forall j :: 0 <= j < |d| ==> m(d[j..] + b).None?
    ensures Search(a + (d + b), m).None?
  {
    var s := a + (d + b);
    forall k | 0 <= k <= |s|
      ensures m(s[k..]).None?
    {
      if k < |a| {
        assert s[k..][0] == a[k];
      } else if k < |a| + |d| {
        assert s[k..] == d[k - |a|..] + b;
      } else if k < |s| {
        assert s[k..][0] == b[k - |a| - |d|];
      }
    }
    SearchSpec(s, m);
  }

  /** No character of `t` is the lower-case letter `c` in either case. */
  predicate Avoids(t: string, c: char)
  {
    forall k :: 0 <= k < |t| ==> Lower(t[k]) != c
  }

  lemma AvoidsCat(a: string, b: string, c: char)
    requires Avoids(a, c) && Avoids(b, c)
    ensures Avoids(a + b, c)
  {
    forall k | 0 <= k < |a + b|
      ensures Lower((a + b)[k]) != c
    {
      if k >= |a| {
        assert (a + b)[k] == b[k - |a|];
      }
    }
  }

  /** A printed number holds no letter. */
  lemma AvoidsNumber(n: nat, c: char)
    requires 'a' <= c <= 'z'
    ensures Avoids(NatToString(n), c)
  {
    NatToStringDigits(n);
  }

  /** A literal, in either case, is matched only where its first letter stands. */
  lemma LitIFirst(t: string, lit: string)
    requires lit != [] && (t == [] || Lower(t[0]) != Lower(lit[0]))
    ensures LitI(t, lit).None?
  {
  }

  /** A pattern that matches at the very start is the one found. */
  lemma SearchAtStart<X>(s: string, m: string -> Option<X>)
    requires m(s).Some?
    ensures Search(s, m) == m(s)
  {
    var at := (i: nat) => if i <= |s| then m(s[i..]) else None;
    assert s[0..] == s;
    FirstMatchIs(at, 0, |s|, 0);
  }

  /**
   * Text put in front of a match leaves that match the one found, as long as the pattern
   * matches at no position of the text in front.
   */
  lemma SearchAfter<X>(before: string, s: string, m: string -> Option<X>)
    requires m(s).Some?
    requires forall j :: 0 <= j < |before| ==> m(before[j..] + s).None?
    ensures Search(before + s, m) == m(s)
  {
    var t := before + s;
    forall j | 0 <= j < |before|
      ensures m(t[j..]).None?
    {
      assert t[j..] == before[j..] + s;
    }
    assert t[|before|..] == s;
    SearchFirst(t, m, |before|);
  }

  /** A pattern that fails at the start and nowhere in the rest is not found at all. */
  lemma SearchPastStart<X>(s: string, m: string -> Option<X>)
    requires s != [] && m(s).None? && Search(s[1..], m).None?
    ensures Search(s, m).None?
  {
    SearchSpec(s[1..], m);
    forall k | 0 <= k <= |s|
      ensures m(s[k..]).None?
    {
      if k == 0 {
        assert s[0..] == s;
      } else {
        assert s[k..] == s[1..][k - 1..];
      }
    }
    SearchSpec(s, m);
  }

  /** A match found by `matchAll`: what it captured and the index where it ends. */
  datatype Hit<X> = Hit(value: X, end: nat)

  /**
   * `s.matchAll(re)` with the `g` flag, from position i: each match is searched for from where
   * the previous one ended (one further after an empty match), and `at(k)` is the match at k.
   */
  function MatchAll<X>(at: nat -> Option<Hit<X>>, i: nat, n: nat): (r: seq<X>)
    decreases n + 1 - i
  {
    if i > n then []
    else match at(i)
      case None => MatchAll(at, i + 1, n)
      case Some(h) => [h.value] + MatchAll(at, if h.end > i then h.end else i + 1, n)
  }

  /** Positions where the pattern does not match add nothing to a global scan. */
  lemma {:induction false} MatchAllSkip<X>(at: nat -> Option<Hit<X>>, i: nat, k: nat, n: nat)
    requires i <= k <= n + 1
    requires forall j :: i <= j < k ==> at(j).None?
    ensures MatchAll(at, i, n) == MatchAll(at, k, n)
    decreases k - i
  {
    if i < k {
      MatchAllSkip(at, i + 1, k, n);
    }
  }

  /** A match that consumes text is kept, and the scan goes on where it ended. */
  lemma MatchAllHit<X>(at: nat -> Option<Hit<X>>, i: nat, n: nat, h: Hit<X>)
    requires i <= n && at(i) == Some(h) && h.end > i
    ensures MatchAll(at, i, n) == [h.value] + MatchAll(at, h.end, n)
  {
  }

  /** A match followed by a stretch where the pattern does not match: the scan resumes after the stretch. */
  lemma MatchAllHitSkip<X>(at: nat -> Option<Hit<X>>, i: nat, k: nat, n: nat, h: Hit<X>)
    requires i <= n && at(i) == Some(h) && i < h.end <= k <= n + 1
    requires forall j :: h.end <= j < k ==> at(j).None?
    ensures MatchAll(at, i, n) == [h.value] + MatchAll(at, k, n)
  {
    MatchAllHit(at, i, n, h);
    MatchAllSkip(at, h.end, k, n);
  }

  /** When a pattern matches wherever another does, a text the second is found in has the first too. */
  lemma SearchImplied<X, Y>(s: string, m1: string -> Option<X>, m2: string -> Option<Y>)
    requires forall t :: m1(t).Some? ==> m2(t).Some?
    ensures Search(s, m1).Some? ==> Search(s, m2).Some?
  {
    SearchSpec(s, m1);
    SearchSpec(s, m2);
    if Search(s, m1).Some? {
      var k :| 0 <= k <= |s| && m1(s[k..]) == Search(s, m1);
      assert m2(s[k..]).Some?;
    }
  }

  /** Length of the longest prefix of non-whitespace characters. */
  function TokenLength(t: string): (n: nat)
    ensures n <= |t|
    ensures forall k :: 0 <= k < n ==> !IsSpace(t[k])
    ensures n == |t| || IsSpace(t[n])
  {
    if t != [] && !IsSpace(t[0]) then 1 + TokenLength(t[1..]) else 0
  }

  /** A whitespace-free run read by `\S+`. */
  datatype Token = Token(text: string, rest: string)

  function TokenAt(t: string): (r: Option<Token>)
    ensures r.Some? ==> r.value.text != [] && t == r.value.text + r.value.rest
    ensures r.Some? ==> r.value.rest == [] || IsSpace(r.value.rest[0])
    ensures r.Some? ==> IsToken(r.value.text)
  {
    var n := TokenLength(t);
    if n == 0 then None else Some(Token(t[..n], t[n..]))
  }

  predicate IsToken(s: string)
  {
    s != [] && forall k :: 0 <= k < |s| ==> !IsSpace(s[k])
  }

  lemma {:induction false} TokenLengthOf(s: string, rest: string)
    requires forall k :: 0 <= k < |s| ==> !IsSpace(s[k])
    requires rest == [] || IsSpace(rest[0])
    ensures TokenLength(s + rest) == |s|
  {
    if s != [] {
      assert (s + rest)[1..] == s[1..] + rest;
      TokenLengthOf(s[1..], rest);
    } else {
      assert s + rest == rest;
    }
  }

  lemma TokenAtOf(s: string, rest: string)
    requires IsToken(s)
    requires rest == [] || IsSpace(rest[0])
    ensures TokenAt(s + rest) == Some(Token(s, rest))
  {
    TokenLengthOf(s, rest);
    assert (s + rest)[..|s|] == s;
  }
}
