/**
 * Character classes and string operations of JavaScript that the runner relies on:
 * `\s`, `\d`, `\w`, ASCII case folding, `trim`, `split`, `join`, `repeat`,
 * `startsWith`/`endsWith`/`includes`, and the decimal conversions `String(n)` and `Number(digits)`.
 */
module Text {
  /** A LineTerminator of ECMAScript: LF, CR, LINE SEPARATOR, PARAGRAPH SEPARATOR. */
  predicate IsLineTerminator(c: char)
  {
    c == '\n' || c == '\r' || c == '\U{2028}' || c == '\U{2029}'
  }

  /** The class `\s`, and what `String.prototype.trim` removes: WhiteSpace or LineTerminator. */
  predicate IsSpace(c: char)
  {
    c == '\t' || c == '\U{B}' || c == '\U{C}' || c == ' ' || c == '\U{A0}' || c == '\U{1680}'
    || ('\U{2000}' <= c <= '\U{200A}') || c == '\U{202F}' || c == '\U{205F}' || c == '\U{3000}'
    || c == '\U{FEFF}' || IsLineTerminator(c)
  }

  /** The class `\d`. */
  predicate IsDigit(c: char)
  {
    '0' <= c <= '9'
  }

  /** The class `\w`, whose edges `\b` detects. */
  predicate IsWordChar(c: char)
  {
    ('a' <= c <= 'z') || ('A' <= c <= 'Z') || IsDigit(c) || c == '_'
  }

  /** ASCII case folding, which is what the `i` flag does for the ASCII literals used here. */
  function Lower(c: char): char
  {
    if 'A' <= c <= 'Z' then (c as int + 32) as char else c
  }

  predicate IsBlank(s: string)
  {
    forall k :: 0 <= k < |s| ==> IsSpace(s[k])
  }

  predicate IsDigits(s: string)
  {
    forall k :: 0 <= k < |s| ==> IsDigit(s[k])
  }

  /** `"word"` when n is 1 and `"words"` otherwise: the pluralisation every message uses. */
  function Noun(n: nat, word: string): string
  {
    if n == 1 then word else word + "s"
  }

  function DigitChar(d: nat): (c: char)
    requires d < 10
    ensures IsDigit(c)
  {
    ('0' as int + d) as char
  }

  /** `String(n)` for a non-negative integer: decimal digits without leading zeros. */
  function NatToString(n: nat): (r: string)
    ensures |r| > 0
  {
    if n < 10 then [DigitChar(n)] else NatToString(n / 10) + [DigitChar(n % 10)]
  }

  /** `String(n)` writes only decimal digits, with no leading zero. */
  lemma {:induction false} NatToStringDigits(n: nat)
    ensures IsDigits(NatToString(n))
    ensures |NatToString(n)| > 1 ==> NatToString(n)[0] != '0'
  {
    if n >= 10 {
      NatToStringDigits(n / 10);
      var r := NatToString(n);
      assert r[0] == NatToString(n / 10)[0];
    }
  }

  /** `Number(digits)` for a string of decimal digits (a non-digit counts as 0). */
  function NumberOf(d: string): nat
  {
    if |d| == 0 then 0
    else NumberOf(d[..|d| - 1]) * 10 + (if IsDigit(d[|d| - 1]) then d[|d| - 1] as int - '0' as int else 0)
  }

  /** Reading back what `String(n)` writes gives n. */
  lemma {:induction false} NumberOfNatToString(n: nat)
    ensures NumberOf(NatToString(n)) == n
  {
    var r := NatToString(n);
    if n >= 10 {
      NumberOfNatToString(n / 10);
      assert r[..|r| - 1] == NatToString(n / 10);
    }
  }

  /** `String(n)` is injective, so two counts print alike only when they are equal. */
  lemma NatToStringInjective(m: nat, n: nat)
    requires NatToString(m) == NatToString(n)
    ensures m == n
  {
    NumberOfNatToString(m);
    NumberOfNatToString(n);
  }

  /** `trimStart`: drops the leading `\s` characters and nothing else. */
  function TrimStart(s: string): (r: string)
    ensures |r| <= |s|
    ensures forall k :: 0 <= k < |s| - |r| ==> IsSpace(s[k])
    ensures r == [] || !IsSpace(r[0])
  {
    if |s| > 0 && IsSpace(s[0]) then TrimStart(s[1..]) else s
  }

  /** `trimEnd`: drops the trailing `\s` characters and nothing else. */
  function TrimEnd(s: string): (r: string)
    ensures |r| <= |s|
    ensures forall k :: |r| <= k < |s| ==> IsSpace(s[k])
    ensures r == [] || !IsSpace(r[|r| - 1])
  {
    if |s| > 0 && IsSpace(s[|s| - 1]) then TrimEnd(s[..|s| - 1]) else s
  }

  /** What `trimStart` keeps is a suffix of the string. */
  lemma {:induction false} TrimStartSuffix(s: string)
    ensures TrimStart(s) == s[|s| - |TrimStart(s)|..]
    decreases |s|
  {
    if |s| > 0 && IsSpace(s[0]) {
      TrimStartSuffix(s[1..]);
      assert s[1..][|s[1..]| - |TrimStart(s)|..] == s[|s| - |TrimStart(s)|..];
    }
  }

  /** What `trimEnd` keeps is a prefix of the string. */
  lemma {:induction false} TrimEndPrefix(s: string)
    ensures TrimEnd(s) == s[..|TrimEnd(s)|]
    decreases |s|
  {
    if |s| > 0 && IsSpace(s[|s| - 1]) {
      TrimEndPrefix(s[..|s| - 1]);
      assert s[..|s| - 1][..|TrimEnd(s)|] == s[..|TrimEnd(s)|];
    }
  }

  /** `String.prototype.trim`. */
  function Trim(s: string): (r: string)
  {
    TrimEnd(TrimStart(s))
  }

  /** The trimmed string is empty exactly when the original holds only whitespace; otherwise it starts and ends with a non-space. */
  lemma TrimShape(s: string)
    ensures Trim(s) == [] <==> IsBlank(s)
    ensures Trim(s) != [] ==> !IsSpace(Trim(s)[0]) && !IsSpace(Trim(s)[|Trim(s)| - 1])
    ensures |Trim(s)| <= |s|
  {
    var t := TrimStart(s);
    TrimStartBlank(s);
    if t != [] {
      TrimEndKeepsHead(t);
    }
  }

  /** `trimStart` leaves nothing exactly when the string holds only whitespace. */
  lemma TrimStartBlank(s: string)
    ensures TrimStart(s) == [] <==> IsBlank(s)
  {
    var t := TrimStart(s);
    TrimStartSuffix(s);
    if t != [] {
      assert s[|s| - |t|] == t[0];
      assert !IsBlank(s);
    }
  }

  /** `trimEnd` keeps a leading non-space. */
  lemma TrimEndKeepsHead(t: string)
    requires t != [] && !IsSpace(t[0])
    ensures TrimEnd(t) != [] && TrimEnd(t)[0] == t[0]
  {
    TrimEndPrefix(t);
  }

  /** Trimming a string without outer whitespace returns it unchanged. */
  lemma TrimUnchanged(s: string)
    requires s == [] || (!IsSpace(s[0]) && !IsSpace(s[|s| - 1]))
    ensures Trim(s) == s
  {
  }

  lemma TrimIdempotent(s: string)
    ensures Trim(Trim(s)) == Trim(s)
  {
    TrimShape(s);
    TrimUnchanged(Trim(s));
  }

  /** `.map(f).filter(Boolean)`: the images under `f` that are not empty, in order. */
  function NonEmptyImages(parts: seq<string>, f: string -> string): (r: seq<string>)
    ensures |r| <= |parts|
  {
    if parts == [] then []
    else
      var p := f(parts[0]);
      (if p == [] then [] else [p]) + NonEmptyImages(parts[1..], f)
  }

  /** Every piece kept is a non-empty image of some part. */
  lemma {:induction false} NonEmptyImagesFrom(parts: seq<string>, f: string -> string, k: nat)
    requires k < |NonEmptyImages(parts, f)|
    ensures NonEmptyImages(parts, f)[k] != []
    ensures exists j :: 0 <= j < |parts| && NonEmptyImages(parts, f)[k] == f(parts[j])
  {
    var p := f(parts[0]);
    var head: seq<string> := if p == [] then [] else [p];
    var rest := NonEmptyImages(parts[1..], f);
    assert NonEmptyImages(parts, f) == head + rest;
    if k < |head| {
      assert NonEmptyImages(parts, f)[k] == f(parts[0]);
    } else {
      NonEmptyImagesFrom(parts[1..], f, k - |head|);
      var j :| 0 <= j < |parts[1..]| && rest[k - |head|] == f(parts[1..][j]);
      assert parts[1..][j] == parts[j + 1];
    }
  }

  /** Mapping and dropping the empty images works part by part, so it distributes over concatenation. */
  lemma {:induction false} NonEmptyImagesConcat(a: seq<string>, b: seq<string>, f: string -> string)
    ensures NonEmptyImages(a + b, f) == NonEmptyImages(a, f) + NonEmptyImages(b, f)
  {
    if a == [] {
      assert a + b == b;
    } else {
      assert (a + b)[0] == a[0];
      assert (a + b)[1..] == a[1..] + b;
      NonEmptyImagesConcat(a[1..], b, f);
    }
  }

  /** `.map((s) => s.trim()).filter(Boolean)`: the trimmed pieces that are not empty, in order. */
  function TrimmedNonEmpty(parts: seq<string>): seq<string>
  {
    NonEmptyImages(parts, Trim)
  }

  /** Every piece kept is non-empty and already trimmed. */
  lemma TrimmedNonEmptyTrimmed(parts: seq<string>)
    ensures forall k :: 0 <= k < |TrimmedNonEmpty(parts)| ==> TrimmedNonEmpty(parts)[k] != [] && Trim(TrimmedNonEmpty(parts)[k]) == TrimmedNonEmpty(parts)[k]
  {
    var r := TrimmedNonEmpty(parts);
    forall k | 0 <= k < |r|
      ensures r[k] != [] && Trim(r[k]) == r[k]
    {
      NonEmptyImagesFrom(parts, Trim, k);
      var j :| 0 <= j < |parts| && r[k] == Trim(parts[j]);
      TrimIdempotent(parts[j]);
    }
  }

  lemma TrimmedNonEmptyConcat(a: seq<string>, b: seq<string>)
    ensures TrimmedNonEmpty(a + b) == TrimmedNonEmpty(a) + TrimmedNonEmpty(b)
  {
    NonEmptyImagesConcat(a, b, Trim);
  }

  predicate StartsWith(s: string, p: string)
  {
    |p| <= |s| && s[..|p|] == p
  }

  predicate EndsWith(s: string, p: string)
  {
    |p| <= |s| && s[|s| - |p|..] == p
  }

  /** `includes`: `p` occurs at some position of `s`. */
  predicate Contains(s: string, p: string)
    decreases |s|
  {
    StartsWith(s, p) || (|s| > 0 && Contains(s[1..], p))
  }

  /** `Array.prototype.join(sep)`. */
  function Join(parts: seq<string>, sep: string): (r: string)
  {
    if |parts| == 0 then ""
    else if |parts| == 1 then parts[0]
    else parts[0] + sep + Join(parts[1..], sep)
  }

  /** `s.repeat(n)`. */
  function Repeat(s: string, n: nat): (r: string)
    ensures |s| == 1 ==> |r| == n && forall k :: 0 <= k < n ==> r[k] == s[0]
  {
    if n == 0 then "" else s + Repeat(s, n - 1)
  }

  /** Index of the first occurrence of `c` in `s`, or |s| when there is none. */
  function IndexOf(s: string, c: char): (k: nat)
    ensures k <= |s|
    ensures forall j :: 0 <= j < k ==> s[j] != c
    ensures k < |s| ==> s[k] == c
  {
    if |s| == 0 then 0 else if s[0] == c then 0 else 1 + IndexOf(s[1..], c)
  }

  /** `s.split(c)` for a one-character separator. */
  function SplitOn(s: string, c: char): (r: seq<string>)
    ensures |r| > 0
    ensures forall k :: 0 <= k < |r| ==> c !in r[k]
    decreases |s|
  {
    var k := IndexOf(s, c);
    if k == |s| then [s] else [s[..k]] + SplitOn(s[k + 1..], c)
  }

  /** Splitting at `c` and joining with `[c]` gives the string back. */
  lemma {:induction false} JoinSplitOn(s: string, c: char)
    ensures Join(SplitOn(s, c), [c]) == s
    decreases |s|
  {
    var k := IndexOf(s, c);
    if k < |s| {
      JoinSplitOn(s[k + 1..], c);
      var r := SplitOn(s, c);
      assert r[1..] == SplitOn(s[k + 1..], c);
      assert s == s[..k] + [c] + s[k + 1..];
    }
  }

  /** Splitting at `c` a join of parts that do not hold `c` gives the parts back. */
  lemma {:induction false} SplitOnJoin(parts: seq<string>, c: char)
    requires parts != []
    requires forall k :: 0 <= k < |parts| ==> c !in parts[k]
    ensures SplitOn(Join(parts, [c]), c) == parts
    decreases |parts|
  {
    var s := Join(parts, [c]);
    if |parts| > 1 {
      var p := parts[0];
      assert s == p + [c] + Join(parts[1..], [c]);
      assert IndexOf(s, c) == |p| by {
        assert s[|p|] == c;
        assert forall j :: 0 <= j < |p| ==> s[j] == p[j];
      }
      assert s[..|p|] == p;
      assert s[|p| + 1..] == Join(parts[1..], [c]);
      SplitOnJoin(parts[1..], c);
      assert parts == [p] + parts[1..];
    }
  }

  /** Parts that are non-empty and already trimmed pass `.map(trim).filter(Boolean)` unchanged. */
  lemma {:induction false} TrimmedNonEmptyClean(parts: seq<string>)
    requires forall k :: 0 <= k < |parts| ==> parts[k] != [] && Trim(parts[k]) == parts[k]
    ensures TrimmedNonEmpty(parts) == parts
  {
    if parts != [] {
      TrimmedNonEmptyClean(parts[1..]);
      assert parts == [parts[0]] + parts[1..];
    }
  }
}
