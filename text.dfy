/** String helpers with the JavaScript semantics the source relies on:
    `\d`, `toLowerCase` on ASCII letters, `includes`, `split` on one
    character, `join`, decimal rendering of numbers, `padStart`
    and `trim`. */
module Text {

  import Seqs

  /** The characters JavaScript's `\d` matches (a regular expression without
      the `u` flag). */
  predicate IsDigit(c: char) { '0' <= c <= '9' }

  predicate AllDigits(s: string) { forall i | 0 <= i < |s| :: IsDigit(s[i]) }

  lemma AllDigitsSuffix(s: string, i: nat)
    requires AllDigits(s) && i <= |s|
    ensures AllDigits(s[i..])
  {
  }

  /** A string of digits holds no other character. */
  lemma AllDigitsAvoid(s: string, c: char)
    requires AllDigits(s) && !IsDigit(c)
    ensures c !in s
  {
  }

  function DigitValue(c: char): nat
    requires IsDigit(c)
  {
    c as int - '0' as int
  }

  function DigitChar(d: nat): (c: char)
    requires d < 10
    ensures IsDigit(c) && DigitValue(c) == d
  {
    ('0' as int + d) as char
  }

  /** The run of digits at the start of `s` (what greedy `\d+` takes). */
  function LeadingDigits(s: string): (r: string)
    ensures r <= s && AllDigits(r)
    ensures |r| < |s| ==> !IsDigit(s[|r|])
    decreases |s|
  {
    if s != [] && IsDigit(s[0]) then [s[0]] + LeadingDigits(s[1..]) else []
  }

  lemma {:induction false} LeadingDigitsAll(s: string)
    requires AllDigits(s)
    ensures LeadingDigits(s) == s
    decreases |s|
  {
    if s != [] {
      LeadingDigitsAll(s[1..]);
      assert [s[0]] + s[1..] == s;
    }
  }

  /** The number a string of decimal digits denotes (`parseInt` of it). */
  function DigitsValue(s: string): nat
    requires AllDigits(s)
    decreases |s|
  {
    if s == [] then 0 else DigitsValue(s[..|s| - 1]) * 10 + DigitValue(s[|s| - 1])
  }

  /** `String(n)` for a non-negative integer: its shortest decimal form. */
  function NatToString(n: nat): (r: string)
    ensures 1 <= |r| && AllDigits(r) && DigitsValue(r) == n
    ensures r[0] == '0' ==> n == 0
    decreases n
  {
    if n < 10 then [DigitChar(n)]
    else
      var r := NatToString(n / 10) + [DigitChar(n % 10)];
      assert r[..|r| - 1] == NatToString(n / 10);
      r
  }

  /** `String(i)` for an integer. */
  function IntToString(i: int): string
  {
    if i < 0 then "-" + NatToString(-i) else NatToString(i)
  }

  function Repeat(c: char, k: nat): (r: string)
    ensures |r| == k && forall i | 0 <= i < k :: r[i] == c
  {
    seq(k, _ => c)
  }

  /** JavaScript's `s.padStart(width, c)` with a one-character pad. */
  function PadStart(s: string, width: nat, c: char): (r: string)
    ensures |r| == if |s| >= width then |s| else width
    ensures r[|r| - |s|..] == s
    ensures forall i | 0 <= i < |r| - |s| :: r[i] == c
  {
    if |s| >= width then s else Repeat(c, width - |s|) + s
  }

  /** Zeros in front of a digit string do not change its value, so the
      zero-padded forms parse back to the number. */
  lemma {:induction false} LeadingZerosValue(k: nat, s: string)
    requires AllDigits(s)
    ensures AllDigits(Repeat('0', k) + s)
    ensures DigitsValue(Repeat('0', k) + s) == DigitsValue(s)
    decreases |s|
  {
    var z := Repeat('0', k);
    if s == [] {
      assert z + s == z;
      ZerosValue(k);
    } else {
      var init := s[..|s| - 1];
      LeadingZerosValue(k, init);
      assert (z + s)[..|z + s| - 1] == z + init;
    }
  }

  lemma {:induction false} ZerosValue(k: nat)
    ensures AllDigits(Repeat('0', k)) && DigitsValue(Repeat('0', k)) == 0
    decreases k
  {
    if k > 0 {
      ZerosValue(k - 1);
      assert Repeat('0', k)[..k - 1] == Repeat('0', k - 1);
    }
  }

  /** A number rendered in decimal and padded with zeros denotes the number. */
  lemma PaddedNumberValue(n: nat, width: nat)
    ensures AllDigits(PadStart(NatToString(n), width, '0'))
    ensures DigitsValue(PadStart(NatToString(n), width, '0')) == n
  {
    var s := NatToString(n);
    if |s| < width {
      LeadingZerosValue(width - |s|, s);
    }
  }

  // ASCII case mapping; see the README for what is not modelled.

  function LowerChar(c: char): char
  {
    if 'A' <= c <= 'Z' then (c as int + 32) as char else c
  }

  /** `s.toLowerCase()` on the ASCII letters. */
  function ToLower(s: string): (r: string)
    ensures |r| == |s|
  {
    seq(|s|, i requires 0 <= i < |s| => LowerChar(s[i]))
  }

  lemma ToLowerIdempotent(s: string)
    ensures ToLower(ToLower(s)) == ToLower(s)
  {
  }

  /** `s.includes(sub)`. */
  predicate Contains(s: string, sub: string)
    decreases |s|
  {
    sub <= s || (|s| > 0 && Contains(s[1..], sub))
  }

  /** `includes` is true of the empty string and of every infix. */
  lemma {:induction false} ContainsInfix(a: string, b: string, c: string)
    ensures Contains(a + b + c, b)
    decreases |a|
  {
    if a == [] {
      assert b <= a + b + c;
    } else {
      ContainsInfix(a[1..], b, c);
      assert (a + b + c)[1..] == a[1..] + b + c;
    }
  }

  /** `s.split(c)` for a one-character separator: never empty, and the empty
      string splits into one empty part. */
  function Split(s: string, c: char): (r: seq<string>)
    ensures |r| >= 1
    decreases |s|
  {
    if s == [] then [""]
    else if s[0] == c then [""] + Split(s[1..], c)
    else
      var rest := Split(s[1..], c);
      [[s[0]] + rest[0]] + rest[1..]
  }

  /** `xs.join(sep)`. */
  function Join(xs: seq<string>, sep: string): string
    decreases |xs|
  {
    if |xs| == 0 then "" else if |xs| == 1 then xs[0] else xs[0] + sep + Join(xs[1..], sep)
  }

  lemma {:induction false} SplitWithoutSeparator(s: string, c: char)
    requires c !in s
    ensures Split(s, c) == [s]
    decreases |s|
  {
    if s != [] {
      SplitWithoutSeparator(s[1..], c);
      assert [s[0]] + s[1..] == s;
    }
  }

  lemma {:induction false} SplitAtSeparator(a: string, c: char, b: string)
    requires c !in a
    ensures Split(a + [c] + b, c) == [a] + Split(b, c)
    decreases |a|
  {
    if a == [] {
      assert a + [c] + b == [c] + b;
      assert ([c] + b)[1..] == b;
    } else {
      SplitAtSeparator(a[1..], c, b);
      assert (a + [c] + b)[1..] == a[1..] + [c] + b;
      assert [a[0]] + a[1..] == a;
    }
  }

  /** Splitting a join on the same one-character separator gives the parts
      back, provided no part contains the separator. */
  lemma {:induction false} SplitJoin(xs: seq<string>, c: char)
    requires |xs| >= 1
    requires forall i | 0 <= i < |xs| :: c !in xs[i]
    ensures Split(Join(xs, [c]), c) == xs
    decreases |xs|
  {
    if |xs| == 1 {
      SplitWithoutSeparator(xs[0], c);
    } else {
      SplitJoin(xs[1..], c);
      SplitAtSeparator(xs[0], c, Join(xs[1..], [c]));
      assert [xs[0]] + xs[1..] == xs;
    }
  }

  lemma JoinThree(a: string, b: string, c: string, sep: string)
    ensures Join([a, b, c], sep) == a + sep + b + sep + c
  {
    assert [a, b, c][1..] == [b, c];
    assert [b, c][1..] == [c];
    assert Join([c], sep) == c;
    assert Join([b, c], sep) == b + sep + c;
    assert Join([a, b, c], sep) == a + sep + Join([b, c], sep);
  }

  /** Three parts without the separator split back out of their join. */
  lemma SplitThree(a: string, b: string, c: string, sep: char)
    requires sep !in a && sep !in b && sep !in c
    ensures Split(a + [sep] + b + [sep] + c, sep) == [a, b, c]
  {
    JoinThree(a, b, c, [sep]);
    SplitJoin([a, b, c], sep);
  }

  // White space as `String.prototype.trim` understands it: the WhiteSpace
  // and LineTerminator code points of ECMAScript.

  const JsWhitespace: set<char> := {
    '\t', '\n', '\U{000B}', '\U{000C}', '\r', ' ', '\U{00A0}', '\U{1680}',
    '\U{2000}', '\U{2001}', '\U{2002}', '\U{2003}', '\U{2004}', '\U{2005}',
    '\U{2006}', '\U{2007}', '\U{2008}', '\U{2009}', '\U{200A}',
    '\U{2028}', '\U{2029}', '\U{202F}', '\U{205F}', '\U{3000}', '\U{FEFF}'}

  predicate IsJsWhitespace(c: char)
  {
    c in JsWhitespace
  }

  /** How many white-space characters `s` starts with. */
  function LeadingSpace(s: string): (k: nat)
    ensures k <= |s|
    decreases |s|
  {
    if s != [] && IsJsWhitespace(s[0]) then 1 + LeadingSpace(s[1..]) else 0
  }

  /** How many white-space characters `s` ends with. */
  function TrailingSpace(s: string): (k: nat)
    ensures k <= |s|
    decreases |s|
  {
    if s != [] && IsJsWhitespace(s[|s| - 1]) then 1 + TrailingSpace(s[..|s| - 1]) else 0
  }

  function TrimStart(s: string): string
  {
    s[LeadingSpace(s)..]
  }

  function TrimEnd(s: string): string
  {
    s[..|s| - TrailingSpace(s)]
  }

  /** `s.trim()`. */
  function Trim(s: string): string
  {
    TrimEnd(TrimStart(s))
  }

  predicate IsTrimmed(s: string)
  {
    s == [] || (!IsJsWhitespace(s[0]) && !IsJsWhitespace(s[|s| - 1]))
  }

  /** The leading run is all white space and is followed by none. */
  lemma {:induction false} LeadingSpaceFacts(s: string)
    ensures forall i | 0 <= i < LeadingSpace(s) :: IsJsWhitespace(s[i])
    ensures LeadingSpace(s) < |s| ==> !IsJsWhitespace(s[LeadingSpace(s)])
    decreases |s|
  {
    if s != [] && IsJsWhitespace(s[0]) {
      LeadingSpaceFacts(s[1..]);
    }
  }

  /** The trailing run is all white space and is preceded by none. */
  lemma {:induction false} TrailingSpaceFacts(s: string)
    ensures forall i | |s| - TrailingSpace(s) <= i < |s| :: IsJsWhitespace(s[i])
    ensures TrailingSpace(s) < |s| ==> !IsJsWhitespace(s[|s| - TrailingSpace(s) - 1])
    decreases |s|
  {
    if s != [] && IsJsWhitespace(s[|s| - 1]) {
      TrailingSpaceFacts(s[..|s| - 1]);
    }
  }

  /** The result of `trim` has no white space at either end and is the
      contiguous piece of the input left once white space is cut from both
      ends, so takes all its characters from it. */
  lemma TrimFacts(s: string)
    ensures IsTrimmed(Trim(s))
    ensures exists i, j | 0 <= i <= j <= |s| :: Trim(s) == s[i..j] && SpaceOutside(s, i, j)
    ensures forall x :: x in Trim(s) ==> x in s
  {
    var t := TrimStart(s);
    LeadingSpaceFacts(s);
    TrailingSpaceFacts(t);
    var i := LeadingSpace(s);
    var j := i + |t| - TrailingSpace(t);
    assert Trim(s) == s[i..j];
    forall k | j <= k < |s| ensures IsJsWhitespace(s[k]) {
      assert s[k] == t[k - i];
    }
    if Trim(s) != [] {
      assert Trim(s)[0] == t[0];
    }
    forall x | x in Trim(s) ensures x in s {
      var k :| 0 <= k < |Trim(s)| && Trim(s)[k] == x;
      assert s[i + k] == x;
    }
  }

  /** Everything of `s` before `i` and from `j` on is white space. */
  predicate SpaceOutside(s: string, i: nat, j: nat)
    requires i <= j <= |s|
  {
    (forall k | 0 <= k < i :: IsJsWhitespace(s[k])) && (forall k | j <= k < |s| :: IsJsWhitespace(s[k]))
  }

  /** `trim` keeps every character that is not white space, as often as it
      occurs. */
  lemma TrimCount(s: string)
    ensures forall c | !IsJsWhitespace(c) :: multiset(Trim(s))[c] == multiset(s)[c]
  {
    TrimFacts(s);
    var i, j :| 0 <= i <= j <= |s| && Trim(s) == s[i..j] && SpaceOutside(s, i, j);
    forall c | !IsJsWhitespace(c) ensures multiset(Trim(s))[c] == multiset(s)[c] {
      Seqs.CountInside(s, i, j, IsJsWhitespace, c);
    }
  }

  /** A string with no white space at either end is its own `trim`. */
  lemma TrimOfTrimmed(s: string)
    requires IsTrimmed(s)
    ensures Trim(s) == s
  {
  }

  /** `s.replace(/[...]/g, '')`: every character of `drop` removed. */
  function Remove(s: string, drop: set<char>): string
    decreases |s|
  {
    if s == [] then []
    else if s[0] in drop then Remove(s[1..], drop) else [s[0]] + Remove(s[1..], drop)
  }

  /** What remains is exactly the characters of `s` outside `drop`, each as
      often as it occurs in `s`. */
  lemma {:induction false} RemoveFacts(s: string, drop: set<char>)
    ensures forall x :: x in Remove(s, drop) <==> x in s && x !in drop
    ensures forall x :: multiset(Remove(s, drop))[x] == if x in drop then 0 else multiset(s)[x]
    decreases |s|
  {
    if s != [] {
      RemoveFacts(s[1..], drop);
      assert s == [s[0]] + s[1..];
      assert multiset(s) == multiset([s[0]]) + multiset(s[1..]);
    }
  }

  /** Removing characters that do not occur changes nothing. */
  lemma {:induction false} RemoveAbsent(s: string, drop: set<char>)
    requires forall x :: x in s ==> x !in drop
    ensures Remove(s, drop) == s
    decreases |s|
  {
    if s != [] {
      RemoveAbsent(s[1..], drop);
      assert s == [s[0]] + s[1..];
    }
  }

  /** `s.replace(/[^\d]/g, '')`: the decimal digits of `s`, in order. */
  function KeepDigits(s: string): (r: string)
    ensures AllDigits(r)
    ensures forall x :: x in r <==> x in s && IsDigit(x)
    decreases |s|
  {
    if s == [] then []
    else
      var rest := KeepDigits(s[1..]);
      assert s == [s[0]] + s[1..];
      if IsDigit(s[0]) then [s[0]] + rest else rest
  }
}
