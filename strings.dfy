/** The few JavaScript string operations the service relies on, over `seq<char>`. */
module Strings {
  import opened Common

  /** `s.startsWith(p)` */
  predicate StartsWith(s: string, p: string) {
    |p| <= |s| && s[..|p|] == p
  }

  /** `w` occurs in `s` starting at index `i` */
  predicate OccursAt(s: string, w: string, i: int) {
    0 <= i && i + |w| <= |s| && s[i..i + |w|] == w
  }

  /** `w` is a substring of `s`: what an unanchored regular-expression
      literal without special characters tests */
  predicate Contains(s: string, w: string) {
    exists i | 0 <= i <= |s| - |w| :: OccursAt(s, w, i)
  }

  /** `c.toLowerCase()` on the ASCII letters; every other character is kept */
  function ToLowerChar(c: char): (d: char)
    ensures 'A' <= c <= 'Z' ==> 'a' <= d <= 'z'
    ensures 'A' <= c <= 'Z' ==> d as int == c as int + 32
    ensures !('A' <= c <= 'Z') ==> d == c
  {
    if 'A' <= c <= 'Z' then (c as int + 32) as char else c
  }

  /** `s.toLowerCase()` restricted to ASCII letters */
  function ToLower(s: string): (r: string)
    ensures |r| == |s|
    ensures forall i :: 0 <= i < |s| ==> r[i] == ToLowerChar(s[i])
  {
    seq(|s|, i requires 0 <= i < |s| => ToLowerChar(s[i]))
  }

  /** A string without upper-case ASCII letters is its own lower case. */
  lemma LowerCaseUnchanged(s: string)
    requires forall i :: 0 <= i < |s| ==> !('A' <= s[i] <= 'Z')
    ensures ToLower(s) == s
  {
  }

  /** `s.indexOf(c)`, as an option */
  function IndexOf(s: string, c: char): (r: Option<nat>)
    ensures r.None? <==> c !in s
    ensures r.Some? ==> r.value < |s| && s[r.value] == c && c !in s[..r.value]
  {
    if |s| == 0 then None
    else if s[0] == c then Some(0)
    else
      match IndexOf(s[1..], c)
      case None => None
      case Some(i) =>
        assert s[..i + 1] == [s[0]] + s[1..][..i];
        Some(i + 1)
  }

  /** `s.lastIndexOf(c)`, as an option */
  function LastIndexOf(s: string, c: char): (r: Option<nat>)
    ensures r.None? <==> c !in s
    ensures r.Some? ==> r.value < |s| && s[r.value] == c && c !in s[r.value + 1..]
  {
    if |s| == 0 then None
    else if s[|s| - 1] == c then Some(|s| - 1)
    else
      match LastIndexOf(s[..|s| - 1], c)
      case None =>
        assert s == s[..|s| - 1] + [s[|s| - 1]];
        None
      case Some(i) =>
        assert s[i + 1..] == s[..|s| - 1][i + 1..] + [s[|s| - 1]];
        Some(i)
  }

  /** `s.split(sep)` for a one-character separator: the pieces between the
      occurrences of `sep`, in order, empty pieces included */
  function Split(s: string, sep: char): (parts: seq<string>)
    ensures |parts| >= 1
    ensures |parts| == 1 <==> sep !in s
    ensures forall k :: 0 <= k < |parts| ==> sep !in parts[k]
    decreases |s|
  {
    match IndexOf(s, sep)
    case None => [s]
    case Some(i) => [s[..i]] + Split(s[i + 1..], sep)
  }

  /** `parts.join(sep)` */
  function Join(parts: seq<string>, sep: char): string
    requires |parts| >= 1
  {
    if |parts| == 1 then parts[0] else parts[0] + [sep] + Join(parts[1..], sep)
  }

  lemma Reassemble(s: string, i: nat)
    requires i < |s|
    ensures s[..i] + [s[i]] + s[i + 1..] == s
  {
  }

  /** Splitting loses nothing: joining the pieces gives back the string. */
  lemma {:induction false} JoinSplit(s: string, sep: char)
    ensures Join(Split(s, sep), sep) == s
    decreases |s|
  {
    match IndexOf(s, sep)
    case None =>
    case Some(i) =>
      var parts := Split(s, sep);
      var rest := Split(s[i + 1..], sep);
      assert parts == [s[..i]] + rest;
      assert parts[1..] == rest;
      JoinSplit(s[i + 1..], sep);
      calc {
        Join(parts, sep);
        s[..i] + [sep] + Join(rest, sep);
        s[..i] + [sep] + s[i + 1..];
        { Reassemble(s, i); }
        s;
      }
  }

  /** The pieces of `head + [sep] + tail` when `head` holds no separator. */
  lemma SplitAfterFirst(head: string, sep: char, tail: string)
    requires sep !in head
    ensures Split(head + [sep] + tail, sep) == [head] + Split(tail, sep)
  {
    var s := head + [sep] + tail;
    var i := IndexOf(s, sep);
    assert s[|head|] == sep;
    assert s[..|head|] == head;
    assert s[|head| + 1..] == tail;
  }

  /** `'0'` to `'9'` */
  predicate IsDigit(c: char) {
    '0' <= c <= '9'
  }

  function DigitChar(d: nat): (c: char)
    requires d < 10
    ensures IsDigit(c)
  {
    ('0' as int + d) as char
  }

  function DigitValue(c: char): (d: nat)
    requires IsDigit(c)
    ensures d < 10
  {
    c as int - '0' as int
  }

  predicate AllDigits(s: string) {
    forall i :: 0 <= i < |s| ==> IsDigit(s[i])
  }

  /** `n.toString()` for a non-negative integer: its decimal digits, with no
      leading zero */
  function NatToString(n: nat): (s: string)
    ensures |s| >= 1 && AllDigits(s)
    ensures |s| > 1 ==> s[0] != '0'
  {
    if n < 10 then [DigitChar(n)] else NatToString(n / 10) + [DigitChar(n % 10)]
  }

  /** The number a string of decimal digits denotes. */
  function ParseDecimal(s: string): nat
    requires AllDigits(s)
  {
    if s == [] then 0 else 10 * ParseDecimal(s[..|s| - 1]) + DigitValue(s[|s| - 1])
  }

  /** Printing a number and reading it back gives the number. */
  lemma {:induction false} ParseNatToString(n: nat)
    ensures ParseDecimal(NatToString(n)) == n
  {
    var s := NatToString(n);
    if n >= 10 {
      ParseNatToString(n / 10);
      assert s[..|s| - 1] == NatToString(n / 10);
    }
  }

  function Pow10(k: nat): (p: nat)
    ensures p >= 1
  {
    if k == 0 then 1 else 10 * Pow10(k - 1)
  }

  /** A number with `k` digits prints as exactly `k` characters. */
  lemma {:induction false} NatToStringLength(n: nat, k: nat)
    requires 1 <= k && Pow10(k - 1) <= n < Pow10(k)
    ensures |NatToString(n)| == k
  {
    if k == 1 {
      assert n < 10;
    } else {
      assert Pow10(k - 1) == 10 * Pow10(k - 2);
      assert n >= 10;
      NatToStringLength(n / 10, k - 1);
    }
  }
}
