/** JavaScript string operations used by the client (`split`, `startsWith`, `trim`,
    template-literal number formatting), on `string` = `seq<char>`. */
module Text {
  import opened Common

  /** `s.startsWith(p)`. */
  predicate StartsWith(s: string, p: string) {
    |p| <= |s| && s[..|p|] == p
  }

  /** `sep` occurs in `s` starting at index `i`. */
  predicate OccursAt(s: string, sep: string, i: nat) {
    i + |sep| <= |s| && s[i..i + |sep|] == sep
  }

  predicate Contains(s: string, sep: string) {
    exists i: nat | i <= |s| :: OccursAt(s, sep, i)
  }

  /** The first index at which `sep` occurs in `s` (`s.indexOf(sep)`, absent for -1). */
  function IndexOf(s: string, sep: string): (r: Option<nat>)
    requires |sep| > 0
    ensures r.Some? ==> OccursAt(s, sep, r.value)
    ensures r.Some? ==> forall j: nat :: j < r.value ==> !OccursAt(s, sep, j)
    ensures r.None? <==> !Contains(s, sep)
    decreases |s|
  {
    if |s| < |sep| then None
    else if s[..|sep|] == sep then Some(0)
    else
      var rest := IndexOf(s[1..], sep);
      assert forall j: nat :: OccursAt(s[1..], sep, j) <==> OccursAt(s, sep, j + 1) by {
        forall j: nat ensures OccursAt(s[1..], sep, j) <==> OccursAt(s, sep, j + 1) {
          if j + 1 + |sep| <= |s| {
            SliceOfSlice(s, 1, |s|, j, j + |sep|);
          }
        }
      }
      assert !OccursAt(s, sep, 0);
      match rest
      case None =>
        assert !Contains(s, sep) by {
          forall j: nat | 0 < j <= |s| ensures !OccursAt(s, sep, j) {
            assert !OccursAt(s[1..], sep, j - 1);
          }
        }
        None
      case Some(i) =>
        assert forall j: nat :: j < i + 1 ==> !OccursAt(s, sep, j) by {
          forall j: nat | j < i + 1 ensures !OccursAt(s, sep, j) {
            if j > 0 { assert !OccursAt(s[1..], sep, j - 1); }
          }
        }
        Some(i + 1)
  }

  /** `parts.join(sep)`. */
  function Join(parts: seq<string>, sep: string): string {
    if |parts| == 0 then ""
    else if |parts| == 1 then parts[0]
    else parts[0] + sep + Join(parts[1..], sep)
  }

  /** `s.split(sep)` for a non-empty separator: the pieces between occurrences of `sep`,
      scanning from the left; always at least one piece. */
  function Split(s: string, sep: string): (r: seq<string>)
    requires |sep| > 0
    ensures |r| >= 1
    ensures Join(r, sep) == s
    ensures forall k :: 0 <= k < |r| ==> !Contains(r[k], sep)
    decreases |s|
  {
    match IndexOf(s, sep)
    case None => [s]
    case Some(i) =>
      var head := s[..i];
      var rest := Split(s[i + |sep|..], sep);
      assert !Contains(head, sep) by {
        forall j: nat | j <= |head| ensures !OccursAt(head, sep, j) {
          if j + |sep| <= |head| {
            SliceOfSlice(s, 0, i, j, j + |sep|);
            assert !OccursAt(s, sep, j);
          }
        }
      }
      assert s == head + sep + s[i + |sep|..];
      var r := [head] + rest;
      assert r[1..] == rest;
      r
  }

  /** A text that contains no separator splits into itself alone. */
  lemma SplitWithoutSeparator(s: string, sep: string)
    requires |sep| > 0 && !Contains(s, sep)
    ensures Split(s, sep) == [s]
  {
  }

  /** Splitting `a + sep + t`, where the first occurrence of `sep` is the one after `a`,
      gives `a` followed by the pieces of `t`. */
  lemma {:induction false} SplitAfterFirst(a: string, sep: string, t: string)
    requires |sep| > 0 && !Contains(a, sep)
    requires forall j: nat :: j < |a| ==> !OccursAt(a + sep + t, sep, j)
    ensures Split(a + sep + t, sep) == [a] + Split(t, sep)
  {
    var s := a + sep + t;
    assert OccursAt(s, sep, |a|) by { assert s[|a|..|a| + |sep|] == sep; }
    assert IndexOf(s, sep) == Some(|a|);
    assert s[..|a|] == a;
    assert s[|a| + |sep|..] == t;
  }

  /** A slice of a slice of `s` is a slice of `s`. */
  lemma SliceOfSlice(s: string, a: nat, b: nat, i: nat, j: nat)
    requires a <= b <= |s| && i <= j <= b - a
    ensures s[a..b][i..j] == s[a + i..a + j]
  {
    var x, y := s[a..b][i..j], s[a + i..a + j];
    forall k | 0 <= k < |x| ensures x[k] == y[k] {
      assert x[k] == s[a + i + k];
    }
  }

  /** A one-character separator occurs exactly where that character stands. */
  lemma OccursAtChar(s: string, c: char, j: nat)
    ensures OccursAt(s, [c], j) <==> j < |s| && s[j] == c
  {
    if j < |s| { assert s[j..j + 1] == [s[j]]; }
  }

  /** A text in which the character `c` does not appear does not contain `[c]`. */
  lemma WithoutChar(s: string, c: char)
    requires forall k :: 0 <= k < |s| ==> s[k] != c
    ensures !Contains(s, [c])
  {
    forall j: nat | j <= |s| ensures !OccursAt(s, [c], j) { OccursAtChar(s, c, j); }
  }

  /** A slice of a text that does not contain `sep` does not contain it either. */
  lemma SliceWithout(s: string, sep: string, a: nat, b: nat)
    requires a <= b <= |s| && !Contains(s, sep)
    ensures !Contains(s[a..b], sep)
  {
    forall j: nat | j <= b - a ensures !OccursAt(s[a..b], sep, j) {
      if j + |sep| <= b - a {
        SliceOfSlice(s, a, b, j, j + |sep|);
        assert !OccursAt(s, sep, a + j);
      }
    }
  }

  /** JavaScript's `String.prototype.trim` white space: the WhiteSpace and LineTerminator
      code points of ECMA-262. */
  predicate IsSpace(c: char) {
    var n := c as int;
    (9 <= n <= 13) || n == 0x20 || n == 0xA0 || n == 0x1680 || (0x2000 <= n <= 0x200A)
    || n == 0x2028 || n == 0x2029 || n == 0x202F || n == 0x205F || n == 0x3000 || n == 0xFEFF
  }

  /** No white space at either end. */
  predicate Trimmed(s: string) {
    s == [] || (!IsSpace(s[0]) && !IsSpace(s[|s| - 1]))
  }

  /** The number of white-space characters at the start of `s`. */
  function LeadingSpace(s: string): (n: nat)
    ensures n <= |s|
    ensures forall k :: 0 <= k < n ==> IsSpace(s[k])
    ensures n < |s| ==> !IsSpace(s[n])
  {
    if s != [] && IsSpace(s[0]) then 1 + LeadingSpace(s[1..]) else 0
  }

  /** The number of white-space characters at the end of `s`. */
  function TrailingSpace(s: string): (n: nat)
    ensures n <= |s|
    ensures forall k :: |s| - n <= k < |s| ==> IsSpace(s[k])
    ensures n < |s| ==> !IsSpace(s[|s| - 1 - n])
  {
    if s != [] && IsSpace(s[|s| - 1]) then 1 + TrailingSpace(s[..|s| - 1]) else 0
  }

  /** `s.trim()`: the longest slice of `s` that starts and ends with a non-space character;
      everything cut off on either side is white space. */
  function Trim(s: string): (r: string)
    ensures Trimmed(r)
    ensures LeadingSpace(s) + |r| <= |s| && r == s[LeadingSpace(s)..LeadingSpace(s) + |r|]
    ensures forall k :: LeadingSpace(s) + |r| <= k < |s| ==> IsSpace(s[k])
  {
    var a, b := LeadingSpace(s), TrailingSpace(s);
    if a == |s| then []
    else
      assert a <= |s| - 1 - b;
      s[a..|s| - b]
  }

  /** Trimming cannot introduce a separator. */
  lemma TrimWithout(s: string, sep: string)
    requires !Contains(s, sep)
    ensures !Contains(Trim(s), sep)
  {
    var r, a := Trim(s), LeadingSpace(s);
    SliceWithout(s, sep, a, a + |r|);
  }

  /** Trimming a text that has no white space at its ends changes nothing. */
  lemma TrimOfTrimmed(s: string)
    requires Trimmed(s)
    ensures Trim(s) == s
  {
  }

  lemma TrimIdempotent(s: string)
    ensures Trim(Trim(s)) == Trim(s)
  {
    TrimOfTrimmed(Trim(s));
  }

  function DigitChar(d: nat): (c: char)
    requires d < 10
    ensures '0' <= c <= '9'
  {
    (48 + d) as char
  }

  /** The decimal notation JavaScript and Python give a non-negative integer. */
  function NatToString(n: nat): (r: string)
    ensures |r| >= 1
    ensures forall k :: 0 <= k < |r| ==> '0' <= r[k] <= '9'
    ensures |r| > 1 ==> r[0] != '0'
  {
    if n < 10 then [DigitChar(n)] else NatToString(n / 10) + [DigitChar(n % 10)]
  }

  /** `${i}` for any integer: a minus sign before the digits of a negative number. */
  function IntToString(i: int): (r: string)
    ensures |r| >= 1
    ensures (i < 0) <==> r[0] == '-'
  {
    if i < 0 then "-" + NatToString(-i) else NatToString(i)
  }

  /** The value of a string of decimal digits. */
  function ParseDigits(s: string): nat
    requires forall k :: 0 <= k < |s| ==> '0' <= s[k] <= '9'
  {
    if s == [] then 0 else ParseDigits(s[..|s| - 1]) * 10 + (s[|s| - 1] as int - 48)
  }

  /** Reading back the decimal notation gives the number: the notation loses nothing. */
  lemma {:induction false} NatToStringRoundTrip(n: nat)
    ensures ParseDigits(NatToString(n)) == n
  {
    if n >= 10 {
      NatToStringRoundTrip(n / 10);
      var s := NatToString(n);
      assert s[..|s| - 1] == NatToString(n / 10);
    }
  }

  /** Different numbers get different notations. */
  lemma NatToStringInjective(m: nat, n: nat)
    requires NatToString(m) == NatToString(n)
    ensures m == n
  {
    NatToStringRoundTrip(m);
    NatToStringRoundTrip(n);
  }

  lemma IntToStringInjective(i: int, j: int)
    requires IntToString(i) == IntToString(j)
    ensures i == j
  {
    if i < 0 && j < 0 {
      assert NatToString(-i) == IntToString(i)[1..] == IntToString(j)[1..] == NatToString(-j);
      NatToStringInjective(-i, -j);
    } else if i >= 0 && j >= 0 {
      NatToStringInjective(i, j);
    }
  }

  /** The position of the first `c` in `s`, or `|s|` when there is none. */
  function FirstIndexOfChar(s: string, c: char): (r: nat)
    ensures r <= |s|
    ensures forall k :: 0 <= k < r ==> s[k] != c
    ensures r < |s| ==> s[r] == c
  {
    if s == [] || s[0] == c then 0 else 1 + FirstIndexOfChar(s[1..], c)
  }

  /** Splitting at the first occurrence of a character that the first part does not
      contain recovers both parts. */
  lemma PrefixBeforeChar(a: string, x: string, b: string, y: string, c: char)
    requires c !in a && c !in b
    requires |x| > 0 && x[0] == c && |y| > 0 && y[0] == c
    requires a + x == b + y
    ensures a == b && x == y
  {
    assert FirstIndexOfChar(a + x, c) == |a| by {
      assert (a + x)[|a|] == c;
      forall k | 0 <= k < |a| ensures (a + x)[k] != c {
        assert (a + x)[k] == a[k];
      }
    }
    assert FirstIndexOfChar(b + y, c) == |b| by {
      assert (b + y)[|b|] == c;
      forall k | 0 <= k < |b| ensures (b + y)[k] != c {
        assert (b + y)[k] == b[k];
      }
    }
    assert a == (a + x)[..|a|];
    assert b == (b + y)[..|b|];
    assert x == (a + x)[|a|..];
  }

  /** Equal strings with the same beginning have equal remainders. */
  lemma DropCommonPrefix(p: string, s: string, t: string)
    requires p + s == p + t
    ensures s == t
  {
    assert s == (p + s)[|p|..];
    assert t == (p + t)[|p|..];
  }
}
