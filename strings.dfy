/**
 * String operations the Python code gets from `str`: whitespace stripping, slicing,
 * `str(int)`, `sep.join`, `split(c)`, `split()` and `in`.
 */
module Strings {
  import opened Wrappers

  /** Whitespace as `str.strip`, `str.split` and the regular expression `\s` see it,
    * restricted to the six ASCII whitespace characters. */
  predicate IsWs(c: char) {
    c == ' ' || c == '\t' || c == '\n' || c == '\r' || c == '\U{000B}' || c == '\U{000C}'
  }

  predicate IsDigit(c: char) {
    '0' <= c <= '9'
  }

  /** Python's `s[:n]` for a non-negative `n`. */
  function Take<T>(s: seq<T>, n: nat): (r: seq<T>)
    ensures |r| == if n <= |s| then n else |s|
    ensures r <= s
  {
    if n <= |s| then s[..n] else s
  }

  /** A prefix holds each element at most as often as the whole sequence. */
  lemma PrefixMultiset<T>(a: seq<T>, b: seq<T>)
    requires a <= b
    ensures multiset(a) <= multiset(b)
  {
    assert b == a + b[|a|..];
  }

  /** Python's `s[lo:hi]` for non-negative bounds: empty when `hi <= lo`, and clipped to `s`. */
  function Slice<T>(s: seq<T>, lo: nat, hi: nat): (r: seq<T>)
    ensures |r| <= if hi <= lo then 0 else hi - lo
    ensures forall k :: 0 <= k < |r| ==> lo + k < |s| && r[k] == s[lo + k]
    ensures lo <= hi <= |s| ==> r == s[lo..hi]
  {
    if hi <= lo || |s| <= lo then []
    else if hi <= |s| then s[lo..hi]
    else s[lo..]
  }

  /** Two adjacent slices make up the slice that spans both. */
  lemma SliceTiles<T>(s: seq<T>, lo: nat, mid: nat, hi: nat)
    requires lo <= mid <= hi
    ensures Slice(s, lo, mid) + Slice(s, mid, hi) == Slice(s, lo, hi)
  {
    if |s| <= mid {
      assert Slice(s, mid, hi) == [];
    } else if |s| <= hi {
      assert s[lo..mid] + s[mid..] == s[lo..];
    } else {
      assert s[lo..mid] + s[mid..hi] == s[lo..hi];
    }
  }

  /** The number of whitespace characters `s` starts with. */
  function LeadingWs(s: string): (n: nat)
    ensures n <= |s|
    ensures forall i :: 0 <= i < n ==> IsWs(s[i])
    ensures n < |s| ==> !IsWs(s[n])
  {
    if s == [] || !IsWs(s[0]) then 0 else 1 + LeadingWs(s[1..])
  }

  /** A string with no whitespace at either end. */
  predicate IsStripped(s: string) {
    s == [] || (!IsWs(s[0]) && !IsWs(s[|s| - 1]))
  }

  /** Python's `s.strip()`: `s` without the whitespace at either end. */
  function Strip(s: string): (r: string)
    ensures IsStripped(r)
    ensures |r| <= |s|
    decreases |s|
  {
    if s == [] then []
    else if IsWs(s[0]) then Strip(s[1..])
    else if IsWs(s[|s| - 1]) then Strip(s[..|s| - 1])
    else s
  }

  /** Where the text that stripping keeps starts and ends in `s`. */
  function StripBounds(s: string): (b: (nat, nat))
    ensures b.0 <= b.1 <= |s|
    decreases |s|
  {
    if s == [] then (0, 0)
    else if IsWs(s[0]) then
      var b := StripBounds(s[1..]);
      (b.0 + 1, b.1 + 1)
    else if IsWs(s[|s| - 1]) then StripBounds(s[..|s| - 1])
    else (0, |s|)
  }

  lemma SliceOfTail(s: string, i: nat, j: nat)
    requires i <= j < |s|
    ensures s[1..][i..j] == s[i + 1..j + 1]
  {
  }

  lemma SliceOfInit(s: string, i: nat, j: nat)
    requires i <= j < |s|
    ensures s[..|s| - 1][i..j] == s[i..j]
  {
  }

  /** What stripping keeps is the slice between its bounds, with only whitespace outside it. */
  lemma {:induction false} StripIsSlice(s: string)
    ensures var (i, j) := StripBounds(s);
      && Strip(s) == s[i..j]
      && (forall k :: 0 <= k < i ==> IsWs(s[k]))
      && (forall k :: j <= k < |s| ==> IsWs(s[k]))
    decreases |s|
  {
    if s == [] {
    } else if IsWs(s[0]) {
      var t := s[1..];
      StripIsSlice(t);
      var (i, j) := StripBounds(t);
      SliceOfTail(s, i, j);
      forall k | 0 <= k < i + 1
        ensures IsWs(s[k])
      {
        if k > 0 {
          assert s[k] == t[k - 1];
        }
      }
      forall k | j + 1 <= k < |s|
        ensures IsWs(s[k])
      {
        assert s[k] == t[k - 1];
      }
    } else if IsWs(s[|s| - 1]) {
      var t := s[..|s| - 1];
      StripIsSlice(t);
      var (i, j) := StripBounds(t);
      SliceOfInit(s, i, j);
      forall k | j <= k < |s|
        ensures IsWs(s[k])
      {
        if k < |t| {
          assert s[k] == t[k];
        }
      }
    } else {
      assert Strip(s) == s[0..|s|];
    }
  }

  /** Stripping a string that is already stripped changes nothing. */
  lemma StripStripped(s: string)
    requires IsStripped(s)
    ensures Strip(s) == s
  {
  }

  /** Whitespace appended to a string does not survive stripping. */
  lemma {:induction false} StripTrailing(s: string, w: char)
    requires IsWs(w)
    ensures Strip(s + [w]) == Strip(s)
    decreases |s|
  {
    var t := s + [w];
    if s == [] {
      assert t[1..] == [];
    } else if IsWs(s[0]) {
      assert t[1..] == s[1..] + [w];
      StripTrailing(s[1..], w);
    } else {
      assert t[..|t| - 1] == s;
    }
  }

  /** The character for a decimal digit. */
  function DigitChar(d: nat): (c: char)
    requires d < 10
    ensures IsDigit(c)
  {
    "0123456789"[d]
  }

  function DigitValue(c: char): (d: nat)
    requires IsDigit(c)
    ensures d < 10
  {
    (c as int - '0' as int) as nat
  }

  /** Python's `str(n)` for a non-negative integer: decimal digits, no leading zero. */
  function Decimal(n: nat): (r: string)
    ensures |r| >= 1
    ensures forall i :: 0 <= i < |r| ==> IsDigit(r[i])
    ensures r[0] == '0' ==> n == 0
  {
    if n < 10 then [DigitChar(n)] else Decimal(n / 10) + [DigitChar(n % 10)]
  }

  /** The value of a string of decimal digits. */
  function ParseDecimal(s: string): nat
    requires forall i :: 0 <= i < |s| ==> IsDigit(s[i])
  {
    if s == [] then 0 else 10 * ParseDecimal(s[..|s| - 1]) + DigitValue(s[|s| - 1])
  }

  /** `Decimal` loses nothing: parsing its digits gives the number back. */
  lemma {:induction false} DecimalRoundTrip(n: nat)
    ensures ParseDecimal(Decimal(n)) == n
  {
    if n >= 10 {
      var r := Decimal(n);
      assert r[..|r| - 1] == Decimal(n / 10);
      DecimalRoundTrip(n / 10);
    }
  }

  /** Python's `sep.join(parts)`. */
  function Join(parts: seq<string>, sep: string): (r: string)
    ensures parts == [] ==> r == []
    ensures |parts| == 1 ==> r == parts[0]
  {
    if |parts| == 0 then [] else if |parts| == 1 then parts[0] else parts[0] + sep + Join(parts[1..], sep)
  }

  /** Joining a leading part onto a non-empty rest puts one separator between them. */
  lemma JoinCons(head: string, rest: seq<string>, sep: string)
    requires rest != []
    ensures Join([head] + rest, sep) == head + sep + Join(rest, sep)
  {
    assert ([head] + rest)[1..] == rest;
  }

  /** The first part of a join starts the joined string. */
  lemma JoinFirst(parts: seq<string>, sep: string)
    requires parts != []
    ensures parts[0] <= Join(parts, sep)
  {
  }

  /** Python's `s.split(c)`: the pieces between occurrences of `c`, always at least one. */
  function Split(s: string, c: char): (r: seq<string>)
    ensures |r| >= 1
    ensures forall i :: 0 <= i < |r| ==> c !in r[i]
    ensures Join(r, [c]) == s
  {
    if s == [] then [[]]
    else
      var rest := Split(s[1..], c);
      if s[0] == c then
        JoinCons([], rest, [c]);
        [[]] + rest
      else
        JoinGlue([s[0]], rest, [c]);
        [[s[0]] + rest[0]] + rest[1..]
  }

  /** Gluing a prefix onto the first part glues it onto the joined string. */
  lemma JoinGlue(x: string, parts: seq<string>, sep: string)
    requires parts != []
    ensures Join([x + parts[0]] + parts[1..], sep) == x + Join(parts, sep)
  {
    if |parts| > 1 {
      JoinCons(parts[0], parts[1..], sep);
      JoinCons(x + parts[0], parts[1..], sep);
      assert parts == [parts[0]] + parts[1..];
    }
  }

  /** A string without the separator splits into itself alone. */
  lemma {:induction false} SplitNoSeparator(s: string, c: char)
    requires c !in s
    ensures Split(s, c) == [s]
  {
    if s != [] {
      SplitNoSeparator(s[1..], c);
    }
  }

  /** A separator-free prefix followed by the separator splits off as the first piece. */
  lemma {:induction false} SplitAfterPiece(p: string, c: char, rest: string)
    requires c !in p
    ensures Split(p + [c] + rest, c) == [p] + Split(rest, c)
  {
    var s := p + [c] + rest;
    if p == [] {
      assert s[1..] == rest;
    } else {
      assert s[1..] == p[1..] + [c] + rest;
      SplitAfterPiece(p[1..], c, rest);
      assert [p[0]] + p[1..] == p;
    }
  }

  /** Splitting undoes joining with a one-character separator that no part contains. */
  lemma {:induction false} SplitJoin(parts: seq<string>, c: char)
    requires parts != []
    requires forall i :: 0 <= i < |parts| ==> c !in parts[i]
    ensures Split(Join(parts, [c]), c) == parts
  {
    if |parts| == 1 {
      SplitNoSeparator(parts[0], c);
    } else {
      SplitJoin(parts[1..], c);
      SplitAfterPiece(parts[0], c, Join(parts[1..], [c]));
      assert parts == [parts[0]] + parts[1..];
    }
  }

  /** A word of Python's `s.split()`: non-empty and free of whitespace. */
  predicate IsWord(w: string) {
    w != [] && forall k :: 0 <= k < |w| ==> !IsWs(w[k])
  }

  /** The number of non-whitespace characters `s` starts with. */
  function WordLen(s: string): (n: nat)
    ensures n <= |s|
    ensures forall i :: 0 <= i < n ==> !IsWs(s[i])
    ensures n < |s| ==> IsWs(s[n])
  {
    if s == [] || IsWs(s[0]) then 0 else 1 + WordLen(s[1..])
  }

  /** Python's `s.split()` with no argument: the maximal runs of non-whitespace characters. */
  function Words(s: string): (r: seq<string>)
    ensures forall i :: 0 <= i < |r| ==> IsWord(r[i])
    decreases |s|
  {
    if s == [] then []
    else if IsWs(s[0]) then Words(s[1..])
    else
      var n := WordLen(s);
      [s[..n]] + Words(s[n..])
  }

  lemma {:induction false} WordLenAppend(a: string, w: char, b: string)
    requires IsWs(w)
    ensures WordLen(a + [w] + b) == WordLen(a)
  {
    if a == [] {
    } else if !IsWs(a[0]) {
      assert (a + [w] + b)[1..] == a[1..] + [w] + b;
      WordLenAppend(a[1..], w, b);
    }
  }

  /** A whitespace character separates the words on either side of it. */
  lemma {:induction false} WordsAppend(a: string, w: char, b: string)
    requires IsWs(w)
    ensures Words(a + [w] + b) == Words(a) + Words(b)
    decreases |a|
  {
    var s := a + [w] + b;
    if a == [] {
      assert s[1..] == b;
    } else if IsWs(a[0]) {
      assert s[1..] == a[1..] + [w] + b;
      WordsAppend(a[1..], w, b);
    } else {
      WordLenAppend(a, w, b);
      var n := WordLen(a);
      assert s[..n] == a[..n];
      assert s[n..] == a[n..] + [w] + b;
      WordsAppend(a[n..], w, b);
    }
  }

  /** `pat` occurs in `s` starting at index `i`. */
  predicate OccursAt(s: string, pat: string, i: nat) {
    i + |pat| <= |s| && s[i..i + |pat|] == pat
  }

  /** The first index at or after `from` where `pat` occurs in `s`. */
  function IndexFrom(s: string, pat: string, from: nat): (r: Option<nat>)
    ensures r.Some? ==> (from <= r.value && OccursAt(s, pat, r.value) &&
      forall j :: from <= j < r.value ==> !OccursAt(s, pat, j))
    ensures r.None? ==> forall j :: from <= j ==> !OccursAt(s, pat, j)
    decreases |s| - from
  {
    if from + |pat| > |s| then None
    else if s[from..from + |pat|] == pat then Some(from)
    else IndexFrom(s, pat, from + 1)
  }

  /** Python's `s.find(pat)` as an option: where `pat` first occurs in `s`, if it does. */
  function IndexOf(s: string, pat: string): (r: Option<nat>)
    ensures r.Some? ==> OccursAt(s, pat, r.value) && forall j :: 0 <= j < r.value ==> !OccursAt(s, pat, j)
    ensures r.None? ==> forall j :: 0 <= j ==> !OccursAt(s, pat, j)
  {
    IndexFrom(s, pat, 0)
  }

  /** An occurrence with none before it is the first one. */
  lemma IndexOfFirst(s: string, pat: string, j: nat)
    requires OccursAt(s, pat, j) && forall i :: 0 <= i < j ==> !OccursAt(s, pat, i)
    ensures IndexOf(s, pat) == Some(j)
  {
  }
}
