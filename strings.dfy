/**
  String helpers shared by the two file-name splitters and the number parser:
  Rust's `str::split` with a `char` delimiter followed by `collect`, the slice
  `join`, ASCII digits with their decimal value, and ASCII case-insensitive
  comparison (the `(?i)` flag restricted to ASCII letters).
 */
module Strings {

  // ----- split and join -----

  /** The segments `s.split(d).collect::<Vec<_>>()` yields: never empty, one more than the delimiters. */
  function Split(s: string, d: char): (parts: seq<string>)
    ensures |parts| >= 1
    decreases |s|
  {
    if |s| == 0 then [""]
    else
      var rest := Split(s[1..], d);
      if s[0] == d then [""] + rest
      else [[s[0]] + rest[0]] + rest[1..]
  }

  /** `parts.join(d)`: the segments with one delimiter between neighbours. */
  function Join(parts: seq<string>, d: char): string
    decreases |parts|
  {
    if |parts| == 0 then ""
    else if |parts| == 1 then parts[0]
    else parts[0] + [d] + Join(parts[1..], d)
  }

  /** Joining the segments back with the delimiter gives the input again. */
  lemma {:induction false} JoinSplit(s: string, d: char)
    ensures Join(Split(s, d), d) == s
    decreases |s|
  {
    if |s| > 0 {
      var rest := Split(s[1..], d);
      JoinSplit(s[1..], d);
      if s[0] == d {
        assert Split(s, d)[1..] == rest;
      } else {
        var parts := Split(s, d);
        assert parts[1..] == rest[1..];
        if |rest| > 1 {
          assert Join(rest, d) == rest[0] + [d] + Join(rest[1..], d);
        }
        assert s == [s[0]] + s[1..];
      }
    }
  }

  /** No segment contains the delimiter. */
  lemma {:induction false} SplitSegmentsFree(s: string, d: char)
    ensures forall i :: 0 <= i < |Split(s, d)| ==> d !in Split(s, d)[i]
    decreases |s|
  {
    if |s| > 0 {
      SplitSegmentsFree(s[1..], d);
      var rest := Split(s[1..], d);
      var parts := Split(s, d);
      if s[0] != d {
        forall i | 0 <= i < |parts| ensures d !in parts[i] {
          if i == 0 {
            assert parts[0] == [s[0]] + rest[0];
          } else {
            assert parts[i] == rest[i];
          }
        }
      }
    }
  }

  /** A string without the delimiter is a single segment. */
  lemma {:induction false} SplitWithout(s: string, d: char)
    requires d !in s
    ensures Split(s, d) == [s]
    decreases |s|
  {
    if |s| > 0 {
      SplitWithout(s[1..], d);
      assert s == [s[0]] + s[1..];
    }
  }

  /** There is more than one segment exactly when the delimiter occurs. */
  lemma {:induction false} SplitCount(s: string, d: char)
    ensures |Split(s, d)| > 1 <==> d in s
    decreases |s|
  {
    if |s| > 0 {
      SplitCount(s[1..], d);
      assert d in s <==> s[0] == d || d in s[1..];
    }
  }

  /** Splitting around one delimiter occurrence splits each side independently. */
  lemma {:induction false} SplitConcat(a: string, b: string, d: char)
    ensures Split(a + [d] + b, d) == Split(a, d) + Split(b, d)
    decreases |a|
  {
    var s := a + [d] + b;
    if |a| == 0 {
      assert s[1..] == b;
    } else {
      assert s[1..] == a[1..] + [d] + b;
      SplitConcat(a[1..], b, d);
    }
  }

  /** Where the first segment ends: the text before the first delimiter, then the rest. */
  lemma {:induction false} SplitFirst(s: string, d: char)
    ensures var parts := Split(s, d);
      d !in parts[0] &&
      (|parts| > 1 <==> d in s) &&
      parts[0] + (if |parts| > 1 then [d] + Join(parts[1..], d) else "") == s
  {
    var parts := Split(s, d);
    SplitSegmentsFree(s, d);
    SplitCount(s, d);
    JoinSplit(s, d);
    if |parts| > 1 {
      assert Join(parts, d) == parts[0] + [d] + Join(parts[1..], d);
    }
  }

  /** The position of the last occurrence of `d`. */
  lemma {:induction false} LastOccurrence(s: string, d: char) returns (k: nat)
    requires d in s
    ensures k < |s| && s[k] == d && d !in s[k + 1..]
    decreases |s|
  {
    if s[|s| - 1] == d {
      k := |s| - 1;
    } else {
      assert s == s[..|s| - 1] + [s[|s| - 1]];
      k := LastOccurrence(s[..|s| - 1], d);
      assert s[k + 1..] == s[..|s| - 1][k + 1..] + [s[|s| - 1]];
    }
  }

  /** Where the last segment starts: everything before the last delimiter, then the last segment. */
  lemma {:induction false} SplitLast(s: string, d: char)
    ensures var parts := Split(s, d);
      |parts| > 1 ==>
        d !in parts[|parts| - 1] &&
        Join(parts[..|parts| - 1], d) + [d] + parts[|parts| - 1] == s
  {
    var parts := Split(s, d);
    if |parts| > 1 {
      SplitCount(s, d);
      var k := LastOccurrence(s, d);
      assert s == s[..k] + [d] + s[k + 1..];
      SplitConcat(s[..k], s[k + 1..], d);
      SplitWithout(s[k + 1..], d);
      assert parts == Split(s[..k], d) + [s[k + 1..]];
      assert parts[..|parts| - 1] == Split(s[..k], d);
      JoinSplit(s[..k], d);
    }
  }

  // ----- digits -----

  /** The `[0-9]` character class: ASCII digits only. */
  predicate IsDigit(c: char) {
    '0' <= c <= '9'
  }

  predicate AllDigits(s: string) {
    forall i :: 0 <= i < |s| ==> IsDigit(s[i])
  }

  predicate NoDigits(s: string) {
    forall i :: 0 <= i < |s| ==> !IsDigit(s[i])
  }

  function DigitValue(c: char): nat
    requires IsDigit(c)
  {
    c as int - '0' as int
  }

  /** What `str::parse::<usize>` yields for a run of digits, without the 64-bit bound. */
  function DecimalValue(ds: string): nat
    requires AllDigits(ds)
    decreases |ds|
  {
    if |ds| == 0 then 0
    else 10 * DecimalValue(ds[..|ds| - 1]) + DigitValue(ds[|ds| - 1])
  }

  /** A run of zeros has value zero. */
  lemma {:induction false} ZerosValue(z: string)
    requires forall i :: 0 <= i < |z| ==> z[i] == '0'
    ensures AllDigits(z) && DecimalValue(z) == 0
    decreases |z|
  {
    if |z| > 0 {
      ZerosValue(z[..|z| - 1]);
    }
  }

  /** Leading zeros do not change the value: "0002" parses as 2. */
  lemma {:induction false} LeadingZeros(z: string, ds: string)
    requires forall i :: 0 <= i < |z| ==> z[i] == '0'
    requires AllDigits(ds)
    ensures AllDigits(z + ds) && DecimalValue(z + ds) == DecimalValue(ds)
    decreases |ds|
  {
    ZerosValue(z);
    if |ds| == 0 {
      assert z + ds == z;
    } else {
      var n := |ds|;
      LeadingZeros(z, ds[..n - 1]);
      assert (z + ds)[..|z + ds| - 1] == z + ds[..n - 1];
    }
  }

  // ----- ASCII case folding -----

  /** Lower-cases an ASCII capital; every other character is left alone. */
  function Lower(c: char): char {
    if 'A' <= c <= 'Z' then (c as int - 'A' as int + 'a' as int) as char else c
  }

  /** `w` spells the lower-case word `word`, ignoring the case of ASCII letters. */
  predicate EqualsIgnoreCase(w: string, word: string)
    decreases |w|
  {
    |w| == |word| && (|w| == 0 || (Lower(w[0]) == word[0] && EqualsIgnoreCase(w[1..], word[1..])))
  }

  /** Position by position reading of `EqualsIgnoreCase`. */
  lemma {:induction false} EqualsIgnoreCaseAt(w: string, word: string, i: nat)
    requires EqualsIgnoreCase(w, word) && i < |w|
    ensures |w| == |word| && Lower(w[i]) == word[i]
    decreases i
  {
    if i > 0 {
      EqualsIgnoreCaseAt(w[1..], word[1..], i - 1);
    }
  }

  /** A position where the letters differ rules the word out. */
  lemma {:induction false} DiffersAt(w: string, word: string, i: nat)
    requires i < |w| && i < |word| && Lower(w[i]) != word[i]
    ensures !EqualsIgnoreCase(w, word)
    decreases i
  {
    if i > 0 {
      DiffersAt(w[1..], word[1..], i - 1);
    }
  }

  /** Prefixes of equal words are equal words. */
  lemma {:induction false} EqualsIgnoreCasePrefix(w: string, word: string, n: nat)
    requires EqualsIgnoreCase(w, word) && n <= |w|
    ensures EqualsIgnoreCase(w[..n], word[..n])
    decreases n
  {
    if n > 0 {
      EqualsIgnoreCasePrefix(w[1..], word[1..], n - 1);
      assert w[..n][1..] == w[1..][..n - 1];
      assert word[..n][1..] == word[1..][..n - 1];
    }
  }
}
