/**
  The utility functions shared by the routes: `cap_filename_ext`, which keeps
  only the text after the LAST dot as the extension, and `format_name`, which
  turns every run of dots, hyphens and spaces into one space and trims the
  result as Rust's `str::trim` does.
 */
module Utils {
  import opened Wrappers
  import opened Strings

  // ----- file name and extension (last dot) -----

  /**
    `cap_filename_ext` of the utility module: the extension is a dot and the
    last dot-separated segment, the stem is every earlier segment joined back
    with dots. A path without a dot has no extension and an empty stem.
   */
  function CapFilenameExt(filePath: string): (r: (string, Option<string>))
    ensures r.1.None? <==> '.' !in filePath
    ensures r.1.None? ==> r.0 == ""
    ensures r.1.Some? ==>
      && r.0 + r.1.value == filePath
      && |r.1.value| > 0 && r.1.value[0] == '.'
      && '.' !in r.1.value[1..]
  {
    var split := Split(filePath, '.');
    SplitLast(filePath, '.');
    SplitCount(filePath, '.');
    var ext := if |split| > 1 then Some("." + split[|split| - 1]) else None;
    assert ext.Some? ==> ext.value[1..] == split[|split| - 1];
    (Join(split[..|split| - 1], '.'), ext)
  }

  /** Two positions of `d` that are each followed only by other characters are the same position. */
  lemma LastPosition(s: string, a: nat, b: nat, d: char)
    requires a < |s| && b < |s| && s[a] == d && s[b] == d
    requires forall i :: a < i < |s| ==> s[i] != d
    requires forall i :: b < i < |s| ==> s[i] != d
    ensures a == b
  {
  }

  /** After the cut `x + [d] + y`, position `i` past the cut holds `y`'s character. */
  lemma AfterCut(x: string, d: char, y: string)
    requires d !in y
    ensures forall i :: |x| < i < |x + [d] + y| ==> (x + [d] + y)[i] != d
  {
    var s := x + [d] + y;
    forall i | |x| < i < |s| ensures s[i] != d {
      assert s[i] == y[i - |x| - 1];
    }
  }

  /** The split is determined by the last dot: whatever follows it is the extension, the rest the stem. */
  lemma {:induction false} CapFilenameExtAt(stem: string, last: string)
    requires '.' !in last
    ensures CapFilenameExt(stem + "." + last) == (stem, Some("." + last))
  {
    var s := stem + "." + last;
    var r := CapFilenameExt(s);
    var ext := r.1.value;
    var tail := ext[1..];
    assert ext == "." + tail;
    assert s == r.0 + "." + tail;
    AfterCut(stem, '.', last);
    AfterCut(r.0, '.', tail);
    LastPosition(s, |stem|, |r.0|, '.');
    assert r.0 == s[..|stem|] == stem;
    assert ext == s[|stem|..] == "." + last;
  }

  // ----- format_name -----

  /** The characters of the pattern `(\.|-| )+`. */
  predicate IsSeparator(c: char) {
    c == '.' || c == '-' || c == ' '
  }

  /** What remains after the run of separators at the front. */
  function DropSeparators(s: string): (r: string)
    ensures |r| <= |s| && r == s[|s| - |r|..]
    ensures forall i :: 0 <= i < |s| - |r| ==> IsSeparator(s[i])
    ensures r == "" || !IsSeparator(r[0])
    decreases |s|
  {
    if |s| > 0 && IsSeparator(s[0]) then DropSeparators(s[1..]) else s
  }

  /**
    `Regex::new(TO_SPACE_REGEX).replace_all(name, " ")`: the leftmost match is
    the first separator and, the `+` being greedy, every separator after it;
    the search resumes after the run.
   */
  function ReplaceSeparatorRuns(s: string): string
    decreases |s|
  {
    if |s| == 0 then ""
    else
      var run := IsSeparator(s[0]);
      (if run then " " else [s[0]]) + ReplaceSeparatorRuns(if run then DropSeparators(s[1..]) else s[1..])
  }

  /** `char::is_whitespace`: the characters with the Unicode White_Space property. */
  predicate IsWhitespace(c: char) {
    var n := c as int;
    (9 <= n <= 13) || n == 32 || n == 0x85 || n == 0xA0 || n == 0x1680 ||
    (0x2000 <= n <= 0x200A) || n == 0x2028 || n == 0x2029 || n == 0x202F ||
    n == 0x205F || n == 0x3000
  }

  predicate AllWhitespace(s: string) {
    forall i :: 0 <= i < |s| ==> IsWhitespace(s[i])
  }

  /** `str::trim_start`: the longest suffix that does not begin with whitespace. */
  function TrimStart(s: string): (r: string)
    ensures |r| <= |s| && r == s[|s| - |r|..]
    ensures AllWhitespace(s[..|s| - |r|])
    ensures r == "" || !IsWhitespace(r[0])
    ensures AllWhitespace(s) ==> r == ""
    decreases |s|
  {
    if |s| > 0 && IsWhitespace(s[0]) then
      var r := TrimStart(s[1..]);
      assert s[..|s| - |r|] == [s[0]] + s[1..][..|s[1..]| - |r|];
      r
    else s
  }

  /** `str::trim_end`: the longest prefix that does not end with whitespace. */
  function TrimEnd(s: string): (r: string)
    ensures |r| <= |s| && r == s[..|r|]
    ensures AllWhitespace(s[|r|..])
    ensures r == "" || !IsWhitespace(r[|r| - 1])
    ensures AllWhitespace(s) ==> r == ""
    decreases |s|
  {
    if |s| > 0 && IsWhitespace(s[|s| - 1]) then
      var r := TrimEnd(s[..|s| - 1]);
      assert s[|r|..] == s[..|s| - 1][|r|..] + [s[|s| - 1]];
      r
    else s
  }

  /** `str::trim`. */
  function Trim(s: string): string {
    TrimEnd(TrimStart(s))
  }

  /** `format_name`: separator runs become one space, then surrounding whitespace is removed. */
  function FormatName(name: string): string {
    Trim(ReplaceSeparatorRuns(name))
  }

  // ----- what format_name yields -----

  /** No two neighbouring spaces. */
  predicate NoDoubleSpace(s: string) {
    forall i :: 0 <= i < |s| - 1 ==> !(s[i] == ' ' && s[i + 1] == ' ')
  }

  /** Putting `c` in front keeps the shape when `c` is no dot or hyphen and does not make two spaces touch. */
  lemma ConsShape(c: char, rest: string)
    requires c != '.' && c != '-' && '.' !in rest && '-' !in rest && NoDoubleSpace(rest)
    requires c != ' ' || rest == "" || rest[0] != ' '
    ensures '.' !in [c] + rest && '-' !in [c] + rest && NoDoubleSpace([c] + rest)
  {
    var r := [c] + rest;
    forall i | 0 <= i < |r| - 1 ensures !(r[i] == ' ' && r[i + 1] == ' ') {
      assert r[i + 1] == rest[i];
      if i > 0 {
        assert r[i] == rest[i - 1];
      }
    }
  }

  /**
    After the replacement no dot or hyphen is left, no two spaces touch, and
    the text starts with a space exactly when the input starts with a separator.
   */
  lemma {:induction false} SeparatorRunsReplaced(s: string)
    ensures var r := ReplaceSeparatorRuns(s);
      && '.' !in r && '-' !in r && NoDoubleSpace(r)
      && (|r| > 0 <==> |s| > 0)
      && (|s| > 0 ==> (r[0] == ' ' <==> IsSeparator(s[0])))
    decreases |s|
  {
    if |s| > 0 {
      var next := if IsSeparator(s[0]) then DropSeparators(s[1..]) else s[1..];
      var c := if IsSeparator(s[0]) then ' ' else s[0];
      SeparatorRunsReplaced(next);
      assert ReplaceSeparatorRuns(s) == [c] + ReplaceSeparatorRuns(next);
      ConsShape(c, ReplaceSeparatorRuns(next));
    }
  }

  /** A stretch without separators passes through the replacement unchanged. */
  lemma {:induction false} ReplacePlain(a: string, b: string)
    requires forall i :: 0 <= i < |a| ==> !IsSeparator(a[i])
    ensures ReplaceSeparatorRuns(a + b) == a + ReplaceSeparatorRuns(b)
    decreases |a|
  {
    if |a| > 0 {
      assert (a + b)[0] == a[0] && (a + b)[1..] == a[1..] + b;
      ReplacePlain(a[1..], b);
      assert a == [a[0]] + a[1..];
    } else {
      assert a + b == b;
    }
  }

  /** The separators in front of a text that does not start with one are all dropped. */
  lemma {:induction false} DropRun(run: string, b: string)
    requires forall i :: 0 <= i < |run| ==> IsSeparator(run[i])
    requires b == "" || !IsSeparator(b[0])
    ensures DropSeparators(run + b) == b
    decreases |run|
  {
    if |run| > 0 {
      assert (run + b)[1..] == run[1..] + b;
      DropRun(run[1..], b);
    } else {
      assert run + b == b;
    }
  }

  /** A whole run of separators becomes a single space. */
  lemma {:induction false} ReplaceRun(run: string, b: string)
    requires |run| > 0 && forall i :: 0 <= i < |run| ==> IsSeparator(run[i])
    requires b == "" || !IsSeparator(b[0])
    ensures ReplaceSeparatorRuns(run + b) == " " + ReplaceSeparatorRuns(b)
  {
    assert (run + b)[1..] == run[1..] + b;
    DropRun(run[1..], b);
  }

  /** A reference reading of the replacement: every separator becomes a space, then runs of spaces collapse. */
  function MapSeparators(s: string): (r: string)
    ensures |r| == |s|
    decreases |s|
  {
    if |s| == 0 then "" else [if IsSeparator(s[0]) then ' ' else s[0]] + MapSeparators(s[1..])
  }

  /** Collapses every run of spaces to a single space. */
  function Squeeze(t: string): string
    decreases |t|
  {
    if |t| == 0 then ""
    else if |t| > 1 && t[0] == ' ' && t[1] == ' ' then Squeeze(t[1..])
    else [t[0]] + Squeeze(t[1..])
  }

  /** A space in front of a mapped text swallows the separators that follow it. */
  lemma {:induction false} SqueezeAfterSpace(t: string)
    ensures Squeeze(" " + MapSeparators(t)) == " " + Squeeze(MapSeparators(DropSeparators(t)))
    decreases |t|
  {
    var m := " " + MapSeparators(t);
    assert m[1..] == MapSeparators(t);
    if |t| > 0 && IsSeparator(t[0]) {
      assert MapSeparators(t) == " " + MapSeparators(t[1..]);
      SqueezeAfterSpace(t[1..]);
    }
  }

  /** The replacement agrees with the reference reading on every input. */
  lemma {:induction false} ReplaceIsSqueeze(s: string)
    ensures ReplaceSeparatorRuns(s) == Squeeze(MapSeparators(s))
    decreases |s|
  {
    if |s| > 0 {
      var m := MapSeparators(s);
      if IsSeparator(s[0]) {
        var d := DropSeparators(s[1..]);
        assert m == " " + MapSeparators(s[1..]);
        SqueezeAfterSpace(s[1..]);
        ReplaceIsSqueeze(d);
      } else {
        assert m[1..] == MapSeparators(s[1..]);
        ReplaceIsSqueeze(s[1..]);
      }
    }
  }

  /** A slice keeps the absence of dots, hyphens and touching spaces. */
  lemma SliceShape(t: string, i: nat, j: nat)
    requires i <= j <= |t| && '.' !in t && '-' !in t && NoDoubleSpace(t)
    ensures '.' !in t[i..j] && '-' !in t[i..j] && NoDoubleSpace(t[i..j])
  {
    var r := t[i..j];
    forall k | 0 <= k < |r| - 1 ensures !(r[k] == ' ' && r[k + 1] == ' ') {
      assert r[k] == t[i + k] && r[k + 1] == t[i + k + 1];
    }
  }

  /** A text with no whitespace at either end is its own trim. */
  lemma TrimFixed(t: string)
    requires t == "" || (!IsWhitespace(t[0]) && !IsWhitespace(t[|t| - 1]))
    ensures Trim(t) == t
  {
    assert TrimStart(t) == t;
  }

  /** A prefix of a suffix is a slice. */
  lemma SliceOfSuffix(t: string, i: nat, r: string)
    requires i <= |t| && |r| <= |t| - i && r == t[i..][..|r|]
    ensures r == t[i..i + |r|]
  {
  }

  /** `str::trim` keeps a slice of its input that neither starts nor ends with whitespace. */
  lemma TrimSlice(t: string) returns (i: nat)
    ensures var r := Trim(t);
      && i + |r| <= |t| && r == t[i..i + |r|]
      && (r == "" || (!IsWhitespace(r[0]) && !IsWhitespace(r[|r| - 1])))
  {
    var u := TrimStart(t);
    var r := TrimEnd(u);
    i := |t| - |u|;
    SliceOfSuffix(t, i, r);
    assert r == "" || r[0] == u[0];
  }

  /** Trimming keeps the absence of dots, hyphens and touching spaces, and leaves no whitespace at either end. */
  lemma TrimShape(t: string)
    requires '.' !in t && '-' !in t && NoDoubleSpace(t)
    ensures var r := Trim(t);
      && '.' !in r && '-' !in r && NoDoubleSpace(r)
      && (r == "" || (!IsWhitespace(r[0]) && !IsWhitespace(r[|r| - 1])))
  {
    var i := TrimSlice(t);
    SliceShape(t, i, i + |Trim(t)|);
  }

  /** `format_name` leaves no dot, no hyphen, no two touching spaces and no whitespace at either end. */
  lemma {:induction false} FormatNameShape(name: string)
    ensures var r := FormatName(name);
      && '.' !in r && '-' !in r && NoDoubleSpace(r)
      && (r == "" || (!IsWhitespace(r[0]) && !IsWhitespace(r[|r| - 1])))
  {
    SeparatorRunsReplaced(name);
    TrimShape(ReplaceSeparatorRuns(name));
  }

  /** A text the replacement cannot change: no dots, no hyphens, no two touching spaces. */
  lemma {:induction false} ReplaceFixed(t: string)
    requires '.' !in t && '-' !in t && NoDoubleSpace(t)
    ensures ReplaceSeparatorRuns(t) == t
    decreases |t|
  {
    if |t| > 0 {
      assert NoDoubleSpace(t[1..]) by {
        forall i | 0 <= i < |t[1..]| - 1 ensures !(t[1..][i] == ' ' && t[1..][i + 1] == ' ') {
          assert t[1..][i] == t[i + 1] && t[1..][i + 1] == t[i + 2];
        }
      }
      if IsSeparator(t[0]) {
        assert |t| > 1 ==> t[1] != ' ';
        assert DropSeparators(t[1..]) == t[1..];
      }
      ReplaceFixed(t[1..]);
    }
  }

  /** `format_name` is idempotent: formatting a formatted name changes nothing. */
  lemma {:induction false} FormatNameIdempotent(name: string)
    ensures FormatName(FormatName(name)) == FormatName(name)
  {
    var r := FormatName(name);
    FormatNameShape(name);
    ReplaceFixed(r);
    TrimFixed(r);
  }

  /** An input of separators and whitespace only is replaced by whitespace only. */
  lemma {:induction false} ReplaceKeepsBlank(s: string)
    requires forall i :: 0 <= i < |s| ==> IsSeparator(s[i]) || IsWhitespace(s[i])
    ensures AllWhitespace(ReplaceSeparatorRuns(s))
    decreases |s|
  {
    if |s| > 0 {
      if IsSeparator(s[0]) {
        var d := DropSeparators(s[1..]);
        assert forall i :: 0 <= i < |d| ==> d[i] == s[1..][|s[1..]| - |d| + i];
        ReplaceKeepsBlank(d);
      } else {
        ReplaceKeepsBlank(s[1..]);
      }
    }
  }

  /** A name made only of separators and whitespace formats to the empty string. */
  lemma {:induction false} FormatNameBlank(name: string)
    requires forall i :: 0 <= i < |name| ==> IsSeparator(name[i]) || IsWhitespace(name[i])
    ensures FormatName(name) == ""
  {
    ReplaceKeepsBlank(name);
  }
}
