/**
  The TV season/episode capture engine: split a file name at its first dot,
  find the leftmost season or episode marker in the stem, read the number in
  it, and let a caller-supplied context override either field.

  The three regular expressions of the engine are modelled by one hand-written
  matcher (`MatchEnd`) that tries the alternatives in the order a
  leftmost-first regex engine does, and by a declarative description of each
  pattern's language (`Matches`); the two are proved to agree.
 */
module Tv {
  import opened Wrappers
  import opened Strings

  // ----- file name and extension (first dot) -----

  /** The extension text, or nothing. */
  function ExtText(ext: Option<string>): string {
    ext.GetOr("")
  }

  /**
    `cap_filename_ext` of the TV module: the stem is the first dot-separated
    segment, the extension is a dot followed by all the other segments.
   */
  function CapFilenameExt(filePath: string): (r: (string, Option<string>))
    ensures r.0 + ExtText(r.1) == filePath
    ensures '.' !in r.0
    ensures r.1.None? <==> '.' !in filePath
    ensures r.1.Some? ==> |r.1.value| > 0 && r.1.value[0] == '.'
  {
    var split := Split(filePath, '.');
    SplitFirst(filePath, '.');
    (split[0], if |split| > 1 then Some("." + Join(split[1..], '.')) else None)
  }

  /** The split is determined by the first dot: whatever precedes it is the stem, the rest the extension. */
  lemma {:induction false} CapFilenameExtAt(stem: string, rest: string)
    requires '.' !in stem
    ensures CapFilenameExt(stem + "." + rest) == (stem, Some("." + rest))
  {
    var s := stem + "." + rest;
    var r := CapFilenameExt(s);
    var ext := ExtText(r.1);
    assert r.1.Some?;
    assert forall i :: 0 <= i < |stem| ==> s[i] == stem[i] != '.';
    assert forall i :: 0 <= i < |r.0| ==> s[i] == r.0[i] != '.';
    assert s[|stem|] == '.' && s[|r.0|] == ext[0] == '.';
    assert r.0 == s[..|stem|] == stem;
    assert ext == s[|stem|..] == "." + rest;
  }

  // ----- the patterns and their languages -----

  /**
    `SeasonMarker` is `(?i)s(eason)? *[0-9]+`, `EpisodeMarker` is
    `(?i)e(p(isode)?)? *[0-9]+`, and `Number` is `[0-9]+`.
   */
  datatype Pattern = SeasonMarker | EpisodeMarker | Number

  /** The text before the spaces and digits: a marker word in any ASCII case, or nothing for `Number`. */
  predicate IsKeyword(p: Pattern, w: string) {
    match p
    case SeasonMarker => EqualsIgnoreCase(w, "s") || EqualsIgnoreCase(w, "season")
    case EpisodeMarker => EqualsIgnoreCase(w, "e") || EqualsIgnoreCase(w, "ep") || EqualsIgnoreCase(w, "episode")
    case Number => w == []
  }

  predicate AllSpaces(w: string) {
    forall i :: 0 <= i < |w| ==> w[i] == ' '
  }

  /** What a match holds before its digits: a marker word then spaces, or nothing for `Number`. */
  ghost predicate LeadIn(p: Pattern, w: string) {
    if p.Number? then w == []
    else exists h :: 0 < h <= |w| && IsKeyword(p, w[..h]) && AllSpaces(w[h..])
  }

  /** `t` as a whole is in the language of pattern `p`: a lead-in, then one or more digits. */
  ghost predicate Matches(p: Pattern, t: string) {
    exists k :: 0 <= k < |t| && LeadIn(p, t[..k]) && AllDigits(t[k..])
  }

  /** Some substring of `s` is in the language of `p`. */
  ghost predicate Occurs(p: Pattern, s: string) {
    exists a, e :: 0 <= a <= e <= |s| && Matches(p, s[a..e])
  }

  /**
    `s[a..e]` is what `Regex::find` reports: the match that starts leftmost,
    with its digit run taken as far as it goes.
   */
  ghost predicate LeftmostMatch(p: Pattern, s: string, a: nat, e: nat) {
    a <= e <= |s| && Matches(p, s[a..e]) && (e == |s| || !IsDigit(s[e])) &&
    forall a', e' :: 0 <= a' < a && a' <= e' <= |s| ==> !Matches(p, s[a'..e'])
  }

  // ----- the matcher -----

  /** The end of the run of spaces starting at `j`. */
  function SpacesEnd(s: string, j: nat): (k: nat)
    requires j <= |s|
    ensures j <= k <= |s| && forall t :: j <= t < k ==> s[t] == ' '
    ensures k == |s| || s[k] != ' '
    decreases |s| - j
  {
    if j < |s| && s[j] == ' ' then SpacesEnd(s, j + 1) else j
  }

  /** The end of the run of digits starting at `j`. */
  function DigitsEnd(s: string, j: nat): (k: nat)
    requires j <= |s|
    ensures j <= k <= |s| && forall t :: j <= t < k ==> IsDigit(s[t])
    ensures k == |s| || !IsDigit(s[k])
    decreases |s| - j
  {
    if j < |s| && IsDigit(s[j]) then DigitsEnd(s, j + 1) else j
  }

  /** `[0-9]+` at `j`, greedy: the end of the digit run, when there is at least one digit. */
  function DigitRunAt(s: string, j: nat): Option<nat>
    requires j <= |s|
  {
    var e := DigitsEnd(s, j);
    if j < e then Some(e) else None
  }

  /** ` *[0-9]+` at `j`. The spaces are taken greedily; no digit is a space, so nothing is lost. */
  function TailAt(s: string, j: nat): Option<nat>
    requires j <= |s|
  {
    DigitRunAt(s, SpacesEnd(s, j))
  }

  /** The lower-case `word` appears at `i`, in any ASCII case. */
  predicate WordAt(s: string, i: nat, word: string) {
    i + |word| <= |s| && EqualsIgnoreCase(s[i..i + |word|], word)
  }

  /**
    Where a match of `p` that starts at `i` ends, if one does. The optional
    groups are tried longest first, as a leftmost-first engine does; the
    marker letters are neither spaces nor digits, so at most one alternative
    can succeed.
   */
  function MatchEnd(p: Pattern, s: string, i: nat): (r: Option<nat>)
    requires i <= |s|
    ensures r.Some? ==> i < r.value <= |s|
  {
    match p
    case Number => DigitRunAt(s, i)
    case SeasonMarker =>
      if !WordAt(s, i, "s") then None
      else if WordAt(s, i, "season") && TailAt(s, i + 6).Some? then TailAt(s, i + 6)
      else TailAt(s, i + 1)
    case EpisodeMarker =>
      if !WordAt(s, i, "e") then None
      else if WordAt(s, i, "episode") && TailAt(s, i + 7).Some? then TailAt(s, i + 7)
      else if WordAt(s, i, "ep") && TailAt(s, i + 2).Some? then TailAt(s, i + 2)
      else TailAt(s, i + 1)
  }

  /** `s[i..e]`, found by the matcher, is a lead-in `s[i..k]` followed by the digit run `s[k..e]`. */
  ghost predicate SplitMatch(p: Pattern, s: string, i: nat, k: nat, e: nat) {
    i <= k < e <= |s| && LeadIn(p, s[i..k]) && AllDigits(s[k..e]) && (e == |s| || !IsDigit(s[e]))
  }

  /** A word then spaces, read at `i`, form a lead-in. */
  lemma WordThenSpaces(p: Pattern, s: string, i: nat, word: string)
    requires !p.Number? && 0 < |word| && WordAt(s, i, word) && IsKeyword(p, s[i..i + |word|])
    ensures LeadIn(p, s[i..SpacesEnd(s, i + |word|)])
  {
    var k := SpacesEnd(s, i + |word|);
    var w := s[i..k];
    assert w[..|word|] == s[i..i + |word|];
    assert w[|word|..] == s[i + |word|..k];
    SliceSpaces(s, i + |word|, k);
  }

  /** A marker word at `i` followed by spaces and digits is split by the matcher into lead-in and digits. */
  lemma TailSound(p: Pattern, s: string, i: nat, word: string)
    requires !p.Number? && 0 < |word| && WordAt(s, i, word) && IsKeyword(p, s[i..i + |word|])
    requires TailAt(s, i + |word|).Some?
    ensures SplitMatch(p, s, i, SpacesEnd(s, i + |word|), TailAt(s, i + |word|).value)
  {
    var k := SpacesEnd(s, i + |word|);
    var e := TailAt(s, i + |word|).value;
    WordThenSpaces(p, s, i, word);
    SliceDigits(s, k, e);
  }

  /** What the season matcher finds is a season lead-in and a maximal digit run. */
  lemma SeasonSound(s: string, i: nat) returns (k: nat)
    requires i <= |s| && MatchEnd(SeasonMarker, s, i).Some?
    ensures SplitMatch(SeasonMarker, s, i, k, MatchEnd(SeasonMarker, s, i).value)
  {
    var word := if WordAt(s, i, "season") && TailAt(s, i + 6).Some? then "season" else "s";
    TailSound(SeasonMarker, s, i, word);
    k := SpacesEnd(s, i + |word|);
  }

  /** What the episode matcher finds is an episode lead-in and a maximal digit run. */
  lemma EpisodeSound(s: string, i: nat) returns (k: nat)
    requires i <= |s| && MatchEnd(EpisodeMarker, s, i).Some?
    ensures SplitMatch(EpisodeMarker, s, i, k, MatchEnd(EpisodeMarker, s, i).value)
  {
    var word :=
      if WordAt(s, i, "episode") && TailAt(s, i + 7).Some? then "episode"
      else if WordAt(s, i, "ep") && TailAt(s, i + 2).Some? then "ep"
      else "e";
    TailSound(EpisodeMarker, s, i, word);
    k := SpacesEnd(s, i + |word|);
  }

  /** What the matcher finds is in the pattern's language, and its digit run is maximal. */
  lemma MatchEndSound(p: Pattern, s: string, i: nat) returns (k: nat)
    requires i <= |s| && MatchEnd(p, s, i).Some?
    ensures SplitMatch(p, s, i, k, MatchEnd(p, s, i).value)
  {
    match p
    case Number =>
      k := i;
      assert s[i..k] == [];
      SliceDigits(s, i, MatchEnd(p, s, i).value);
    case SeasonMarker =>
      k := SeasonSound(s, i);
    case EpisodeMarker =>
      k := EpisodeSound(s, i);
  }

  /** A match with its digit run `s[k..e]` is a language member. */
  lemma SplitMatchMatches(p: Pattern, s: string, i: nat, k: nat, e: nat)
    requires SplitMatch(p, s, i, k, e)
    ensures Matches(p, s[i..e])
  {
    var t := s[i..e];
    assert t[..k - i] == s[i..k];
    assert t[k - i..] == s[k..e];
  }

  /** A lead-in holds no digit. */
  lemma LeadInNoDigits(p: Pattern, w: string)
    requires LeadIn(p, w)
    ensures NoDigits(w)
  {
    if !p.Number? {
      var h :| 0 < h <= |w| && IsKeyword(p, w[..h]) && AllSpaces(w[h..]);
      forall j | 0 <= j < |w| ensures !IsDigit(w[j]) {
        if j < h {
          var word := KeywordWord(p, w[..h]);
          EqualsIgnoreCaseAt(w[..h], word, j);
        } else {
          assert w[h..][j - h] == w[j];
        }
      }
    }
  }

  /** The marker word a keyword spells. */
  function KeywordWord(p: Pattern, w: string): (word: string)
    requires !p.Number? && IsKeyword(p, w)
    ensures EqualsIgnoreCase(w, word) && |word| == |w|
    ensures forall j :: 0 <= j < |word| ==> 'a' <= word[j] <= 'z'
    ensures p.SeasonMarker? ==> word == "s" || word == "season"
    ensures p.EpisodeMarker? ==> word == "e" || word == "ep" || word == "episode"
  {
    if EqualsIgnoreCase(w, "s") then "s"
    else if EqualsIgnoreCase(w, "season") then "season"
    else if EqualsIgnoreCase(w, "e") then "e"
    else if EqualsIgnoreCase(w, "ep") then "ep"
    else "episode"
  }

  /**
    A match's lead-in and digit run are determined by where it starts:
    the digits begin at the first digit and run as far as they go.
   */
  lemma DigitRunUnique(s: string, i: nat, k: nat, e: nat, k': nat, e': nat)
    requires i <= k < e <= |s| && NoDigits(s[i..k]) && AllDigits(s[k..e]) && (e == |s| || !IsDigit(s[e]))
    requires i <= k' < e' <= |s| && NoDigits(s[i..k']) && AllDigits(s[k'..e']) && (e' == |s| || !IsDigit(s[e']))
    ensures k == k' && e == e'
  {
    SliceNoDigits(s, i, k);
    SliceNoDigits(s, i, k');
    SliceDigits(s, k, e);
    SliceDigits(s, k', e');
    assert IsDigit(s[k]) && IsDigit(s[k']);
  }

  /** Cutting the slice `s[i..k]` at `h` gives the slices of `s` on either side of `i + h`. */
  lemma SliceParts(s: string, i: nat, k: nat, h: nat)
    requires i <= k <= |s| && h <= k - i
    ensures s[i..k][..h] == s[i..i + h] && s[i..k][h..] == s[i + h..k]
  {
  }

  /** `AllDigits` of a slice, read position by position in the whole string. */
  lemma SliceDigits(s: string, a: nat, b: nat)
    requires a <= b <= |s|
    ensures AllDigits(s[a..b]) <==> forall j :: a <= j < b ==> IsDigit(s[j])
  {
    assert forall j :: a <= j < b ==> s[a..b][j - a] == s[j];
  }

  /** `NoDigits` of a slice, read position by position in the whole string. */
  lemma SliceNoDigits(s: string, a: nat, b: nat)
    requires a <= b <= |s|
    ensures NoDigits(s[a..b]) <==> forall j :: a <= j < b ==> !IsDigit(s[j])
  {
    assert forall j :: a <= j < b ==> s[a..b][j - a] == s[j];
  }

  /** `AllSpaces` of a slice, read position by position in the whole string. */
  lemma SliceSpaces(s: string, a: nat, b: nat)
    requires a <= b <= |s|
    ensures AllSpaces(s[a..b]) <==> forall j :: a <= j < b ==> s[j] == ' '
  {
    assert forall j :: a <= j < b ==> s[a..b][j - a] == s[j];
  }

  /** A language member `s[i..e]` is a lead-in `s[i..k]` followed by the digits `s[k..e]`. */
  lemma MatchesSplit(p: Pattern, s: string, i: nat, e: nat) returns (k: nat)
    requires i <= e <= |s| && Matches(p, s[i..e])
    ensures i <= k < e && LeadIn(p, s[i..k]) && forall j :: k <= j < e ==> IsDigit(s[j])
  {
    var t := s[i..e];
    var k0 :| 0 <= k0 < |t| && LeadIn(p, t[..k0]) && AllDigits(t[k0..]);
    k := i + k0;
    SliceParts(s, i, e, k0);
    SliceDigits(s, k, e);
  }

  /** A marker lead-in `s[i..k]` is a marker word `s[i..i + h]` then spaces up to `k`. */
  lemma LeadInWord(p: Pattern, s: string, i: nat, k: nat) returns (h: nat)
    requires !p.Number? && i <= k <= |s| && LeadIn(p, s[i..k])
    ensures 0 < h && i + h <= k && IsKeyword(p, s[i..i + h])
    ensures forall j :: i + h <= j < k ==> s[j] == ' '
  {
    var w := s[i..k];
    h :| 0 < h <= |w| && IsKeyword(p, w[..h]) && AllSpaces(w[h..]);
    SliceParts(s, i, k, h);
    SliceSpaces(s, i + h, k);
  }

  /** A language member whose digits run to `e` is found by the matcher, which ends exactly at `e`. */
  lemma MatchEndComplete(p: Pattern, s: string, i: nat, e: nat)
    requires i <= e <= |s| && Matches(p, s[i..e])
    ensures MatchEnd(p, s, i).Some? && e <= MatchEnd(p, s, i).value
    ensures e == |s| || !IsDigit(s[e]) ==> MatchEnd(p, s, i) == Some(e)
  {
    var k := MatchesSplit(p, s, i, e);
    var d := DigitsEnd(s, k);
    assert IsDigit(s[k]);
    assert e <= d;
    assert DigitRunAt(s, k) == Some(d);
    if p.Number? {
      assert s[i..k] == [];
    } else {
      var h := LeadInWord(p, s, i, k);
      var q := SpacesEnd(s, i + h);
      assert q == k;
      KeywordAlternatives(p, s, i, h);
    }
  }

  /** A differing letter rules out a longer marker word at `i`. */
  lemma NoLongerWord(s: string, i: nat, h: nat, long: string)
    requires h < |long| && 'a' <= long[h] <= 'z'
    requires i + h < |s| && (s[i + h] == ' ' || IsDigit(s[i + h]))
    ensures !WordAt(s, i, long)
  {
    if i + |long| <= |s| {
      assert s[i..i + |long|][h] == s[i + h];
      DiffersAt(s[i..i + |long|], long, h);
    }
  }

  /** The matcher settles on the marker word of length `h` when the text after it is spaces then digits. */
  lemma KeywordAlternatives(p: Pattern, s: string, i: nat, h: nat)
    requires !p.Number? && i + h < |s| && IsKeyword(p, s[i..i + h])
    requires s[i + h] == ' ' || IsDigit(s[i + h])
    requires TailAt(s, i + h).Some?
    ensures MatchEnd(p, s, i) == TailAt(s, i + h)
  {
    var w := s[i..i + h];
    var word := KeywordWord(p, w);
    assert WordAt(s, i, word);
    EqualsIgnoreCasePrefix(w, word, 1);
    assert w[..1] == s[i..i + 1];
    if p.SeasonMarker? {
      assert word[..1] == "s";
      if h == 1 {
        NoLongerWord(s, i, 1, "season");
      }
    } else {
      assert word[..1] == "e";
      if h == 1 {
        NoLongerWord(s, i, 1, "episode");
        NoLongerWord(s, i, 1, "ep");
      } else if h == 2 {
        NoLongerWord(s, i, 2, "episode");
      }
    }
  }

  // ----- the search -----

  /** A match `s[start..end]`. */
  datatype Span = Span(start: nat, end: nat)

  /** The leftmost position at or after `from` where a match starts. */
  function FindFrom(p: Pattern, s: string, from: nat): (r: Option<Span>)
    requires from <= |s|
    ensures r.Some? ==> from <= r.value.start < r.value.end <= |s|
    decreases |s| - from
  {
    match MatchEnd(p, s, from)
    case Some(e) => Some(Span(from, e))
    case None => if from == |s| then None else FindFrom(p, s, from + 1)
  }

  /** The search from `from` stops at the first position where the matcher succeeds. */
  lemma {:induction false} FindFromFirst(p: Pattern, s: string, from: nat)
    requires from <= |s|
    ensures var r := FindFrom(p, s, from);
      (r.Some? ==> from <= r.value.start <= |s| && MatchEnd(p, s, r.value.start) == Some(r.value.end)) &&
      forall j :: from <= j <= |s| && (r.None? || j < r.value.start) ==> MatchEnd(p, s, j).None?
    decreases |s| - from
  {
    var m := MatchEnd(p, s, from);
    if m.None? && from < |s| {
      var r := FindFrom(p, s, from + 1);
      FindFromFirst(p, s, from + 1);
      assert FindFrom(p, s, from) == r;
      forall j | from <= j <= |s| && (r.None? || j < r.value.start) ensures MatchEnd(p, s, j).None? {
        if j == from {
          assert MatchEnd(p, s, j) == m;
        }
      }
    }
  }

  /** `Regex::new(p).find(s)`: the position of the leftmost match, if any. */
  function Find(p: Pattern, s: string): (r: Option<Span>)
    ensures r.Some? ==> r.value.start < r.value.end <= |s|
  {
    FindFrom(p, s, 0)
  }

  /** `Find` reports nothing exactly when the pattern does not occur, and otherwise the leftmost match. */
  lemma {:induction false} FindLeftmost(p: Pattern, s: string)
    ensures Find(p, s).None? <==> !Occurs(p, s)
    ensures Find(p, s).Some? ==> LeftmostMatch(p, s, Find(p, s).value.start, Find(p, s).value.end)
  {
    var r := FindFrom(p, s, 0);
    FindFromFirst(p, s, 0);
    if r.Some? {
      FoundMatches(p, s, r.value.start);
      NoEarlierMatch(p, s, r.value.start);
    } else {
      NoEarlierMatch(p, s, |s| + 1);
    }
  }

  /** What the matcher finds is a language member followed by a non-digit. */
  lemma FoundMatches(p: Pattern, s: string, i: nat)
    requires i <= |s| && MatchEnd(p, s, i).Some?
    ensures var e := MatchEnd(p, s, i).value; Matches(p, s[i..e]) && (e == |s| || !IsDigit(s[e]))
  {
    var k := MatchEndSound(p, s, i);
    SplitMatchMatches(p, s, i, k, MatchEnd(p, s, i).value);
  }

  /** No match starts before `a` when the matcher fails at every position before `a`. */
  lemma NoEarlierMatch(p: Pattern, s: string, a: nat)
    requires a <= |s| + 1
    requires forall j :: 0 <= j < a && j <= |s| ==> MatchEnd(p, s, j).None?
    ensures forall a', e' :: 0 <= a' < a && a' <= e' <= |s| ==> !Matches(p, s[a'..e'])
  {
    forall a', e' | 0 <= a' < a && a' <= e' <= |s| ensures !Matches(p, s[a'..e']) {
      if Matches(p, s[a'..e']) {
        MatchEndComplete(p, s, a', e');
      }
    }
  }

  /** A leftmost match, however it is found, is the one `Find` reports. */
  lemma {:induction false} FindIsLeftmost(p: Pattern, s: string, a: nat, e: nat)
    requires LeftmostMatch(p, s, a, e)
    ensures Find(p, s) == Some(Span(a, e))
  {
    MatchEndComplete(p, s, a, e);
    FindLeftmost(p, s);
    FindFromFirst(p, s, 0);
    var r := Find(p, s);
    assert r.Some?;
    assert r.value.start == a;
  }

  // ----- numbers -----

  /** `[0-9]+`.find(t) is `t[a..e]`: the first digit, and the digits after it. */
  ghost predicate FirstDigitRun(t: string, a: nat, e: nat) {
    a < e <= |t| && NoDigits(t[..a]) && AllDigits(t[a..e]) && (e == |t| || !IsDigit(t[e]))
  }

  predicate HasDigit(t: string) {
    exists i :: 0 <= i < |t| && IsDigit(t[i])
  }

  /**
    `cap_num`: the value of the first digit run in a match. Its `unwrap` of
    the number search is the precondition that the text holds a digit.
   */
  function CapNum(t: string): nat
    requires HasDigit(t)
  {
    NumberFound(t);
    var m := Find(Number, t);
    DecimalValue(t[m.value.start..m.value.end])
  }

  /** A text with a digit has a `[0-9]+` match, and the match is all digits. */
  lemma NumberFound(t: string)
    requires HasDigit(t)
    ensures Find(Number, t).Some?
    ensures AllDigits(t[Find(Number, t).value.start..Find(Number, t).value.end])
  {
    NumberOccurs(t);
    FindLeftmost(Number, t);
    var m := Find(Number, t).value;
    NumberFirstRun(t, m.start, m.end);
  }

  /** `cap_num` parses the first digit run of its text, and there is exactly one such run. */
  lemma {:induction false} CapNumFirstRun(t: string)
    requires HasDigit(t)
    ensures exists a: nat, e: nat :: FirstDigitRun(t, a, e)
    ensures forall a: nat, e: nat :: FirstDigitRun(t, a, e) ==> AllDigits(t[a..e]) && CapNum(t) == DecimalValue(t[a..e])
  {
    NumberFound(t);
    FindLeftmost(Number, t);
    var m := Find(Number, t).value;
    NumberFirstRun(t, m.start, m.end);
    FirstRunUnique(t, m.start, m.end);
  }

  lemma NumberOccurs(t: string)
    requires HasDigit(t)
    ensures Occurs(Number, t)
  {
    var i :| 0 <= i < |t| && IsDigit(t[i]);
    assert t[i..i + 1][..0] == [];
    assert Matches(Number, t[i..i + 1]);
  }

  /** A single digit is a `[0-9]+` match. */
  lemma DigitMatches(t: string, j: nat)
    requires j < |t|
    ensures IsDigit(t[j]) ==> Matches(Number, t[j..j + 1])
  {
    assert t[j..j + 1][..0] == [];
    assert t[j..j + 1][0..] == [t[j]];
  }

  /** The leftmost `[0-9]+` match is the first digit run. */
  lemma NumberFirstRun(t: string, a: nat, e: nat)
    requires LeftmostMatch(Number, t, a, e)
    ensures FirstDigitRun(t, a, e)
  {
    var u := t[a..e];
    var k0 :| 0 <= k0 < |u| && LeadIn(Number, u[..k0]) && AllDigits(u[k0..]);
    assert k0 == 0;
    assert u[k0..] == u;
    forall j | 0 <= j < a ensures !IsDigit(t[..a][j]) {
      DigitMatches(t, j);
    }
    SliceDigits(t, a, e);
  }

  /** There is only one first digit run. */
  lemma FirstRunUnique(t: string, a: nat, e: nat)
    requires FirstDigitRun(t, a, e)
    ensures forall a': nat, e': nat :: FirstDigitRun(t, a', e') ==> a' == a && e' == e
  {
    forall a': nat, e': nat | FirstDigitRun(t, a', e') ensures a' == a && e' == e {
      assert t[..a] == t[0..a] && t[..a'] == t[0..a'];
      DigitRunUnique(t, 0, a, e, a', e');
    }
  }

  /**
    Inside a marker match the first digit run is the one after the marker
    word and spaces, so `cap_num` reads exactly the marker's number.
   */
  lemma MarkerNumber(p: Pattern, s: string, a: nat, k: nat, e: nat)
    requires SplitMatch(p, s, a, k, e)
    ensures HasDigit(s[a..e]) && CapNum(s[a..e]) == DecimalValue(s[k..e])
  {
    var t := s[a..e];
    assert t[k - a..] == s[k..e];
    assert t[k - a] == s[k] by { assert s[k..e][0] == s[k]; }
    LeadInNoDigits(p, s[a..k]);
    assert t[..k - a] == s[a..k];
    assert t[k - a..e - a] == s[k..e];
    assert FirstDigitRun(t, k - a, e - a);
    CapNumFirstRun(t);
  }

  // ----- season and episode -----

  /** The closed set of capture failures. */
  datatype CaptureError = NoSeasonRegex | NoEpisodeRegex

  /** `n` is the number of the leftmost match of marker `p` in `s`. */
  ghost predicate MarkerValue(p: Pattern, s: string, n: nat) {
    exists a: nat, k: nat, e: nat :: LeftmostMatch(p, s, a, e) && SplitMatch(p, s, a, k, e) && n == DecimalValue(s[k..e])
  }

  /** The number of the leftmost match found by `Find`, read by `cap_num`. */
  lemma LeftmostNumber(p: Pattern, s: string, m: Span)
    requires Find(p, s) == Some(m)
    ensures HasDigit(s[m.start..m.end]) && MarkerValue(p, s, CapNum(s[m.start..m.end]))
  {
    FindLeftmost(p, s);
    FindFromFirst(p, s, 0);
    var k := MatchEndSound(p, s, m.start);
    MarkerNumber(p, s, m.start, k, m.end);
  }

  /** `cap_episode`: the number of the leftmost episode marker in `filename`. */
  function CapEpisode(filename: string): Result<nat, CaptureError> {
    match Find(EpisodeMarker, filename)
    case Some(m) =>
      LeftmostNumber(EpisodeMarker, filename, m);
      Ok(CapNum(filename[m.start..m.end]))
    case None => Err(NoEpisodeRegex)
  }

  /** `cap_season`: the number of the leftmost season marker in `filename`. */
  function CapSeason(filename: string): Result<nat, CaptureError> {
    match Find(SeasonMarker, filename)
    case Some(m) =>
      LeftmostNumber(SeasonMarker, filename, m);
      Ok(CapNum(filename[m.start..m.end]))
    case None => Err(NoSeasonRegex)
  }

  /**
    `cap_episode` succeeds exactly when an episode marker occurs, and then
    returns the number of the leftmost one; otherwise it reports `NoEpisodeRegex`.
   */
  lemma {:induction false} CapEpisodeSpec(filename: string)
    ensures CapEpisode(filename).Ok? <==> Occurs(EpisodeMarker, filename)
    ensures CapEpisode(filename).Ok? ==> MarkerValue(EpisodeMarker, filename, CapEpisode(filename).value)
    ensures CapEpisode(filename).Err? ==> CapEpisode(filename).error == NoEpisodeRegex
  {
    var m := Find(EpisodeMarker, filename);
    FindLeftmost(EpisodeMarker, filename);
    if m.Some? {
      LeftmostNumber(EpisodeMarker, filename, m.value);
    }
  }

  /**
    `cap_season` succeeds exactly when a season marker occurs, and then
    returns the number of the leftmost one; otherwise it reports `NoSeasonRegex`.
   */
  lemma {:induction false} CapSeasonSpec(filename: string)
    ensures CapSeason(filename).Ok? <==> Occurs(SeasonMarker, filename)
    ensures CapSeason(filename).Ok? ==> MarkerValue(SeasonMarker, filename, CapSeason(filename).value)
    ensures CapSeason(filename).Err? ==> CapSeason(filename).error == NoSeasonRegex
  {
    var m := Find(SeasonMarker, filename);
    FindLeftmost(SeasonMarker, filename);
    if m.Some? {
      LeftmostNumber(SeasonMarker, filename, m.value);
    }
  }

  /** The leftmost marker determines its number: there is only one. */
  lemma {:induction false} MarkerValueUnique(p: Pattern, s: string, n: nat, n': nat)
    requires MarkerValue(p, s, n) && MarkerValue(p, s, n')
    ensures n == n'
  {
    var a: nat, k: nat, e: nat :| LeftmostMatch(p, s, a, e) && SplitMatch(p, s, a, k, e) && n == DecimalValue(s[k..e]);
    var a': nat, k': nat, e': nat :| LeftmostMatch(p, s, a', e') && SplitMatch(p, s, a', k', e') && n' == DecimalValue(s[k'..e']);
    FindIsLeftmost(p, s, a, e);
    FindIsLeftmost(p, s, a', e');
    LeadInNoDigits(p, s[a..k]);
    LeadInNoDigits(p, s[a..k']);
    DigitRunUnique(s, a, k, e, k', e');
  }

  /** Whichever marker starts leftmost gives the episode number; later markers are ignored. */
  lemma {:induction false} EpisodeFromLeftmost(s: string, a: nat, k: nat, e: nat)
    requires LeftmostMatch(EpisodeMarker, s, a, e) && SplitMatch(EpisodeMarker, s, a, k, e)
    ensures CapEpisode(s) == Ok(DecimalValue(s[k..e]))
  {
    var r := CapEpisode(s);
    CapEpisodeSpec(s);
    assert Occurs(EpisodeMarker, s);
    assert MarkerValue(EpisodeMarker, s, DecimalValue(s[k..e]));
    MarkerValueUnique(EpisodeMarker, s, r.value, DecimalValue(s[k..e]));
  }

  /** Whichever marker starts leftmost gives the season number; later markers are ignored. */
  lemma {:induction false} SeasonFromLeftmost(s: string, a: nat, k: nat, e: nat)
    requires LeftmostMatch(SeasonMarker, s, a, e) && SplitMatch(SeasonMarker, s, a, k, e)
    ensures CapSeason(s) == Ok(DecimalValue(s[k..e]))
  {
    var r := CapSeason(s);
    CapSeasonSpec(s);
    assert Occurs(SeasonMarker, s);
    assert MarkerValue(SeasonMarker, s, DecimalValue(s[k..e]));
    MarkerValueUnique(SeasonMarker, s, r.value, DecimalValue(s[k..e]));
  }

  // ----- captures -----

  /** Caller-supplied values that take precedence over the markers in the name. */
  datatype Context = Context(episode: Option<nat>, season: Option<nat>)

  /** A resolved file name: the input, its stem and extension, and both numbers. */
  datatype Capture = Capture(filePath: string, filename: string, ext: Option<string>, episode: nat, season: nat)

  /**
    `Capture::new`: split at the first dot, then resolve the episode and then
    the season, each from the context when given and otherwise from the
    markers in the stem. The episode is resolved first, so its error wins.
   */
  function NewCapture(filePath: string, context: Context): Result<Capture, CaptureError> {
    var (filename, ext) := CapFilenameExt(filePath);
    var episode :- match context.episode
      case Some(ep) => Ok(ep)
      case None => CapEpisode(filename);
    var season :- match context.season
      case Some(se) => Ok(se)
      case None => CapSeason(filename);
    Ok(Capture(filePath, filename, ext, episode, season))
  }

  /**
    Which error `Capture::new` reports: the episode error whenever the episode
    is unresolved, the season error only once the episode has resolved.
   */
  lemma {:induction false} CaptureErrors(filePath: string, context: Context)
    ensures var r := NewCapture(filePath, context);
      var stem := CapFilenameExt(filePath).0;
      && (r == Err(NoEpisodeRegex) <==> context.episode.None? && !Occurs(EpisodeMarker, stem))
      && (r == Err(NoSeasonRegex) <==>
            (context.episode.Some? || Occurs(EpisodeMarker, stem)) &&
            context.season.None? && !Occurs(SeasonMarker, stem))
  {
    CapEpisodeSpec(CapFilenameExt(filePath).0);
    CapSeasonSpec(CapFilenameExt(filePath).0);
  }

  /**
    What a successful `Capture::new` holds: the input verbatim, the first-dot
    split, and each number from the context when given, otherwise the number
    of the leftmost marker in the stem.
   */
  lemma {:induction false} CaptureFields(filePath: string, context: Context)
    ensures var r := NewCapture(filePath, context);
      r.Ok? ==>
      && r.value.filePath == filePath
      && (r.value.filename, r.value.ext) == CapFilenameExt(filePath)
      && (if context.episode.Some? then r.value.episode == context.episode.value
          else MarkerValue(EpisodeMarker, r.value.filename, r.value.episode))
      && (if context.season.Some? then r.value.season == context.season.value
          else MarkerValue(SeasonMarker, r.value.filename, r.value.season))
  {
    CapEpisodeSpec(CapFilenameExt(filePath).0);
    CapSeasonSpec(CapFilenameExt(filePath).0);
  }

  /** Both numbers given: the name is never searched and the capture always succeeds. */
  lemma {:induction false} OverridesAlwaysSucceed(filePath: string, episode: nat, season: nat)
    ensures NewCapture(filePath, Context(Some(episode), Some(season))) ==
      Ok(Capture(filePath, CapFilenameExt(filePath).0, CapFilenameExt(filePath).1, episode, season))
  {
  }

  /**
    `season`'s loop: capture every name with one shared context that fixes
    only the season, stopping at the first name that fails.
   */
  method CaptureSeason(number: Option<nat>, names: seq<string>) returns (r: Result<seq<Capture>, CaptureError>)
    ensures r.Ok? ==>
      && |r.value| == |names|
      && forall i :: 0 <= i < |names| ==> NewCapture(names[i], Context(None, number)) == Ok(r.value[i])
    ensures r.Err? ==>
      exists i :: 0 <= i < |names| && FirstFailure(names, Context(None, number), i, r.error)
  {
    var context := Context(None, number);
    var caps: seq<Capture> := [];
    for i := 0 to |names|
      invariant |caps| == i
      invariant forall j :: 0 <= j < i ==> NewCapture(names[j], context) == Ok(caps[j])
    {
      var c := NewCapture(names[i], context);
      if c.Err? {
        assert FirstFailure(names, context, i, c.error);
        return Err(c.error);
      }
      ghost var done := caps;
      caps := caps + [c.value];
      assert forall j :: 0 <= j < i ==> caps[j] == done[j];
    }
    return Ok(caps);
  }

  /** `names[i]` is the first name whose capture fails, and it fails with `err`. */
  ghost predicate FirstFailure(names: seq<string>, context: Context, i: nat, err: CaptureError) {
    i < |names| && NewCapture(names[i], context) == Err(err) &&
    forall j :: 0 <= j < i ==> NewCapture(names[j], context).Ok?
  }
}
