/**
  The unit-test vectors of the TV module, and the behaviour of `Capture::new`
  on names whose markers lie outside the stem, checked against the model.
 */
module TvExamples {
  import opened Wrappers
  import opened Strings
  import opened Tv

  /** No marker starts at `j`: its letter is wrong, or the letter after it cannot continue a marker. */
  lemma NoMatchAt(p: Pattern, s: string, j: nat)
    requires !p.Number? && j < |s|
    requires
      var first := if p.SeasonMarker? then 's' else 'e';
      var second := if p.SeasonMarker? then 'e' else 'p';
      Lower(s[j]) != first ||
      j + 1 == |s| ||
      (s[j + 1] != ' ' && !IsDigit(s[j + 1]) && Lower(s[j + 1]) != second)
    ensures FindFrom(p, s, j) == FindFrom(p, s, j + 1)
  {
    var first := if p.SeasonMarker? then 's' else 'e';
    if Lower(s[j]) != first {
      DiffersAt(s[j..j + 1], [first], 0);
    } else {
      var words := if p.SeasonMarker? then ["season"] else ["episode", "ep"];
      forall word | word in words ensures !WordAt(s, j, word) {
        if j + |word| <= |s| {
          assert s[j..j + |word|][1] == s[j + 1];
          DiffersAt(s[j..j + |word|], word, 1);
        }
      }
      assert SpacesEnd(s, j + 1) == j + 1;
      if j + 1 < |s| {
        assert DigitsEnd(s, j + 1) == j + 1;
      }
    }
  }

  /** No marker starts at `j` when the character there, `c`, is not the marker's first letter. */
  lemma NoMatchLetter(p: Pattern, s: string, j: nat, c: char)
    requires !p.Number? && j < |s| && s[j] == c
    requires Lower(c) != if p.SeasonMarker? then 's' else 'e'
    ensures FindFrom(p, s, j) == FindFrom(p, s, j + 1)
  {
    NoMatchAt(p, s, j);
  }

  /** No marker starts at `j` when the character after it, `d`, can neither continue the word nor begin the tail. */
  lemma NoMatchNext(p: Pattern, s: string, j: nat, d: char)
    requires !p.Number? && j + 1 < |s| && s[j + 1] == d
    requires d != ' ' && !IsDigit(d) && Lower(d) != if p.SeasonMarker? then 'e' else 'p'
    ensures FindFrom(p, s, j) == FindFrom(p, s, j + 1)
  {
    NoMatchAt(p, s, j);
  }

  /** Spaces from `j` up to `k`, where something else stands, make the run of spaces end at `k`. */
  lemma {:induction false} SpacesUpTo(s: string, j: nat, k: nat)
    requires j <= k < |s| && s[k] != ' '
    requires forall x :: j <= x < k ==> s[x] == ' '
    ensures SpacesEnd(s, j) == k
    decreases k - j
  {
    if j < k {
      SpacesUpTo(s, j + 1, k);
    }
  }

  /** Digits from `j` up to `e`, where the text ends or a non-digit stands, make the digit run end at `e`. */
  lemma {:induction false} DigitsUpTo(s: string, j: nat, e: nat)
    requires j <= e <= |s| && (e == |s| || !IsDigit(s[e]))
    requires forall x :: j <= x < e ==> IsDigit(s[x])
    ensures DigitsEnd(s, j) == e
    decreases e - j
  {
    if j < e {
      DigitsUpTo(s, j + 1, e);
    }
  }

  /** Spaces over `s[j..k]`, then digits over `s[k..e]` that stop at `e`: the marker's tail ends at `e`. */
  lemma TailOf(s: string, j: nat, k: nat, e: nat)
    requires j <= k < e <= |s| && (e == |s| || !IsDigit(s[e]))
    requires forall x :: j <= x < k ==> s[x] == ' '
    requires forall x :: k <= x < e ==> IsDigit(s[x])
    ensures TailAt(s, j) == Some(e)
  {
    SpacesUpTo(s, j, k);
    DigitsUpTo(s, k, e);
  }

  /** A text whose first digits are `t[a..e]` reads as their value. */
  lemma NumberOfRun(t: string, a: nat, e: nat)
    requires a < e <= |t| && (e == |t| || !IsDigit(t[e]))
    requires forall j :: 0 <= j < a ==> !IsDigit(t[j])
    requires forall j :: a <= j < e ==> IsDigit(t[j])
    ensures HasDigit(t) && AllDigits(t[a..e]) && CapNum(t) == DecimalValue(t[a..e])
  {
    assert IsDigit(t[a]);
    assert FirstDigitRun(t, a, e);
    CapNumFirstRun(t);
  }

  /** A marker found at `m` whose text `t` reads as `n` makes `cap_episode` return `n`. */
  lemma EpisodeOfSpan(s: string, m: Span, t: string, n: nat)
    requires Find(EpisodeMarker, s) == Some(m) && s[m.start..m.end] == t
    requires HasDigit(t) && CapNum(t) == n
    ensures CapEpisode(s) == Ok(n)
  {
  }

  /** A marker found at `m` whose text `t` reads as `n` makes `cap_season` return `n`. */
  lemma SeasonOfSpan(s: string, m: Span, t: string, n: nat)
    requires Find(SeasonMarker, s) == Some(m) && s[m.start..m.end] == t
    requires HasDigit(t) && CapNum(t) == n
    ensures CapSeason(s) == Ok(n)
  {
  }

  // The unit tests of the TV module, one `Test` lemma per assertion. For each
  // test name and marker: the `Skip` lemmas show that no marker starts before
  // the leftmost one, the `Match` lemma that the matcher accepts it there, the
  // `Find` lemma puts these together, the `Number` lemma reads the marker's
  // number, and the `Vector` lemma assembles the result, with the `Spelling`
  // lemmas giving the characters of the name.

  lemma SkipEpisode1From0(s: string)
    requires |s| == 20 && s[0] == 'h'
    ensures FindFrom(EpisodeMarker, s, 0) == FindFrom(EpisodeMarker, s, 1)
  {
    NoMatchLetter(EpisodeMarker, s, 0, 'h');
  }

  lemma SkipEpisode1From1(s: string)
    requires |s| == 20 && s[1] == 'e' && s[2] == 'l' && s[3] == 'l'
    ensures FindFrom(EpisodeMarker, s, 1) == FindFrom(EpisodeMarker, s, 4)
  {
    NoMatchNext(EpisodeMarker, s, 1, 'l');
    NoMatchLetter(EpisodeMarker, s, 2, 'l');
    NoMatchLetter(EpisodeMarker, s, 3, 'l');
  }

  lemma SkipEpisode1From4(s: string)
    requires |s| == 20 && s[4] == 'o' && s[5] == ' ' && s[6] == 's'
    ensures FindFrom(EpisodeMarker, s, 4) == FindFrom(EpisodeMarker, s, 7)
  {
    NoMatchLetter(EpisodeMarker, s, 4, 'o');
    NoMatchLetter(EpisodeMarker, s, 5, ' ');
    NoMatchLetter(EpisodeMarker, s, 6, 's');
  }

  lemma SkipEpisode1From7(s: string)
    requires |s| == 20 && s[7] == '0' && s[8] == '1' && s[9] == ' '
    ensures FindFrom(EpisodeMarker, s, 7) == FindFrom(EpisodeMarker, s, 10)
  {
    NoMatchLetter(EpisodeMarker, s, 7, '0');
    NoMatchLetter(EpisodeMarker, s, 8, '1');
    NoMatchLetter(EpisodeMarker, s, 9, ' ');
  }

  lemma MatchEpisode1At10(s: string)
    requires |s| == 20 && s[10] == 'e' && s[11] == '0' && s[12] == '2' && s[13] == ' '
    ensures FindFrom(EpisodeMarker, s, 10) == Some(Span(10, 13))
  {
    assert s[10..11] == "e" && IsKeyword(EpisodeMarker, "e");
    TailOf(s, 11, 11, 13);
    KeywordAlternatives(EpisodeMarker, s, 10, 1);
  }

  /** The leftmost episode marker of test name 1 is `e02`. */
  lemma {:induction false} FindEpisode1(s: string)
    requires |s| == 20 && s[0] == 'h' && s[1] == 'e' && s[2] == 'l' && s[3] == 'l' && s[4] == 'o' && s[5] == ' ' && s[6] == 's' && s[7] == '0' && s[8] == '1' && s[9] == ' ' && s[10] == 'e' && s[11] == '0' && s[12] == '2' && s[13] == ' '
    ensures Find(EpisodeMarker, s) == Some(Span(10, 13))
  {
    SkipEpisode1From0(s);
    SkipEpisode1From1(s);
    SkipEpisode1From4(s);
    SkipEpisode1From7(s);
    MatchEpisode1At10(s);
  }

  /** `cap_num` reads 2 from a text of 3 characters whose digits `02` start at index 1, such as `e02`. */
  lemma {:induction false} NumberOfDigits02At1(t: string)
    requires |t| == 3 && !IsDigit(t[0])
    requires t[1] == '0' && t[2] == '2'
    ensures HasDigit(t) && CapNum(t) == 2
  {
    assert IsDigit(t[1]);
    assert IsDigit(t[2]);
    NumberOfRun(t, 1, 3);
    assert t[1..3] == "02";
    assert "02" == "0" + "2";
    LeadingZeros("0", "2");
    assert DecimalValue("02") == 2;
  }

  /** Characters 0 to 9 of test name 1. */
  lemma Spelling1From0(s: string)
    requires s == "hello s01 e02 hi.mp4"
    ensures |s| == 20 && s[0] == 'h' && s[1] == 'e' && s[2] == 'l' && s[3] == 'l' && s[4] == 'o' && s[5] == ' ' && s[6] == 's' && s[7] == '0' && s[8] == '1' && s[9] == ' '
  {
  }

  /** Characters 10 to 19 of test name 1. */
  lemma Spelling1From10(s: string)
    requires s == "hello s01 e02 hi.mp4"
    ensures |s| == 20 && s[10] == 'e' && s[11] == '0' && s[12] == '2' && s[13] == ' ' && s[14] == 'h' && s[15] == 'i' && s[16] == '.' && s[17] == 'm' && s[18] == 'p' && s[19] == '4'
  {
  }

  lemma {:induction false} EpisodeVector1(s: string)
    requires s == "hello s01 e02 hi.mp4"
    ensures CapEpisode(s) == Ok(2)
  {
    Spelling1From0(s);
    Spelling1From10(s);
    FindEpisode1(s);
    assert s[10..13] == "e02";
    NumberOfDigits02At1(s[10..13]);
    EpisodeOfSpan(s, Span(10, 13), s[10..13], 2);
  }

  /** `cap_episode` on test name 1. */
  lemma EpisodeTest1()
    ensures CapEpisode("hello s01 e02 hi.mp4") == Ok(2)
  {
    EpisodeVector1("hello s01 e02 hi.mp4");
  }

  lemma SkipEpisode2From0(s: string)
    requires |s| == 11 && s[0] == 'x'
    ensures FindFrom(EpisodeMarker, s, 0) == FindFrom(EpisodeMarker, s, 1)
  {
    NoMatchLetter(EpisodeMarker, s, 0, 'x');
  }

  lemma SkipEpisode2From1(s: string)
    requires |s| == 11 && s[1] == 's' && s[2] == '0' && s[3] == '1'
    ensures FindFrom(EpisodeMarker, s, 1) == FindFrom(EpisodeMarker, s, 4)
  {
    NoMatchLetter(EpisodeMarker, s, 1, 's');
    NoMatchLetter(EpisodeMarker, s, 2, '0');
    NoMatchLetter(EpisodeMarker, s, 3, '1');
  }

  lemma MatchEpisode2At4(s: string)
    requires |s| == 11 && s[4] == 'e' && s[5] == '2' && s[6] == '0' && s[7] == '.'
    ensures FindFrom(EpisodeMarker, s, 4) == Some(Span(4, 7))
  {
    assert s[4..5] == "e" && IsKeyword(EpisodeMarker, "e");
    TailOf(s, 5, 5, 7);
    KeywordAlternatives(EpisodeMarker, s, 4, 1);
  }

  /** The leftmost episode marker of test name 2 is `e20`. */
  lemma {:induction false} FindEpisode2(s: string)
    requires |s| == 11 && s[0] == 'x' && s[1] == 's' && s[2] == '0' && s[3] == '1' && s[4] == 'e' && s[5] == '2' && s[6] == '0' && s[7] == '.'
    ensures Find(EpisodeMarker, s) == Some(Span(4, 7))
  {
    SkipEpisode2From0(s);
    SkipEpisode2From1(s);
    MatchEpisode2At4(s);
  }

  /** `cap_num` reads 20 from a text of 3 characters whose digits `20` start at index 1, such as `e20`. */
  lemma {:induction false} NumberOfDigits20At1(t: string)
    requires |t| == 3 && !IsDigit(t[0])
    requires t[1] == '2' && t[2] == '0'
    ensures HasDigit(t) && CapNum(t) == 20
  {
    assert IsDigit(t[1]);
    assert IsDigit(t[2]);
    NumberOfRun(t, 1, 3);
    assert t[1..3] == "20";
    assert DecimalValue("20") == 20;
  }

  /** Characters 0 to 9 of test name 2. */
  lemma Spelling2From0(s: string)
    requires s == "xs01e20.epc"
    ensures |s| == 11 && s[0] == 'x' && s[1] == 's' && s[2] == '0' && s[3] == '1' && s[4] == 'e' && s[5] == '2' && s[6] == '0' && s[7] == '.' && s[8] == 'e' && s[9] == 'p'
  {
  }

  /** Characters 10 to 10 of test name 2. */
  lemma Spelling2From10(s: string)
    requires s == "xs01e20.epc"
    ensures |s| == 11 && s[10] == 'c'
  {
  }

  lemma {:induction false} EpisodeVector2(s: string)
    requires s == "xs01e20.epc"
    ensures CapEpisode(s) == Ok(20)
  {
    Spelling2From0(s);
    Spelling2From10(s);
    FindEpisode2(s);
    assert s[4..7] == "e20";
    NumberOfDigits20At1(s[4..7]);
    EpisodeOfSpan(s, Span(4, 7), s[4..7], 20);
  }

  /** `cap_episode` on test name 2. */
  lemma EpisodeTest2()
    ensures CapEpisode("xs01e20.epc") == Ok(20)
  {
    EpisodeVector2("xs01e20.epc");
  }

  lemma SkipEpisode3From0(s: string)
    requires |s| == 15 && s[0] == 'S'
    ensures FindFrom(EpisodeMarker, s, 0) == FindFrom(EpisodeMarker, s, 1)
  {
    NoMatchLetter(EpisodeMarker, s, 0, 'S');
  }

  lemma SkipEpisode3From1(s: string)
    requires |s| == 15 && s[1] == 'E' && s[2] == 'A' && s[3] == 'S'
    ensures FindFrom(EpisodeMarker, s, 1) == FindFrom(EpisodeMarker, s, 4)
  {
    NoMatchNext(EpisodeMarker, s, 1, 'A');
    NoMatchLetter(EpisodeMarker, s, 2, 'A');
    NoMatchLetter(EpisodeMarker, s, 3, 'S');
  }

  lemma SkipEpisode3From4(s: string)
    requires |s| == 15 && s[4] == 'O' && s[5] == 'N' && s[6] == '3'
    ensures FindFrom(EpisodeMarker, s, 4) == FindFrom(EpisodeMarker, s, 7)
  {
    NoMatchLetter(EpisodeMarker, s, 4, 'O');
    NoMatchLetter(EpisodeMarker, s, 5, 'N');
    NoMatchLetter(EpisodeMarker, s, 6, '3');
  }

  lemma MatchEpisode3At7(s: string)
    requires |s| == 15 && s[7] == 'E' && s[8] == 'P' && s[9] == 'I' && s[10] == 'S' && s[11] == 'O' && s[12] == 'D' && s[13] == 'E' && s[14] == '4'
    ensures FindFrom(EpisodeMarker, s, 7) == Some(Span(7, 15))
  {
    assert s[7..14] == "EPISODE" && IsKeyword(EpisodeMarker, "EPISODE");
    TailOf(s, 14, 14, 15);
    KeywordAlternatives(EpisodeMarker, s, 7, 7);
  }

  /** The leftmost episode marker of test name 3 is `EPISODE4`. */
  lemma {:induction false} FindEpisode3(s: string)
    requires |s| == 15 && s[0] == 'S' && s[1] == 'E' && s[2] == 'A' && s[3] == 'S' && s[4] == 'O' && s[5] == 'N' && s[6] == '3' && s[7] == 'E' && s[8] == 'P' && s[9] == 'I' && s[10] == 'S' && s[11] == 'O' && s[12] == 'D' && s[13] == 'E' && s[14] == '4'
    ensures Find(EpisodeMarker, s) == Some(Span(7, 15))
  {
    SkipEpisode3From0(s);
    SkipEpisode3From1(s);
    SkipEpisode3From4(s);
    MatchEpisode3At7(s);
  }

  /** `cap_num` reads 4 from a text of 8 characters whose digits `4` start at index 7, such as `EPISODE4`. */
  lemma {:induction false} NumberOfDigits4At7(t: string)
    requires |t| == 8 && !IsDigit(t[0]) && !IsDigit(t[1]) && !IsDigit(t[2]) && !IsDigit(t[3]) && !IsDigit(t[4]) && !IsDigit(t[5]) && !IsDigit(t[6])
    requires t[7] == '4'
    ensures HasDigit(t) && CapNum(t) == 4
  {
    assert IsDigit(t[7]);
    NumberOfRun(t, 7, 8);
    assert t[7..8] == "4";
    assert DecimalValue("4") == 4;
  }

  /** Characters 0 to 9 of test name 3. */
  lemma Spelling3From0(s: string)
    requires s == "SEASON3EPISODE4"
    ensures |s| == 15 && s[0] == 'S' && s[1] == 'E' && s[2] == 'A' && s[3] == 'S' && s[4] == 'O' && s[5] == 'N' && s[6] == '3' && s[7] == 'E' && s[8] == 'P' && s[9] == 'I'
  {
  }

  /** Characters 10 to 14 of test name 3. */
  lemma Spelling3From10(s: string)
    requires s == "SEASON3EPISODE4"
    ensures |s| == 15 && s[10] == 'S' && s[11] == 'O' && s[12] == 'D' && s[13] == 'E' && s[14] == '4'
  {
  }

  lemma {:induction false} EpisodeVector3(s: string)
    requires s == "SEASON3EPISODE4"
    ensures CapEpisode(s) == Ok(4)
  {
    Spelling3From0(s);
    Spelling3From10(s);
    FindEpisode3(s);
    assert s[7..15] == "EPISODE4";
    NumberOfDigits4At7(s[7..15]);
    EpisodeOfSpan(s, Span(7, 15), s[7..15], 4);
  }

  /** `cap_episode` on test name 3. */
  lemma EpisodeTest3()
    ensures CapEpisode("SEASON3EPISODE4") == Ok(4)
  {
    EpisodeVector3("SEASON3EPISODE4");
  }

  lemma MatchEpisode4At0(s: string)
    requires |s| == 28 && s[0] == 'E' && s[1] == 'P' && s[2] == 'I' && s[3] == 's' && s[4] == 'o' && s[5] == 'd' && s[6] == 'e' && s[7] == '2' && s[8] == ' '
    ensures FindFrom(EpisodeMarker, s, 0) == Some(Span(0, 8))
  {
    assert s[0..7] == "EPIsode" && IsKeyword(EpisodeMarker, "EPIsode");
    TailOf(s, 7, 7, 8);
    KeywordAlternatives(EpisodeMarker, s, 0, 7);
  }

  /** The leftmost episode marker of test name 4 is `EPIsode2`. */
  lemma {:induction false} FindEpisode4(s: string)
    requires |s| == 28 && s[0] == 'E' && s[1] == 'P' && s[2] == 'I' && s[3] == 's' && s[4] == 'o' && s[5] == 'd' && s[6] == 'e' && s[7] == '2' && s[8] == ' '
    ensures Find(EpisodeMarker, s) == Some(Span(0, 8))
  {
    MatchEpisode4At0(s);
  }

  /** `cap_num` reads 2 from a text of 8 characters whose digits `2` start at index 7, such as `EPIsode2`. */
  lemma {:induction false} NumberOfDigits2At7(t: string)
    requires |t| == 8 && !IsDigit(t[0]) && !IsDigit(t[1]) && !IsDigit(t[2]) && !IsDigit(t[3]) && !IsDigit(t[4]) && !IsDigit(t[5]) && !IsDigit(t[6])
    requires t[7] == '2'
    ensures HasDigit(t) && CapNum(t) == 2
  {
    assert IsDigit(t[7]);
    NumberOfRun(t, 7, 8);
    assert t[7..8] == "2";
    assert DecimalValue("2") == 2;
  }

  /** Characters 0 to 9 of test name 4. */
  lemma Spelling4From0(s: string)
    requires s == "EPIsode2 and SEASOn 0002.exy"
    ensures |s| == 28 && s[0] == 'E' && s[1] == 'P' && s[2] == 'I' && s[3] == 's' && s[4] == 'o' && s[5] == 'd' && s[6] == 'e' && s[7] == '2' && s[8] == ' ' && s[9] == 'a'
  {
  }

  /** Characters 10 to 19 of test name 4. */
  lemma Spelling4From10(s: string)
    requires s == "EPIsode2 and SEASOn 0002.exy"
    ensures |s| == 28 && s[10] == 'n' && s[11] == 'd' && s[12] == ' ' && s[13] == 'S' && s[14] == 'E' && s[15] == 'A' && s[16] == 'S' && s[17] == 'O' && s[18] == 'n' && s[19] == ' '
  {
  }

  /** Characters 20 to 27 of test name 4. */
  lemma Spelling4From20(s: string)
    requires s == "EPIsode2 and SEASOn 0002.exy"
    ensures |s| == 28 && s[20] == '0' && s[21] == '0' && s[22] == '0' && s[23] == '2' && s[24] == '.' && s[25] == 'e' && s[26] == 'x' && s[27] == 'y'
  {
  }

  lemma {:induction false} EpisodeVector4(s: string)
    requires s == "EPIsode2 and SEASOn 0002.exy"
    ensures CapEpisode(s) == Ok(2)
  {
    Spelling4From0(s);
    Spelling4From10(s);
    Spelling4From20(s);
    FindEpisode4(s);
    assert s[0..8] == "EPIsode2";
    NumberOfDigits2At7(s[0..8]);
    EpisodeOfSpan(s, Span(0, 8), s[0..8], 2);
  }

  /** `cap_episode` on test name 4. */
  lemma EpisodeTest4()
    ensures CapEpisode("EPIsode2 and SEASOn 0002.exy") == Ok(2)
  {
    EpisodeVector4("EPIsode2 and SEASOn 0002.exy");
  }

  lemma SkipEpisode5From0(s: string)
    requires |s| == 11 && s[0] == 'h' && s[1] == 'i'
    ensures FindFrom(EpisodeMarker, s, 0) == FindFrom(EpisodeMarker, s, 2)
  {
    NoMatchLetter(EpisodeMarker, s, 0, 'h');
    NoMatchLetter(EpisodeMarker, s, 1, 'i');
  }

  lemma SkipEpisode5From2(s: string)
    requires |s| == 11 && s[2] == 'S' && s[3] == '0' && s[4] == '1'
    ensures FindFrom(EpisodeMarker, s, 2) == FindFrom(EpisodeMarker, s, 5)
  {
    NoMatchLetter(EpisodeMarker, s, 2, 'S');
    NoMatchLetter(EpisodeMarker, s, 3, '0');
    NoMatchLetter(EpisodeMarker, s, 4, '1');
  }

  lemma MatchEpisode5At5(s: string)
    requires |s| == 11 && s[5] == 'E' && s[6] == '0' && s[7] == '4' && s[8] == '.'
    ensures FindFrom(EpisodeMarker, s, 5) == Some(Span(5, 8))
  {
    assert s[5..6] == "E" && IsKeyword(EpisodeMarker, "E");
    TailOf(s, 6, 6, 8);
    KeywordAlternatives(EpisodeMarker, s, 5, 1);
  }

  /** The leftmost episode marker of test name 5 is `E04`. */
  lemma {:induction false} FindEpisode5(s: string)
    requires |s| == 11 && s[0] == 'h' && s[1] == 'i' && s[2] == 'S' && s[3] == '0' && s[4] == '1' && s[5] == 'E' && s[6] == '0' && s[7] == '4' && s[8] == '.'
    ensures Find(EpisodeMarker, s) == Some(Span(5, 8))
  {
    SkipEpisode5From0(s);
    SkipEpisode5From2(s);
    MatchEpisode5At5(s);
  }

  /** `cap_num` reads 4 from a text of 3 characters whose digits `04` start at index 1, such as `E04`. */
  lemma {:induction false} NumberOfDigits04At1(t: string)
    requires |t| == 3 && !IsDigit(t[0])
    requires t[1] == '0' && t[2] == '4'
    ensures HasDigit(t) && CapNum(t) == 4
  {
    assert IsDigit(t[1]);
    assert IsDigit(t[2]);
    NumberOfRun(t, 1, 3);
    assert t[1..3] == "04";
    assert "04" == "0" + "4";
    LeadingZeros("0", "4");
    assert DecimalValue("04") == 4;
  }

  /** Characters 0 to 9 of test name 5. */
  lemma Spelling5From0(s: string)
    requires s == "hiS01E04.ex"
    ensures |s| == 11 && s[0] == 'h' && s[1] == 'i' && s[2] == 'S' && s[3] == '0' && s[4] == '1' && s[5] == 'E' && s[6] == '0' && s[7] == '4' && s[8] == '.' && s[9] == 'e'
  {
  }

  /** Characters 10 to 10 of test name 5. */
  lemma Spelling5From10(s: string)
    requires s == "hiS01E04.ex"
    ensures |s| == 11 && s[10] == 'x'
  {
  }

  lemma {:induction false} EpisodeVector5(s: string)
    requires s == "hiS01E04.ex"
    ensures CapEpisode(s) == Ok(4)
  {
    Spelling5From0(s);
    Spelling5From10(s);
    FindEpisode5(s);
    assert s[5..8] == "E04";
    NumberOfDigits04At1(s[5..8]);
    EpisodeOfSpan(s, Span(5, 8), s[5..8], 4);
  }

  /** `cap_episode` on test name 5. */
  lemma EpisodeTest5()
    ensures CapEpisode("hiS01E04.ex") == Ok(4)
  {
    EpisodeVector5("hiS01E04.ex");
  }

  lemma SkipSeason1From0(s: string)
    requires |s| == 20 && s[0] == 'h' && s[1] == 'e' && s[2] == 'l'
    ensures FindFrom(SeasonMarker, s, 0) == FindFrom(SeasonMarker, s, 3)
  {
    NoMatchLetter(SeasonMarker, s, 0, 'h');
    NoMatchLetter(SeasonMarker, s, 1, 'e');
    NoMatchLetter(SeasonMarker, s, 2, 'l');
  }

  lemma SkipSeason1From3(s: string)
    requires |s| == 20 && s[3] == 'l' && s[4] == 'o' && s[5] == ' '
    ensures FindFrom(SeasonMarker, s, 3) == FindFrom(SeasonMarker, s, 6)
  {
    NoMatchLetter(SeasonMarker, s, 3, 'l');
    NoMatchLetter(SeasonMarker, s, 4, 'o');
    NoMatchLetter(SeasonMarker, s, 5, ' ');
  }

  lemma MatchSeason1At6(s: string)
    requires |s| == 20 && s[6] == 's' && s[7] == '0' && s[8] == '1' && s[9] == ' '
    ensures FindFrom(SeasonMarker, s, 6) == Some(Span(6, 9))
  {
    assert s[6..7] == "s" && IsKeyword(SeasonMarker, "s");
    TailOf(s, 7, 7, 9);
    KeywordAlternatives(SeasonMarker, s, 6, 1);
  }

  /** The leftmost season marker of test name 1 is `s01`. */
  lemma {:induction false} FindSeason1(s: string)
    requires |s| == 20 && s[0] == 'h' && s[1] == 'e' && s[2] == 'l' && s[3] == 'l' && s[4] == 'o' && s[5] == ' ' && s[6] == 's' && s[7] == '0' && s[8] == '1' && s[9] == ' '
    ensures Find(SeasonMarker, s) == Some(Span(6, 9))
  {
    SkipSeason1From0(s);
    SkipSeason1From3(s);
    MatchSeason1At6(s);
  }

  /** `cap_num` reads 1 from a text of 3 characters whose digits `01` start at index 1, such as `s01`. */
  lemma {:induction false} NumberOfDigits01At1(t: string)
    requires |t| == 3 && !IsDigit(t[0])
    requires t[1] == '0' && t[2] == '1'
    ensures HasDigit(t) && CapNum(t) == 1
  {
    assert IsDigit(t[1]);
    assert IsDigit(t[2]);
    NumberOfRun(t, 1, 3);
    assert t[1..3] == "01";
    assert "01" == "0" + "1";
    LeadingZeros("0", "1");
    assert DecimalValue("01") == 1;
  }

  lemma {:induction false} SeasonVector1(s: string)
    requires s == "hello s01 e02 hi.mp4"
    ensures CapSeason(s) == Ok(1)
  {
    Spelling1From0(s);
    Spelling1From10(s);
    FindSeason1(s);
    assert s[6..9] == "s01";
    NumberOfDigits01At1(s[6..9]);
    SeasonOfSpan(s, Span(6, 9), s[6..9], 1);
  }

  /** `cap_season` on test name 1. */
  lemma SeasonTest1()
    ensures CapSeason("hello s01 e02 hi.mp4") == Ok(1)
  {
    SeasonVector1("hello s01 e02 hi.mp4");
  }

  lemma SkipSeason2From0(s: string)
    requires |s| == 11 && s[0] == 'x'
    ensures FindFrom(SeasonMarker, s, 0) == FindFrom(SeasonMarker, s, 1)
  {
    NoMatchLetter(SeasonMarker, s, 0, 'x');
  }

  lemma MatchSeason2At1(s: string)
    requires |s| == 11 && s[1] == 's' && s[2] == '0' && s[3] == '1' && s[4] == 'e'
    ensures FindFrom(SeasonMarker, s, 1) == Some(Span(1, 4))
  {
    assert s[1..2] == "s" && IsKeyword(SeasonMarker, "s");
    TailOf(s, 2, 2, 4);
    KeywordAlternatives(SeasonMarker, s, 1, 1);
  }

  /** The leftmost season marker of test name 2 is `s01`. */
  lemma {:induction false} FindSeason2(s: string)
    requires |s| == 11 && s[0] == 'x' && s[1] == 's' && s[2] == '0' && s[3] == '1' && s[4] == 'e'
    ensures Find(SeasonMarker, s) == Some(Span(1, 4))
  {
    SkipSeason2From0(s);
    MatchSeason2At1(s);
  }

  lemma {:induction false} SeasonVector2(s: string)
    requires s == "xs01e20.epc"
    ensures CapSeason(s) == Ok(1)
  {
    Spelling2From0(s);
    Spelling2From10(s);
    FindSeason2(s);
    assert s[1..4] == "s01";
    NumberOfDigits01At1(s[1..4]);
    SeasonOfSpan(s, Span(1, 4), s[1..4], 1);
  }

  /** `cap_season` on test name 2. */
  lemma SeasonTest2()
    ensures CapSeason("xs01e20.epc") == Ok(1)
  {
    SeasonVector2("xs01e20.epc");
  }

  lemma MatchSeason3At0(s: string)
    requires |s| == 15 && s[0] == 'S' && s[1] == 'E' && s[2] == 'A' && s[3] == 'S' && s[4] == 'O' && s[5] == 'N' && s[6] == '3' && s[7] == 'E'
    ensures FindFrom(SeasonMarker, s, 0) == Some(Span(0, 7))
  {
    assert s[0..6] == "SEASON" && IsKeyword(SeasonMarker, "SEASON");
    TailOf(s, 6, 6, 7);
    KeywordAlternatives(SeasonMarker, s, 0, 6);
  }

  /** The leftmost season marker of test name 3 is `SEASON3`. */
  lemma {:induction false} FindSeason3(s: string)
    requires |s| == 15 && s[0] == 'S' && s[1] == 'E' && s[2] == 'A' && s[3] == 'S' && s[4] == 'O' && s[5] == 'N' && s[6] == '3' && s[7] == 'E'
    ensures Find(SeasonMarker, s) == Some(Span(0, 7))
  {
    MatchSeason3At0(s);
  }

  /** `cap_num` reads 3 from a text of 7 characters whose digits `3` start at index 6, such as `SEASON3`. */
  lemma {:induction false} NumberOfDigits3At6(t: string)
    requires |t| == 7 && !IsDigit(t[0]) && !IsDigit(t[1]) && !IsDigit(t[2]) && !IsDigit(t[3]) && !IsDigit(t[4]) && !IsDigit(t[5])
    requires t[6] == '3'
    ensures HasDigit(t) && CapNum(t) == 3
  {
    assert IsDigit(t[6]);
    NumberOfRun(t, 6, 7);
    assert t[6..7] == "3";
    assert DecimalValue("3") == 3;
  }

  lemma {:induction false} SeasonVector3(s: string)
    requires s == "SEASON3EPISODE4"
    ensures CapSeason(s) == Ok(3)
  {
    Spelling3From0(s);
    Spelling3From10(s);
    FindSeason3(s);
    assert s[0..7] == "SEASON3";
    NumberOfDigits3At6(s[0..7]);
    SeasonOfSpan(s, Span(0, 7), s[0..7], 3);
  }

  /** `cap_season` on test name 3. */
  lemma SeasonTest3()
    ensures CapSeason("SEASON3EPISODE4") == Ok(3)
  {
    SeasonVector3("SEASON3EPISODE4");
  }

  lemma SkipSeason4From0(s: string)
    requires |s| == 28 && s[0] == 'E'
    ensures FindFrom(SeasonMarker, s, 0) == FindFrom(SeasonMarker, s, 1)
  {
    NoMatchLetter(SeasonMarker, s, 0, 'E');
  }

  lemma SkipSeason4From1(s: string)
    requires |s| == 28 && s[1] == 'P' && s[2] == 'I' && s[3] == 's' && s[4] == 'o'
    ensures FindFrom(SeasonMarker, s, 1) == FindFrom(SeasonMarker, s, 4)
  {
    NoMatchLetter(SeasonMarker, s, 1, 'P');
    NoMatchLetter(SeasonMarker, s, 2, 'I');
    NoMatchNext(SeasonMarker, s, 3, 'o');
  }

  lemma SkipSeason4From4(s: string)
    requires |s| == 28 && s[4] == 'o' && s[5] == 'd' && s[6] == 'e'
    ensures FindFrom(SeasonMarker, s, 4) == FindFrom(SeasonMarker, s, 7)
  {
    NoMatchLetter(SeasonMarker, s, 4, 'o');
    NoMatchLetter(SeasonMarker, s, 5, 'd');
    NoMatchLetter(SeasonMarker, s, 6, 'e');
  }

  lemma SkipSeason4From7(s: string)
    requires |s| == 28 && s[7] == '2' && s[8] == ' ' && s[9] == 'a'
    ensures FindFrom(SeasonMarker, s, 7) == FindFrom(SeasonMarker, s, 10)
  {
    NoMatchLetter(SeasonMarker, s, 7, '2');
    NoMatchLetter(SeasonMarker, s, 8, ' ');
    NoMatchLetter(SeasonMarker, s, 9, 'a');
  }

  lemma SkipSeason4From10(s: string)
    requires |s| == 28 && s[10] == 'n' && s[11] == 'd' && s[12] == ' '
    ensures FindFrom(SeasonMarker, s, 10) == FindFrom(SeasonMarker, s, 13)
  {
    NoMatchLetter(SeasonMarker, s, 10, 'n');
    NoMatchLetter(SeasonMarker, s, 11, 'd');
    NoMatchLetter(SeasonMarker, s, 12, ' ');
  }

  lemma MatchSeason4At13(s: string)
    requires |s| == 28 && s[13] == 'S' && s[14] == 'E' && s[15] == 'A' && s[16] == 'S' && s[17] == 'O' && s[18] == 'n' && s[19] == ' ' && s[20] == '0' && s[21] == '0' && s[22] == '0' && s[23] == '2' && s[24] == '.'
    ensures FindFrom(SeasonMarker, s, 13) == Some(Span(13, 24))
  {
    assert s[13..19] == "SEASOn" && IsKeyword(SeasonMarker, "SEASOn");
    TailOf(s, 19, 20, 24);
    KeywordAlternatives(SeasonMarker, s, 13, 6);
  }

  /** The leftmost season marker of test name 4 is `SEASOn 0002`. */
  lemma {:induction false} FindSeason4(s: string)
    requires |s| == 28 && s[0] == 'E' && s[1] == 'P' && s[2] == 'I' && s[3] == 's' && s[4] == 'o' && s[5] == 'd' && s[6] == 'e' && s[7] == '2' && s[8] == ' ' && s[9] == 'a' && s[10] == 'n' && s[11] == 'd' && s[12] == ' ' && s[13] == 'S' && s[14] == 'E' && s[15] == 'A' && s[16] == 'S' && s[17] == 'O' && s[18] == 'n' && s[19] == ' ' && s[20] == '0' && s[21] == '0' && s[22] == '0' && s[23] == '2' && s[24] == '.'
    ensures Find(SeasonMarker, s) == Some(Span(13, 24))
  {
    SkipSeason4From0(s);
    SkipSeason4From1(s);
    SkipSeason4From4(s);
    SkipSeason4From7(s);
    SkipSeason4From10(s);
    MatchSeason4At13(s);
  }

  /** `cap_num` reads 2 from a text of 11 characters whose digits `0002` start at index 7, such as `SEASOn 0002`. */
  lemma {:induction false} NumberOfDigits0002At7(t: string)
    requires |t| == 11 && !IsDigit(t[0]) && !IsDigit(t[1]) && !IsDigit(t[2]) && !IsDigit(t[3]) && !IsDigit(t[4]) && !IsDigit(t[5]) && !IsDigit(t[6])
    requires t[7] == '0' && t[8] == '0' && t[9] == '0' && t[10] == '2'
    ensures HasDigit(t) && CapNum(t) == 2
  {
    assert IsDigit(t[7]);
    assert IsDigit(t[8]);
    assert IsDigit(t[9]);
    assert IsDigit(t[10]);
    NumberOfRun(t, 7, 11);
    assert t[7..11] == "0002";
    assert "0002" == "000" + "2";
    LeadingZeros("000", "2");
    assert DecimalValue("0002") == 2;
  }

  lemma {:induction false} SeasonVector4(s: string)
    requires s == "EPIsode2 and SEASOn 0002.exy"
    ensures CapSeason(s) == Ok(2)
  {
    Spelling4From0(s);
    Spelling4From10(s);
    Spelling4From20(s);
    FindSeason4(s);
    assert s[13..24] == "SEASOn 0002";
    NumberOfDigits0002At7(s[13..24]);
    SeasonOfSpan(s, Span(13, 24), s[13..24], 2);
  }

  /** `cap_season` on test name 4. */
  lemma SeasonTest4()
    ensures CapSeason("EPIsode2 and SEASOn 0002.exy") == Ok(2)
  {
    SeasonVector4("EPIsode2 and SEASOn 0002.exy");
  }

  lemma SkipSeason5From0(s: string)
    requires |s| == 11 && s[0] == 'h' && s[1] == 'i'
    ensures FindFrom(SeasonMarker, s, 0) == FindFrom(SeasonMarker, s, 2)
  {
    NoMatchLetter(SeasonMarker, s, 0, 'h');
    NoMatchLetter(SeasonMarker, s, 1, 'i');
  }

  lemma MatchSeason5At2(s: string)
    requires |s| == 11 && s[2] == 'S' && s[3] == '0' && s[4] == '1' && s[5] == 'E'
    ensures FindFrom(SeasonMarker, s, 2) == Some(Span(2, 5))
  {
    assert s[2..3] == "S" && IsKeyword(SeasonMarker, "S");
    TailOf(s, 3, 3, 5);
    KeywordAlternatives(SeasonMarker, s, 2, 1);
  }

  /** The leftmost season marker of test name 5 is `S01`. */
  lemma {:induction false} FindSeason5(s: string)
    requires |s| == 11 && s[0] == 'h' && s[1] == 'i' && s[2] == 'S' && s[3] == '0' && s[4] == '1' && s[5] == 'E'
    ensures Find(SeasonMarker, s) == Some(Span(2, 5))
  {
    SkipSeason5From0(s);
    MatchSeason5At2(s);
  }

  lemma {:induction false} SeasonVector5(s: string)
    requires s == "hiS01E04.ex"
    ensures CapSeason(s) == Ok(1)
  {
    Spelling5From0(s);
    Spelling5From10(s);
    FindSeason5(s);
    assert s[2..5] == "S01";
    NumberOfDigits01At1(s[2..5]);
    SeasonOfSpan(s, Span(2, 5), s[2..5], 1);
  }

  /** `cap_season` on test name 5. */
  lemma SeasonTest5()
    ensures CapSeason("hiS01E04.ex") == Ok(1)
  {
    SeasonVector5("hiS01E04.ex");
  }

  lemma SkipEpisode6From0(s: string)
    requires |s| == 16 && s[0] == 'h'
    ensures FindFrom(EpisodeMarker, s, 0) == FindFrom(EpisodeMarker, s, 1)
  {
    NoMatchLetter(EpisodeMarker, s, 0, 'h');
  }

  lemma SkipEpisode6From1(s: string)
    requires |s| == 16 && s[1] == 'e' && s[2] == 'l' && s[3] == 'l'
    ensures FindFrom(EpisodeMarker, s, 1) == FindFrom(EpisodeMarker, s, 4)
  {
    NoMatchNext(EpisodeMarker, s, 1, 'l');
    NoMatchLetter(EpisodeMarker, s, 2, 'l');
    NoMatchLetter(EpisodeMarker, s, 3, 'l');
  }

  lemma SkipEpisode6From4(s: string)
    requires |s| == 16 && s[4] == 'o' && s[5] == ' ' && s[6] == 's'
    ensures FindFrom(EpisodeMarker, s, 4) == FindFrom(EpisodeMarker, s, 7)
  {
    NoMatchLetter(EpisodeMarker, s, 4, 'o');
    NoMatchLetter(EpisodeMarker, s, 5, ' ');
    NoMatchLetter(EpisodeMarker, s, 6, 's');
  }

  lemma SkipEpisode6From7(s: string)
    requires |s| == 16 && s[7] == '0' && s[8] == '1' && s[9] == ' '
    ensures FindFrom(EpisodeMarker, s, 7) == FindFrom(EpisodeMarker, s, 10)
  {
    NoMatchLetter(EpisodeMarker, s, 7, '0');
    NoMatchLetter(EpisodeMarker, s, 8, '1');
    NoMatchLetter(EpisodeMarker, s, 9, ' ');
  }

  lemma MatchEpisode6At10(s: string)
    requires |s| == 16 && s[10] == 'e' && s[11] == '0' && s[12] == '2' && s[13] == ' '
    ensures FindFrom(EpisodeMarker, s, 10) == Some(Span(10, 13))
  {
    assert s[10..11] == "e" && IsKeyword(EpisodeMarker, "e");
    TailOf(s, 11, 11, 13);
    KeywordAlternatives(EpisodeMarker, s, 10, 1);
  }

  /** The leftmost episode marker of test name 6 is `e02`. */
  lemma {:induction false} FindEpisode6(s: string)
    requires |s| == 16 && s[0] == 'h' && s[1] == 'e' && s[2] == 'l' && s[3] == 'l' && s[4] == 'o' && s[5] == ' ' && s[6] == 's' && s[7] == '0' && s[8] == '1' && s[9] == ' ' && s[10] == 'e' && s[11] == '0' && s[12] == '2' && s[13] == ' '
    ensures Find(EpisodeMarker, s) == Some(Span(10, 13))
  {
    SkipEpisode6From0(s);
    SkipEpisode6From1(s);
    SkipEpisode6From4(s);
    SkipEpisode6From7(s);
    MatchEpisode6At10(s);
  }

  /** Characters 0 to 9 of test name 6. */
  lemma Spelling6From0(s: string)
    requires s == "hello s01 e02 hi"
    ensures |s| == 16 && s[0] == 'h' && s[1] == 'e' && s[2] == 'l' && s[3] == 'l' && s[4] == 'o' && s[5] == ' ' && s[6] == 's' && s[7] == '0' && s[8] == '1' && s[9] == ' '
  {
  }

  /** Characters 10 to 15 of test name 6. */
  lemma Spelling6From10(s: string)
    requires s == "hello s01 e02 hi"
    ensures |s| == 16 && s[10] == 'e' && s[11] == '0' && s[12] == '2' && s[13] == ' ' && s[14] == 'h' && s[15] == 'i'
  {
  }

  lemma {:induction false} EpisodeVector6(s: string)
    requires s == "hello s01 e02 hi"
    ensures CapEpisode(s) == Ok(2)
  {
    Spelling6From0(s);
    Spelling6From10(s);
    FindEpisode6(s);
    assert s[10..13] == "e02";
    NumberOfDigits02At1(s[10..13]);
    EpisodeOfSpan(s, Span(10, 13), s[10..13], 2);
  }

  lemma SkipSeason6From0(s: string)
    requires |s| == 16 && s[0] == 'h' && s[1] == 'e' && s[2] == 'l'
    ensures FindFrom(SeasonMarker, s, 0) == FindFrom(SeasonMarker, s, 3)
  {
    NoMatchLetter(SeasonMarker, s, 0, 'h');
    NoMatchLetter(SeasonMarker, s, 1, 'e');
    NoMatchLetter(SeasonMarker, s, 2, 'l');
  }

  lemma SkipSeason6From3(s: string)
    requires |s| == 16 && s[3] == 'l' && s[4] == 'o' && s[5] == ' '
    ensures FindFrom(SeasonMarker, s, 3) == FindFrom(SeasonMarker, s, 6)
  {
    NoMatchLetter(SeasonMarker, s, 3, 'l');
    NoMatchLetter(SeasonMarker, s, 4, 'o');
    NoMatchLetter(SeasonMarker, s, 5, ' ');
  }

  lemma MatchSeason6At6(s: string)
    requires |s| == 16 && s[6] == 's' && s[7] == '0' && s[8] == '1' && s[9] == ' '
    ensures FindFrom(SeasonMarker, s, 6) == Some(Span(6, 9))
  {
    assert s[6..7] == "s" && IsKeyword(SeasonMarker, "s");
    TailOf(s, 7, 7, 9);
    KeywordAlternatives(SeasonMarker, s, 6, 1);
  }

  /** The leftmost season marker of test name 6 is `s01`. */
  lemma {:induction false} FindSeason6(s: string)
    requires |s| == 16 && s[0] == 'h' && s[1] == 'e' && s[2] == 'l' && s[3] == 'l' && s[4] == 'o' && s[5] == ' ' && s[6] == 's' && s[7] == '0' && s[8] == '1' && s[9] == ' '
    ensures Find(SeasonMarker, s) == Some(Span(6, 9))
  {
    SkipSeason6From0(s);
    SkipSeason6From3(s);
    MatchSeason6At6(s);
  }

  lemma {:induction false} SeasonVector6(s: string)
    requires s == "hello s01 e02 hi"
    ensures CapSeason(s) == Ok(1)
  {
    Spelling6From0(s);
    Spelling6From10(s);
    FindSeason6(s);
    assert s[6..9] == "s01";
    NumberOfDigits01At1(s[6..9]);
    SeasonOfSpan(s, Span(6, 9), s[6..9], 1);
  }

  // `Capture::new` on whole file names.

  /** No episode marker in `plainname`: its one `e` ends the text. */
  lemma {:induction false} NoEpisodeInPlainName(s: string)
    requires s == "plainname"
    ensures Find(EpisodeMarker, s) == None
  {
    NoMatchAt(EpisodeMarker, s, 0);
    NoMatchAt(EpisodeMarker, s, 1);
    NoMatchAt(EpisodeMarker, s, 2);
    NoMatchAt(EpisodeMarker, s, 3);
    NoMatchAt(EpisodeMarker, s, 4);
    NoMatchAt(EpisodeMarker, s, 5);
    NoMatchAt(EpisodeMarker, s, 6);
    NoMatchAt(EpisodeMarker, s, 7);
    NoMatchAt(EpisodeMarker, s, 8);
    assert FindFrom(EpisodeMarker, s, 9) == None;
  }

  /** Without a context, a stem with no episode marker fails on the episode. */
  lemma NoEpisodeOfStem(filePath: string, stem: string, ext: Option<string>)
    requires CapFilenameExt(filePath) == (stem, ext) && Find(EpisodeMarker, stem) == None
    ensures NewCapture(filePath, Context(None, None)) == Err(NoEpisodeRegex)
  {
  }

  /** Without a context, the capture takes both numbers from the markers of the stem. */
  lemma CaptureOfStem(filePath: string, stem: string, ext: Option<string>, episode: nat, season: nat)
    requires CapFilenameExt(filePath) == (stem, ext)
    requires CapEpisode(stem) == Ok(episode) && CapSeason(stem) == Ok(season)
    ensures NewCapture(filePath, Context(None, None)) == Ok(Capture(filePath, stem, ext, episode, season))
  {
  }

  /** A name with no marker and no context fails on the episode, which is resolved first. */
  lemma {:induction false} CapturePlainName(s: string)
    requires s == "plainname"
    ensures NewCapture(s, Context(None, None)) == Err(NoEpisodeRegex)
  {
    assert '.' !in s;
    var r := CapFilenameExt(s);
    assert r.1 == None && ExtText(r.1) == "";
    assert r.0 == s;
    NoEpisodeInPlainName(s);
    NoEpisodeOfStem(s, s, None);
  }

  /** The markers of `show.s01e02.mkv` follow the first dot, so the stem `show` holds none. */
  lemma {:induction false} NoMarkersInShow(s: string)
    requires s == "show"
    ensures Find(EpisodeMarker, s) == None && Find(SeasonMarker, s) == None
  {
    NoMatchAt(EpisodeMarker, s, 0);
    NoMatchAt(EpisodeMarker, s, 1);
    NoMatchAt(EpisodeMarker, s, 2);
    NoMatchAt(EpisodeMarker, s, 3);
    assert FindFrom(EpisodeMarker, s, 4) == None;
    NoMatchAt(SeasonMarker, s, 0);
    NoMatchAt(SeasonMarker, s, 1);
    NoMatchAt(SeasonMarker, s, 2);
    NoMatchAt(SeasonMarker, s, 3);
    assert FindFrom(SeasonMarker, s, 4) == None;
  }

  /** Markers after the first dot are not seen: the episode is missing. */
  lemma {:induction false} CaptureMarkersAfterDot()
    ensures NewCapture("show.s01e02.mkv", Context(None, None)) == Err(NoEpisodeRegex)
  {
    assert "show.s01e02.mkv" == "show" + "." + "s01e02.mkv";
    CapFilenameExtAt("show", "s01e02.mkv");
    NoMarkersInShow("show");
  }

  /** With the episode given, the same name fails on the season instead. */
  lemma {:induction false} CaptureSeasonAfterDot()
    ensures NewCapture("show.s01e02.mkv", Context(Some(2), None)) == Err(NoSeasonRegex)
  {
    assert "show.s01e02.mkv" == "show" + "." + "s01e02.mkv";
    CapFilenameExtAt("show", "s01e02.mkv");
    NoMarkersInShow("show");
  }

  /** Both markers in the stem: the capture holds the name, its split and both numbers. */
  lemma {:induction false} CaptureTestName(s: string)
    requires s == "hello s01 e02 hi.mp4"
    ensures NewCapture(s, Context(None, None)) == Ok(Capture(s, "hello s01 e02 hi", Some(".mp4"), 2, 1))
  {
    var stem := s[..16];
    assert stem == "hello s01 e02 hi";
    assert s == stem + "." + "mp4";
    CapFilenameExtAt(stem, "mp4");
    EpisodeVector6(stem);
    SeasonVector6(stem);
    CaptureOfStem(s, stem, Some(".mp4"), 2, 1);
  }

}
