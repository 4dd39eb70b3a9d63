/**
  Concrete behaviour of the utility functions, and how the two file-name
  splitters of the repository (first dot in the TV module, last dot in the
  utility module) relate.
 */
module UtilsExamples {
  import opened Wrappers
  import opened Strings
  import Tv
  import opened Utils

  /** A leading dot makes the whole name an extension. */
  lemma DotFileExt()
    ensures CapFilenameExt(".bashrc") == ("", Some(".bashrc"))
  {
    assert ".bashrc" == "" + "." + "bashrc";
    CapFilenameExtAt("", "bashrc");
    assert "." + "bashrc" == ".bashrc";
  }

  /** Only the last segment is the extension; the earlier ones are joined back with dots. */
  lemma LastDotExt()
    ensures CapFilenameExt("a.b.c") == ("a.b", Some(".c"))
  {
    assert "a.b.c" == "a.b" + "." + "c";
    CapFilenameExtAt("a.b", "c");
  }

  /** Without a dot the stem is empty, not the whole name. */
  lemma NoDotExt()
    ensures CapFilenameExt("archive") == ("", None)
  {
    assert '.' !in "archive";
  }

  /**
    With exactly one dot the two splitters agree; without a dot the TV
    module keeps the whole name as the stem and this one keeps nothing.
   */
  lemma {:induction false} SplittersCompared(stem: string, last: string)
    requires '.' !in stem && '.' !in last
    ensures CapFilenameExt(stem + "." + last) == Tv.CapFilenameExt(stem + "." + last)
    ensures CapFilenameExt(stem) == ("", None) && Tv.CapFilenameExt(stem) == (stem, None)
  {
    CapFilenameExtAt(stem, last);
    Tv.CapFilenameExtAt(stem, last);
    var r := Tv.CapFilenameExt(stem);
    assert Tv.ExtText(r.1) == "";
    assert r.0 + "" == r.0;
  }

  /** Text without separators. */
  predicate Plain(w: string) {
    forall i :: 0 <= i < |w| ==> !IsSeparator(w[i])
  }

  /** A non-empty run of separators. */
  predicate Run(r: string) {
    |r| > 0 && forall i :: 0 <= i < |r| ==> IsSeparator(r[i])
  }

  /** A plain stretch followed by a run: the stretch stays, the run becomes one space. */
  lemma WordRun(w: string, r: string, rest: string)
    requires Plain(w) && Run(r) && (rest == "" || !IsSeparator(rest[0]))
    ensures ReplaceSeparatorRuns(w + r + rest) == w + " " + ReplaceSeparatorRuns(rest)
  {
    var x := r + rest;
    assert w + r + rest == w + x;
    ReplacePlain(w, x);
    ReplaceRun(r, rest);
  }

  /** Two runs between three plain words each become one space. */
  lemma ReplaceThree(s: string, w1: string, r1: string, w2: string, r2: string, w3: string)
    requires s == w1 + r1 + w2 + r2 + w3
    requires Plain(w1) && Run(r1) && Plain(w2) && Run(r2) && Plain(w3) && |w2| > 0
    ensures ReplaceSeparatorRuns(s) == w1 + " " + w2 + " " + w3
  {
    var tail := w2 + r2 + w3;
    ReplacePlain(w3, "");
    assert w3 + "" == w3;
    WordRun(w2, r2, w3);
    assert tail[0] == w2[0];
    WordRun(w1, r1, tail);
    assert s == w1 + r1 + tail;
    assert w1 + " " + (w2 + " " + w3) == w1 + " " + w2 + " " + w3;
  }

  /**
    Three words separated by two runs, with no whitespace at the ends, format
    to the words with single spaces: `The.Artist-Name` gives `The Artist Name`.
   */
  lemma FormatThree(s: string, w1: string, r1: string, w2: string, r2: string, w3: string)
    requires s == w1 + r1 + w2 + r2 + w3
    requires Plain(w1) && Run(r1) && Plain(w2) && Run(r2) && Plain(w3)
    requires |w1| > 0 && |w2| > 0 && |w3| > 0
    requires !IsWhitespace(w1[0]) && !IsWhitespace(w3[|w3| - 1])
    ensures FormatName(s) == w1 + " " + w2 + " " + w3
  {
    var t := w1 + " " + w2 + " " + w3;
    ReplaceThree(s, w1, r1, w2, r2, w3);
    assert t[0] == w1[0] && t[|t| - 1] == w3[|w3| - 1];
    TrimFixed(t);
  }

  /** Nothing but separators formats to the empty string. */
  lemma FormatOnlySeparators()
    ensures FormatName("-. .-") == ""
  {
    FormatNameBlank("-. .-");
  }
}
