# tagzen capture engine, in Dafny

This project models the parsing core of tagzen, a small web service that tags
media file names. Two parts are modelled.

- **TV capture** (`src/tv.rs`). A file name is split at its first dot into a
  stem and an extension. The leftmost season marker (`s`/`season`, spaces,
  digits) and the leftmost episode marker (`e`/`ep`/`episode`, spaces, digits)
  are found in the stem, ignoring ASCII case. The first digit run inside each
  marker is read as a number. A caller-supplied context overrides either
  number. The batch route captures a list of names with one shared context and
  stops at the first failure.
- **Utilities** (`src/utils.rs`). The second file-name splitter keeps only the
  text after the last dot as the extension. `format_name` turns every run of
  dots, hyphens and spaces into one space, then trims surrounding whitespace.

Files:

- `wrappers.dfy`: `Option` and `Result`.
- `strings.dfy`: Rust's `split`/`join` on a character, ASCII digits and their
  decimal value, ASCII case-insensitive comparison.
- `tv.dfy`: module `Tv`.
- `tv_examples.dfy`: module `TvExamples`, the unit tests of `src/tv.rs` and a
  few whole-name captures.
- `utils.dfy`: module `Utils`.
- `utils_examples.dfy`: module `UtilsExamples`.

The three regular expressions of `src/tv.rs` are modelled twice:

- an executable matcher, `Tv.MatchEnd`, that tries the optional groups longest
  first, as a leftmost-first regex engine does;
- a declarative description of each pattern's language, `Tv.Matches`.

`Tv.MatchEndSound` and `Tv.MatchEndComplete` prove that the two agree.
`Tv.FindLeftmost` proves that the search returns the leftmost match.

Three behaviours of the code are worth noting, and the model keeps each:

- `Capture::new` splits at the first dot (`src/tv.rs:21-32`), although the
  doc comment of the `filename` field calls it similar to
  `PathBuf::file_stem` (`src/tv.rs:115-116`), which splits at the last dot.
  The last-dot splitter of `src/utils.rs` is not called by the TV code. So
  markers after the first dot are not seen
  (`TvExamples.CaptureMarkersAfterDot`).
- The struct literal of `Capture::new` resolves the episode before the
  season (`src/tv.rs:137-144`). A name with neither marker and no context
  therefore fails with `NoEpisodeRegex` (`TvExamples.CapturePlainName`).
- `utils::cap_filename_ext` gives an empty stem for a name without a dot
  (`src/utils.rs:58`), where the TV splitter keeps the whole name
  (`UtilsExamples.NoDotExt`, `UtilsExamples.SplittersCompared`).

## Model

| member | source | states |
|---|---|---|
| Strings.Split | src/tv.rs:22 | `split('.')` always yields at least one segment |
| Strings.JoinSplit | src/tv.rs:22-27 | joining the segments of a split back with the delimiter gives the input again |
| Strings.SplitCount | src/tv.rs:26 | there is more than one segment exactly when the delimiter occurs |
| Strings.LeadingZeros | src/tv.rs:41 | leading zeros do not change the parsed value (`0002` reads as 2) |
| Tv.CapFilenameExt | src/tv.rs:21-32 | stem and extension concatenate to the input; the stem holds no dot; there is no extension exactly when the input has no dot; an extension starts with a dot |
| Tv.CapFilenameExtAt | src/tv.rs:21-32 | for a dot-free stem, `stem.rest` splits into `stem` and `.rest`, whatever dots `rest` holds |
| Tv.MatchEndSound | src/tv.rs:4-10 | what the matcher accepts at `i` is a marker word, spaces and a maximal digit run: a member of the pattern's language |
| Tv.MatchEndComplete | src/tv.rs:4-10 | every member of the pattern's language starting at `i` is accepted by the matcher, which ends exactly where the digit run ends |
| Tv.KeywordAlternatives | src/tv.rs:4-7 | when a marker word is followed by spaces or a digit, the matcher settles on that word; the longer alternatives cannot also apply |
| Tv.FindFromFirst | src/tv.rs:47-49 | the search stops at the first position where a match starts and no earlier position has one |
| Tv.FindLeftmost | src/tv.rs:58-60 | `find` (`Tv.Find`) returns nothing exactly when the pattern does not occur, and otherwise the leftmost match with its full digit run |
| Tv.FindIsLeftmost | src/tv.rs:47-49 | any leftmost match, however described, is the one `find` reports |
| Tv.CapNumFirstRun | src/tv.rs:35-43 | `cap_num` (`Tv.CapNum`) parses the first digit run of the matched text, and that run is unique |
| Tv.MarkerNumber | src/tv.rs:35-43 | inside a marker match the first digit run is the one after the marker word and spaces |
| Tv.LeftmostNumber | src/tv.rs:51 | the number read from a found marker is the value of the leftmost marker's digits |
| Tv.CapEpisodeSpec | src/tv.rs:46-54 | `cap_episode` (`Tv.CapEpisode`) succeeds exactly when an episode marker occurs, returns the number of the leftmost one, and otherwise fails with `NoEpisodeRegex` |
| Tv.CapSeasonSpec | src/tv.rs:57-65 | `cap_season` (`Tv.CapSeason`) succeeds exactly when a season marker occurs, returns the number of the leftmost one, and otherwise fails with `NoSeasonRegex` |
| Tv.MarkerValueUnique | src/tv.rs:46-65 | the leftmost marker determines one number only |
| Tv.EpisodeFromLeftmost | src/tv.rs:46-54 | whichever episode marker starts leftmost gives the episode; later markers are ignored |
| Tv.SeasonFromLeftmost | src/tv.rs:57-65 | whichever season marker starts leftmost gives the season; later markers are ignored |
| Tv.CaptureErrors | src/tv.rs:131-147 | `Capture::new` (`Tv.NewCapture`) fails with `NoEpisodeRegex` exactly when no episode is given and the stem has no episode marker; `NoSeasonRegex` exactly when the episode resolved but no season is given and the stem has no season marker |
| Tv.CaptureFields | src/tv.rs:131-147 | a capture made by `Tv.NewCapture` keeps the input, holds the first-dot split, and takes each number from the context when given, otherwise from the leftmost marker of the stem |
| Tv.OverridesAlwaysSucceed | src/tv.rs:137-144 | with both numbers given the capture always succeeds with exactly those numbers |
| Tv.CaptureSeason | src/tv.rs:190-207 | on success every name is captured, in order, with the season-only context; on failure the error is that of the first failing name, and all earlier names succeeded |
| TvExamples.EpisodeTest1 | src/tv.rs:221 | `cap_episode("hello s01 e02 hi.mp4")` is 2 |
| TvExamples.EpisodeTest2 | src/tv.rs:222 | `cap_episode("xs01e20.epc")` is 20 |
| TvExamples.EpisodeTest3 | src/tv.rs:223 | `cap_episode("SEASON3EPISODE4")` is 4 |
| TvExamples.EpisodeTest4 | src/tv.rs:224 | `cap_episode("EPIsode2 and SEASOn 0002.exy")` is 2 |
| TvExamples.EpisodeTest5 | src/tv.rs:225 | `cap_episode("hiS01E04.ex")` is 4 |
| TvExamples.SeasonTest1 | src/tv.rs:230 | `cap_season("hello s01 e02 hi.mp4")` is 1 |
| TvExamples.SeasonTest2 | src/tv.rs:231 | `cap_season("xs01e20.epc")` is 1 |
| TvExamples.SeasonTest3 | src/tv.rs:232 | `cap_season("SEASON3EPISODE4")` is 3 |
| TvExamples.SeasonTest4 | src/tv.rs:233 | `cap_season("EPIsode2 and SEASOn 0002.exy")` is 2, leading zeros included |
| TvExamples.SeasonTest5 | src/tv.rs:234 | `cap_season("hiS01E04.ex")` is 1 |
| TvExamples.CaptureTestName | src/tv.rs:131-147 | `hello s01 e02 hi.mp4` with no context captures stem `hello s01 e02 hi`, extension `.mp4`, episode 2, season 1 |
| TvExamples.CapturePlainName | src/tv.rs:137-140 | a name with no marker and no context fails with `NoEpisodeRegex` |
| TvExamples.CaptureMarkersAfterDot | src/tv.rs:132-140 | `show.s01e02.mkv` with no context fails with `NoEpisodeRegex`: its markers follow the first dot |
| TvExamples.CaptureSeasonAfterDot | src/tv.rs:141-144 | the same name with the episode given fails with `NoSeasonRegex` |
| Utils.CapFilenameExt | src/utils.rs:54-65 | there is no extension exactly when the input has no dot, and then the stem is empty; otherwise stem and extension concatenate to the input and the extension is a dot followed by dot-free text |
| Utils.CapFilenameExtAt | src/utils.rs:54-65 | `stem.last` with a dot-free `last` splits into `stem` and `.last`, whatever dots `stem` holds |
| Utils.DropSeparators | src/utils.rs:12 | the greedy `+` takes the whole run: everything dropped is a separator and what remains is a suffix that does not start with a separator |
| Utils.ReplacePlain | src/utils.rs:72 | text without separators passes through the replacement unchanged |
| Utils.ReplaceRun | src/utils.rs:72 | a whole run of separators becomes a single space |
| Utils.SeparatorRunsReplaced | src/utils.rs:70-72 | after the replacement (`Utils.ReplaceSeparatorRuns`) no dot or hyphen is left and no two spaces touch; the output is empty only for empty input and starts with a space exactly when the input starts with a separator |
| Utils.ReplaceIsSqueeze | src/utils.rs:70-72 | the replacement equals an independent reading: map every separator to a space, then collapse runs of spaces |
| Utils.TrimStart | src/utils.rs:73 | removes exactly the leading whitespace: what it drops is whitespace, and what it keeps does not start with whitespace |
| Utils.TrimEnd | src/utils.rs:73 | removes exactly the trailing whitespace: what it drops is whitespace, and what it keeps does not end with whitespace |
| Utils.TrimSlice | src/utils.rs:73 | `trim` (`Utils.Trim`) keeps a contiguous slice of its input that neither starts nor ends with whitespace |
| Utils.TrimFixed | src/utils.rs:73 | a text with no whitespace at either end is its own trim |
| Utils.FormatNameShape | src/utils.rs:69-74 | `format_name` (`Utils.FormatName`) leaves no dot, no hyphen, no two touching spaces and no whitespace at either end |
| Utils.FormatNameIdempotent | src/utils.rs:69-74 | formatting a formatted name changes nothing |
| Utils.FormatNameBlank | src/utils.rs:69-74 | a name of separators and whitespace only formats to the empty string |
| UtilsExamples.DotFileExt | src/utils.rs:54-65 | `.bashrc` is all extension, with an empty stem |
| UtilsExamples.LastDotExt | src/utils.rs:54-65 | `a.b.c` splits into `a.b` and `.c` |
| UtilsExamples.NoDotExt | src/utils.rs:54-65 | `archive` has no extension and an empty stem |
| UtilsExamples.SplittersCompared | src/utils.rs:54-65 | with one dot the two splitters agree; without a dot the TV splitter keeps the name as stem and this one keeps nothing |
| UtilsExamples.WordRun | src/utils.rs:12 | a separator-free word followed by a run of separators becomes the word and one space |
| UtilsExamples.ReplaceThree | src/utils.rs:72 | three words separated by two runs become the words separated by single spaces |
| UtilsExamples.FormatThree | src/utils.rs:67-74 | `format_name` of three words joined by separator runs, such as `The.Artist-Name`, is the words with single spaces |
| UtilsExamples.FormatOnlySeparators | src/utils.rs:69-74 | `format_name("-. .-")` is empty |

## Left out

- The web layer is not modelled: the Rocket routes, `ResponseModel`, its JSON responder, the help texts and the `Display` messages of `CaptureError`. `Tv.CaptureSeason` models only the loop of the `season` route, with the request body as a list of names.
- The `Regex::new(..).expect(..)` and `.unwrap()` calls on the constant patterns are not modelled; the patterns are well-formed, so they never fail.
- `cap_num`'s `find(..).unwrap()` becomes the precondition `HasDigit` of `Tv.CapNum`. Every marker match ends in digits, so callers meet it (`Tv.LeftmostNumber`).
- Tv.CapNum: does not model the panic of `parse::<usize>()` on a digit run above 2^64 − 1; numbers are unbounded naturals, so such a name yields a huge number in the model where the program panics.
- Tv.CapEpisode, Tv.CapSeason: the `(?i)` flag is modelled for ASCII letters only. Under Unicode simple case folding the letter `s` also matches the long s `ſ` (U+017F), so the model misses a season marker (`ſ01`) or an episode marker (`epiſode2`) written with it.
- `Utils.IsWhitespace` lists the Unicode White_Space characters by code point, as `char::is_whitespace` does; Unicode tables are not otherwise modelled.
- The song tagging of `src/music.rs` is not modelled: its only operation ends in `unimplemented!()`. `src/main.rs` only mounts the routes.
