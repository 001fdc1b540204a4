# ai-rename-images, modelled in Dafny

ai-rename-images renames the JPEG files of a directory after what a local vision model
sees in them. For each image the script builds a prompt and sends it with the image to an
Ollama model. It strips Markdown code fences from the reply and decodes the JSON keyword
list. It then turns the keywords into a name, decorates that name with an optional date,
prefix and postfix, and renames the file. `rename-images.py` is the older variant. It
drops keywords holding a digit, turns spaces inside a keyword into the delimiter, and skips
macOS `.DS_Store` entries.

This project models the string pipeline of both scripts and proves its properties:

- the `{number}` substitution into the module-global prompt template;
- the `--prompt`/`--override` precedence;
- the metadata, directory and date sentences, and the exiftool line filter;
- the fence stripping;
- the title-casing keyword join;
- the timestamp, prefix and postfix decoration;
- the JPEG listing filter and the option-conflict check.

Modules:

- `Errors`: the exceptions as values, and `Result`/`Option`.
- `Text`: the Python string operations the scripts use, over `seq<char>`:
  - `replace` and `re.sub` with a literal pattern;
  - `split()`, `split(c)`, `strip()`, `join`, `find` and `lower`;
  - slicing with a possibly negative bound.
- `Numerals`: `str(int)` and `strftime('%Y?%m?%d')`.
- `Options`: the parsed command-line options.
- `Host`: what comes from outside Python. The model call, the JSON decoding, exiftool,
  Pillow, the coordinate parser and the reverse geocoder, `str(list)`, the parent
  directory and the file's local modification date are function values in an `Env`. `Path.suffix` is here as well.
- `Reply`: what both scripts do with the model's reply: the failing call, the fence
  stripping and the failing decoding.
- `Naming`: `keywords_to_string_with_delimiter` of ai-rename-images.py (a loop method
  proved against a specification function), and the name decoration (a method that
  rebinds `new_name` step by step).
- `Prompt`: `generate_keywords` of ai-rename-images.py. The exiftool loop and the
  `prompt +=` steps are methods proved against specification functions.
- `Batch`: the class `Renamer`, whose field is the global `original_prompt`. It holds
  `generate_keywords`, the body of the `try` in `process_images`, the processing loop and
  `main`. The JPEG listing loop is also here.
- `Legacy`: rename-images.py. It is pure, as the script is.

Behaviour of the scripts worth noting:

- The output-format request is appended on the override path too (`Prompt.PromptFor`).
- With both timestamp flags set, only the leading date is added
  (`Naming.BothTimestampsPrefixOnly`).
- There is no empty-result error. In rename-images.py a reply whose keywords all hold a
  digit gives the empty name (`Legacy.AllDigitKeywordsGiveEmptyName`). With the prompt the
  script evidently means, the file is then renamed to its suffix alone; as written, the
  script renames nothing at all (see "## Findings").
- Both scripts check the delimiter again per file, after the model has answered
  (`Batch.InvalidDelimiterRenamesNothing`, `Legacy.KeywordsToStringWithDelimiter`). From the
  command line that check cannot fail: argparse already rejects any other delimiter. It is
  reachable only when the functions are called with options built some other way.
- ai-rename-images.py title-cases the words of a keyword and joins them without
  separator. Only rename-images.py turns spaces into the delimiter.
- The global template is rewritten in place, but the rewrite does not accumulate. After the
  first substitution no placeholder is left, so every later image sees the same prompt
  (`Batch.NewNameAfterSubstitution`, `Batch.Renamer.ProcessImages`).

## Model

| member | source | states |
|---|---|---|
| Text.StripSlice | ai-rename-images.py:202 | `strip()` keeps the slice between two all-whitespace margins; the result has no whitespace at either end; stripped text is unchanged |
| Text.Strip | ai-rename-images.py:202 | `strip()` gives text no longer than its input, with no whitespace at either end |
| Text.StripIdempotent | ai-rename-images.py:202 | stripping twice is stripping once |
| Text.StripKeepsOut | ai-rename-images.py:202 | stripping adds no character |
| Text.Find | ai-rename-images.py:77 | `str.find` gives the first index of the character, or -1 exactly when it is absent |
| Text.ReplaceAll | ai-rename-images.py:200-201 | `replace` with a pattern by itself changes nothing; a replacement as long as the pattern keeps the length |
| Text.ReplaceAllRemoves | ai-rename-images.py:104 | when the replacement cannot rebuild the pattern, no occurrence survives a replace-all |
| Text.ReplaceAbsent | ai-rename-images.py:104 | replacing an absent pattern changes nothing |
| Text.WordsConcat | ai-rename-images.py:78 | the words of `split()`, concatenated, are the text without its whitespace |
| Text.Words | ai-rename-images.py:78 | every word of `split()` is non-empty and holds no whitespace |
| Text.WordsSplitAt | ai-rename-images.py:78 | a whitespace character splits the words: those of `a + c + b` are those of `a` then those of `b` |
| Text.SplitOn | ai-rename-images.py:124 | `split(c)` gives at least one part, and no part holds `c` |
| Text.Join | ai-rename-images.py:80 | a join of at least one part starts with the first part and ends with the last |
| Text.JoinSplit | ai-rename-images.py:80 | joining the parts of `split(c)` with `c` gives back the text |
| Text.SplitJoin | ai-rename-images.py:80 | splitting a join of `c`-free parts on `c` gives back the parts |
| Text.JoinKeeps | ai-rename-images.py:80 | a property shared by every character of the separator and of the parts holds for every character of the join |
| Text.TakePy | ai-rename-images.py:80 | `xs[:n]` is a prefix of `xs` of length `min(n, len(xs))` for `n >= 0` and `max(len(xs) + n, 0)` for negative `n` |
| Reply.StripFences | ai-rename-images.py:198-203 | the cleaned reply holds no "```" anywhere and has no leading or trailing whitespace |
| Reply.FenceRemovalComplete | ai-rename-images.py:201 | removing "```" left to right leaves no "```", even where removal brings backticks together |
| Reply.JsonFenceHasFence | ai-rename-images.py:200-201 | any text holding "```json" holds "```" |
| Reply.StripFencesIdempotent | ai-rename-images.py:198-203 | cleaning an already cleaned reply changes nothing |
| Reply.StripFencesPlain | rename-images.py:138-143 | a reply without backticks is only stripped of surrounding whitespace |
| Reply.StripFencesJsonReply | rename-images.py:138-143 | a reply "```json<body>```" with a backtick-free body is cleaned to the stripped body |
| Numerals.NatToStringValue | ai-rename-images.py:104 | the digits of `str(n)` read back as `n` |
| Numerals.IntToStringRoundTrip | ai-rename-images.py:104 | `int(str(n)) == n` for every integer, negative ones included |
| Numerals.NumberFitsBraced | ai-rename-images.py:104 | `str(n)` can neither start nor continue a placeholder in braces whose name holds no digit and no minus sign |
| Numerals.TwoDigits | ai-rename-images.py:214 | `%m`/`%d` give exactly two digits whose value is the month or day |
| Numerals.FourDigits | ai-rename-images.py:214 | a year from 1000 to 9999 is written with four digits |
| Numerals.FormatDateFields | ai-rename-images.py:214 | the date is 10 characters; the separator is at 4 and 7; the rest are digits; the groups read back as year, month and day |
| Host.LastDot | ai-rename-images.py:224 | the index of the name's last '.', or -1 when it has none |
| Host.Suffix | ai-rename-images.py:224 | the suffix is empty, or a proper tail of the name that starts at a '.' and holds no other '.'; it is non-empty exactly when the name has a last '.' that is neither its first nor its last character |
| Naming.Capitalize | ai-rename-images.py:78 | same length; first character upper-cased; the rest lower-cased; same text ignoring case; no whitespace added |
| Naming.CapitalizeAll | ai-rename-images.py:78 | ignoring case, the result is the words concatenated; whitespace-free words give a whitespace-free result |
| Naming.TitleJoin | ai-rename-images.py:78 | a title-joined keyword holds no whitespace and, ignoring case, is the keyword with its whitespace removed |
| Naming.TitleJoinOneWord | ai-rename-images.py:78 | a keyword without whitespace is only re-cased |
| Naming.TitleJoinTwoWords | ai-rename-images.py:78 | "a b" for whitespace-free words `a` and `b` becomes `a` and `b` capitalised and glued together |
| Naming.ReusesPreviousMeaning | ai-rename-images.py:77 | `keyword.find(" ")` is falsy exactly when the keyword starts with a space |
| Naming.Cleaned | ai-rename-images.py:75-79 | `cleaned_keywords` has exactly one entry per keyword |
| Naming.CleanedStep | ai-rename-images.py:76-79 | one iteration appends the fresh title-joined keyword, or the previous entry when the keyword starts with a space |
| Naming.LastFresh | ai-rename-images.py:77-79 | the last keyword at or before `i` that binds `new` afresh |
| Naming.LastFreshIsLast | ai-rename-images.py:77-79 | every keyword after that one, up to `i`, starts with a space |
| Naming.LastFreshPrefix | ai-rename-images.py:76-79 | later keywords do not change which keyword fed entry `i` |
| Naming.CleanedAt | ai-rename-images.py:76-79 | entry `i` is the converted form of the last keyword at or before `i` not starting with a space |
| Naming.CleanedHasNoSpace | ai-rename-images.py:78-79 | no entry of `cleaned_keywords` holds whitespace |
| Naming.KeywordsName | ai-rename-images.py:72-80 | ValueError exactly for an invalid delimiter, before any keyword; UnboundLocalError exactly when the first keyword starts with a space |
| Naming.KeywordsToStringWithDelimiter | ai-rename-images.py:72-80 | the loop returns the join of the first `number` cleaned entries, or the error of `KeywordsName` |
| Naming.NameWhitespaceIsDelimiter | ai-rename-images.py:78-80 | the only whitespace in a name is a space delimiter |
| Naming.SpaceNameSplitsBack | ai-rename-images.py:76-80 | with delimiter " ", splitting the name gives the first `number` cleaned entries in order; there are `min(number, len(keywords))` of them |
| Naming.Squash | ai-rename-images.py:218-221 | a whitespace-free prefix or postfix is inserted verbatim; an all-whitespace one contributes the empty string |
| Naming.SquashTwoWords | ai-rename-images.py:218-221 | a prefix or postfix "a b" of two words is not inserted verbatim: it glues its own words, giving `a` + "a b" + `b` |
| Naming.SquashInnerSpace | ai-rename-images.py:218 | `--prefix "a b"` puts "aa bb" before the name |
| Naming.Lead | ai-rename-images.py:212-219 | what goes before the keyword name is empty or ends with the delimiter |
| Naming.Tail | ai-rename-images.py:212-221 | what goes after the keyword name is empty or starts with the delimiter |
| Naming.DecorateName | ai-rename-images.py:212-221 | the decorated name is `Lead + name + Tail`: prefix, leading date, name, trailing date only without a leading one, postfix |
| Naming.BothTimestampsPrefixOnly | ai-rename-images.py:212-221 | with both timestamp flags the date appears only before the name; a whitespace-free prefix and postfix appear verbatim around it |
| Prompt.Substitute | ai-rename-images.py:104 | no `{number}` survives the substitution |
| Prompt.SubstituteIdempotent | ai-rename-images.py:99-104 | substituting into the already substituted global changes nothing, whatever the number |
| Prompt.SubstituteOriginal | ai-rename-images.py:25 | both mentions of the count in the script's template read `str(n)` and nothing else changes |
| Prompt.LocateWithoutComma | ai-rename-images.py:130-133 | a position without a comma never yields an address: ValueError when the lone coordinate does not parse, otherwise IndexError from `a[1]` |
| Prompt.LocatePair | ai-rename-images.py:130-140 | "lat,lon" yields the address the reverse geocoder gives for the two parsed coordinates, and fails exactly when a parse or the lookup fails |
| Prompt.Locate | ai-rename-images.py:130-140 | the GPS branch raises only the parser's, the index's or the geocoder's exception, and a value without a comma never yields an address |
| Prompt.ExifLineStep | ai-rename-images.py:124-143 | the loop body applied to one exiftool line gives `ExifLine` of the gathered entries and location |
| Prompt.FilterExiftool | ai-rename-images.py:123-143 | the loop over exiftool's lines gathers exactly `ExifFromLines`, stopping at the first failing line |
| Prompt.Key | ai-rename-images.py:124-126 | the key `line[0].strip()` is stripped and holds no colon |
| Prompt.LastField | ai-rename-images.py:124-130 | the field `line[-1].strip()` is stripped and holds no colon |
| Prompt.ExifStep | ai-rename-images.py:125-143 | a line whose key is not in the filter changes nothing; a filtered line other than "GPS Position" appends exactly `key:field; `; the GPS line fails exactly when geocoding fails, and otherwise sets the location to the geocoded address and adds no entry |
| Prompt.ExifLine | ai-rename-images.py:124-143 | a line whose key is not in the filter changes nothing; only a "GPS Position" line can raise, and only a geocoding exception |
| Prompt.ExifFrom | ai-rename-images.py:123-143 | the remaining lines fail only with a geocoding exception, and add at most one entry each |
| Prompt.ExifFromLines | ai-rename-images.py:115-143 | all of exiftool's lines give at most one entry per line, or a geocoding exception; no line gives nothing |
| Prompt.EntryShape | ai-rename-images.py:143 | a filtered non-GPS key and a colon-free field make an entry of the form `key:field; ` |
| Prompt.ExifStepEntries | ai-rename-images.py:125-143 | one line keeps the entries gathered so far and adds at most one, of entry shape |
| Prompt.ExifFromEntries | ai-rename-images.py:123-143 | every gathered entry has a filtered non-GPS key, one colon and the closing "; ", and earlier entries stay in place |
| Prompt.ExifFromKeeps | ai-rename-images.py:123-143 | later lines never remove or reorder an entry already gathered |
| Prompt.ExifKeepsFiltered | ai-rename-images.py:123-143 | when no line fails, every filtered line other than "GPS Position" leaves its `key:field; ` among the gathered entries |
| Prompt.ExifLocationNeedsGps | ai-rename-images.py:127-140 | without a "GPS Position" line the lines never fail and the location is unchanged |
| Prompt.ExifGpsWithoutComma | ai-rename-images.py:130-133 | a GPS line without a comma fails the whole file: ValueError when its coordinate does not parse, IndexError otherwise |
| Prompt.GatherMetadata | ai-rename-images.py:113-154 | only the exiftool branch can raise, only it can find a location, and it gathers at most one entry per line |
| Prompt.MetadataSentences | ai-rename-images.py:155-158 | the metadata text is empty exactly when no entry was gathered; it starts with the metadata introduction and ends with the location when there is one |
| Prompt.DirectorySentence | ai-rename-images.py:162-163 | the directory sentence is present exactly with `--directory_name`, and ends with the parent directory |
| Prompt.DateSentence | ai-rename-images.py:165-169 | the date sentence is present exactly with `--timestamp`, and starts with its introduction |
| Prompt.MetadataPart | ai-rename-images.py:113-158 | without a metadata option nothing is added; only the exiftool branch fails, with a geocoding exception; added text starts with the metadata introduction |
| Prompt.MetadataStage | ai-rename-images.py:113-160 | the metadata stage returns the metadata sentences, empty without metadata options or entries, or the exiftool failure |
| Prompt.BuildPrompt | ai-rename-images.py:106-172 | growing `prompt` step by step gives `PromptFor`: head, metadata part, directory sentence, date sentence, output format |
| Prompt.Head | ai-rename-images.py:106-111 | with `--prompt` the head starts with that text and a space; the template ends the head unless `--override` alone replaces it |
| Prompt.PromptFor | ai-rename-images.py:106-172 | the prompt fails exactly when the metadata stage does; every built prompt starts with its head and ends with the output-format request, override path included |
| Prompt.PromptPrecedence | ai-rename-images.py:106-111 | `--prompt` gives `prompt + " " + template`; otherwise `--override` alone; otherwise the template |
| Prompt.OverrideIgnoresTemplate | ai-rename-images.py:108-109 | on the override path the template plays no part |
| Prompt.PromptWithoutMetadata | ai-rename-images.py:162-172 | without metadata options the prompt is head, directory sentence, date sentence and format request |
| Prompt.LocationNeedsEntries | ai-rename-images.py:155-158 | a GPS location reaches the prompt only when some other entry was gathered |
| Prompt.ExifFailureFailsPrompt | ai-rename-images.py:123-140 | a failing exiftool line fails the prompt with the same exception |
| Prompt.DateSentenceFormat | ai-rename-images.py:165-169 | the date sentence carries the date as `YYYY-MM-DD` right after its introduction |
| Batch.Rename | ai-rename-images.py:198-224 | the file fails exactly when the model call, the decoding or the keyword name fails, with that stage's exception; otherwise its new name is the date-decorated keyword name followed by the old suffix |
| Batch.NewName | ai-rename-images.py:195-224 | a file whose model call fails fails with that exception; a file is renamed exactly when the reply arrives, decodes and yields a keyword name; a new name ends with the old name's suffix |
| Batch.Response | ai-rename-images.py:98-186 | `generate_keywords` fails only in the model call, or with `--metadata` in the geocoding |
| Batch.PromptFailureFailsImage | ai-rename-images.py:195-196 | a failure while building the prompt fails the file with that exception |
| Batch.InvalidDelimiterRenamesNothing | ai-rename-images.py:73-74 | an invalid delimiter fails every file, with ValueError once the reply decodes |
| Batch.NewNameAfterSubstitution | ai-rename-images.py:99-104 | a file's outcome is the same whether the global was substituted before or not |
| Batch.OutcomesAt | ai-rename-images.py:193-231 | the per-file outcomes are one per file, each depending on its own file only |
| Batch.Renamer.constructor | ai-rename-images.py:25 | the global starts as the template with its placeholders |
| Batch.Renamer.GenerateKeywords | ai-rename-images.py:98-186 | the global becomes its substitution, and the reply is the model's answer to `PromptFor` of it |
| Batch.Renamer.ProcessImage | ai-rename-images.py:195-224 | one file yields `NewName` of the global as it was, and the global becomes its substitution |
| Batch.Renamer.ProcessImages | ai-rename-images.py:192-231 | every file gets its own outcome, as if each saw the global fresh; the global is substituted once there is a file |
| Batch.Renamer.Run | ai-rename-images.py:373-404 | `main` ends as `RunOutcome` says; the global changes only when files are processed |
| Batch.CollectImages | ai-rename-images.py:392-397 | the listing loop collects exactly `JpegNames`, in listing order |
| Batch.JpegNames | ai-rename-images.py:392-397 | the collected names are no more than the entries, and each is a JPEG name |
| Batch.IsJpegName | ai-rename-images.py:394 | a JPEG name has a dot four or five characters from its end, whatever the case of its letters |
| Batch.JpegNamesMembership | ai-rename-images.py:393-395 | a name is collected exactly when it is listed and its lower-cased form ends in ".jpeg" or ".jpg" |
| Batch.JpegNamesAppend | ai-rename-images.py:393-395 | collecting from two listings in turn collects from each in turn |
| Batch.JpegNameIgnoresCase | ai-rename-images.py:394 | names equal up to case are collected alike |
| Batch.JpegSuffix | ai-rename-images.py:224 | a collected file keeps ".jpg"/".jpeg" (up to case) as its suffix, unless its whole name is that extension, which has no suffix |
| Batch.RunOutcome | ai-rename-images.py:373-404 | `main` stops before listing or processing exactly when both `--override` and `--prompt` are given; processing needs the directory and a JPEG in it |
| Batch.ProcessedAreJpegs | ai-rename-images.py:392-404 | when processing happens, the processed files are exactly the listed JPEG names, each with its own outcome |
| Legacy.KeywordsToStringWithDelimiter | rename-images.py:48-66 | ValueError exactly for a delimiter outside "_", "-", " ", whatever the keywords, and no other error |
| Legacy.CleanedKeywords | rename-images.py:61-65 | the cleaned list is no longer than the keywords, and as long when no keyword holds a digit |
| Legacy.DigitFree | rename-images.py:63-64 | the digit filter returns no more keywords than it is given, and none holds a digit |
| Legacy.CleanedKeywordsAt | rename-images.py:61-65 | the cleaned list is the digit-free keywords, each with its spaces replaced |
| Legacy.DigitFreeMembership | rename-images.py:63-64 | a keyword survives exactly when it is an input keyword without a digit |
| Legacy.DigitFreeAppend | rename-images.py:61-65 | the filter keeps input order: it distributes over concatenation |
| Legacy.SpacesBecomeDelimiter | rename-images.py:62 | each survivor keeps its length; every space becomes the delimiter; every other character stays |
| Legacy.LegacyNameHasNoDigit | rename-images.py:61-66 | no digit reaches the name |
| Legacy.LegacyCount | rename-images.py:66 | the name joins `min(number_of_words, digit-free keywords)` entries |
| Legacy.AllDigitKeywordsGiveEmptyName | rename-images.py:61-66 | when every keyword holds a digit the name is the empty string |
| Legacy.LegacySubstituteText | rename-images.py:20-22 | both `{number_of_words}` become `str(n)`; the schema's braces stay |
| Legacy.SchemaUntouched | rename-images.py:21-22 | the text after the last placeholder is left alone by the substitution |
| Legacy.LegacySubstitute | rename-images.py:99-101 | the substituted template holds no `{number_of_words}` |
| Legacy.LegacyPrompt | rename-images.py:104-106 | the extra text starts the prompt and the substituted template follows with no space |
| Legacy.GenerateKeywordsAsWritten | rename-images.py:94-101 | as written, `generate_keywords` raises NameError whatever its arguments |
| Legacy.GenerateKeywords | rename-images.py:94-123 | with the intended prompt, `generate_keywords` fails exactly when the model call fails, with that exception |
| Legacy.AsWrittenRenamesNothing | rename-images.py:99 | as written, every entry but `.DS_Store` fails with NameError |
| Legacy.StoreFileSkipped | rename-images.py:132-133 | a `.DS_Store` entry is skipped before anything happens, in either version |
| Legacy.ProcessWith | rename-images.py:130-155 | an entry is skipped exactly when it is `.DS_Store`; a new name ends with the old name's suffix |
| Legacy.ProcessFileAsWritten | rename-images.py:130-155 | as written, an entry is skipped exactly when it is `.DS_Store`, and every other entry fails |
| Legacy.ProcessFile | rename-images.py:130-155 | with the intended prompt, an entry is skipped exactly when it is `.DS_Store`; a file fails only in the model call, the decoding or the delimiter check; a new name keeps the suffix |
| Legacy.CorrectedRenames | rename-images.py:104-106 | with the intended prompt, a file whose reply decodes is renamed to the keyword name plus its suffix |

## Left out

- The per-image Ollama call is a given function of prompt and file. Reading and
  base64-encoding the image is left out, and so is its failure.
- The conversation reset in `main` (ai-rename-images.py:380-390) and the `--keep` option
  that skips it are not modelled. A failing reset raises and ends `main` after the
  directory check and before the listing; `Batch.RunOutcome` assumes the reset succeeds.
- `json.loads` and the pydantic validation are a given function from the cleaned reply to
  an optional keyword list.
- exiftool's output lines and Pillow's tag rendering `f"{tag}: {data};"` are total given
  functions. Their failures are not modelled: exiftool missing when `Popen` starts it
  (ai-rename-images.py:122), `Image.open` or `data.decode()` raising (ai-rename-images.py:147-153),
  and a failing import of pandas, lat_lon_parser or geopy (ai-rename-images.py:128-129, 136).
  Only the filtering of exiftool's lines is modelled.
- `lat_lon_parser.parse` and `Nominatim.reverse(...).address` are given functions whose
  `None` stands for the exception they raise; the model keeps the order in which the script
  calls them.
- `str(metadata_text)`, the Python list rendering, is a given function.
- `os.path.getmtime` with `datetime.fromtimestamp` is a given function to a local calendar
  date. Years outside 1000..9999 are excluded, because the padding of `%Y` there depends
  on the platform.
- Text.IsDigit: only ASCII digits count. Python's `isdigit` also accepts other Unicode
  digits, so `Legacy.LegacyNameHasNoDigit` covers only ASCII digits.
- Text.LowerChar, Text.UpperChar: case mapping is ASCII only. Python maps all of
  Unicode.
- argparse's own checks are not modelled. `choices=["_", "-", " "]`
  (ai-rename-images.py:252, rename-images.py:177) rejects any other delimiter, and
  `type=int` (ai-rename-images.py:281, rename-images.py:191) rejects a count that is not an
  integer, when the options are parsed and before `main` runs. The model takes the options
  as given, so every delimiter reaches the per-file check.
- logging, tqdm and `print`: output only.
- `Path.iterdir` is a given listing. Its order is whatever the operating system returns.
- `file.rename`: the model computes the new name only. The directory path joined to it
  (ai-rename-images.py:224) and rename collisions are left out.
- `convert_files_to_jpeg` (rename-images.py:86-87) returns an undefined name and has no
  logic.
- rename-images.py's `main` and the loop of its `process_images` are I/O drivers. One
  iteration is modelled (`Legacy.ProcessFile`); the loop is not.

## Findings

| source | as written | input that shows it | evidently intended | confidence | as-written member | corrected member |
|---|---|---|---|---|---|---|
| rename-images.py:99 | `original_prompt = f("...")` calls an undefined `f`, so `generate_keywords` raises NameError for every file; `process_images` logs it and renames nothing | any directory with a file other than `.DS_Store` | the template with `{number_of_words}` replaced by `str(number_of_words)`, prefixed by the extra prompt (an f-string would also need the schema braces doubled) | high, not executed | Legacy.AsWrittenRenamesNothing | Legacy.CorrectedRenames |
