/** rename-images.py, the older script: keywords holding a digit are dropped, spaces inside a
    keyword become the delimiter, the prompt is the extra text followed by the template, and
    a macOS `.DS_Store` entry is skipped. */
module Legacy {
  import opened Errors
  import opened Text
  import opened Numerals
  import opened Options
  import opened Host
  import opened Reply

  const WordsPlaceholder := "{number_of_words}"
  const LegacyOpening := "Describe the image in "
  const LegacyMiddle := " simple keywords, never use more than "
  const LegacyWords := " words. "
  const OutputRequest := "Output in JSON format. "
  const SchemaIntro := "Use the following schema: "
  const LegacyClosing := LegacyWords + OutputRequest + SchemaIntro
  const Schema := "{ keywords: List[str] }."

  /** The global `original_prompt` of rename-images.py, spelled around its placeholders. */
  const LegacyEnding := LegacyClosing + Schema
  const LegacyTemplate := LegacyOpening + WordsPlaceholder + LegacyMiddle + WordsPlaceholder + LegacyEnding

  const SkippedName := ".DS_Store"

  // ---------------------------------------------------------------------------------
  // keywords_to_string_with_delimiter

  /** The keywords without any digit, in order: the filter of the list comprehension. No
      more come out than go in, and none that comes out holds a digit. */
  function DigitFree(keywords: seq<string>): (r: seq<string>)
    ensures |r| <= |keywords|
    ensures forall i :: 0 <= i < |r| ==> NoDigit(r[i])
  {
    if keywords == [] then []
    else (if NoDigit(keywords[0]) then [keywords[0]] else []) + DigitFree(keywords[1..])
  }

  /** `[keyword.replace(" ", delimiter) for keyword in keywords if not any(c.isdigit() ...)]` */
  function CleanedKeywords(keywords: seq<string>, delimiter: string): (r: seq<string>)
    ensures |r| <= |keywords|
    ensures (forall i :: 0 <= i < |keywords| ==> NoDigit(keywords[i])) ==> |r| == |keywords|
  {
    if keywords == [] then []
    else
      (if NoDigit(keywords[0]) then [ReplaceAll(keywords[0], " ", delimiter)] else [])
      + CleanedKeywords(keywords[1..], delimiter)
  }

  /** `ImageClassification.keywords_to_string_with_delimiter(delimiter, number_of_words)`. The
      ValueError is raised exactly for a delimiter outside "_", "-", " ", whatever the keywords. */
  function KeywordsToStringWithDelimiter(keywords: seq<string>, delimiter: string, numberOfWords: int): (r: Result<string>)
    ensures r.Err? <==> !ValidDelimiter(delimiter)
    ensures r.Err? ==> r.error == InvalidDelimiter
  {
    if !ValidDelimiter(delimiter) then Err(InvalidDelimiter)
    else Ok(Join(delimiter, TakePy(CleanedKeywords(keywords, delimiter), numberOfWords)))
  }

  /** The cleaned list is the digit-free keywords, each with its spaces replaced. */
  lemma {:induction false} CleanedKeywordsAt(keywords: seq<string>, delimiter: string)
    ensures |CleanedKeywords(keywords, delimiter)| == |DigitFree(keywords)|
    ensures forall i :: 0 <= i < |DigitFree(keywords)| ==>
      CleanedKeywords(keywords, delimiter)[i] == ReplaceAll(DigitFree(keywords)[i], " ", delimiter)
    decreases |keywords|
  {
    if keywords != [] {
      var k := keywords[0];
      assert CleanedKeywords(keywords, delimiter)
        == (if NoDigit(k) then [ReplaceAll(k, " ", delimiter)] else []) + CleanedKeywords(keywords[1..], delimiter);
      assert DigitFree(keywords) == (if NoDigit(k) then [k] else []) + DigitFree(keywords[1..]);
      CleanedKeywordsAt(keywords[1..], delimiter);
    }
  }

  /** A keyword survives exactly when it is one of the input keywords and holds no digit. */
  lemma {:induction false} DigitFreeMembership(keywords: seq<string>, k: string)
    ensures k in DigitFree(keywords) <==> k in keywords && NoDigit(k)
    decreases |keywords|
  {
    if keywords != [] {
      DigitFreeMembership(keywords[1..], k);
      assert keywords == [keywords[0]] + keywords[1..];
    }
  }

  /** Filtering keeps the order of the keywords: it distributes over concatenation. */
  lemma {:induction false} DigitFreeAppend(a: seq<string>, b: seq<string>)
    ensures DigitFree(a + b) == DigitFree(a) + DigitFree(b)
    decreases |a|
  {
    if a == [] {
      assert a + b == b;
    } else {
      var head := if NoDigit(a[0]) then [a[0]] else [];
      assert (a + b)[0] == a[0] && (a + b)[1..] == a[1..] + b;
      assert DigitFree(a + b) == head + DigitFree(a[1..] + b);
      DigitFreeAppend(a[1..], b);
    }
  }

  /** Each surviving keyword keeps its length; each of its spaces becomes the delimiter and every
      other character stays, so a run of spaces becomes as many delimiters. */
  lemma SpacesBecomeDelimiter(keywords: seq<string>, delimiter: string)
    requires ValidDelimiter(delimiter)
    ensures var cleaned, kept := CleanedKeywords(keywords, delimiter), DigitFree(keywords);
      |cleaned| == |kept|
      && forall i :: 0 <= i < |kept| ==>
        (|cleaned[i]| == |kept[i]|
         && forall j :: 0 <= j < |kept[i]| ==> cleaned[i][j] == if kept[i][j] == ' ' then delimiter[0] else kept[i][j])
  {
    CleanedKeywordsAt(keywords, delimiter);
    var kept := DigitFree(keywords);
    assert delimiter == [delimiter[0]];
    forall i | 0 <= i < |kept|
      ensures ReplaceAll(kept[i], " ", delimiter) == ReplaceAll(kept[i], [' '], [delimiter[0]])
    {
    }
    forall i | 0 <= i < |kept| {
      ReplaceCharAt(kept[i], ' ', delimiter[0]);
    }
  }

  /** No digit ever reaches the new name. */
  lemma LegacyNameHasNoDigit(keywords: seq<string>, delimiter: string, numberOfWords: int)
    requires KeywordsToStringWithDelimiter(keywords, delimiter, numberOfWords).Ok?
    ensures NoDigit(KeywordsToStringWithDelimiter(keywords, delimiter, numberOfWords).value)
  {
    SpacesBecomeDelimiter(keywords, delimiter);
    var cleaned, kept := CleanedKeywords(keywords, delimiter), DigitFree(keywords);
    var taken := TakePy(cleaned, numberOfWords);
    forall i | 0 <= i < |kept| ensures NoDigit(kept[i]) {
      DigitFreeMembership(keywords, kept[i]);
    }
    var p := (c: char) => !IsDigit(c);
    forall i, k | 0 <= i < |taken| && 0 <= k < |taken[i]| ensures p(taken[i][k]) {
      assert taken[i] == cleaned[i];
      assert !IsDigit(kept[i][k]);
    }
    JoinKeeps(delimiter, taken, p);
  }

  /** The name joins the first `number_of_words` surviving keywords, or all of them when fewer
      survive. */
  lemma LegacyCount(keywords: seq<string>, delimiter: string, numberOfWords: int)
    requires numberOfWords >= 0
    ensures var taken := TakePy(CleanedKeywords(keywords, delimiter), numberOfWords);
      var n := |DigitFree(keywords)|;
      |taken| == (if numberOfWords <= n then numberOfWords else n)
  {
    CleanedKeywordsAt(keywords, delimiter);
  }

  /** When every keyword holds a digit the name is empty; nothing reports it, and the file is
      renamed to its suffix alone. */
  lemma AllDigitKeywordsGiveEmptyName(keywords: seq<string>, delimiter: string, numberOfWords: int)
    requires ValidDelimiter(delimiter)
    requires forall i :: 0 <= i < |keywords| ==> !NoDigit(keywords[i])
    ensures KeywordsToStringWithDelimiter(keywords, delimiter, numberOfWords) == Ok("")
  {
    CleanedKeywordsAt(keywords, delimiter);
    if DigitFree(keywords) != [] {
      DigitFreeMembership(keywords, DigitFree(keywords)[0]);
    }
  }

  // ---------------------------------------------------------------------------------
  // The prompt and one file

  /** The template with `str(number_of_words)` in both places: no placeholder is left. */
  function LegacySubstitute(numberOfWords: int): (r: string)
    ensures !Occurs(r, WordsPlaceholder)
  {
    NumberFitsBraced(numberOfWords, WordsPlaceholder);
    ReplaceAllRemoves(LegacyTemplate, WordsPlaceholder, IntToString(numberOfWords));
    ReplaceAll(LegacyTemplate, WordsPlaceholder, IntToString(numberOfWords))
  }

  /** Both placeholders are replaced and the schema's braces are left alone. */
  lemma LegacySubstituteText(numberOfWords: int)
    ensures var s := IntToString(numberOfWords);
      LegacySubstitute(numberOfWords) == LegacyOpening + s + LegacyMiddle + s + LegacyEnding
  {
    var a, b, c := LegacyOpening, LegacyMiddle, LegacyEnding;
    var rep := IntToString(numberOfWords);
    assert LegacySubstitute(numberOfWords) == a + (rep + (b + (rep + c))) by {
      GroupRight(a, WordsPlaceholder, b, WordsPlaceholder, c);
      SchemaUntouched(rep);
      LegacyTextHasNoBrace();
      ReplaceTwo(a, b, c, WordsPlaceholder, rep);
    }
    GroupRight(a, rep, b, rep, c);
  }

  /** The text around the placeholders holds no brace. */
  lemma LegacyTextHasNoBrace()
    ensures '{' !in LegacyOpening && '{' !in LegacyMiddle
  {
  }

  /** The text after the last placeholder holds no brace before the schema. */
  lemma LegacyClosingHasNoBrace()
    ensures '{' !in LegacyClosing
  {
    assert '{' !in LegacyWords && '{' !in OutputRequest && '{' !in SchemaIntro;
  }

  /** The schema starts with a brace but not with the placeholder, so replacing leaves it alone,
      and so does the text before it. */
  lemma SchemaUntouched(rep: string)
    ensures ReplaceAll(LegacyEnding, WordsPlaceholder, rep) == LegacyEnding
  {
    assert !StartsWith(Schema, WordsPlaceholder) by {
      assert Schema[..|WordsPlaceholder|][1] == Schema[1] == ' ';
    }
    assert '{' !in Schema[1..];
    ReplaceNoneAfterHead(Schema, WordsPlaceholder, rep);
    LegacyClosingHasNoBrace();
    ReplaceAllPlain(LegacyClosing, Schema, WordsPlaceholder, rep);
  }

  /** The prompt the script evidently means: the extra text, when given, directly followed by
      the substituted template, with no space between. */
  function LegacyPrompt(extraPrompt: string, numberOfWords: int): (r: string)
    ensures StartsWith(r, extraPrompt) && r[|extraPrompt|..] == LegacySubstitute(numberOfWords)
  {
    var prompt := LegacySubstitute(numberOfWords);
    if extraPrompt != "" then extraPrompt + prompt else prompt
  }

  /** `generate_keywords` as written: its first statement after reading the file calls the
      undefined name `f`, so it raises NameError before any prompt exists, whatever the
      options. */
  function GenerateKeywordsAsWritten(extraPrompt: string, numberOfWords: int): (r: Result<string>)
    ensures r.Err? && r.error == UndefinedName
  {
    Err(UndefinedName)
  }

  /** `generate_keywords` with the prompt it evidently means: the model's answer to
      `LegacyPrompt`, failing only when the call fails. */
  function GenerateKeywords(file: string, extraPrompt: string, numberOfWords: int, env: Env): (r: Result<string>)
    ensures r.Err? <==> env.chat(LegacyPrompt(extraPrompt, numberOfWords), file).None?
    ensures r.Err? ==> r.error == ModelCallFailed
  {
    Answer(env.chat(LegacyPrompt(extraPrompt, numberOfWords), file))
  }

  /** One iteration of `process_images` given what `generate_keywords` returned: `None` when the
      entry is skipped, otherwise the new name or the exception logged for the file. */
  function ProcessWith(response: Result<string>, file: string, delimiter: string, numberOfWords: int, env: Env): (r: Option<Result<string>>)
    ensures r.None? <==> file == SkippedName
    ensures r.Some? && r.value.Ok? ==> EndsWith(r.value.value, Suffix(file))
  {
    if file == SkippedName then None
    else Some(
      var reply :- response;
      var keywords :- Decoded(env.decode(StripFences(reply)));
      var name :- KeywordsToStringWithDelimiter(keywords, delimiter, numberOfWords);
      Ok(name + Suffix(file)))
  }

  /** One iteration of `process_images` as written: every entry but `.DS_Store` fails. */
  function ProcessFileAsWritten(file: string, delimiter: string, extraPrompt: string, numberOfWords: int, env: Env): (r: Option<Result<string>>)
    ensures r.None? <==> file == SkippedName
    ensures r.Some? ==> r.value.Err?
  {
    ProcessWith(GenerateKeywordsAsWritten(extraPrompt, numberOfWords), file, delimiter, numberOfWords, env)
  }

  /** One iteration of `process_images` with the prompt evidently meant: `.DS_Store` is
      skipped, a file fails only in the model call, the decoding or the delimiter check, and
      a new name keeps the suffix. */
  function ProcessFile(file: string, delimiter: string, extraPrompt: string, numberOfWords: int, env: Env): (r: Option<Result<string>>)
    ensures r.None? <==> file == SkippedName
    ensures r.Some? && r.value.Err? ==> r.value.error in {ModelCallFailed, MalformedReply, InvalidDelimiter}
    ensures r.Some? && r.value.Ok? ==> EndsWith(r.value.value, Suffix(file))
  {
    ProcessWith(GenerateKeywords(file, extraPrompt, numberOfWords, env), file, delimiter, numberOfWords, env)
  }

  /** As written, the script renames nothing: every entry but `.DS_Store` fails with NameError,
      which the loop catches and logs. */
  lemma AsWrittenRenamesNothing(file: string, delimiter: string, extraPrompt: string, numberOfWords: int, env: Env)
    ensures ProcessFileAsWritten(file, delimiter, extraPrompt, numberOfWords, env)
      == if file == SkippedName then None else Some(Err(UndefinedName))
  {
  }

  /** A `.DS_Store` entry is skipped before anything else happens, in either version. */
  lemma StoreFileSkipped(delimiter: string, extraPrompt: string, numberOfWords: int, env: Env)
    ensures ProcessFile(SkippedName, delimiter, extraPrompt, numberOfWords, env) == None
    ensures ProcessFileAsWritten(SkippedName, delimiter, extraPrompt, numberOfWords, env) == None
  {
  }

  /** With the intended prompt, a file whose reply decodes is renamed to the keyword name
      followed by its suffix. */
  lemma CorrectedRenames(file: string, delimiter: string, extraPrompt: string, numberOfWords: int, env: Env, reply: string, keywords: seq<string>)
    requires file != SkippedName && ValidDelimiter(delimiter)
    requires env.chat(LegacyPrompt(extraPrompt, numberOfWords), file) == Some(reply)
    requires env.decode(StripFences(reply)) == Some(keywords)
    ensures ProcessFile(file, delimiter, extraPrompt, numberOfWords, env)
      == Some(Ok(Join(delimiter, TakePy(CleanedKeywords(keywords, delimiter), numberOfWords)) + Suffix(file)))
    ensures ProcessFileAsWritten(file, delimiter, extraPrompt, numberOfWords, env) == Some(Err(UndefinedName))
  {
  }
}
