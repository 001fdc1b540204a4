/** The driver of ai-rename-images.py: the module-global `original_prompt` that every call
    of `generate_keywords` rewrites, the per-image pipeline of `process_images`, and the
    checks and the image listing of `main`. */
module Batch {
  import opened Errors
  import opened Text
  import opened Options
  import opened Host
  import opened Reply
  import opened Naming
  import opened Prompt

  // ---------------------------------------------------------------------------------
  // One image

  /** What `generate_keywords` returns when the global template reads `template` before the
      call. Without `--metadata` only the model call can fail; with it, the geocoding of the
      exiftool branch can fail too. */
  function Response(template: string, file: string, args: Args, env: Env): (r: Result<string>)
    ensures r.Err? ==> r.error == ModelCallFailed || (args.metadata && GeoFailure(r.error))
  {
    var prompt :- PromptFor(Substitute(template, args.number), file, args, env);
    Answer(env.chat(prompt, file))
  }

  /** The name `process_images` gives `file`, or the exception it catches and logs for it. A
      renamed image ends with the suffix of its old name, an image whose model call fails
      fails with the same exception, and an image is renamed exactly when the reply arrives,
      decodes and yields a keyword name. */
  function NewName(template: string, file: string, args: Args, env: Env): (r: Result<string>)
    ensures Response(template, file, args, env).Err? ==> r == Err(Response(template, file, args, env).error)
    ensures r.Ok? ==> EndsWith(r.value, Suffix(file))
    ensures var response := Response(template, file, args, env);
      r.Ok? <==> response.Ok? && env.decode(StripFences(response.value)).Some?
                 && KeywordsName(env.decode(StripFences(response.value)).value, args.delimiter, args.number).Ok?
  {
    Rename(Response(template, file, args, env), file, args, env)
  }

  /** The part of `process_images` after `generate_keywords` has returned `response`. The
      image fails exactly when the response, the decoding or the keyword name fails, with
      that stage's exception; otherwise it is renamed to the decorated keyword name followed
      by its old suffix. */
  function Rename(response: Result<string>, file: string, args: Args, env: Env): (r: Result<string>)
    ensures response.Err? ==> r == Err(response.error)
    ensures r.Ok? ==> EndsWith(r.value, Suffix(file))
    ensures response.Ok? ==>
      var decoded := env.decode(StripFences(response.value));
      (decoded.None? ==> r == Err(MalformedReply))
      && (decoded.Some? ==>
        var name := KeywordsName(decoded.value, args.delimiter, args.number);
        var date := env.mtime(file);
        (name.Err? ==> r == Err(name.error))
        && (name.Ok? ==> r == Ok(Lead(args, date) + name.value + Tail(args, date) + Suffix(file))))
  {
    var reply :- response;
    var keywords :- Decoded(env.decode(StripFences(reply)));
    var name :- KeywordsName(keywords, args.delimiter, args.number);
    assert ValidDelimiter(args.delimiter);
    var head := Lead(args, env.mtime(file)) + name + Tail(args, env.mtime(file));
    PrefixSuffix(head, "", Suffix(file));
    assert head + "" == head;
    Ok(head + Suffix(file))
  }

  /** A renamed image keeps its suffix, the keyword name sits between the decorations, and the
      decorations are those of the options. */
  lemma NewNameParts(template: string, file: string, args: Args, env: Env)
    requires NewName(template, file, args, env).Ok?
    ensures ValidDelimiter(args.delimiter)
    ensures var reply := Response(template, file, args, env).value;
      var keywords := env.decode(StripFences(reply)).value;
      var date := env.mtime(file);
      NewName(template, file, args, env).value
        == Lead(args, date) + KeywordsName(keywords, args.delimiter, args.number).value + Tail(args, date) + Suffix(file)
  {
    var response := Response(template, file, args, env);
    assert response.Ok?;
    var decoded := Decoded(env.decode(StripFences(response.value)));
    assert decoded.Ok?;
    var name := KeywordsName(decoded.value, args.delimiter, args.number);
    assert name.Ok?;
    var date := env.mtime(file);
    assert Rename(response, file, args, env).value == Lead(args, date) + name.value + Tail(args, date) + Suffix(file);
  }

  /** Whatever fails in building the prompt fails the image with the same exception. */
  lemma PromptFailureFailsImage(template: string, file: string, args: Args, env: Env)
    requires PromptFor(Substitute(template, args.number), file, args, env).Err?
    ensures NewName(template, file, args, env) == Err(PromptFor(Substitute(template, args.number), file, args, env).error)
  {
  }

  /** A delimiter outside "_", "-", " " renames nothing: the image fails either earlier or with
      the ValueError. */
  lemma InvalidDelimiterRenamesNothing(template: string, file: string, args: Args, env: Env)
    requires !ValidDelimiter(args.delimiter)
    ensures NewName(template, file, args, env).Err?
    ensures Response(template, file, args, env).Ok? && env.decode(StripFences(Response(template, file, args, env).value)).Some?
      ==> NewName(template, file, args, env) == Err(InvalidDelimiter)
  {
  }

  /** Once the global template has been substituted, substituting again changes nothing, so
      every image after the first sees the same prompt the first one saw. */
  lemma NewNameAfterSubstitution(template: string, file: string, args: Args, env: Env)
    ensures NewName(Substitute(template, args.number), file, args, env) == NewName(template, file, args, env)
  {
    SubstituteIdempotent(template, args.number, args.number);
    assert Response(Substitute(template, args.number), file, args, env) == Response(template, file, args, env);
  }

  /** The outcome of each file of `process_images`, in order. */
  function NewNames(template: string, files: seq<string>, args: Args, env: Env): seq<Result<string>> {
    Outcomes(file => NewName(template, file, args, env), files)
  }

  /** One more file adds its own outcome at the end. */
  lemma NewNamesStep(template: string, files: seq<string>, i: int, args: Args, env: Env)
    requires 0 <= i < |files|
    ensures NewNames(template, files[..i + 1], args, env)
      == NewNames(template, files[..i], args, env) + [NewName(template, files[i], args, env)]
  {
    assert files[..i + 1][..i] == files[..i];
  }

  /** `process` applied to every file, in order. */
  function Outcomes(process: string -> Result<string>, files: seq<string>): seq<Result<string>> {
    if files == [] then []
    else Outcomes(process, files[..|files| - 1]) + [process(files[|files| - 1])]
  }

  /** Each file's outcome depends on that file alone: one failing file does not affect the others. */
  lemma {:induction false} OutcomesAt(process: string -> Result<string>, files: seq<string>)
    ensures |Outcomes(process, files)| == |files|
    ensures forall i :: 0 <= i < |files| ==> Outcomes(process, files)[i] == process(files[i])
    decreases |files|
  {
    if files != [] {
      var init := files[..|files| - 1];
      OutcomesAt(process, init);
      forall i | 0 <= i < |init| ensures init[i] == files[i] {
      }
    }
  }

  // ---------------------------------------------------------------------------------
  // The global template and the processing loop

  /** The script's module state: the global `original_prompt`. */
  class Renamer {
    var originalPrompt: string

    /** The module is loaded with the template still holding its placeholders. */
    constructor()
      ensures originalPrompt == OriginalPrompt
    {
      originalPrompt := OriginalPrompt;
    }

    /** `generate_keywords`: rewrites the global template, builds the prompt and asks the model. */
    method GenerateKeywords(file: string, args: Args, env: Env) returns (r: Result<string>)
      modifies this
      ensures originalPrompt == Substitute(old(originalPrompt), args.number)
      ensures r == Response(old(originalPrompt), file, args, env)
    {
      originalPrompt := Substitute(originalPrompt, args.number);
      var prompt := BuildPrompt(originalPrompt, file, args, env);
      if prompt.Err? {
        return Err(prompt.error);
      }
      r := Answer(env.chat(prompt.value, file));
    }

    /** The body of the `try` in `process_images` for one file; the name it renames the file to. */
    method ProcessImage(file: string, args: Args, env: Env) returns (r: Result<string>)
      modifies this
      ensures originalPrompt == Substitute(old(originalPrompt), args.number)
      ensures r == NewName(old(originalPrompt), file, args, env)
    {
      var response := GenerateKeywords(file, args, env);
      if response.Err? {
        return Err(response.error);
      }
      var content := StripFences(response.value);
      var keywords := env.decode(content);
      if keywords.None? {
        return Err(MalformedReply);
      }
      var newName := KeywordsToStringWithDelimiter(keywords.value, args);
      if newName.Err? {
        return Err(newName.error);
      }
      assert ValidDelimiter(args.delimiter);
      var decorated := DecorateName(newName.value, args, env.mtime(file));
      r := Ok(decorated + Suffix(file));
    }

    /** `process_images`: every file is processed, a failure is logged and the loop goes on. */
    method ProcessImages(files: seq<string>, args: Args, env: Env) returns (results: seq<Result<string>>)
      modifies this
      ensures results == NewNames(old(originalPrompt), files, args, env)
      ensures originalPrompt == if files == [] then old(originalPrompt) else Substitute(old(originalPrompt), args.number)
    {
      ghost var template := originalPrompt;
      results := [];
      var i := 0;
      while i < |files|
        invariant 0 <= i <= |files|
        invariant results == NewNames(template, files[..i], args, env)
        invariant originalPrompt == if i == 0 then template else Substitute(template, args.number)
      {
        var r := ProcessImage(files[i], args, env);
        assert r == NewName(template, files[i], args, env) && originalPrompt == Substitute(template, args.number) by {
          if i > 0 {
            NewNameAfterSubstitution(template, files[i], args, env);
            SubstituteIdempotent(template, args.number, args.number);
          }
        }
        NewNamesStep(template, files, i, args, env);
        results := results + [r];
        i := i + 1;
      }
      assert files[..i] == files;
    }

    /** `main` after the options are parsed: the option conflict, the directory check, the
        image listing and the processing. */
    method Run(directoryExists: bool, entries: seq<string>, args: Args, env: Env) returns (out: Outcome)
      modifies this
      ensures out == RunOutcome(old(originalPrompt), directoryExists, entries, args, env)
      ensures originalPrompt == if out.Processed? then Substitute(old(originalPrompt), args.number) else old(originalPrompt)
    {
      if args.override != "" && args.prompt != "" {
        return Conflict;
      }
      if !directoryExists {
        return DirectoryMissing;
      }
      var images := CollectImages(entries);
      if images == [] {
        return NoImages;
      }
      var results := ProcessImages(images, args, env);
      out := Processed(images, results);
    }
  }

  // ---------------------------------------------------------------------------------
  // main

  /** `file.name.lower().endswith('.jpeg') or file.name.lower().endswith('.jpg')`: the name
      has a dot four or five characters from its end, whatever the case of the letters. */
  predicate IsJpegName(name: string)
    ensures IsJpegName(name) ==> (|name| >= 4 && name[|name| - 4] == '.') || (|name| >= 5 && name[|name| - 5] == '.')
  {
    JpegExtensionDot(name);
    JpgExtensionDot(name);
    EndsWith(Lower(name), ".jpeg") || EndsWith(Lower(name), ".jpg")
  }

  /** The dot that starts a ".jpeg" ending, in either case. */
  lemma JpegExtensionDot(name: string)
    ensures EndsWith(Lower(name), ".jpeg") ==> |name| >= 5 && name[|name| - 5] == '.'
  {
    if EndsWith(Lower(name), ".jpeg") {
      ExtensionDot(name, ".jpeg");
    }
  }

  /** The dot that starts a ".jpg" ending, in either case. */
  lemma JpgExtensionDot(name: string)
    ensures EndsWith(Lower(name), ".jpg") ==> |name| >= 4 && name[|name| - 4] == '.'
  {
    if EndsWith(Lower(name), ".jpg") {
      ExtensionDot(name, ".jpg");
    }
  }

  /** The directory entries `main` collects, in listing order. */
  function JpegNames(entries: seq<string>): (r: seq<string>)
    ensures |r| <= |entries|
    ensures forall i :: 0 <= i < |r| ==> IsJpegName(r[i])
  {
    if entries == [] then []
    else
      var last := entries[|entries| - 1];
      JpegNames(entries[..|entries| - 1]) + (if IsJpegName(last) then [last] else [])
  }

  /** The listing loop of `main`. */
  method CollectImages(entries: seq<string>) returns (images: seq<string>)
    ensures images == JpegNames(entries)
  {
    images := [];
    var i := 0;
    while i < |entries|
      invariant 0 <= i <= |entries|
      invariant images == JpegNames(entries[..i])
    {
      assert entries[..i + 1][..i] == entries[..i];
      if IsJpegName(entries[i]) {
        images := images + [entries[i]];
      }
      i := i + 1;
    }
    assert entries[..i] == entries;
  }

  /** Exactly the JPEG names of the listing are collected. */
  lemma {:induction false} JpegNamesMembership(entries: seq<string>, name: string)
    ensures name in JpegNames(entries) <==> name in entries && IsJpegName(name)
    decreases |entries|
  {
    if entries != [] {
      var init := entries[..|entries| - 1];
      JpegNamesMembership(init, name);
      assert entries == init + [entries[|entries| - 1]];
    }
  }

  /** Collecting from two listings one after the other collects from each in turn. */
  lemma {:induction false} JpegNamesAppend(a: seq<string>, b: seq<string>)
    ensures JpegNames(a + b) == JpegNames(a) + JpegNames(b)
    decreases |b|
  {
    if b == [] {
      assert a + b == a;
    } else {
      var init, last := b[..|b| - 1], b[|b| - 1];
      JpegNamesAppend(a, init);
      assert (a + b)[..|a + b| - 1] == a + init;
      assert (a + b)[|a + b| - 1] == last;
      var tail := if IsJpegName(last) then [last] else [];
      assert JpegNames(a + b) == JpegNames(a) + JpegNames(init) + tail;
      assert JpegNames(b) == JpegNames(init) + tail;
    }
  }

  /** Case does not matter to the filter. */
  lemma JpegNameIgnoresCase(a: string, b: string)
    requires Lower(a) == Lower(b)
    ensures IsJpegName(a) <==> IsJpegName(b)
  {
  }

  /** The last dot of a collected name is the one that starts its ".jpg" or ".jpeg". */
  lemma JpegDot(name: string) returns (w: nat)
    requires IsJpegName(name)
    ensures (w == 4 || w == 5) && w <= |name| && LastDot(name) == |name| - w
    ensures Lower(name)[|name| - w..] == ".jpg" || Lower(name)[|name| - w..] == ".jpeg"
  {
    var ext := if EndsWith(Lower(name), ".jpeg") then ".jpeg" else ".jpg";
    assert ext[0] == '.' && forall k :: 0 < k < |ext| ==> ext[k] != '.';
    ExtensionDot(name, ext);
    w := |ext|;
    LastDotIs(name, |name| - w);
  }

  /** A name whose lower-cased form ends in an extension with a single, leading dot has that
      dot at the extension's start and none after it. */
  lemma ExtensionDot(name: string, ext: string)
    requires ext != [] && ext[0] == '.' && forall k :: 0 < k < |ext| ==> ext[k] != '.'
    requires EndsWith(Lower(name), ext)
    ensures name[|name| - |ext|] == '.'
    ensures forall j :: |name| - |ext| < j < |name| ==> name[j] != '.'
  {
    var n, w := |name|, |ext|;
    assert Lower(name)[n - w..] == ext;
    assert LowerChar(name[n - w]) == ext[0];
    forall j | n - w < j < n ensures name[j] != '.' {
      assert LowerChar(name[j]) == Lower(name)[n - w..][j - (n - w)];
    }
  }

  lemma LastDotIs(name: string, i: int)
    requires 0 <= i < |name| && name[i] == '.'
    requires forall j :: i < j < |name| ==> name[j] != '.'
    ensures LastDot(name) == i
  {
    var k := LastDot(name);
    assert k >= i;
  }

  /** A collected image keeps its JPEG extension in its new name, unless its whole name is the
      extension, in which case `Path.suffix` is empty. */
  lemma JpegSuffix(name: string)
    requires IsJpegName(name)
    ensures Lower(name) == ".jpg" || Lower(name) == ".jpeg" ==> Suffix(name) == ""
    ensures Lower(name) != ".jpg" && Lower(name) != ".jpeg"
      ==> Lower(Suffix(name)) == ".jpg" || Lower(Suffix(name)) == ".jpeg"
  {
    if Lower(name) != ".jpg" && Lower(name) != ".jpeg" {
      JpegKeepsExtension(name);
    } else {
      JpegWholeName(name);
    }
  }

  lemma JpegKeepsExtension(name: string)
    requires IsJpegName(name) && Lower(name) != ".jpg" && Lower(name) != ".jpeg"
    ensures Lower(Suffix(name)) == ".jpg" || Lower(Suffix(name)) == ".jpeg"
  {
    var w := JpegDot(name);
    var n := |name|;
    assert n != w by {
      assert Lower(name)[0..] == Lower(name);
    }
    assert Suffix(name) == name[n - w..];
    LowerSlice(name, n - w);
  }

  lemma JpegWholeName(name: string)
    requires Lower(name) == ".jpg" || Lower(name) == ".jpeg"
    ensures Suffix(name) == ""
  {
    var ext := Lower(name);
    assert ext[0] == '.' && forall j :: 0 < j < |ext| ==> ext[j] != '.';
    forall j | 0 < j < |name| ensures name[j] != '.' {
      assert LowerChar(name[j]) == ext[j];
    }
    assert LowerChar(name[0]) == '.';
    assert LastDot(name) == 0;
  }

  /** What `main` ends in. */
  datatype Outcome =
    | Conflict                                          // --override together with --prompt
    | DirectoryMissing                                  // FileNotFoundError
    | NoImages                                          // the warning that nothing was found
    | Processed(images: seq<string>, results: seq<Result<string>>)

  /** `main` for a listing and the global template as it reads when `main` starts. Asking for
      both `--override` and `--prompt` stops `main` before anything is listed or processed,
      and nothing else does; processing needs the directory and an image in it. */
  function RunOutcome(template: string, directoryExists: bool, entries: seq<string>, args: Args, env: Env): (r: Outcome)
    ensures r == Conflict <==> args.override != "" && args.prompt != ""
    ensures r.Processed? ==> directoryExists && r.images != []
  {
    if args.override != "" && args.prompt != "" then Conflict
    else if !directoryExists then DirectoryMissing
    else
      var images := JpegNames(entries);
      if images == [] then NoImages
      else Processed(images, NewNames(template, images, args, env))
  }

  /** Processing reaches exactly the JPEG files of the listing, each with its own outcome. */
  lemma ProcessedAreJpegs(template: string, directoryExists: bool, entries: seq<string>, args: Args, env: Env)
    requires RunOutcome(template, directoryExists, entries, args, env).Processed?
    ensures var out := RunOutcome(template, directoryExists, entries, args, env);
      |out.results| == |out.images| > 0
      && (forall f :: f in out.images <==> f in entries && IsJpegName(f))
      && forall i :: 0 <= i < |out.images| ==> out.results[i] == NewName(template, out.images[i], args, env)
  {
    var images := JpegNames(entries);
    assert RunOutcome(template, directoryExists, entries, args, env) == Processed(images, NewNames(template, images, args, env));
    forall f ensures f in images <==> f in entries && IsJpegName(f) {
      JpegNamesMembership(entries, f);
    }
    OutcomesAt(file => NewName(template, file, args, env), images);
  }
}
