/** How `generate_keywords` in ai-rename-images.py assembles the prompt: the `{number}`
    substitution into the global template, the `--prompt`/`--override` precedence, the
    metadata gathered from exiftool or Pillow, the directory and date sentences, and the
    output-format suffix. */
module Prompt {
  import opened Errors
  import opened Text
  import opened Numerals
  import opened Options
  import opened Host

  /** The global `original_prompt`, spelled around its two placeholders. */
  const OriginalPrompt := "Describe the image in " + Placeholder + " simple keywords, never use more than " + Placeholder + " words. "
  const OutputFormat := "Output in JSON format. Use the following schema: { keywords: List[str] }."
  const Placeholder := "{number}"
  /** The list `metadata_filter`; the script only tests membership in it. */
  const MetadataFilter: set<string> := {"Date/Time Original", "Flash", "Make", "Camera Model Name", "Orientation", "GPS Position"}
  const GpsKey := "GPS Position"
  const MetadataIntro := "You might find clues in the image's metadata (which is listed next using a colon separated list): "
  const LocationIntro := "Also, this image was taken in the following location, use this for clues as well: "
  const DirectoryIntro := "Additionally, consider also that this image is saved in a directory named "
  const DateIntro := "Also, consider that this image was created at "

  /** `re.sub(r'{number}', str(n), template)`. The braces do not form a valid repetition,
      so the pattern is the literal text `{number}`, and the replacement has no backslash.
      No placeholder survives the substitution. */
  function Substitute(template: string, n: int): (r: string)
    ensures !Occurs(r, Placeholder)
  {
    NumberFitsBraced(n, Placeholder);
    ReplaceAllRemoves(template, Placeholder, IntToString(n));
    ReplaceAll(template, Placeholder, IntToString(n))
  }

  /** Substituting into the already substituted global changes nothing, whatever the number. */
  lemma SubstituteIdempotent(template: string, n: int, m: int)
    ensures Substitute(Substitute(template, n), m) == Substitute(template, n)
  {
    ReplaceAbsent(Substitute(template, n), Placeholder, IntToString(m));
  }

  /** The text around the template's placeholders holds no brace. */
  lemma TemplateTextHasNoBrace()
    ensures '{' !in "Describe the image in "
    ensures '{' !in " simple keywords, never use more than "
    ensures '{' !in " words. "
  {
  }

  /** The script's template with `n` substituted: both mentions of the count read `str(n)`. */
  lemma SubstituteOriginal(n: int)
    ensures Substitute(OriginalPrompt, n)
      == "Describe the image in " + IntToString(n) + " simple keywords, never use more than "
         + IntToString(n) + " words. "
  {
    var a, b, c := "Describe the image in ", " simple keywords, never use more than ", " words. ";
    var rep := IntToString(n);
    assert Substitute(OriginalPrompt, n) == a + (rep + (b + (rep + c))) by {
      GroupRight(a, Placeholder, b, Placeholder, c);
      TemplateTextHasNoBrace();
      ReplaceNone(c, Placeholder, rep);
      ReplaceTwo(a, b, c, Placeholder, rep);
    }
    GroupRight(a, rep, b, rep, c);
  }

  // ---------------------------------------------------------------------------------
  // Metadata

  /** The metadata list and the location that `generate_keywords` gathers. */
  datatype Metadata = Metadata(entries: seq<string>, location: string)

  /** `line[0].strip()` for `line = tag.strip().split(':')`: stripped, and free of colons. */
  function Key(tag: string): (r: string)
    ensures ':' !in r && IsStripped(r)
  {
    var line := SplitOn(Strip(tag), ':');
    StripKeepsOut(line[0], ':');
    Strip(line[0])
  }

  /** `line[-1].strip()`: the text after the line's last colon, stripped. */
  function LastField(tag: string): (r: string)
    ensures ':' !in r && IsStripped(r)
  {
    var line := SplitOn(Strip(tag), ':');
    StripKeepsOut(line[|line| - 1], ':');
    Strip(line[|line| - 1])
  }

  /** One line of exiftool output, applied to what has been gathered so far. A line whose key
      is not in the filter changes nothing, and only the "GPS Position" line can raise. */
  function ExifLine(m: Metadata, tag: string, geocode: Geocoder): (r: Result<Metadata>)
    ensures Key(tag) !in MetadataFilter ==> r == Ok(m)
    ensures r.Err? ==> Key(tag) == GpsKey && GeoFailure(r.error)
  {
    ExifStep(m, Key(tag), LastField(tag), geocode)
  }

  /** The body of the exiftool loop for a line with the given key and last field: it adds at
      most one entry, keeps the earlier ones, and only the GPS line sets the location (and
      then adds no entry). */
  function ExifStep(m: Metadata, key: string, field: string, geocode: Geocoder): (r: Result<Metadata>)
    ensures r.Ok? ==> |m.entries| <= |r.value.entries| <= |m.entries| + 1 && r.value.entries[..|m.entries|] == m.entries
    ensures r.Ok? && key != GpsKey ==> r.value.location == m.location
    ensures r.Ok? && key == GpsKey ==> r.value.entries == m.entries
    ensures r.Err? ==> key == GpsKey && GeoFailure(r.error)
    ensures key !in MetadataFilter ==> r == Ok(m)
    ensures key in MetadataFilter && key != GpsKey ==> r == Ok(m.(entries := m.entries + [key + ":" + field + "; "]))
    ensures key == GpsKey ==> (r.Ok? <==> Locate(field, geocode).Ok?)
    ensures key == GpsKey && r.Ok? ==> r.value.location == Locate(field, geocode).value
  {
    if key !in MetadataFilter then Ok(m)
    else if key == GpsKey then
      var address :- Locate(field, geocode);
      Ok(m.(location := address))
    else Ok(m.(entries := m.entries + [key + ":" + field + "; "]))
  }

  /** The exceptions the "GPS Position" branch can raise. */
  predicate GeoFailure(e: PyError) {
    e == CoordinateInvalid || e == GpsIndexError || e == GeocodeFailed
  }

  /** The "GPS Position" branch: `a = gps.split(",")`, `parse(a[0])`, then `parse(a[1])`,
      then the address the reverse geocoder finds for "<coord1>, <coord2>". It raises only
      the parser's, the index's or the geocoder's exception, and a value without a comma
      never yields an address. */
  function Locate(gps: string, geocode: Geocoder): (r: Result<string>)
    ensures r.Err? ==> GeoFailure(r.error)
    ensures r.Ok? ==> ',' in gps
  {
    var a := SplitOn(gps, ',');
    SplitNeedsSeparator(gps, ',');
    match geocode.parse(a[0]) {
      case None => Err(CoordinateInvalid)
      case Some(coord1) =>
        if |a| < 2 then Err(GpsIndexError)
        else match geocode.parse(a[1]) {
          case None => Err(CoordinateInvalid)
          case Some(coord2) =>
            match geocode.reverse(coord1 + ", " + coord2) {
              case None => Err(GeocodeFailed)
              case Some(address) => Ok(address)
            }
        }
    }
  }

  /** A position without a comma never yields an address: the first coordinate is parsed
      first, so `a[1]` raises only when that parse succeeds. */
  lemma LocateWithoutComma(gps: string, geocode: Geocoder)
    requires ',' !in gps
    ensures Locate(gps, geocode) == Err(if geocode.parse(gps).None? then CoordinateInvalid else GpsIndexError)
  {
    SplitAbsent(gps, ',');
  }

  /** A position "<lat>,<lon>" yields the address of the two parsed coordinates, and
      fails exactly when a parse or the reverse lookup fails. */
  lemma LocatePair(lat: string, lon: string, geocode: Geocoder)
    requires ',' !in lat && ',' !in lon
    ensures var r := Locate(lat + "," + lon, geocode);
      && (r.Ok? <==> geocode.parse(lat).Some? && geocode.parse(lon).Some?
                     && geocode.reverse(geocode.parse(lat).value + ", " + geocode.parse(lon).value).Some?)
      && (r.Ok? ==> r.value == geocode.reverse(geocode.parse(lat).value + ", " + geocode.parse(lon).value).value)
  {
    assert Join([','], [lat, lon]) == lat + "," + lon;
    SplitJoin([lat, lon], ',');
  }

  /** The "GPS Position" branch of the loop over `process.stdout`. */
  method Geolocate(gps: string, geocode: Geocoder) returns (r: Result<string>)
    ensures r == Locate(gps, geocode)
  {
    var a := SplitOn(gps, ',');
    var coord1 := geocode.parse(a[0]);
    if coord1.None? {
      return Err(CoordinateInvalid);
    }
    if |a| < 2 {
      return Err(GpsIndexError);
    }
    var coord2 := geocode.parse(a[1]);
    if coord2.None? {
      return Err(CoordinateInvalid);
    }
    var place := geocode.reverse(coord1.value + ", " + coord2.value);
    if place.None? {
      return Err(GeocodeFailed);
    }
    return Ok(place.value);
  }

  /** The remaining exiftool lines applied in order; the first failing line ends the loop,
      with the geocoding exception it raised. Each line adds at most one entry. */
  function ExifFrom(m: Metadata, tags: seq<string>, geocode: Geocoder): (r: Result<Metadata>)
    ensures r.Err? ==> GeoFailure(r.error)
    ensures r.Ok? ==> |m.entries| <= |r.value.entries| <= |m.entries| + |tags|
    decreases |tags|
  {
    if tags == [] then Ok(m)
    else
      var next :- ExifLine(m, tags[0], geocode);
      ExifFrom(next, tags[1..], geocode)
  }

  /** What the exiftool branch gathers from all the lines exiftool prints: at most one entry
      per line, or the geocoding exception of the GPS line. With no line, nothing. */
  function ExifFromLines(tags: seq<string>, geocode: Geocoder): (r: Result<Metadata>)
    ensures r.Err? ==> GeoFailure(r.error)
    ensures r.Ok? ==> |r.value.entries| <= |tags|
    ensures tags == [] ==> r == Ok(Metadata([], ""))
  {
    ExifFrom(Metadata([], ""), tags, geocode)
  }

  /** One step of `ExifFrom` at index `i` of the lines. */
  lemma ExifFromAt(m: Metadata, tags: seq<string>, i: int, geocode: Geocoder)
    requires 0 <= i < |tags|
    ensures ExifLine(m, tags[i], geocode).Err? ==> ExifFrom(m, tags[i..], geocode) == Err(ExifLine(m, tags[i], geocode).error)
    ensures ExifLine(m, tags[i], geocode).Ok?
      ==> ExifFrom(m, tags[i..], geocode) == ExifFrom(ExifLine(m, tags[i], geocode).value, tags[i + 1..], geocode)
  {
    assert tags[i..][0] == tags[i];
    assert tags[i..][1..] == tags[i + 1..];
  }

  /** The body of the loop over `process.stdout`: one line of exiftool output. */
  method ExifLineStep(metadataText: seq<string>, location: string, tag: string, geocode: Geocoder)
    returns (r: Result<Metadata>)
    ensures r == ExifLine(Metadata(metadataText, location), tag, geocode)
  {
    var compare := Key(tag);
    if compare in MetadataFilter {
      if compare == GpsKey {
        var address := Geolocate(LastField(tag), geocode);
        if address.Err? {
          return Err(address.error);
        }
        return Ok(Metadata(metadataText, address.value));
      } else {
        return Ok(Metadata(metadataText + [compare + ":" + LastField(tag) + "; "], location));
      }
    }
    return Ok(Metadata(metadataText, location));
  }

  /** The loop over `process.stdout` in `generate_keywords`. */
  method FilterExiftool(tags: seq<string>, geocode: Geocoder) returns (r: Result<Metadata>)
    ensures r == ExifFromLines(tags, geocode)
  {
    var metadataText: seq<string> := [];
    var location := "";
    var i := 0;
    while i < |tags|
      invariant 0 <= i <= |tags|
      invariant ExifFrom(Metadata(metadataText, location), tags[i..], geocode) == ExifFromLines(tags, geocode)
    {
      ExifFromAt(Metadata(metadataText, location), tags, i, geocode);
      var next := ExifLineStep(metadataText, location, tags[i], geocode);
      if next.Err? {
        return Err(next.error);
      }
      metadataText, location := next.value.entries, next.value.location;
      i := i + 1;
    }
    r := Ok(Metadata(metadataText, location));
  }

  /** An entry exiftool contributes: a filtered key other than the GPS position, one colon,
      and the text after the line's last colon, closed by "; ". */
  predicate ExifEntry(e: string) {
    var k := IndexOf(e, ':');
    k < |e| && e[..k] in MetadataFilter && e[..k] != GpsKey
    && ':' !in e[k + 1..] && EndsWith(e, "; ")
  }

  lemma EntryShape(key: string, v: string)
    requires key in MetadataFilter && key != GpsKey
    requires ':' !in key && ':' !in v
    ensures ExifEntry(key + ":" + v + "; ")
  {
    var e := key + ":" + v + "; ";
    assert e == key + [':'] + (v + "; ");
    IndexOfAfter(key, ':', v + "; ");
    assert e[..|key|] == key;
    assert e[|key| + 1..] == v + "; ";
  }

  /** One exiftool line keeps the entries gathered so far and adds at most one, of entry shape. */
  lemma ExifStepEntries(m: Metadata, key: string, field: string, geocode: Geocoder)
    requires forall i :: 0 <= i < |m.entries| ==> ExifEntry(m.entries[i])
    requires ':' !in key && ':' !in field
    ensures var r := ExifStep(m, key, field, geocode);
      r.Ok? ==> (|m.entries| <= |r.value.entries| && r.value.entries[..|m.entries|] == m.entries
        && forall i :: 0 <= i < |r.value.entries| ==> ExifEntry(r.value.entries[i]))
  {
    if key in MetadataFilter && key != GpsKey {
      EntryShape(key, field);
      var e := key + ":" + field + "; ";
      assert (m.entries + [e])[..|m.entries|] == m.entries;
    }
  }

  /** Every entry gathered from exiftool has the entry shape, and earlier entries stay in place. */
  lemma {:induction false} ExifFromEntries(m: Metadata, tags: seq<string>, geocode: Geocoder)
    requires forall i :: 0 <= i < |m.entries| ==> ExifEntry(m.entries[i])
    ensures var r := ExifFrom(m, tags, geocode);
      r.Ok? ==> (|m.entries| <= |r.value.entries| && r.value.entries[..|m.entries|] == m.entries
        && forall i :: 0 <= i < |r.value.entries| ==> ExifEntry(r.value.entries[i]))
    decreases |tags|
  {
    if tags != [] {
      var next := ExifLine(m, tags[0], geocode);
      ExifStepEntries(m, Key(tags[0]), LastField(tags[0]), geocode);
      if next.Ok? {
        ExifFromEntries(next.value, tags[1..], geocode);
        var r := ExifFrom(next.value, tags[1..], geocode);
        assert ExifFrom(m, tags, geocode) == r;
        if r.Ok? {
          assert r.value.entries[..|m.entries|] == r.value.entries[..|next.value.entries|][..|m.entries|];
        }
      }
    }
  }

  /** The lines after the gathered metadata never remove or reorder an entry. */
  lemma {:induction false} ExifFromKeeps(m: Metadata, tags: seq<string>, geocode: Geocoder)
    ensures var r := ExifFrom(m, tags, geocode);
      r.Ok? ==> r.value.entries[..|m.entries|] == m.entries
    decreases |tags|
  {
    if tags != [] {
      var next := ExifLine(m, tags[0], geocode);
      if next.Ok? {
        ExifFromKeeps(next.value, tags[1..], geocode);
        var r := ExifFrom(next.value, tags[1..], geocode);
        if r.Ok? {
          assert next.value.entries[..|m.entries|] == m.entries;
          assert r.value.entries[..|m.entries|] == r.value.entries[..|next.value.entries|][..|m.entries|];
        }
      }
    }
  }

  /** The entry `key:field; ` a filtered exiftool line contributes. */
  function LineEntry(tag: string): string {
    Key(tag) + ":" + LastField(tag) + "; "
  }

  /** Every filtered line other than "GPS Position" leaves its `key:field; ` among the
      gathered entries, when no line fails. */
  lemma {:induction false} ExifKeepsFiltered(m: Metadata, tags: seq<string>, geocode: Geocoder, tag: string)
    requires tag in tags && Key(tag) in MetadataFilter && Key(tag) != GpsKey
    ensures ExifFrom(m, tags, geocode).Ok? ==> LineEntry(tag) in ExifFrom(m, tags, geocode).value.entries
    decreases |tags|
  {
    if ExifFrom(m, tags, geocode).Ok? {
      var next := ExifFromFirst(m, tags, geocode);
      if tags[0] == tag {
        ExifLineAdds(m, tag, geocode);
        ExifKeepsAdded(m.entries, next, tags[1..], geocode);
      } else {
        InTail(tags, tag);
        ExifKeepsFiltered(next, tags[1..], geocode, tag);
      }
    }
  }

  /** Proof hint: a filtered line other than "GPS Position" appends its `key:field; `. */
  lemma ExifLineAdds(m: Metadata, tag: string, geocode: Geocoder)
    requires Key(tag) in MetadataFilter && Key(tag) != GpsKey
    ensures ExifLine(m, tag, geocode) == Ok(m.(entries := m.entries + [LineEntry(tag)]))
  {
  }

  /** Proof hint: an element that is not the head is in the tail. */
  lemma InTail<T>(xs: seq<T>, x: T)
    requires x in xs && xs[0] != x
    ensures x in xs[1..]
  {
    assert xs == [xs[0]] + xs[1..];
  }

  /** Proof hint: a run that does not fail starts with a line that does not fail. */
  lemma ExifFromFirst(m: Metadata, tags: seq<string>, geocode: Geocoder) returns (next: Metadata)
    requires tags != [] && ExifFrom(m, tags, geocode).Ok?
    ensures ExifLine(m, tags[0], geocode) == Ok(next)
    ensures ExifFrom(m, tags, geocode) == ExifFrom(next, tags[1..], geocode)
  {
    next := ExifLine(m, tags[0], geocode).value;
  }

  /** The entry just added stays among the entries the later lines gather. */
  lemma ExifKeepsAdded(before: seq<string>, m: Metadata, tags: seq<string>, geocode: Geocoder)
    requires |m.entries| == |before| + 1 && m.entries[..|before|] == before
    requires ExifFrom(m, tags, geocode).Ok?
    ensures m.entries[|before|] in ExifFrom(m, tags, geocode).value.entries
  {
    ExifFromKeeps(m, tags, geocode);
    InKeptPrefix(ExifFrom(m, tags, geocode).value.entries, m.entries, |before|);
  }

  /** Proof hint: an element of a kept prefix is an element of the whole. */
  lemma InKeptPrefix<T>(xs: seq<T>, ys: seq<T>, k: int)
    requires |ys| <= |xs| && xs[..|ys|] == ys && 0 <= k < |ys|
    ensures ys[k] in xs
  {
    assert xs[k] == ys[k];
  }

  /** Without a GPS line the location stays what it was. */
  lemma {:induction false} ExifLocationNeedsGps(m: Metadata, tags: seq<string>, geocode: Geocoder)
    requires forall i :: 0 <= i < |tags| ==> Key(tags[i]) != GpsKey
    ensures ExifFrom(m, tags, geocode).Ok?
    ensures ExifFrom(m, tags, geocode).value.location == m.location
    decreases |tags|
  {
    if tags != [] {
      assert Key(tags[0]) != GpsKey;
      ExifLocationNeedsGps(ExifLine(m, tags[0], geocode).value, tags[1..], geocode);
    }
  }

  /** A GPS line whose position has no comma makes the whole file fail: with `ValueError`
      when the lone coordinate does not parse, otherwise with `IndexError` from `a[1]`. */
  lemma ExifGpsWithoutComma(m: Metadata, tag: string, rest: seq<string>, geocode: Geocoder)
    requires Key(tag) == GpsKey && ',' !in LastField(tag)
    ensures ExifFrom(m, [tag] + rest, geocode)
      == Err(if geocode.parse(LastField(tag)).None? then CoordinateInvalid else GpsIndexError)
  {
    var field := LastField(tag);
    var e := if geocode.parse(field).None? then CoordinateInvalid else GpsIndexError;
    assert ExifLine(m, tag, geocode) == Err(e) by {
      LocateWithoutComma(field, geocode);
      assert GpsKey in MetadataFilter;
      assert ExifStep(m, GpsKey, field, geocode) == Err(e);
    }
    assert ([tag] + rest)[0] == tag;
  }

  /** `metadata_text` and `location` for the file, or the exception that ends the file. Only
      the exiftool branch can raise, and only it can find a location. */
  function GatherMetadata(file: string, args: Args, env: Env): (r: Result<Metadata>)
    ensures r.Err? ==> args.metadata && GeoFailure(r.error)
    ensures r.Ok? && !args.metadata ==> r.value.location == ""
    ensures r.Ok? && args.metadata ==> |r.value.entries| <= |env.exiftool(file)|
  {
    if args.metadata then ExifFromLines(env.exiftool(file), env.geocode)
    else Ok(Metadata(env.pillow(file), ""))
  }

  // ---------------------------------------------------------------------------------
  // The prompt text

  /** The prompt before any sentence is added: `--prompt` wins over `--override`, which
      alone drops the template. */
  function Head(template: string, args: Args): (r: string)
    ensures args.prompt != "" ==> StartsWith(r, args.prompt + " ")
    ensures args.prompt != "" || args.override == "" ==> EndsWith(r, template)
  {
    if args.prompt != "" then args.prompt + " " + template
    else if args.override != "" then args.override
    else template
  }

  /** The metadata sentence and, after it, the location sentence; neither when the list is
      empty. The text is empty exactly when the list is, and a location ends it. */
  function MetadataSentences(m: Metadata, render: seq<string> -> string): (r: string)
    ensures r == "" <==> m.entries == []
    ensures m.entries != [] ==> StartsWith(r, MetadataIntro)
    ensures m.entries != [] && m.location != "" ==> EndsWith(r, m.location + " .")
  {
    if m.entries == [] then ""
    else if m.location == "" then
      PrefixSuffix(MetadataIntro, render(m.entries), ". ");
      MetadataIntro + render(m.entries) + ". "
    else
      var between := render(m.entries) + ". " + LocationIntro;
      PrefixSuffix(MetadataIntro, between, m.location + " .");
      MetadataIntro + between + (m.location + " .")
  }

  /** The directory sentence, present exactly with `--directory_name`, naming the parent. */
  function DirectorySentence(file: string, args: Args, env: Env): (r: string)
    ensures r != "" <==> args.directoryName
    ensures args.directoryName ==> StartsWith(r, DirectoryIntro) && EndsWith(r, env.parent(file) + ". ")
  {
    if args.directoryName then
      PrefixSuffix(DirectoryIntro, "", env.parent(file) + ". ");
      DirectoryIntro + "" + (env.parent(file) + ". ")
    else ""
  }

  /** The date sentence, present exactly with `--timestamp`. */
  function DateSentence(file: string, args: Args, env: Env): (r: string)
    ensures r != "" <==> args.timestamp
    ensures args.timestamp ==> StartsWith(r, DateIntro) && EndsWith(r, ". ")
  {
    if args.timestamp then
      PrefixSuffix(DateIntro, FormatDate(env.mtime(file), '-'), ". ");
      DateIntro + FormatDate(env.mtime(file), '-') + ". "
    else ""
  }

  /** The metadata and location sentences, when a metadata option is given: empty without
      one, and failing only in the exiftool branch, with its geocoding exception. */
  function MetadataPart(file: string, args: Args, env: Env): (r: Result<string>)
    ensures r.Err? ==> args.metadata && GeoFailure(r.error)
    ensures !args.metadata && !args.metadataPython ==> r == Ok("")
    ensures r.Ok? && r.value != "" ==> StartsWith(r.value, MetadataIntro)
  {
    if args.metadata || args.metadataPython then
      var m :- GatherMetadata(file, args, env);
      Ok(MetadataSentences(m, env.render))
    else Ok("")
  }

  /** The prompt `generate_keywords` sends for `file`, given the (substituted) global template.
      It fails exactly when the metadata stage fails; a prompt that is built starts with its
      head and ends with the output-format request, whatever the options. */
  function PromptFor(template: string, file: string, args: Args, env: Env): (r: Result<string>)
    ensures r.Err? <==> MetadataPart(file, args, env).Err?
    ensures r.Ok? ==> StartsWith(r.value, Head(template, args)) && EndsWith(r.value, OutputFormat)
  {
    var meta :- MetadataPart(file, args, env);
    var h, d, t := Head(template, args), DirectorySentence(file, args, env), DateSentence(file, args, env);
    AppendThree(h, meta, d, t);
    PrefixSuffix(h, meta + d + t, OutputFormat);
    Ok(h + meta + d + t + OutputFormat)
  }

  /** The metadata stage of `generate_keywords`: the sentences it appends to the prompt, or
      the exception that ends the file. */
  method MetadataStage(file: string, args: Args, env: Env) returns (r: Result<string>)
    ensures r == MetadataPart(file, args, env)
  {
    if !(args.metadata || args.metadataPython) {
      return Ok("");
    }
    var metadataText: seq<string> := [];
    var location := "";
    if args.metadata {
      var info := FilterExiftool(env.exiftool(file), env.geocode);
      if info.Err? {
        return Err(info.error);
      }
      metadataText, location := info.value.entries, info.value.location;
    } else {
      metadataText := env.pillow(file);
    }
    assert GatherMetadata(file, args, env) == Ok(Metadata(metadataText, location));
    var sentences := "";
    if metadataText != [] {
      sentences := MetadataIntro + env.render(metadataText) + ". ";
      if location != "" {
        RegroupSentences(MetadataIntro, env.render(metadataText), LocationIntro, location);
        sentences := sentences + (LocationIntro + location + " .");
      } else {
        assert sentences + "" == sentences;
      }
    }
    r := Ok(sentences);
  }

  /** Proof hint: the two sentences appended one after the other, regrouped as
      `MetadataSentences` writes them. */
  lemma RegroupSentences(intro: string, rendered: string, locationIntro: string, location: string)
    ensures (intro + rendered + ". ") + (locationIntro + location + " .")
      == intro + (rendered + ". " + locationIntro) + (location + " .")
  {
  }

  /** The body of `generate_keywords` that grows `prompt` step by step. */
  method BuildPrompt(template: string, file: string, args: Args, env: Env) returns (r: Result<string>)
    ensures r == PromptFor(template, file, args, env)
  {
    var prompt: string;
    if args.prompt != "" {
      prompt := args.prompt + " " + template;
    } else if args.override != "" {
      prompt := args.override;
    } else {
      prompt := template;
    }
    ghost var head := prompt;
    assert head == Head(template, args);
    var meta := MetadataStage(file, args, env);
    if meta.Err? {
      return Err(meta.error);
    }
    prompt := prompt + meta.value;
    ghost var before := prompt;
    if args.directoryName {
      AppendThree(prompt, DirectoryIntro, env.parent(file), ". ");
      prompt := prompt + DirectoryIntro + env.parent(file) + ". ";
    } else {
      assert prompt + "" == prompt;
    }
    assert prompt == before + DirectorySentence(file, args, env);
    before := prompt;
    if args.timestamp {
      var formattedDate := FormatDate(env.mtime(file), '-');
      AppendThree(prompt, DateIntro, formattedDate, ". ");
      prompt := prompt + DateIntro + formattedDate + ". ";
    } else {
      assert prompt + "" == prompt;
    }
    assert prompt == before + DateSentence(file, args, env);
    prompt := prompt + OutputFormat;
    r := Ok(prompt);
    PromptForParts(template, file, args, env, meta.value);
  }

  /** `PromptFor` once the metadata part is known. */
  lemma PromptForParts(template: string, file: string, args: Args, env: Env, meta: string)
    requires MetadataPart(file, args, env) == Ok(meta)
    ensures PromptFor(template, file, args, env)
      == Ok(Head(template, args) + meta + DirectorySentence(file, args, env) + DateSentence(file, args, env) + OutputFormat)
  {
  }

  // ---------------------------------------------------------------------------------
  // Properties of the prompt

  /** `--prompt` puts its text and a space before the template; otherwise `--override` alone
      starts the prompt; otherwise the template does. */
  lemma PromptPrecedence(template: string, file: string, args: Args, env: Env)
    requires PromptFor(template, file, args, env).Ok?
    ensures var p := PromptFor(template, file, args, env).value;
      (args.prompt != "" ==> StartsWith(p, args.prompt + " " + template))
      && (args.prompt == "" && args.override != "" ==> StartsWith(p, args.override))
      && (args.prompt == "" && args.override == "" ==> StartsWith(p, template))
  {
  }

  /** On the override path the template plays no part. */
  lemma OverrideIgnoresTemplate(t1: string, t2: string, file: string, args: Args, env: Env)
    requires args.prompt == "" && args.override != ""
    ensures PromptFor(t1, file, args, env) == PromptFor(t2, file, args, env)
  {
  }

  /** Without any metadata option, the prompt is the head, the optional directory and date
      sentences in that order, and the format request. */
  lemma PromptWithoutMetadata(template: string, file: string, args: Args, env: Env)
    requires !args.metadata && !args.metadataPython
    ensures PromptFor(template, file, args, env)
      == Ok(Head(template, args) + DirectorySentence(file, args, env) + DateSentence(file, args, env) + OutputFormat)
  {
    assert Head(template, args) + "" == Head(template, args);
  }

  /** A location found from GPS reaches the prompt only when some other metadata entry was
      gathered too: with an empty list the whole metadata part is skipped. */
  lemma LocationNeedsEntries(template: string, file: string, args: Args, env: Env)
    requires args.metadata
    requires ExifFromLines(env.exiftool(file), env.geocode).Ok?
    requires ExifFromLines(env.exiftool(file), env.geocode).value.entries == []
    ensures PromptFor(template, file, args, env)
      == Ok(Head(template, args) + DirectorySentence(file, args, env) + DateSentence(file, args, env) + OutputFormat)
  {
    assert Head(template, args) + "" == Head(template, args);
  }

  /** A failing exiftool line fails the whole prompt, and with it the file. */
  lemma ExifFailureFailsPrompt(template: string, file: string, args: Args, env: Env)
    requires args.metadata
    requires ExifFromLines(env.exiftool(file), env.geocode).Err?
    ensures PromptFor(template, file, args, env) == Err(ExifFromLines(env.exiftool(file), env.geocode).error)
  {
  }

  /** The date sentence carries the file's date as `YYYY-MM-DD`. */
  lemma DateSentenceFormat(file: string, args: Args, env: Env)
    requires args.timestamp
    ensures var s := DateSentence(file, args, env);
      |s| == |DateIntro| + 12 && s[..|DateIntro|] == DateIntro
      && s[|DateIntro|..|DateIntro| + 10] == FormatDate(env.mtime(file), '-')
  {
    FormatDateFields(env.mtime(file), '-');
  }
}
