/** What the scripts obtain from outside Python: the model service, the JSON decoder,
    the metadata tools, the geocoder and the file system. Each is a given function of
    its inputs; where the result is an `Option`, `None` stands for the exception the call
    would raise. */
module Host {
  import opened Errors
  import opened Numerals

  datatype Env = Env(
    chat: (string, string) -> Option<string>,     // reply content of `ollama.chat` for (prompt, image file)
    decode: string -> Option<seq<string>>,        // `json.loads` + `ImageClassification(**keywords)`
    exiftool: string -> seq<string>,              // the lines exiftool prints for a file
    geocode: Geocoder,                            // `lat_lon_parser.parse` and `Nominatim.reverse`
    pillow: string -> seq<string>,                // `f"{tag}: {data};"` for each EXIF tag Pillow reads
    render: seq<string> -> string,                // `str(list_of_strings)`
    parent: string -> string,                     // `str(image_path.parent)`
    mtime: string -> CalendarDate                 // local date of `os.path.getmtime(file)`
  )

  /** The two services the "GPS Position" branch calls. */
  datatype Geocoder = Geocoder(
    parse: string -> Option<string>,   // `str(parse(text))`, the coordinate as Python prints it
    reverse: string -> Option<string>  // `geolocator.reverse(query).address` for the query "<lat>, <lon>"
  )

  /** `Path(name).suffix`: from the last dot of the name on, unless that dot is the
      name's first character or its last. */
  function Suffix(name: string): (r: string)
    ensures r == [] || (|r| < |name| && r == name[|name| - |r|..] && r[0] == '.' && '.' !in r[1..])
    ensures r != [] <==> exists i :: 0 < i < |name| - 1 && name[i] == '.' && '.' !in name[i + 1..]
  {
    var i := LastDot(name);
    if 0 < i < |name| - 1 then
      name[i..]
    else
      assert forall j :: 0 < j < |name| - 1 && name[j] == '.' ==> '.' in name[j + 1..] by {
        forall j | 0 < j < |name| - 1 && name[j] == '.' ensures '.' in name[j + 1..] {
          assert j < i;
          assert name[j + 1..][i - j - 1] == name[i];
        }
      }
      ""
  }

  /** `name.rfind('.')`, or -1. */
  function LastDot(name: string): (i: int)
    ensures -1 <= i < |name|
    ensures i >= 0 ==> name[i] == '.'
    ensures forall j :: i < j < |name| ==> name[j] != '.'
  {
    if name == [] then -1
    else if name[|name| - 1] == '.' then |name| - 1
    else LastDot(name[..|name| - 1])
  }
}
