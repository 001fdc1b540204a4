/** The command-line options of ai-rename-images.py that the core reads. An optional
    string option that was not given (`None`) is the empty string: the scripts only
    test these options for truthiness, and `None` and `""` are both false. */
module Options {

  datatype Args = Args(
    delimiter: string,        // --delimiter
    number: int,              // --number
    prompt: string,           // --prompt: text put before the default prompt
    override: string,         // --override: text that replaces the default prompt
    directoryName: bool,      // --directory-name
    prefix: string,           // --prefix
    prefixTimestamp: bool,    // --prefix-timestamp
    postfix: string,          // --postfix
    postfixTimestamp: bool,   // --postfix-timestamp
    timestamp: bool,          // --timestamp: put the file's date into the prompt
    metadata: bool,           // --metadata: read metadata with exiftool
    metadataPython: bool      // --metadata-python: read metadata with Pillow
  )

  /** `delimiter in ["_", "-", " "]` */
  predicate ValidDelimiter(d: string) {
    d == "_" || d == "-" || d == " "
  }
}
