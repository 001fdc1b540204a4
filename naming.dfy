/** How ai-rename-images.py turns the model's keywords into a file name:
    `ImageClassification.keywords_to_string_with_delimiter`, then the timestamp,
    prefix and postfix decoration in `process_images`. */
module Naming {
  import opened Errors
  import opened Text
  import opened Numerals
  import opened Options

  /** `word[0].upper() + word[1:].lower()` */
  function Capitalize(w: string): (r: string)
    requires w != []
    ensures |r| == |w|
    ensures r[0] == UpperChar(w[0]) && forall i :: 1 <= i < |w| ==> r[i] == LowerChar(w[i])
    ensures Lower(r) == Lower(w)
    ensures NoSpace(w) ==> NoSpace(r)
  {
    [UpperChar(w[0])] + Lower(w[1..])
  }

  /** `''.join(Capitalize(word) for word in ws)` */
  function CapitalizeAll(ws: seq<string>): (r: string)
    requires forall i :: 0 <= i < |ws| ==> ws[i] != []
    ensures Lower(r) == Lower(Concat(ws))
    ensures (forall i :: 0 <= i < |ws| ==> NoSpace(ws[i])) ==> NoSpace(r)
  {
    if ws == [] then []
    else
      var rest := CapitalizeAll(ws[1..]);
      LowerAppend(Capitalize(ws[0]), rest);
      LowerAppend(ws[0], Concat(ws[1..]));
      Capitalize(ws[0]) + rest
  }

  /** `''.join(word[0].upper() + word[1:].lower() for word in keyword.split())`: the result
      holds no whitespace and, ignoring case, is the keyword with its whitespace removed. */
  function TitleJoin(keyword: string): (r: string)
    ensures NoSpace(r)
    ensures Lower(r) == Lower(NonSpace(keyword))
  {
    WordsConcat(keyword);
    CapitalizeAll(Words(keyword))
  }

  /** A one-word keyword is only re-cased. */
  lemma TitleJoinOneWord(keyword: string)
    requires keyword != [] && NoSpace(keyword)
    ensures TitleJoin(keyword) == Capitalize(keyword)
  {
    SingleWord(keyword);
    assert CapitalizeAll([keyword]) == Capitalize(keyword) + CapitalizeAll([]);
  }

  /** A two-word keyword "a b" becomes the two words capitalised and glued together. */
  lemma TitleJoinTwoWords(a: string, b: string)
    requires a != [] && NoSpace(a) && b != [] && NoSpace(b)
    ensures TitleJoin(a + " " + b) == Capitalize(a) + Capitalize(b)
  {
    WordsSplitAt(a, ' ', b);
    SingleWord(a);
    SingleWord(b);
    assert Words(a + " " + b) == [a, b];
    assert CapitalizeAll([a, b]) == Capitalize(a) + CapitalizeAll([b]) by {
      assert [a, b][1..] == [b];
    }
    assert CapitalizeAll([b]) == Capitalize(b) + CapitalizeAll([]);
  }

  /** `not keyword.find(" ")`: the keyword's first space is at index 0, so the loop
      keeps the previous keyword's value of `new`. */
  predicate ReusesPrevious(keyword: string) {
    Find(keyword, ' ') == 0
  }

  lemma ReusesPreviousMeaning(keyword: string)
    ensures ReusesPrevious(keyword) <==> keyword != [] && keyword[0] == ' '
  {
  }

  /** The list `cleaned_keywords` after the loop has seen all of `ks`, where `conv` turns a
      keyword that binds `new` afresh into its entry (`TitleJoin` in the script). */
  function Cleaned(ks: seq<string>, conv: string -> string): (r: seq<string>)
    requires ks == [] || !ReusesPrevious(ks[0])
    ensures |r| == |ks|
    decreases |ks|
  {
    if ks == [] then []
    else
      var prev := Cleaned(ks[..|ks| - 1], conv);
      var last := ks[|ks| - 1];
      prev + [if ReusesPrevious(last) then prev[|prev| - 1] else conv(last)]
  }

  /** One more iteration of the loop appends one entry to `cleaned_keywords`. */
  lemma CleanedStep(ks: seq<string>, conv: string -> string, i: int)
    requires 0 <= i < |ks| && !ReusesPrevious(ks[0])
    ensures var prev := Cleaned(ks[..i], conv);
      Cleaned(ks[..i + 1], conv) == prev + [if ReusesPrevious(ks[i]) then prev[i - 1] else conv(ks[i])]
  {
    assert ks[..i + 1][..i] == ks[..i];
  }

  /** The last keyword at or before `i` that binds `new` afresh. */
  function LastFresh(ks: seq<string>, i: int): (j: nat)
    requires 0 <= i < |ks| && !ReusesPrevious(ks[0])
    ensures j <= i && !ReusesPrevious(ks[j])
  {
    if !ReusesPrevious(ks[i]) then i else LastFresh(ks, i - 1)
  }

  /** Every keyword after `LastFresh(ks, i)`, up to `i`, reuses the previous entry. */
  lemma {:induction false} LastFreshIsLast(ks: seq<string>, i: int)
    requires 0 <= i < |ks| && !ReusesPrevious(ks[0])
    ensures forall m :: LastFresh(ks, i) < m <= i ==> ReusesPrevious(ks[m])
  {
    if ReusesPrevious(ks[i]) {
      LastFreshIsLast(ks, i - 1);
    }
  }

  lemma {:induction false} LastFreshPrefix(ks: seq<string>, n: int, i: int)
    requires 0 <= i < n <= |ks| && !ReusesPrevious(ks[0])
    ensures LastFresh(ks[..n], i) == LastFresh(ks, i)
    decreases i
  {
    if ReusesPrevious(ks[i]) {
      LastFreshPrefix(ks, n, i - 1);
    }
  }

  /** Entry `i` of `cleaned_keywords` is the title-joined form of the last keyword at or
      before `i` that does not start with a space. */
  lemma {:induction false} CleanedAt(ks: seq<string>, conv: string -> string, i: int)
    requires ks != [] && !ReusesPrevious(ks[0])
    requires 0 <= i < |ks|
    ensures Cleaned(ks, conv)[i] == conv(ks[LastFresh(ks, i)])
    decreases |ks|
  {
    var n := |ks| - 1;
    CleanedStep(ks, conv, n);
    assert ks[..n + 1] == ks;
    var prev := Cleaned(ks[..n], conv);
    if i < n {
      assert Cleaned(ks, conv)[i] == prev[i];
      assert ks[..n][0] == ks[0];
      CleanedAt(ks[..n], conv, i);
      LastFreshPrefix(ks, n, i);
      var j := LastFresh(ks, i);
      assert ks[..n][j] == ks[j];
    } else if ReusesPrevious(ks[i]) {
      assert Cleaned(ks, conv)[i] == prev[i - 1];
      assert ks[..n][0] == ks[0];
      CleanedAt(ks[..n], conv, i - 1);
      LastFreshPrefix(ks, n, i - 1);
      var j := LastFresh(ks, i - 1);
      assert LastFresh(ks, i) == j;
      assert ks[..n][j] == ks[j];
    } else {
      assert Cleaned(ks, conv)[i] == conv(ks[i]);
    }
  }

  /** No entry of `cleaned_keywords` holds whitespace. */
  lemma CleanedHasNoSpace(ks: seq<string>)
    requires ks == [] || !ReusesPrevious(ks[0])
    ensures forall i :: 0 <= i < |ks| ==> NoSpace(Cleaned(ks, TitleJoin)[i])
  {
    forall i | 0 <= i < |ks| ensures NoSpace(Cleaned(ks, TitleJoin)[i]) {
      CleanedAt(ks, TitleJoin, i);
    }
  }

  /** What `keywords_to_string_with_delimiter` returns or raises. The delimiter is checked
      before any keyword, and the only other failure is a first keyword that starts with a
      space. */
  function KeywordsName(ks: seq<string>, delimiter: string, number: int): (r: Result<string>)
    ensures r == Err(InvalidDelimiter) <==> !ValidDelimiter(delimiter)
    ensures r == Err(UnboundKeyword) <==> ValidDelimiter(delimiter) && ks != [] && ks[0] != [] && ks[0][0] == ' '
  {
    if !ValidDelimiter(delimiter) then Err(InvalidDelimiter)
    else if ks != [] && ReusesPrevious(ks[0]) then Err(UnboundKeyword)
    else Ok(Join(delimiter, TakePy(Cleaned(ks, TitleJoin), number)))
  }

  /** `ImageClassification.keywords_to_string_with_delimiter(args)`: `current` plays the
      local `new`, which stays unbound until a keyword not starting with a space is seen. */
  method KeywordsToStringWithDelimiter(keywords: seq<string>, args: Args) returns (r: Result<string>)
    ensures r == KeywordsName(keywords, args.delimiter, args.number)
  {
    if !ValidDelimiter(args.delimiter) {
      return Err(InvalidDelimiter);
    }
    var cleaned: seq<string> := [];
    var current: Option<string> := None;
    var i := 0;
    while i < |keywords|
      invariant 0 <= i <= |keywords|
      invariant i > 0 ==> !ReusesPrevious(keywords[0])
      invariant cleaned == Cleaned(keywords[..i], TitleJoin)
      invariant current == if i == 0 then None else Some(cleaned[i - 1])
    {
      var keyword := keywords[i];
      if Find(keyword, ' ') != 0 {
        current := Some(TitleJoin(keyword));
      }
      if current.None? {
        return Err(UnboundKeyword);
      }
      CleanedStep(keywords, TitleJoin, i);
      cleaned := cleaned + [current.value];
      i := i + 1;
    }
    assert keywords[..i] == keywords;
    r := Ok(Join(args.delimiter, TakePy(cleaned, args.number)));
  }

  /** The only whitespace in a generated name is the delimiter itself, and only when the
      delimiter is a space. */
  lemma NameWhitespaceIsDelimiter(ks: seq<string>, delimiter: string, number: int)
    requires KeywordsName(ks, delimiter, number).Ok?
    ensures var name := KeywordsName(ks, delimiter, number).value;
      forall k :: 0 <= k < |name| && IsSpace(name[k]) ==> delimiter == " " && name[k] == ' '
  {
    var taken := TakePy(Cleaned(ks, TitleJoin), number);
    CleanedHasNoSpace(ks);
    var p := (c: char) => !IsSpace(c) || (delimiter == " " && c == ' ');
    forall i, k | 0 <= i < |taken| && 0 <= k < |taken[i]| ensures p(taken[i][k]) {
      assert taken[i] == Cleaned(ks, TitleJoin)[i];
    }
    JoinKeeps(delimiter, taken, p);
  }

  /** With a space delimiter, splitting the name on spaces gives back exactly the kept
      entries of `cleaned_keywords`, in order; with `number >= 0` there are
      `min(number, len(keywords))` of them. */
  lemma SpaceNameSplitsBack(ks: seq<string>, number: int)
    requires ks != [] && !ReusesPrevious(ks[0])
    requires TakePy(ks, number) != []
    ensures KeywordsName(ks, " ", number).Ok?
    ensures SplitOn(KeywordsName(ks, " ", number).value, ' ') == TakePy(Cleaned(ks, TitleJoin), number)
    ensures number >= 0 ==> |TakePy(Cleaned(ks, TitleJoin), number)| == if number <= |ks| then number else |ks|
  {
    var taken := TakePy(Cleaned(ks, TitleJoin), number);
    CleanedHasNoSpace(ks);
    forall i | 0 <= i < |taken| ensures ' ' !in taken[i] {
      assert taken[i] == Cleaned(ks, TitleJoin)[i];
      assert NoSpace(taken[i]);
      assert IsSpace(' ');
    }
    assert |taken| == |TakePy(ks, number)|;
    SplitJoin(taken, ' ');
  }

  /** `prefix.join(prefix.split())`: the words of `s` glued together with `s` itself. A
      prefix or postfix without whitespace is inserted verbatim; one made only of whitespace
      contributes nothing but its delimiter. */
  function Squash(s: string): (r: string)
    ensures s != [] && NoSpace(s) ==> r == s
    ensures (forall i :: 0 <= i < |s| ==> IsSpace(s[i])) ==> r == []
  {
    SingleWord(s);
    BlankHasNoWords(s);
    Join(s, Words(s))
  }

  /** A prefix of two words separated by a space is not inserted verbatim: the prefix itself
      becomes the glue between its own words. */
  lemma SquashTwoWords(a: string, b: string)
    requires a != [] && NoSpace(a) && b != [] && NoSpace(b)
    ensures Squash(a + " " + b) == a + (a + " " + b) + b
  {
    WordsSplitAt(a, ' ', b);
    SingleWord(a);
    SingleWord(b);
    assert Words(a + " " + b) == [a, b];
    JoinCons(a + " " + b, a, [b]);
  }

  /** `--prefix "a b"` puts "aa bb" in front of the name, not "a b". */
  lemma SquashInnerSpace()
    ensures Squash("a b") == "aa bb"
  {
    SpelledOut();
    SquashTwoWords("a", "b");
  }

  /** Proof hint: the concatenations `SquashInnerSpace` needs, spelled out. */
  lemma SpelledOut()
    ensures "a" + " " + "b" == "a b"
    ensures "a" + "a b" + "b" == "aa bb"
  {
  }

  /** What `process_images` puts before the keyword name: nothing, or parts each followed
      by the delimiter. */
  function Lead(args: Args, date: CalendarDate): (r: string)
    requires ValidDelimiter(args.delimiter)
    ensures r == [] || EndsWith(r, args.delimiter)
  {
    (if args.prefix != "" then Squash(args.prefix) + args.delimiter else "")
    + (if args.prefixTimestamp then FormatDate(date, args.delimiter[0]) + args.delimiter else "")
  }

  /** What `process_images` puts after the keyword name: nothing, or parts each preceded
      by the delimiter. */
  function Tail(args: Args, date: CalendarDate): (r: string)
    requires ValidDelimiter(args.delimiter)
    ensures r == [] || StartsWith(r, args.delimiter)
  {
    (if !args.prefixTimestamp && args.postfixTimestamp then args.delimiter + FormatDate(date, args.delimiter[0]) else "")
    + (if args.postfix != "" then args.delimiter + Squash(args.postfix) else "")
  }

  /** The staged rebinding of `new_name` in `process_images`. The delimiter is valid here:
      the keyword name was produced with it just before. */
  method DecorateName(name: string, args: Args, date: CalendarDate) returns (r: string)
    requires ValidDelimiter(args.delimiter)
    ensures r == Lead(args, date) + name + Tail(args, date)
  {
    var d := args.delimiter;
    ghost var lead, tail := "", "";
    r := name;
    if args.prefixTimestamp || args.postfixTimestamp {
      var formatted := FormatDate(date, d[0]);
      if args.prefixTimestamp {
        Prepend(formatted, d, r, lead, name, tail);
        r, lead := formatted + d + r, formatted + d + lead;
      } else {
        Append(d, formatted, r, lead, name, tail);
        r, tail := r + d + formatted, tail + (d + formatted);
      }
    }
    assert lead == "" + (if args.prefixTimestamp then FormatDate(date, d[0]) + d else "");
    assert tail == (if !args.prefixTimestamp && args.postfixTimestamp then d + FormatDate(date, d[0]) else "");
    if args.prefix != "" {
      Prepend(Squash(args.prefix), d, r, lead, name, tail);
      r, lead := Squash(args.prefix) + d + r, Squash(args.prefix) + d + lead;
    }
    if args.postfix != "" {
      Append(d, Squash(args.postfix), r, lead, name, tail);
      r, tail := r + d + Squash(args.postfix), tail + (d + Squash(args.postfix));
    }
    assert lead == Lead(args, date);
    assert tail == Tail(args, date);
  }

  /** Proof hint: text put in front of `lead + name + tail` joins the lead. */
  lemma Prepend(a: string, b: string, r: string, lead: string, name: string, tail: string)
    requires r == lead + name + tail
    ensures a + b + r == (a + b + lead) + name + tail
  {
  }

  /** Proof hint: text put after `lead + name + tail` joins the tail. */
  lemma Append(a: string, b: string, r: string, lead: string, name: string, tail: string)
    requires r == lead + name + tail
    ensures r + a + b == lead + name + (tail + (a + b))
  {
  }

  /** With both timestamp flags the date is put in front only; a whitespace-free prefix
      and postfix appear verbatim around it, each joined by the delimiter. */
  lemma BothTimestampsPrefixOnly(name: string, args: Args, date: CalendarDate)
    requires ValidDelimiter(args.delimiter)
    requires args.prefixTimestamp && args.postfixTimestamp
    requires args.prefix != "" && NoSpace(args.prefix)
    requires args.postfix != "" && NoSpace(args.postfix)
    ensures Lead(args, date) + name + Tail(args, date)
      == args.prefix + args.delimiter + FormatDate(date, args.delimiter[0]) + args.delimiter
         + name + args.delimiter + args.postfix
  {
    var d, f := args.delimiter, FormatDate(date, args.delimiter[0]);
    assert Squash(args.prefix) == args.prefix;
    assert Squash(args.postfix) == args.postfix;
    assert Lead(args, date) == args.prefix + d + (f + d);
    assert Tail(args, date) == d + args.postfix;
    Regroup(args.prefix, d, f, name, args.postfix);
  }

  /** Proof hint: the pieces of a decorated name, regrouped from left to right. */
  lemma Regroup(p: string, d: string, f: string, name: string, q: string)
    ensures (p + d + (f + d)) + name + (d + q) == p + d + f + d + name + d + q
  {
  }
}
