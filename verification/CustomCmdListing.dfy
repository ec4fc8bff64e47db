/** The listing of the custom-command directory that a server prints and the app
    reads: one line per file, its name and its content in base64. */
module CustomCmdListing {
  import opened Wrappers
  import opened Text
  import Base64
  import Utf8
  import Script = ScriptSegments
  import Store = CustomCmdStore

  /** An order, a name and a command. */
  type Listed = (nat, string, string)

  type Files = seq<(string, seq<byte>)>

  // ---------------------------------------------------------------------------
  // The parser
  // ---------------------------------------------------------------------------

  /** What a file of the directory means to the app, if anything. */
  function ListedAs(file: string, content: seq<byte>): Option<Listed> {
    var name, order, cmd := Store.NameFromFile(file), Store.OrderFromFile(file), Utf8.Decode(content);
    if name.None? || order.None? || cmd.None? then None else Some((order.value, name.value, cmd.value))
  }

  function ParseLine(line: string): Option<Listed> {
    var parts := SplitOnce(line, ' ');
    if parts.None? then None
    else
      var content := Base64.Decode(Base64.Standard, Trim(parts.value.1));
      if content.None? then None else ListedAs(parts.value.0, content.value)
  }

  function ParseEntries(lines: seq<string>): seq<Listed> {
    if lines == [] then []
    else
      var entry := ParseLine(Script.StripCr(lines[0]));
      (if entry.Some? then [entry.value] else []) + ParseEntries(lines[1..])
  }

  predicate IsDirMarker(line: string) {
    Trim(Script.StripCr(line)) == Store.DIR_MARKER
  }

  function ParseLines(lines: seq<string>): Option<seq<Listed>> {
    if lines == [] then None
    else if IsDirMarker(lines[0]) then Some(ParseEntries(lines[1..]))
    else ParseLines(lines[1..])
  }

  function ParseListing(raw: string): Option<seq<Listed>> {
    ParseLines(Split(raw, '\n'))
  }

  lemma {:induction false} EntryAhead(lines: seq<string>, i: nat)
    requires i < |lines|
    ensures
      var entry := ParseLine(Script.StripCr(lines[i]));
      ParseEntries(lines[i..]) == if entry.Some? then [entry.value] + ParseEntries(lines[i + 1..]) else ParseEntries(lines[i + 1..])
  {
    assert lines[i..] == [lines[i]] + lines[i + 1..];
    Regroup(ParseEntries(lines[i + 1..]), [], []);
  }

  lemma {:induction false} LineAhead(lines: seq<string>, i: nat)
    requires i < |lines|
    ensures ParseLines(lines[i..]) == if IsDirMarker(lines[i]) then Some(ParseEntries(lines[i + 1..])) else ParseLines(lines[i + 1..])
  {
    assert lines[i..] == [lines[i]] + lines[i + 1..];
  }

  method ParseEntry(line: string) returns (entry: Option<Listed>)
    ensures entry == ParseLine(line)
  {
    var parts := SplitOnce(line, ' ');
    if parts.None? { return None; }
    var name := Store.NameFromFile(parts.value.0);
    if name.None? { return None; }
    var order := Store.OrderFromFile(parts.value.0);
    if order.None? { return None; }
    var bytes := Base64.Decode(Base64.Standard, Trim(parts.value.1));
    if bytes.None? { return None; }
    var cmd := Utf8.Decode(bytes.value);
    if cmd.None? { return None; }
    return Some((order.value, name.value, cmd.value));
  }

  method ParseCustomCmdsListing(raw: string) returns (listing: Option<seq<Listed>>)
    ensures listing == ParseListing(raw)
  {
    var seenMarker := false;
    var out: seq<Listed> := [];
    var lines := Split(raw, '\n');
    assert lines[0..] == lines;
    for i := 0 to |lines|
      invariant !seenMarker ==> out == [] && ParseListing(raw) == ParseLines(lines[i..])
      invariant seenMarker ==> ParseListing(raw) == Some(out + ParseEntries(lines[i..]))
    {
      var line := WithoutSuffix(lines[i], "\r");
      if !seenMarker {
        LineAhead(lines, i);
        seenMarker := Trim(line) == Store.DIR_MARKER;
        assert out + ParseEntries(lines[i + 1..]) == ParseEntries(lines[i + 1..]);
        continue;
      }
      EntryAhead(lines, i);
      var entry := ParseEntry(line);
      if entry.Some? {
        Regroup(out, [entry.value], ParseEntries(lines[i + 1..]));
        out := out + [entry.value];
      }
    }
    Regroup(out, [], []);
    assert lines[|lines|..] == [];
    return if seenMarker then Some(out) else None;
  }

  // ---------------------------------------------------------------------------
  // What the parser undoes
  // ---------------------------------------------------------------------------

  function ListingLine(file: string, content: seq<byte>): string {
    file + " " + Base64.Encode(Base64.Standard, content)
  }

  function ListingLines(files: Files): seq<string> {
    if files == [] then [] else [ListingLine(files[0].0, files[0].1)] + ListingLines(files[1..])
  }

  /** The files that are the app's, in their order. */
  function Recognised(files: Files): seq<Listed> {
    if files == [] then []
    else
      var entry := ListedAs(files[0].0, files[0].1);
      (if entry.Some? then [entry.value] else []) + Recognised(files[1..])
  }

  /** The lines as a server with LF or CRLF line ends prints them. */
  function Ended(lines: seq<string>, crlf: bool): seq<string> {
    if lines == [] then [] else [lines[0] + (if crlf then "\r" else "")] + Ended(lines[1..], crlf)
  }

  function PrintedListing(noise: seq<string>, files: Files, crlf: bool): string {
    Terminated(noise + Ended([Store.DIR_MARKER] + ListingLines(files), crlf), "\n")
  }

  lemma {:induction false} EncodedHasNoSpace(content: seq<byte>)
    ensures
      var encoded := Base64.Encode(Base64.Standard, content);
      Trim(encoded) == encoded && '\n' !in encoded && '\r' !in encoded
  {
    var encoded := Base64.Encode(Base64.Standard, content);
    Base64.EncodedInAlphabet(Base64.Standard, content);
    forall i | 0 <= i < |encoded|
      ensures !IsSpace(encoded[i]) && encoded[i] != '\n' && encoded[i] != '\r'
    {
      assert Base64.InAlphabet(Base64.Standard, encoded[i]);
    }
    TrimAlready(encoded);
  }

  lemma {:induction false} CrIsCut(line: string, last: char, crlf: bool)
    requires last != '\r'
    ensures Script.StripCr(line + [last] + (if crlf then "\r" else "")) == line + [last]
  {
    var full := line + [last];
    assert full + "" == full;
    assert (full + "\r")[..|full|] == full;
  }

  lemma {:induction false} ListingLineCr(file: string, content: seq<byte>, crlf: bool)
    ensures Script.StripCr(ListingLine(file, content) + (if crlf then "\r" else "")) == ListingLine(file, content)
  {
    var encoded := Base64.Encode(Base64.Standard, content);
    var line := ListingLine(file, content);
    EncodedHasNoSpace(content);
    var init, last := line[..|line| - 1], line[|line| - 1];
    assert line == init + [last];
    assert last != '\r' by {
      if encoded != "" {
        assert last == encoded[|encoded| - 1];
      }
    }
    CrIsCut(init, last, crlf);
  }

  /** The name of a file that is the app's. */
  predicate IsOurs(file: string) {
    Store.NameFromFile(file).Some? && Store.OrderFromFile(file).Some?
  }

  predicate IsText(content: seq<byte>) {
    Utf8.Decode(content).Some?
  }

  /** What the line of a file reads as when its name is one line. A name with a space
      is cut there: what follows is only whitespace and the content stands alone, or
      the content is empty and what follows stands in for it, or the line is refused. */
  function LineReadAs(file: string, content: seq<byte>): Option<Listed> {
    var parts := SplitOnce(file, ' ');
    if parts.None? then ListedAs(file, content)
    else if Trim(parts.value.1) == "" then ListedAs(parts.value.0, content)
    else if content == [] then ParseLine(file)
    else None
  }

  lemma {:induction false} EncodedIsEmpty(content: seq<byte>)
    ensures Base64.Encode(Base64.Standard, content) == "" <==> content == []
  {
    Base64.DecodeEncode(Base64.Standard, content);
    Base64.DecodeEncode(Base64.Standard, []);
  }

  lemma {:induction false} SpaceIsRefused(s: string)
    requires ' ' in s
    ensures Base64.Decode(Base64.Standard, s).None?
  {
    var content := Base64.Decode(Base64.Standard, s);
    assert !Base64.InAlphabet(Base64.Standard, ' ');
    if content.Some? {
      Base64.EncodedInAlphabet(Base64.Standard, content.value);
    }
  }

  /** Only whitespace between the first space and the content. */
  lemma {:induction false} BlankIsSkipped(a: string, blank: string, encoded: string, content: seq<byte>)
    requires ' ' !in a && Trim(blank) == ""
    requires Trim(encoded) == encoded && Base64.Decode(Base64.Standard, encoded) == Some(content)
    ensures ParseLine(a + [' '] + (blank + [' '] + encoded)) == ListedAs(a, content)
  {
    TrimEndSpace(blank, ' ');
    BlankIsTrimmed(blank + [' ']);
    TrimBlank(blank + [' '], encoded);
    SplitOnceAt(a, ' ', blank + [' '] + encoded);
  }

  /** No content, so that the name's own rest stands in for it. */
  lemma {:induction false} RestIsContent(a: string, rest: string)
    requires ' ' !in a
    ensures ParseLine(a + [' '] + (rest + [' '])) == ParseLine(a + [' '] + rest)
  {
    TrimEndSpace(rest, ' ');
    SplitOnceAt(a, ' ', rest);
    SplitOnceAt(a, ' ', rest + [' ']);
  }

  /** Both, and the space between them. */
  lemma {:induction false} RestIsRefused(a: string, rest: string, encoded: string)
    requires ' ' !in a && Trim(rest) != "" && Trim(encoded) != ""
    ensures ParseLine(a + [' '] + (rest + [' '] + encoded)).None?
  {
    TrimKeepsInside(rest, ' ', encoded);
    SpaceIsRefused(Trim(rest + [' '] + encoded));
    SplitOnceAt(a, ' ', rest + [' '] + encoded);
  }

  /** A line of the listing reads as said, whatever its file is called and holds. */
  lemma {:induction false} LineReadsBack(file: string, content: seq<byte>, crlf: bool)
    ensures ParseLine(Script.StripCr(ListingLine(file, content) + (if crlf then "\r" else ""))) == LineReadAs(file, content)
  {
    ListingLineCr(file, content, crlf);
    if ' ' !in file {
      PlainLineReadsBack(file, content);
    } else {
      var parts := SplitOnce(file, ' ').value;
      SpacedLineReadsBack(parts.0, parts.1, content);
    }
  }

  lemma {:induction false} PlainLineReadsBack(file: string, content: seq<byte>)
    requires ' ' !in file
    ensures ParseLine(ListingLine(file, content)) == ListedAs(file, content)
  {
    var encoded := Base64.Encode(Base64.Standard, content);
    EncodedHasNoSpace(content);
    Base64.DecodeEncode(Base64.Standard, content);
    SplitOnceAt(file, ' ', encoded);
    assert ListingLine(file, content) == file + [' '] + encoded;
  }

  lemma {:induction false} SpacedLineReadsBack(a: string, rest: string, content: seq<byte>)
    requires ' ' !in a
    ensures
      var file := a + [' '] + rest;
      ParseLine(ListingLine(file, content))
      == if Trim(rest) == "" then ListedAs(a, content) else if content == [] then ParseLine(file) else None
  {
    var encoded := Base64.Encode(Base64.Standard, content);
    assert ListingLine(a + [' '] + rest, content) == a + [' '] + (rest + [' '] + encoded);
    EncodedHasNoSpace(content);
    EncodedIsEmpty(content);
    if Trim(rest) == "" {
      Base64.DecodeEncode(Base64.Standard, content);
      BlankIsSkipped(a, rest, encoded, content);
    } else if content == [] {
      assert rest + [' '] + encoded == rest + [' '];
      RestIsContent(a, rest);
    } else {
      RestIsRefused(a, rest, encoded);
    }
  }

  /** A file name printed as one line or more, and the entries read from them: all
      lines but the last stand alone, the last one is followed by the content. */
  function EntriesRead(pieces: seq<string>, content: seq<byte>): seq<Listed>
    requires pieces != []
  {
    var entry := if |pieces| == 1 then LineReadAs(pieces[0], content) else ParseLine(Script.StripCr(pieces[0]));
    (if entry.Some? then [entry.value] else []) + if |pieces| == 1 then [] else EntriesRead(pieces[1..], content)
  }

  /** What the listing of these files reads as. */
  function AllRead(files: Files): seq<Listed> {
    if files == [] then [] else EntriesRead(Split(files[0].0, '\n'), files[0].1) + AllRead(files[1..])
  }

  lemma {:induction false} ParseOne(line: string)
    ensures
      var entry := ParseLine(Script.StripCr(line));
      ParseEntries([line]) == if entry.Some? then [entry.value] else []
  {
    assert [line][1..] == [];
    Regroup(ParseEntries([line]), [], []);
  }

  lemma {:induction false} ParseEntriesConcat(a: seq<string>, b: seq<string>)
    ensures ParseEntries(a + b) == ParseEntries(a) + ParseEntries(b)
  {
    if a == [] {
      assert a + b == b;
      assert [] + ParseEntries(b) == ParseEntries(b);
    } else {
      assert (a + b)[1..] == a[1..] + b;
      ParseEntriesConcat(a[1..], b);
      var entry := ParseLine(Script.StripCr(a[0]));
      Regroup(if entry.Some? then [entry.value] else [], ParseEntries(a[1..]), ParseEntries(b));
    }
  }

  lemma {:induction false} FileReadsBack(file: string, content: seq<byte>, crlf: bool)
    ensures ParseEntries(Split(ListingLine(file, content) + (if crlf then "\r" else ""), '\n'))
         == EntriesRead(Split(file, '\n'), content)
    decreases |file|
  {
    if '\n' !in file {
      OneLineReadsBack(file, content, crlf);
    } else {
      var parts := SplitOnce(file, '\n').value;
      FileReadsBack(parts.1, content, crlf);
      FirstLineReadsBack(parts.0, parts.1, content, crlf);
    }
  }

  lemma {:induction false} OneLineReadsBack(file: string, content: seq<byte>, crlf: bool)
    requires '\n' !in file
    ensures ParseEntries(Split(ListingLine(file, content) + (if crlf then "\r" else ""), '\n'))
         == EntriesRead(Split(file, '\n'), content)
  {
    var line := ListingLine(file, content) + (if crlf then "\r" else "");
    EncodedHasNoSpace(content);
    SplitNothing(line, '\n');
    SplitNothing(file, '\n');
    LineReadsBack(file, content, crlf);
    ParseOne(line);
    Regroup(EntriesRead([file], content), [], []);
  }

  lemma {:induction false} FirstLineReadsBack(piece: string, rest: string, content: seq<byte>, crlf: bool)
    requires '\n' !in piece
    requires ParseEntries(Split(ListingLine(rest, content) + (if crlf then "\r" else ""), '\n'))
          == EntriesRead(Split(rest, '\n'), content)
    ensures ParseEntries(Split(ListingLine(piece + ['\n'] + rest, content) + (if crlf then "\r" else ""), '\n'))
         == EntriesRead(Split(piece + ['\n'] + rest, '\n'), content)
  {
    var later := ListingLine(rest, content) + (if crlf then "\r" else "");
    ListingLineAhead(piece, rest, content, crlf);
    PieceAhead(piece, later);
    PieceAhead(piece, rest);
    PieceEntries(piece, Split(later, '\n'));
    MorePieces(piece, Split(rest, '\n'), content);
  }

  lemma {:induction false} ListingLineAhead(piece: string, rest: string, content: seq<byte>, crlf: bool)
    ensures
      var end := if crlf then "\r" else "";
      ListingLine(piece + ['\n'] + rest, content) + end == piece + ['\n'] + (ListingLine(rest, content) + end)
  {
  }

  lemma {:induction false} PieceAhead(piece: string, more: string)
    requires '\n' !in piece
    ensures Split(piece + ['\n'] + more, '\n') == [piece] + Split(more, '\n')
  {
    SplitNothing(piece, '\n');
    SplitAt(piece, '\n', more);
  }

  lemma {:induction false} PieceEntries(piece: string, more: seq<string>)
    ensures
      var entry := ParseLine(Script.StripCr(piece));
      ParseEntries([piece] + more) == (if entry.Some? then [entry.value] else []) + ParseEntries(more)
  {
    ParseEntriesConcat([piece], more);
    ParseOne(piece);
  }

  lemma {:induction false} MorePieces(piece: string, pieces: seq<string>, content: seq<byte>)
    requires pieces != []
    ensures
      var entry := ParseLine(Script.StripCr(piece));
      EntriesRead([piece] + pieces, content) == (if entry.Some? then [entry.value] else []) + EntriesRead(pieces, content)
  {
    assert ([piece] + pieces)[1..] == pieces;
  }

  /** The lines of a text whose parts may themselves hold line breaks. */
  function AllSplit(parts: seq<string>): seq<string> {
    if parts == [] then [] else Split(parts[0], '\n') + AllSplit(parts[1..])
  }

  lemma {:induction false} SplitLines(parts: seq<string>)
    ensures Split(Terminated(parts, "\n"), '\n') == AllSplit(parts) + [""]
  {
    if parts != [] {
      SplitLines(parts[1..]);
      SplitAt(parts[0], '\n', Terminated(parts[1..], "\n"));
      assert parts[0] + "\n" + Terminated(parts[1..], "\n") == parts[0] + ['\n'] + Terminated(parts[1..], "\n");
      Regroup(Split(parts[0], '\n'), AllSplit(parts[1..]), [""]);
    }
  }

  lemma {:induction false} AllSplitConcat(a: seq<string>, b: seq<string>)
    ensures AllSplit(a + b) == AllSplit(a) + AllSplit(b)
  {
    if a == [] {
      assert a + b == b;
    } else {
      assert (a + b)[1..] == a[1..] + b;
      AllSplitConcat(a[1..], b);
      Regroup(Split(a[0], '\n'), AllSplit(a[1..]), AllSplit(b));
    }
  }

  predicate OneLine(s: string) {
    '\n' !in s
  }

  lemma {:induction false} SingleLinesSplit(lines: seq<string>)
    requires forall l <- lines :: OneLine(l)
    ensures AllSplit(lines) == lines
  {
    if lines != [] {
      assert OneLine(lines[0]);
      SplitNothing(lines[0], '\n');
      SingleLinesSplit(lines[1..]);
    }
  }

  lemma {:induction false} EndedAhead(line: string, rest: seq<string>, crlf: bool)
    ensures Ended([line] + rest, crlf) == [line + (if crlf then "\r" else "")] + Ended(rest, crlf)
  {
    assert ([line] + rest)[1..] == rest;
  }

  lemma {:induction false} FilesReadBack(files: Files, crlf: bool)
    ensures ParseEntries(AllSplit(Ended(ListingLines(files), crlf))) == AllRead(files)
  {
    if files != [] {
      var line, rest := ListingLine(files[0].0, files[0].1), ListingLines(files[1..]);
      var end := if crlf then "\r" else "";
      EndedAhead(line, rest, crlf);
      var ended := Ended(rest, crlf);
      assert ([line + end] + ended)[1..] == ended;
      ParseEntriesConcat(Split(line + end, '\n'), AllSplit(ended));
      FileReadsBack(files[0].0, files[0].1, crlf);
      FilesReadBack(files[1..], crlf);
    }
  }

  lemma {:induction false} NoiseIsSkipped(noise: seq<string>, rest: seq<string>)
    requires forall l <- noise :: !IsDirMarker(l)
    ensures ParseLines(noise + rest) == ParseLines(rest)
  {
    if noise == [] {
      assert noise + rest == rest;
    } else {
      assert (noise + rest)[1..] == noise[1..] + rest;
      NoiseIsSkipped(noise[1..], rest);
    }
  }

  lemma {:induction false} MarkerLineIsFound(crlf: bool)
    ensures
      var line := Store.DIR_MARKER + (if crlf then "\r" else "");
      IsDirMarker(line) && OneLine(line)
  {
    var marker := Store.DIR_MARKER;
    CrIsCut(marker[..|marker| - 1], marker[|marker| - 1], crlf);
    assert marker == marker[..|marker| - 1] + [marker[|marker| - 1]];
    TrimAlready(marker);
  }

  lemma {:induction false} MarkerIsReached(noise: seq<string>, marker: string, rest: seq<string>)
    requires (forall l <- noise :: !IsDirMarker(l)) && IsDirMarker(marker)
    ensures ParseLines(noise + ([marker] + rest)) == Some(ParseEntries(rest))
  {
    NoiseIsSkipped(noise, [marker] + rest);
    assert ([marker] + rest)[1..] == rest;
  }

  lemma {:induction false} PrintedLines(noise: seq<string>, files: Files, crlf: bool)
    requires forall l <- noise :: OneLine(l)
    ensures
      var marker := Store.DIR_MARKER + (if crlf then "\r" else "");
      Split(PrintedListing(noise, files, crlf), '\n')
      == noise + ([marker] + (AllSplit(Ended(ListingLines(files), crlf)) + [""]))
  {
    var marker := Store.DIR_MARKER + (if crlf then "\r" else "");
    var body := Ended(ListingLines(files), crlf);
    EndedAhead(Store.DIR_MARKER, ListingLines(files), crlf);
    SplitLines(noise + ([marker] + body));
    AllSplitConcat(noise, [marker] + body);
    AllSplitConcat([marker], body);
    SingleLinesSplit(noise);
    MarkerLineIsFound(crlf);
    SingleLinesSplit([marker]);
    Regroup(noise, [marker] + AllSplit(body), [""]);
    Regroup([marker], AllSplit(body), [""]);
  }

  /** The listing of any directory, after any noise, reads as said: file by file, in
      the order in which they were printed, whatever they are called and hold. */
  lemma {:induction false} ListingIsRead(noise: seq<string>, files: Files, crlf: bool)
    requires forall l <- noise :: OneLine(l) && !IsDirMarker(l)
    ensures ParseListing(PrintedListing(noise, files, crlf)) == Some(AllRead(files))
  {
    var body := AllSplit(Ended(ListingLines(files), crlf));
    PrintedLines(noise, files, crlf);
    MarkerLineIsFound(crlf);
    MarkerIsReached(noise, Store.DIR_MARKER + (if crlf then "\r" else ""), body + [""]);
    ParseEntriesConcat(body, [""]);
    ParseOne("");
    FilesReadBack(files, crlf);
    Regroup(AllRead(files), [], []);
  }

  /** The last line of a file's name is taken for a command's: it is the app's own
      up to a space, if there is one; and after it stands nothing but whitespace, the
      content being text, or, the content being empty, base64 of text. */
  predicate LastTaken(piece: string, content: seq<byte>) {
    var parts := SplitOnce(piece, ' ');
    if parts.None? then IsOurs(piece) && IsText(content)
    else
      && IsOurs(parts.value.0)
      && var rest := Trim(parts.value.1);
         || (rest == "" && IsText(content))
         || (content == [] && IsBase64OfText(rest))
  }

  predicate IsBase64OfText(s: string) {
    var content := Base64.Decode(Base64.Standard, s);
    content.Some? && IsText(content.value)
  }

  /** A line before the last is taken for a command's. */
  predicate LineTaken(piece: string) {
    var parts := SplitOnce(Script.StripCr(piece), ' ');
    parts.Some? && IsOurs(parts.value.0) && IsBase64OfText(Trim(parts.value.1))
  }

  predicate AnyTaken(pieces: seq<string>, content: seq<byte>)
    requires pieces != []
  {
    if |pieces| == 1 then LastTaken(pieces[0], content) else LineTaken(pieces[0]) || AnyTaken(pieces[1..], content)
  }

  /** The listing makes a command of a file that is not the app's: its name holds a
      space or a line break, and a line of it is taken for a command's. */
  predicate Misread(file: string, content: seq<byte>) {
    (' ' in file || '\n' in file) && AnyTaken(Split(file, '\n'), content)
  }

  lemma {:induction false} ListedExactly(file: string, content: seq<byte>)
    ensures ListedAs(file, content).Some? <==> IsOurs(file) && IsText(content)
  {
  }

  lemma {:induction false} LineIsTaken(line: string)
    ensures
      var parts := SplitOnce(line, ' ');
      ParseLine(line).Some? <==> parts.Some? && IsOurs(parts.value.0) && IsBase64OfText(Trim(parts.value.1))
  {
    var parts := SplitOnce(line, ' ');
    if parts.Some? {
      var content := Base64.Decode(Base64.Standard, Trim(parts.value.1));
      if content.Some? {
        ListedExactly(parts.value.0, content.value);
      }
    }
  }

  lemma {:induction false} NothingIsBase64()
    ensures Base64.Decode(Base64.Standard, "") == Some([])
  {
    Base64.DecodeEncode(Base64.Standard, []);
  }

  lemma {:induction false} LastIsTaken(piece: string, content: seq<byte>)
    ensures LineReadAs(piece, content).Some? <==> LastTaken(piece, content)
  {
    var parts := SplitOnce(piece, ' ');
    NothingIsBase64();
    if parts.None? {
      ListedExactly(piece, content);
    } else if Trim(parts.value.1) == "" {
      ListedExactly(parts.value.0, content);
    } else {
      LineIsTaken(piece);
    }
  }

  lemma {:induction false} FirstIsTaken(pieces: seq<string>, content: seq<byte>)
    requires |pieces| > 1
    ensures EntriesRead(pieces, content) != [] <==> LineTaken(pieces[0]) || EntriesRead(pieces[1..], content) != []
  {
    LineIsTaken(Script.StripCr(pieces[0]));
    assert pieces == [pieces[0]] + pieces[1..];
    MorePieces(pieces[0], pieces[1..], content);
  }

  lemma {:induction false} AnyIsTaken(pieces: seq<string>, content: seq<byte>)
    requires pieces != []
    ensures EntriesRead(pieces, content) != [] <==> AnyTaken(pieces, content)
  {
    if |pieces| == 1 {
      LastIsTaken(pieces[0], content);
    } else {
      AnyIsTaken(pieces[1..], content);
      FirstIsTaken(pieces, content);
    }
  }

  /** File by file: the listing reads back as the directory exactly if the file is
      not misread; and if it is, a command is made of what holds none. */
  lemma {:induction false} FileIsReadExactly(file: string, content: seq<byte>)
    ensures
      var read, held := EntriesRead(Split(file, '\n'), content), ListedAs(file, content);
      if Misread(file, content) then read != [] && held.None?
      else read == if held.Some? then [held.value] else []
  {
    var pieces := Split(file, '\n');
    AnyIsTaken(pieces, content);
    RecognisedNameIsPlain(file);
    if ' ' !in file && '\n' !in file {
      SplitNothing(file, '\n');
      assert pieces == [file];
      Regroup(EntriesRead(pieces, content), [], []);
    }
  }

  lemma {:induction false} ReadCounts(files: Files)
    ensures |AllRead(files)| >= |Recognised(files)|
    ensures (forall f <- files :: !Misread(f.0, f.1)) ==> AllRead(files) == Recognised(files)
    ensures (exists f <- files :: Misread(f.0, f.1)) ==> |AllRead(files)| > |Recognised(files)|
  {
    if files != [] {
      FileIsReadExactly(files[0].0, files[0].1);
      ReadCounts(files[1..]);
      assert forall f :: f in files <==> f == files[0] || f in files[1..];
    }
  }

  /** The listing of a directory parses to exactly the files in it that are the app's,
      in the order in which they were printed, others being skipped, if and only if
      none of the files is misread. */
  lemma {:induction false} ListingReadsBack(noise: seq<string>, files: Files, crlf: bool)
    requires forall l <- noise :: OneLine(l) && !IsDirMarker(l)
    ensures ParseListing(PrintedListing(noise, files, crlf)) == Some(Recognised(files))
       <==> NoneMisread(files)
  {
    ListingIsRead(noise, files, crlf);
    ReadCounts(files);
  }

  /** Two ways to be misread: an empty file called after a command's file and its
      content, and a file called after a command's file and a space. */
  lemma {:induction false} SpacedNameIsMisread(order: nat, name: string, cmd: string)
    requires order < Store.U32
    ensures
      var file, content := Store.FileName(order, name), Utf8.Encode(cmd);
      && Misread(file + " " + Base64.Encode(Base64.Standard, content), [])
      && Misread(file + " ", content)
  {
    var file, content := Store.FileName(order, name), Utf8.Encode(cmd);
    var encoded := Base64.Encode(Base64.Standard, content);
    OwnNameIsPlain(order, name);
    InstalledEntry(order, name, cmd);
    EncodedHasNoSpace(content);
    Base64.DecodeEncode(Base64.Standard, content);
    SpacedNameIsTaken(file, encoded, []);
    SpacedNameIsTaken(file, "", content);
    assert file + " " == file + [' '] + "";
  }

  lemma {:induction false} SpacedNameIsTaken(file: string, rest: string, content: seq<byte>)
    requires IsOurs(file) && ' ' !in file && '\n' !in file && '\n' !in rest
    requires (rest == "" && IsText(content)) || (content == [] && Trim(rest) == rest && IsBase64OfText(rest))
    ensures Misread(file + [' '] + rest, content)
  {
    SplitOnceAt(file, ' ', rest);
    SplitNothing(file + [' '] + rest, '\n');
  }

  lemma {:induction false} NoMarkerInLines(lines: seq<string>)
    ensures ParseLines(lines).None? <==> forall l <- lines :: !IsDirMarker(l)
  {
    if lines != [] {
      NoMarkerInLines(lines[1..]);
      assert lines == [lines[0]] + lines[1..];
    }
  }

  /** A directory that was never there is told from an empty one: there is no
      listing exactly when no line is the marker. */
  lemma {:induction false} NoListingWithoutMarker(raw: string)
    ensures ParseListing(raw).None? <==> forall l <- Split(raw, '\n') :: !IsDirMarker(l)
  {
    NoMarkerInLines(Split(raw, '\n'));
  }

  // ---------------------------------------------------------------------------
  // What is installed lists back
  // ---------------------------------------------------------------------------

  /** A name the app recognises holds no space and no line break. */
  lemma {:induction false} RecognisedNameIsPlain(file: string)
    ensures Store.NameFromFile(file).Some? ==> ' ' !in file && '\n' !in file
  {
    if Store.NameFromFile(file).Some? {
      var base := WithoutSuffix(file, ".ps1");
      var parts := SplitOnce(base, '_').value;
      NamePartIsEncoded(parts.1, Store.NameFromFile(file).value);
      PartsArePlain(parts.0, parts.1, ' ');
      PartsArePlain(parts.0, parts.1, '\n');
      SuffixIsPlain(file, ' ');
      SuffixIsPlain(file, '\n');
    }
  }

  lemma {:induction false} PartsArePlain(order: string, encoded: string, c: char)
    requires Store.AllDigits(order) && c !in encoded && c < '0'
    ensures c !in order + ['_'] + encoded
  {
  }

  lemma {:induction false} SuffixIsPlain(file: string, c: char)
    requires c !in WithoutSuffix(file, ".ps1") && c !in ".ps1"
    ensures c !in file
  {
    var base := WithoutSuffix(file, ".ps1");
    assert file == base || file == base + ".ps1";
  }

  lemma {:induction false} NamePartIsEncoded(part: string, name: string)
    requires Script.DecodeMarkerName(Script.ENCODED_NAME_PREFIX + part) == Some(name)
    ensures part == Script.EncodeMarkerName(name) && ' ' !in part && '\n' !in part
  {
    var prefix := Script.ENCODED_NAME_PREFIX;
    Script.MarkerNameIsExact(prefix + part, name);
    assert part == (prefix + part)[|prefix|..];
    Store.EncodedChars(name);
  }

  lemma {:induction false} OwnNameIsPlain(order: nat, name: string)
    ensures ' ' !in Store.FileName(order, name) && '\n' !in Store.FileName(order, name)
  {
    Store.FileNameChars(Store.Unix, order, name);
    assert Store.FileName(order, name) + Store.FileExt(Store.Unix) == Store.FileName(order, name);
  }

  lemma {:induction false} InstalledEntry(order: nat, name: string, cmd: string)
    requires order < Store.U32
    ensures ListedAs(Store.FileName(order, name), Utf8.Encode(cmd)) == Some((order, name, cmd))
  {
    PlainNameReadsBack(order, name);
    Utf8.DecodeEncode(cmd);
  }

  lemma {:induction false} PlainNameReadsBack(order: nat, name: string)
    requires order < Store.U32
    ensures Store.NameFromFile(Store.FileName(order, name)) == Some(name)
    ensures Store.OrderFromFile(Store.FileName(order, name)) == Some(order)
  {
    Store.FileNameReadsBack(Store.Unix, order, name);
    var file := Store.FileName(order, name);
    assert file + Store.FileExt(Store.Unix) == file;
  }

  /** The file an installation writes for a command, and what is in it. */
  function InstalledAs(system: Store.System, c: Listed): (string, Store.CustomCmd) {
    (Store.FileName(c.0, c.1) + Store.FileExt(system), Store.CustomCmd(c.1, c.2))
  }

  function Installer(system: Store.System): Listed -> (string, Store.CustomCmd) {
    c => InstalledAs(system, c)
  }

  function Installed(system: Store.System, cmds: seq<Listed>): (found: Store.Found)
    ensures |found| == |cmds|
  {
    Mapped(Installer(system), cmds)
  }

  lemma {:induction false} InstalledAt(system: Store.System, cmds: seq<Listed>, i: nat)
    requires i < |cmds|
    ensures Installed(system, cmds)[i] == InstalledAs(system, cmds[i])
  {
    MappedAt(Installer(system), cmds, i);
  }

  /** A file as the listing prints it: without the extension the platform adds. */
  function Shown(system: Store.System, e: (string, Store.CustomCmd)): (string, seq<byte>) {
    (WithoutSuffix(e.0, Store.FileExt(system)), Utf8.Encode(e.1.cmd))
  }

  /** The files of a directory as the listing prints them, in the order of their names. */
  function ListedFiles(system: Store.System, found: Store.Found): (files: Files) {
    if found == [] then [] else [Shown(system, found[0])] + ListedFiles(system, found[1..])
  }

  predicate OrdersFit(cmds: seq<Listed>) {
    forall c <- cmds :: c.0 < Store.U32
  }

  lemma {:induction false} ExtensionIsCut(file: string, ext: string)
    ensures WithoutSuffix(file + ext, ext) == file
  {
    assert (file + ext)[|file|..] == ext && (file + ext)[..|file|] == file;
  }

  /** One installed file: it is the app's, it is not misread, and it says which
      command it was installed for. */
  lemma {:induction false} InstalledFile(system: Store.System, c: Listed)
    requires c.0 < Store.U32
    ensures
      var e := InstalledAs(system, c);
      var file := Shown(system, e);
      && ListedAs(file.0, file.1) == Some(c) && !Misread(file.0, file.1)
      && Store.NameFromFile(e.0) == Some(e.1.name)
  {
    ExtensionIsCut(Store.FileName(c.0, c.1), Store.FileExt(system));
    InstalledEntry(c.0, c.1, c.2);
    OwnNameIsPlain(c.0, c.1);
    Store.FileNameReadsBack(system, c.0, c.1);
  }

  lemma {:induction false} RecognisedAhead(file: (string, seq<byte>), rest: Files)
    ensures
      var entry := ListedAs(file.0, file.1);
      Recognised([file] + rest) == (if entry.Some? then [entry.value] else []) + Recognised(rest)
  {
    assert ([file] + rest)[1..] == rest;
  }

  lemma {:induction false} InstalledAreRecognised(system: Store.System, cmds: seq<Listed>)
    requires OrdersFit(cmds)
    ensures Recognised(ListedFiles(system, Installed(system, cmds))) == cmds
  {
    if cmds != [] {
      var e, rest := InstalledAs(system, cmds[0]), ListedFiles(system, Installed(system, cmds[1..]));
      InstalledAreRecognised(system, cmds[1..]);
      InstalledFile(system, cmds[0]);
      ListedAhead(system, e, Installed(system, cmds[1..]));
      RecognisedAhead(Shown(system, e), rest);
      assert cmds == [cmds[0]] + cmds[1..];
    }
  }

  predicate NoneMisread(files: Files) {
    forall f <- files :: !Misread(f.0, f.1)
  }

  lemma {:induction false} InstalledAreReadRight(system: Store.System, cmds: seq<Listed>)
    requires OrdersFit(cmds)
    ensures NoneMisread(ListedFiles(system, Installed(system, cmds)))
  {
    if cmds != [] {
      InstalledAreReadRight(system, cmds[1..]);
      InstalledFile(system, cmds[0]);
      ListedAhead(system, InstalledAs(system, cmds[0]), Installed(system, cmds[1..]));
    }
  }

  lemma {:induction false} ListedAhead(system: Store.System, e: (string, Store.CustomCmd), rest: Store.Found)
    ensures ListedFiles(system, [e] + rest) == [Shown(system, e)] + ListedFiles(system, rest)
  {
    assert ([e] + rest)[1..] == rest;
  }

  /** Different commands of one order and name go to one file; others never do. */
  lemma {:induction false} InstalledApart(system: Store.System, a: Listed, b: Listed)
    requires a.0 < Store.U32 && b.0 < Store.U32
    ensures InstalledAs(system, a).0 == InstalledAs(system, b).0 <==> a.0 == b.0 && a.1 == b.1
    ensures InstalledAs(system, a) == InstalledAs(system, b) <==> a == b
  {
    var ext := Store.FileExt(system);
    if InstalledAs(system, a).0 == InstalledAs(system, b).0 {
      ExtensionIsCut(Store.FileName(a.0, a.1), ext);
      ExtensionIsCut(Store.FileName(b.0, b.1), ext);
      InstalledEntry(a.0, a.1, "");
      InstalledEntry(b.0, b.1, "");
    }
  }

  /** The command is the last of its order and name. */
  predicate IsLast(cmds: seq<Listed>, c: Listed)
    decreases |cmds|
  {
    cmds != [] &&
    var last := cmds[|cmds| - 1];
    if last.0 == c.0 && last.1 == c.1 then last == c else IsLast(cmds[..|cmds| - 1], c)
  }

  lemma {:induction false} LastIsIn(cmds: seq<Listed>, c: Listed)
    requires IsLast(cmds, c)
    ensures c in cmds
    decreases |cmds|
  {
    var last := cmds[|cmds| - 1];
    if !(last.0 == c.0 && last.1 == c.1) {
      LastIsIn(cmds[..|cmds| - 1], c);
    }
  }

  lemma {:induction false} InstalledOneMore(system: Store.System, cmds: seq<Listed>, c: Listed)
    ensures Installed(system, cmds + [c]) == Installed(system, cmds) + [InstalledAs(system, c)]
  {
    MappedOneMore(Installer(system), cmds, c);
  }

  lemma {:induction false} InstalledLast(system: Store.System, cmds: seq<Listed>)
    requires cmds != []
    ensures
      var init, last := cmds[..|cmds| - 1], cmds[|cmds| - 1];
      Store.Written(Installed(system, cmds)) == Store.WithFile(Store.Written(Installed(system, init)), InstalledAs(system, last))
  {
    var init, last := cmds[..|cmds| - 1], cmds[|cmds| - 1];
    assert cmds == init + [last];
    InstalledOneMore(system, init, last);
    WrittenOneMore(Installed(system, init), InstalledAs(system, last));
  }

  lemma {:induction false} WrittenOneMore(found: Store.Found, e: (string, Store.CustomCmd))
    ensures Store.Written(found + [e]) == Store.WithFile(Store.Written(found), e)
  {
    assert (found + [e])[..|found|] == found;
  }

  lemma {:induction false} HoldsAfterInstall(system: Store.System, dir: Store.Directory, last: Listed, c: Listed)
    requires last.0 < Store.U32 && c.0 < Store.U32
    ensures
      var e := InstalledAs(system, c);
      Store.Holds(Store.WithFile(dir, InstalledAs(system, last)), e.0, e.1)
      <==> if last.0 == c.0 && last.1 == c.1 then last == c else Store.Holds(dir, e.0, e.1)
  {
    InstalledFile(system, last);
    Store.HoldsAfterWrite(dir, InstalledAs(system, last), InstalledAs(system, c).0, InstalledAs(system, c).1);
    InstalledApart(system, last, c);
  }

  /** What the installed directory holds: of each file the command written last. */
  lemma {:induction false} InstalledHolds(system: Store.System, cmds: seq<Listed>, c: Listed)
    requires OrdersFit(cmds) && c.0 < Store.U32
    ensures
      var e := InstalledAs(system, c);
      Store.Holds(Store.Written(Installed(system, cmds)), e.0, e.1) <==> IsLast(cmds, c)
    decreases |cmds|
  {
    if cmds != [] {
      var init, last := cmds[..|cmds| - 1], cmds[|cmds| - 1];
      assert last in cmds;
      InstalledHolds(system, init, c);
      InstalledLast(system, cmds);
      HoldsAfterInstall(system, Store.Written(Installed(system, init)), last, c);
    }
  }

  /** Nothing else is in it. */
  lemma {:induction false} HeldIsInstalled(system: Store.System, cmds: seq<Listed>, file: string, cmd: Store.CustomCmd) returns (c: Listed)
    requires OrdersFit(cmds) && Store.Holds(Store.Written(Installed(system, cmds)), file, cmd)
    ensures c in cmds && InstalledAs(system, c) == (file, cmd)
    decreases |cmds|
  {
    assert cmds != [];
    var init, last := cmds[..|cmds| - 1], cmds[|cmds| - 1];
    assert last in cmds;
    InstalledFile(system, last);
    InstalledLast(system, cmds);
    Store.HoldsAfterWrite(Store.Written(Installed(system, init)), InstalledAs(system, last), file, cmd);
    c := last;
    if file != InstalledAs(system, last).0 {
      c := HeldIsInstalled(system, init, file, cmd);
    }
  }

  /** What is found in an installed directory, as commands. */
  lemma {:induction false} FoundIsInstalled(system: Store.System, cmds: seq<Listed>, dir: Store.Directory, found: Store.Found, n: nat)
    returns (r: seq<Listed>)
    requires OrdersFit(cmds) && dir == Store.Written(Installed(system, cmds)) && Store.AllHeld(dir, found) && n <= |found|
    ensures found[..n] == Installed(system, r) && forall c <- r :: c in cmds
  {
    r := [];
    if n > 0 {
      r := FoundIsInstalled(system, cmds, dir, found, n - 1);
      var e := found[n - 1];
      assert e in found;
      assert Store.Holds(dir, e.0, e.1);
      var c := HeldIsInstalled(system, cmds, e.0, e.1);
      InstalledOneMore(system, r, c);
      FoundOneMore(found, n, Installed(system, r));
      r := r + [c];
    }
  }

  lemma {:induction false} FoundOneMore(found: Store.Found, n: nat, all: Store.Found)
    requires 0 < n <= |found| && found[..n - 1] == all
    ensures found[..n] == all + [found[n - 1]]
  {
  }

  lemma {:induction false} InstalledIn(system: Store.System, cmds: seq<Listed>, c: Listed)
    requires OrdersFit(cmds) && c.0 < Store.U32
    ensures InstalledAs(system, c) in Installed(system, cmds) <==> c in cmds
  {
    var all := Installed(system, cmds);
    if InstalledAs(system, c) in all {
      var i :| 0 <= i < |all| && all[i] == InstalledAs(system, c);
      assert cmds[i] in cmds;
      InstalledAt(system, cmds, i);
      InstalledApart(system, cmds[i], c);
    }
    if c in cmds {
      var i :| 0 <= i < |cmds| && cmds[i] == c;
      InstalledAt(system, cmds, i);
      assert all[i] == InstalledAs(system, c);
    }
  }

  lemma {:induction false} InstalledAlike(system: Store.System, a: seq<Listed>, b: seq<Listed>)
    requires OrdersFit(a) && OrdersFit(b) && Installed(system, a) == Installed(system, b)
    ensures a == b
  {
    assert |a| == |Installed(system, a)| == |b|;
    forall i | 0 <= i < |a|
      ensures a[i] == b[i]
    {
      assert a[i] in a && b[i] in b;
      InstalledAt(system, a, i);
      InstalledAt(system, b, i);
      InstalledApart(system, a[i], b[i]);
    }
  }

  ghost predicate FilesAscend(system: Store.System, cmds: seq<Listed>) {
    Store.Sorted(Installed(system, cmds))
  }

  lemma {:induction false} InstalledListing(system: Store.System, cmds: seq<Listed>, found: Store.Found) returns (r: seq<Listed>)
    requires OrdersFit(cmds) && Store.Lists(Store.Written(Installed(system, cmds)), found)
    ensures found == Installed(system, r) && OrdersFit(r) && FilesAscend(system, r)
    ensures forall c :: c in r <==> IsLast(cmds, c)
  {
    r := FoundIsInstalled(system, cmds, Store.Written(Installed(system, cmds)), found, |found|);
    assert found[..|found|] == found;
    forall c
      ensures c in r <==> IsLast(cmds, c)
    {
      if IsLast(cmds, c) {
        LastIsIn(cmds, c);
      }
      if c in cmds {
        var e := InstalledAs(system, c);
        InstalledIn(system, r, c);
        InstalledHolds(system, cmds, c);
        assert e in found <==> Store.Holds(Store.Written(Installed(system, cmds)), e.0, e.1);
      }
    }
  }

  lemma {:induction false} AscendingIsKept(system: Store.System, cmds: seq<Listed>, r: seq<Listed>)
    requires OrdersFit(cmds) && OrdersFit(r) && Store.Lists(Store.Written(Installed(system, cmds)), Installed(system, r))
    ensures r == cmds <==> FilesAscend(system, cmds)
  {
    var all := Installed(system, cmds);
    if FilesAscend(system, cmds) {
      forall i | 0 <= i < |all|
        ensures Store.NameFromFile(all[i].0) == Some(all[i].1.name)
      {
        assert cmds[i] in cmds;
        InstalledAt(system, cmds, i);
        InstalledFile(system, cmds[i]);
      }
      Store.WrittenLists(all);
      Store.ListingIsUnique(Store.Written(all), Installed(system, r), all);
      InstalledAlike(system, r, cmds);
    }
  }

  /** Whatever is installed, in whatever order: the listing parses to the commands
      sorted by file name, of each order and name the last; and to just what was
      installed, in that order, if and only if the file names ascend. */
  lemma {:induction false} InstalledListsBack(
      system: Store.System, noise: seq<string>, cmds: seq<Listed>, found: Store.Found, crlf: bool) returns (r: seq<Listed>)
    requires forall l <- noise :: OneLine(l) && !IsDirMarker(l)
    requires OrdersFit(cmds) && Store.Lists(Store.Written(Installed(system, cmds)), found)
    ensures ParseListing(PrintedListing(noise, ListedFiles(system, found), crlf)) == Some(r)
    ensures FilesAscend(system, r) && forall c :: c in r <==> IsLast(cmds, c)
    ensures r == cmds <==> FilesAscend(system, cmds)
  {
    r := InstalledListing(system, cmds, found);
    AscendingIsKept(system, cmds, r);
    InstalledAreRecognised(system, r);
    InstalledAreReadRight(system, r);
    ListingReadsBack(noise, ListedFiles(system, found), crlf);
  }

  function WithOrders(cmds: seq<Store.CustomCmd>): (r: seq<Listed>)
    ensures |r| == |cmds|
    ensures forall i :: 0 <= i < |cmds| ==> r[i] == (Store.OrderOf(i), cmds[i].name, cmds[i].cmd)
  {
    seq(|cmds|, i requires 0 <= i < |cmds| => (Store.OrderOf(i), cmds[i].name, cmds[i].cmd))
  }

  /** The two ways of reading a directory agree on what the agent writes: the listing
      the app parses is the list the agent was given if and only if it has at most 999
      commands. */
  lemma {:induction false} WrittenDirectoryListsBack(
      system: Store.System, noise: seq<string>, cmds: seq<Store.CustomCmd>, found: Store.Found, crlf: bool)
    requires forall l <- noise :: OneLine(l) && !IsDirMarker(l)
    requires Store.Lists(Store.Written(Store.Saved(system, cmds)), found)
    ensures ParseListing(PrintedListing(noise, ListedFiles(system, found), crlf)) == Some(WithOrders(cmds))
       <==> |cmds| <= 999
  {
    var saved, listed := Store.Saved(system, cmds), WithOrders(cmds);
    forall i | 0 <= i < |cmds|
      ensures saved[i] == Installed(system, listed)[i]
    {
      InstalledAt(system, listed, i);
    }
    assert saved == Installed(system, listed);
    var r := InstalledListsBack(system, noise, listed, found, crlf);
    if |cmds| <= 999 {
      Store.SavedIsSorted(system, cmds);
    } else {
      Store.ThousandthIsMisplaced(system, cmds[998].name, cmds[999].name);
      Store.BeforeIsTotal(saved[998].0, saved[999].0);
    }
  }
}
