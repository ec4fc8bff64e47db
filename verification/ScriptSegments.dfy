/** The status script's output: sections opened by marker lines, whose names are
    encoded so that ordinary output cannot be mistaken for one. */
module ScriptSegments {
  import opened Wrappers
  import opened Text
  import Base64
  import Utf8

  const SEPARATOR := "SrvBoxSep"
  const CUSTOM_CMD_SEPARATOR := "SrvBoxCusCmdSep"
  const ENCODED_NAME_PREFIX := "b64."

  function EncodeMarkerName(name: string): string {
    Base64.Encode(Base64.UrlSafe, Utf8.Encode(name))
  }

  function DecodeMarkerName(encoded: string): Option<string> {
    var rest := StripPrefix(encoded, ENCODED_NAME_PREFIX);
    if rest.None? then None
    else
      var bytes := Base64.Decode(Base64.UrlSafe, rest.value);
      if bytes.None? then None else Utf8.Decode(bytes.value)
  }

  /** Names are decoded exactly when they were encoded. */
  lemma {:induction false} MarkerNameIsExact(encoded: string, name: string)
    ensures DecodeMarkerName(encoded) == Some(name) <==> encoded == ENCODED_NAME_PREFIX + EncodeMarkerName(name)
  {
    Base64.DecodeEncode(Base64.UrlSafe, Utf8.Encode(name));
    Utf8.DecodeEncode(name);
    if encoded == ENCODED_NAME_PREFIX + EncodeMarkerName(name) {
      StripPrefixAdded(ENCODED_NAME_PREFIX, EncodeMarkerName(name));
    }
  }

  function CmdMarker(key: string): string {
    SEPARATOR + "." + (ENCODED_NAME_PREFIX + EncodeMarkerName(key))
  }

  function CustomCmdMarker(name: string): string {
    CUSTOM_CMD_SEPARATOR + "." + (ENCODED_NAME_PREFIX + EncodeMarkerName(name))
  }

  function CustomResultKey(name: string): string {
    CUSTOM_CMD_SEPARATOR + "." + name
  }

  /** What the script prints and the parser files under, letter by letter: a name in
      URL-safe base64 of its UTF-8 behind the prefix of its kind, and the key of a
      custom command behind one of its own, so that no name it may have is a built-in
      section's. */
  lemma {:induction false} MarkersAreSpelled(name: string)
    ensures CmdMarker(name) == "SrvBoxSep.b64." + Base64.Encode(Base64.UrlSafe, Utf8.Encode(name))
    ensures CustomCmdMarker(name) == "SrvBoxCusCmdSep.b64." + Base64.Encode(Base64.UrlSafe, Utf8.Encode(name))
    ensures CustomResultKey(name) == "SrvBoxCusCmdSep." + name
  {
    assert SEPARATOR + "." + ENCODED_NAME_PREFIX == "SrvBoxSep.b64.";
    assert CUSTOM_CMD_SEPARATOR + "." + ENCODED_NAME_PREFIX == "SrvBoxCusCmdSep.b64.";
    Regroup(SEPARATOR + ".", ENCODED_NAME_PREFIX, EncodeMarkerName(name));
    Regroup(CUSTOM_CMD_SEPARATOR + ".", ENCODED_NAME_PREFIX, EncodeMarkerName(name));
  }

  function StripCr(line: string): string {
    WithoutSuffix(line, "\r")
  }

  /** The key of the section a line opens, if it opens one. */
  function Marker(line: string): Option<string> {
    var builtin := StripPrefix(line, SEPARATOR + ".");
    var key := if builtin.Some? then DecodeMarkerName(builtin.value) else None;
    if key.Some? then key
    else
      var custom := StripPrefix(line, CUSTOM_CMD_SEPARATOR + ".");
      var name := if custom.Some? then DecodeMarkerName(custom.value) else None;
      if name.Some? then Some(CustomResultKey(name.value)) else None
  }

  lemma {:induction false} PrefixesDiffer(line: string)
    ensures !(SEPARATOR + "." <= line && CUSTOM_CMD_SEPARATOR + "." <= line)
  {
    assert (SEPARATOR + ".")[6] == 'S' && (CUSTOM_CMD_SEPARATOR + ".")[6] == 'C';
    assert SEPARATOR + "." <= line ==> line[6] == 'S';
    assert CUSTOM_CMD_SEPARATOR + "." <= line ==> line[6] == 'C';
  }

  lemma {:induction false} BuiltinMarker(line: string, key: string)
    requires SEPARATOR + "." <= line
    ensures Marker(line) == Some(key) <==> line == CmdMarker(key)
  {
    PrefixesDiffer(line);
    var prefix := SEPARATOR + ".";
    MarkerNameIsExact(line[|prefix|..], key);
    assert line == prefix + line[|prefix|..];
    if line == CmdMarker(key) {
      assert line[|prefix|..] == ENCODED_NAME_PREFIX + EncodeMarkerName(key);
    }
  }

  lemma {:induction false} CustomMarker(line: string, name: string)
    requires CUSTOM_CMD_SEPARATOR + "." <= line
    ensures Marker(line) == Some(CustomResultKey(name)) <==> line == CustomCmdMarker(name)
    ensures Marker(line).Some? ==> exists n :: Marker(line) == Some(CustomResultKey(n))
  {
    PrefixesDiffer(line);
    var prefix := CUSTOM_CMD_SEPARATOR + ".";
    var rest := line[|prefix|..];
    MarkerNameIsExact(rest, name);
    assert line == prefix + rest;
    if line == CustomCmdMarker(name) {
      assert rest == ENCODED_NAME_PREFIX + EncodeMarkerName(name);
    }
    if Marker(line) == Some(CustomResultKey(name)) {
      var decoded := DecodeMarkerName(rest);
      assert CustomResultKey(decoded.value)[|prefix|..] == decoded.value;
      assert CustomResultKey(name)[|prefix|..] == name;
    }
  }

  /** A line opens a section exactly when it is the marker the printers produce
      for that section; anything else, however it starts, is output. */
  lemma {:induction false} MarkerIsExact(line: string, key: string)
    ensures Marker(line) == Some(key)
       <==> line == CmdMarker(key) || exists name :: key == CustomResultKey(name) && line == CustomCmdMarker(name)
  {
    PrefixesDiffer(line);
    assert SEPARATOR + "." <= CmdMarker(key);
    forall name ensures CUSTOM_CMD_SEPARATOR + "." <= CustomCmdMarker(name) {}
    if SEPARATOR + "." <= line {
      BuiltinMarker(line, key);
    } else if CUSTOM_CMD_SEPARATOR + "." <= line {
      forall name
        ensures Marker(line) == Some(CustomResultKey(name)) <==> line == CustomCmdMarker(name)
      {
        CustomMarker(line, name);
      }
      CustomMarker(line, "");
    }
  }

  // ---------------------------------------------------------------------------
  // The parser
  // ---------------------------------------------------------------------------

  type Segments = seq<(string, string)>

  function Flush(current: Option<string>, buf: string): Segments {
    if current.Some? then [(current.value, Trim(buf))] else []
  }

  /** The sections of the remaining lines, with one section possibly open. */
  function ParseLines(lines: seq<string>, current: Option<string>, buf: string): Segments
    decreases |lines|
  {
    if lines == [] then Flush(current, buf)
    else
      var line := StripCr(lines[0]);
      var marker := Marker(line);
      if marker.Some? then Flush(current, buf) + ParseLines(lines[1..], marker, "")
      else if current.Some? then ParseLines(lines[1..], current, buf + line + "\n")
      else ParseLines(lines[1..], None, buf)
  }

  function ParseSegments(raw: string): Segments {
    ParseLines(Split(raw, '\n'), None, "")
  }

  lemma {:induction false} NoLinesParse(current: Option<string>, buf: string)
    ensures ParseLines([], current, buf) == Flush(current, buf)
  {
  }

  lemma {:induction false} NothingParses()
    ensures ParseSegments("") == []
  {
    EmptyLineEndsTheOutput(None, "");
    assert Split("", '\n') == [""];
  }

  /** What one line does to the parse. */
  lemma {:induction false} ParseOneLine(lines: seq<string>, i: nat, current: Option<string>, buf: string)
    requires i < |lines|
    ensures
      var line := StripCr(lines[i]);
      var marker := Marker(line);
      ParseLines(lines[i..], current, buf) ==
      if marker.Some? then Flush(current, buf) + ParseLines(lines[i + 1..], marker, "")
      else ParseLines(lines[i + 1..], current, if current.Some? then buf + line + "\n" else buf)
  {
    assert lines[i..][0] == lines[i] && lines[i..][1..] == lines[i + 1..];
  }

  /** Closes the open section, if there is one. */
  method Close(segments: Segments, current: Option<string>, buf: string) returns (more: Segments)
    ensures more == segments + Flush(current, buf)
  {
    if current.None? {
      assert segments + [] == segments;
      return segments;
    }
    return segments + [(current.value, Trim(buf))];
  }

  method ParseScriptSegments(raw: string) returns (result: Segments)
    ensures result == ParseSegments(raw)
  {
    result := [];
    if raw == "" {
      NothingParses();
      return;
    }
    var current, buf := None, "";
    var lines := Split(raw, '\n');
    ghost var all := ParseLines(lines, None, "");
    assert lines[0..] == lines && [] + all == all;
    for i := 0 to |lines|
      invariant result + ParseLines(lines[i..], current, buf) == all
    {
      ParseOneLine(lines, i, current, buf);
      var line := WithoutSuffix(lines[i], "\r");
      var marker := Marker(line);
      if marker.Some? {
        Regroup(result, Flush(current, buf), ParseLines(lines[i + 1..], marker, ""));
        result := Close(result, current, buf);
        current, buf := marker, "";
      } else if current.Some? {
        buf := buf + line + "\n";
      }
    }
    assert lines[|lines|..] == [];
    NoLinesParse(current, buf);
    result := Close(result, current, buf);
  }

  // ---------------------------------------------------------------------------
  // What the parser undoes
  // ---------------------------------------------------------------------------

  /** A section as the script prints it: the marker of a built-in or custom
      command, and the lines that command printed. */
  datatype Section = Section(custom: bool, name: string, body: seq<string>)

  function MarkerOf(s: Section): string {
    if s.custom then CustomCmdMarker(s.name) else CmdMarker(s.name)
  }

  function KeyOf(s: Section): string {
    if s.custom then CustomResultKey(s.name) else s.name
  }

  function PrintedLines(sections: seq<Section>): seq<string> {
    if sections == [] then [] else [MarkerOf(sections[0])] + sections[0].body + PrintedLines(sections[1..])
  }

  /** The body as the parser buffers it. */
  function BodyText(body: seq<string>): string {
    if body == [] then "" else StripCr(body[0]) + "\n" + BodyText(body[1..])
  }

  function Parsed(sections: seq<Section>): Segments {
    if sections == [] then []
    else [(KeyOf(sections[0]), Trim(BodyText(sections[0].body)))] + Parsed(sections[1..])
  }

  /** Lines of which none opens a section. */
  ghost predicate Plain(lines: seq<string>) {
    forall i :: 0 <= i < |lines| ==> '\n' !in lines[i] && Marker(StripCr(lines[i])).None?
  }

  ghost predicate PlainBodies(sections: seq<Section>) {
    sections != [] ==> Plain(sections[0].body) && PlainBodies(sections[1..])
  }

  predicate SingleLines(lines: seq<string>) {
    forall i :: 0 <= i < |lines| ==> '\n' !in lines[i]
  }

  predicate BodiesOfLines(sections: seq<Section>) {
    sections != [] ==> SingleLines(sections[0].body) && BodiesOfLines(sections[1..])
  }

  lemma {:induction false} PlainBodiesAreLines(sections: seq<Section>)
    requires PlainBodies(sections)
    ensures BodiesOfLines(sections)
  {
    if sections != [] {
      PlainBodiesAreLines(sections[1..]);
    }
  }

  lemma {:induction false} PlainLinesAreBuffered(lines: seq<string>, rest: seq<string>, key: string, buf: string)
    requires Plain(lines)
    ensures ParseLines(lines + rest, Some(key), buf) == ParseLines(rest, Some(key), buf + BodyText(lines))
    decreases |lines|
  {
    if lines == [] {
      assert lines + rest == rest && buf + "" == buf;
    } else {
      assert (lines + rest)[1..] == lines[1..] + rest;
      PlainLinesAreBuffered(lines[1..], rest, key, buf + StripCr(lines[0]) + "\n");
      assert buf + StripCr(lines[0]) + "\n" + BodyText(lines[1..]) == buf + BodyText(lines);
    }
  }

  /** Whatever comes before the first marker is ignored. */
  lemma {:induction false} PreambleIsIgnored(lines: seq<string>, rest: seq<string>)
    requires Plain(lines)
    ensures ParseLines(lines + rest, None, "") == ParseLines(rest, None, "")
    decreases |lines|
  {
    if lines == [] {
      assert lines + rest == rest;
    } else {
      assert (lines + rest)[1..] == lines[1..] + rest;
      PreambleIsIgnored(lines[1..], rest);
    }
  }

  lemma {:induction false} NoCrToStrip(line: string)
    requires '\r' !in line
    ensures StripCr(line) == line
  {
    if line != "" {
      assert line[|line| - 1] in line;
    }
  }

  lemma {:induction false} EncodedNameIsOneLine(name: string)
    ensures '\n' !in EncodeMarkerName(name) && '\r' !in EncodeMarkerName(name)
  {
    Base64.EncodedInAlphabet(Base64.UrlSafe, Utf8.Encode(name));
    assert !Base64.InAlphabet(Base64.UrlSafe, '\n') && !Base64.InAlphabet(Base64.UrlSafe, '\r');
  }

  lemma {:induction false} MarkerIsOneLine(s: Section)
    ensures '\n' !in MarkerOf(s) && '\r' !in MarkerOf(s)
  {
    EncodedNameIsOneLine(s.name);
    var prefix := (if s.custom then CUSTOM_CMD_SEPARATOR else SEPARATOR) + "." + ENCODED_NAME_PREFIX;
    assert '\n' !in prefix && '\r' !in prefix;
    assert MarkerOf(s) == prefix + EncodeMarkerName(s.name);
  }

  lemma {:induction false} MarkerLine(s: Section)
    ensures '\n' !in MarkerOf(s) && StripCr(MarkerOf(s)) == MarkerOf(s) && Marker(MarkerOf(s)) == Some(KeyOf(s))
  {
    MarkerIsOneLine(s);
    NoCrToStrip(MarkerOf(s));
    MarkerIsExact(MarkerOf(s), KeyOf(s));
  }

  lemma {:induction false} EmptyLineIsNoMarker()
    ensures StripCr("") == "" && Marker("").None?
  {
  }

  lemma {:induction false} EmptyLineEndsTheOutput(current: Option<string>, buf: string)
    ensures ParseLines([""], current, buf) == Flush(current, buf)
  {
    EmptyLineIsNoMarker();
    assert [""][1..] == [];
    if current.Some? {
      var more := buf + "" + "\n";
      assert more == buf + ['\n'];
      TrimEndSpace(buf, '\n');
      assert ParseLines([""], current, buf) == ParseLines([], current, more);
    }
  }

  lemma {:induction false} MarkerOpensASection(s: Section, rest: seq<string>, current: Option<string>, buf: string)
    ensures ParseLines([MarkerOf(s)] + rest, current, buf) == Flush(current, buf) + ParseLines(rest, Some(KeyOf(s)), "")
  {
    MarkerLine(s);
    assert ([MarkerOf(s)] + rest)[1..] == rest;
  }

  lemma {:induction false} PrintedAhead(sections: seq<Section>)
    requires sections != []
    ensures PrintedLines(sections) + [""]
         == [MarkerOf(sections[0])] + (sections[0].body + (PrintedLines(sections[1..]) + [""]))
  {
    var marker, body, rest := [MarkerOf(sections[0])], sections[0].body, PrintedLines(sections[1..]);
    Regroup(marker + body, rest, [""]);
    Regroup(marker, body, rest + [""]);
  }

  lemma {:induction false} PrintedLinesParse(sections: seq<Section>, current: Option<string>, buf: string)
    requires PlainBodies(sections)
    ensures ParseLines(PrintedLines(sections) + [""], current, buf) == Flush(current, buf) + Parsed(sections)
    decreases |sections|
  {
    if sections == [] {
      assert [] + [""] == [""];
      EmptyLineEndsTheOutput(current, buf);
    } else {
      var s, rest := sections[0], PrintedLines(sections[1..]) + [""];
      PrintedAhead(sections);
      MarkerOpensASection(s, s.body + rest, current, buf);
      PlainLinesAreBuffered(s.body, rest, KeyOf(s), "");
      assert "" + BodyText(s.body) == BodyText(s.body);
      PrintedLinesParse(sections[1..], Some(KeyOf(s)), BodyText(s.body));
    }
  }

  /** The round trip: whatever is printed before the first marker, and whatever
      sections with plain bodies follow, parsing gives back their keys in order
      with their bodies trimmed. */
  lemma {:induction false} PrintedSectionsParseBack(preamble: seq<string>, sections: seq<Section>)
    requires Plain(preamble) && PlainBodies(sections)
    ensures ParseSegments(Terminated(preamble + PrintedLines(sections), "\n")) == Parsed(sections)
  {
    PlainBodiesAreLines(sections);
    PrintedLinesAreSingle(sections);
    var lines := preamble + PrintedLines(sections);
    SplitTerminated(lines, '\n');
    assert lines + [""] == preamble + (PrintedLines(sections) + [""]);
    PreambleIsIgnored(preamble, PrintedLines(sections) + [""]);
    PrintedLinesParse(sections, None, "");
  }

  /** How many lines open a section. */
  function Markers(lines: seq<string>): nat {
    if lines == [] then 0 else (if Marker(StripCr(lines[0])).Some? then 1 else 0) + Markers(lines[1..])
  }

  lemma {:induction false} EveryMarkerIsASection(lines: seq<string>, current: Option<string>, buf: string)
    ensures |ParseLines(lines, current, buf)| == (if current.Some? then 1 else 0) + Markers(lines)
    decreases |lines|
  {
    if lines != [] {
      var line := StripCr(lines[0]);
      if Marker(line).Some? {
        EveryMarkerIsASection(lines[1..], Marker(line), "");
      } else if current.Some? {
        EveryMarkerIsASection(lines[1..], current, buf + line + "\n");
      } else {
        EveryMarkerIsASection(lines[1..], None, buf);
      }
    }
  }

  lemma {:induction false} MarkersConcat(a: seq<string>, b: seq<string>)
    ensures Markers(a + b) == Markers(a) + Markers(b)
  {
    if a == [] {
      assert a + b == b;
    } else {
      assert (a + b)[1..] == a[1..] + b;
      MarkersConcat(a[1..], b);
    }
  }

  lemma {:induction false} NoMarkersMeansPlain(lines: seq<string>)
    requires SingleLines(lines)
    ensures Markers(lines) == 0 <==> Plain(lines)
  {
    if lines != [] {
      NoMarkersMeansPlain(lines[1..]);
      if Plain(lines[1..]) && Marker(StripCr(lines[0])).None? {
        assert forall i :: 1 <= i < |lines| ==> lines[i] == lines[1..][i - 1];
      }
      if Plain(lines) {
        assert forall i :: 0 <= i < |lines| - 1 ==> lines[1..][i] == lines[i + 1];
      }
    }
  }

  lemma {:induction false} MarkersOfSection(s: Section, rest: seq<string>)
    ensures Markers([MarkerOf(s)] + (s.body + rest)) == 1 + Markers(s.body) + Markers(rest)
  {
    MarkerLine(s);
    var after := s.body + rest;
    assert ([MarkerOf(s)] + after)[1..] == after;
    MarkersConcat(s.body, rest);
  }

  lemma {:induction false} ParsedLength(sections: seq<Section>)
    ensures |Parsed(sections)| == |sections|
  {
    if sections != [] {
      ParsedLength(sections[1..]);
    }
  }

  lemma {:induction false} PrintedMarkers(sections: seq<Section>)
    requires BodiesOfLines(sections)
    ensures Markers(PrintedLines(sections)) >= |sections|
    ensures Markers(PrintedLines(sections)) == |sections| <==> PlainBodies(sections)
    decreases |sections|
  {
    if sections != [] {
      var s, rest := sections[0], PrintedLines(sections[1..]);
      PrintedMarkers(sections[1..]);
      assert PrintedLines(sections) == [MarkerOf(s)] + (s.body + rest);
      MarkersOfSection(s, rest);
      NoMarkersMeansPlain(s.body);
    }
  }

  /** Plain bodies are exactly what the round trip needs: a command that prints a
      well-formed marker line, encoding and all, opens a section of its own. */
  lemma {:induction false} RoundTripNeedsPlainBodies(sections: seq<Section>)
    requires BodiesOfLines(sections)
    ensures ParseSegments(Terminated(PrintedLines(sections), "\n")) == Parsed(sections) <==> PlainBodies(sections)
  {
    if PlainBodies(sections) {
      PrintedSectionsParseBack([], sections);
      assert [] + PrintedLines(sections) == PrintedLines(sections);
    } else {
      PrintedMarkers(sections);
      ParsedLength(sections);
      var lines := PrintedLines(sections);
      PrintedLinesAreSingle(sections);
      SplitTerminated(lines, '\n');
      EveryMarkerIsASection(lines + [""], None, "");
      MarkersConcat(lines, [""]);
    }
  }

  lemma {:induction false} PrintedLinesAreSingle(sections: seq<Section>)
    requires BodiesOfLines(sections)
    ensures SingleLines(PrintedLines(sections))
    decreases |sections|
  {
    if sections != [] {
      MarkerLine(sections[0]);
      PrintedLinesAreSingle(sections[1..]);
      assert SingleLines([MarkerOf(sections[0])] + sections[0].body);
    }
  }

  // Output that is collected in parts, or with other line ends.

  lemma {:induction false} ParseFromMarker(a: seq<string>, b: seq<string>, current: Option<string>, buf: string)
    requires b != [] && Marker(StripCr(b[0])).Some?
    ensures ParseLines(a + b, current, buf) == ParseLines(a, current, buf) + ParseLines(b, None, "")
    decreases |a|
  {
    if a == [] {
      assert a + b == b;
      assert Flush(None, "") + ParseLines(b[1..], Marker(StripCr(b[0])), "") == ParseLines(b[1..], Marker(StripCr(b[0])), "");
    } else {
      assert (a + b)[1..] == a[1..] + b;
      var line := StripCr(a[0]);
      var marker := Marker(line);
      if marker.Some? {
        ParseFromMarker(a[1..], b, marker, "");
        Regroup(Flush(current, buf), ParseLines(a[1..], marker, ""), ParseLines(b, None, ""));
      } else if current.Some? {
        ParseFromMarker(a[1..], b, current, buf + line + "\n");
      } else {
        ParseFromMarker(a[1..], b, None, buf);
      }
    }
  }

  /** Outputs joined by a newline parse to the joined sections, provided the second
      one opens with a marker. */
  lemma {:induction false} JoinedOutputsParseApart(a: string, b: string)
    requires Marker(StripCr(Split(b, '\n')[0])).Some?
    ensures ParseSegments(a + "\n" + b) == ParseSegments(a) + ParseSegments(b)
  {
    SplitAt(a, '\n', b);
    ParseFromMarker(Split(a, '\n'), Split(b, '\n'), None, "");
  }

  function ToCrlf(s: string): string {
    if s == "" then "" else (if s[0] == '\n' then "\r\n" else [s[0]]) + ToCrlf(s[1..])
  }

  /** Every line but the last with a carriage return added. */
  function WithCr(lines: seq<string>): seq<string> {
    if |lines| <= 1 then lines else [lines[0] + "\r"] + WithCr(lines[1..])
  }

  lemma {:induction false} SplitCons(c: char, s: string)
    ensures c != '\n' ==> Split([c] + s, '\n') == [[c] + Split(s, '\n')[0]] + Split(s, '\n')[1..]
    ensures c == '\n' ==> Split([c] + s, '\n') == [""] + Split(s, '\n')
  {
    assert ([c] + s)[1..] == s;
  }

  lemma {:induction false} SplitCrlfPair(more: string)
    ensures Split("\r\n" + more, '\n') == ["\r"] + Split(more, '\n')
  {
    assert "\r\n" + more == ['\r'] + (['\n'] + more);
    SplitCons('\n', more);
    SplitCons('\r', ['\n'] + more);
    assert ([""] + Split(more, '\n'))[1..] == Split(more, '\n');
    assert ['\r'] + "" == "\r";
  }

  lemma {:induction false} WithCrCons(rest: seq<string>)
    requires rest != []
    ensures WithCr([""] + rest) == ["\r"] + WithCr(rest)
  {
    assert ([""] + rest)[1..] == rest;
    assert "" + "\r" == "\r";
  }

  /** A character put before the first line stays before it. */
  lemma {:induction false} WithCrFirst(c: char, rest: seq<string>)
    requires rest != []
    ensures WithCr([[c] + rest[0]] + rest[1..]) == [[c] + WithCr(rest)[0]] + WithCr(rest)[1..]
  {
    var lines := [[c] + rest[0]] + rest[1..];
    if |rest| > 1 {
      assert lines[1..] == rest[1..];
      assert [c] + (rest[0] + "\r") == [c] + rest[0] + "\r";
      assert WithCr(rest)[1..] == WithCr(rest[1..]);
    }
  }

  lemma {:induction false} SplitCrlf(s: string)
    ensures Split(ToCrlf(s), '\n') == WithCr(Split(s, '\n'))
  {
    if s != "" {
      var rest := Split(s[1..], '\n');
      SplitCrlf(s[1..]);
      assert s == [s[0]] + s[1..];
      SplitCons(s[0], s[1..]);
      if s[0] == '\n' {
        SplitCrlfPair(ToCrlf(s[1..]));
        WithCrCons(rest);
      } else {
        SplitCons(s[0], ToCrlf(s[1..]));
        WithCrFirst(s[0], rest);
      }
    }
  }

  lemma {:induction false} CrIsStripped(lines: seq<string>, current: Option<string>, buf: string)
    requires forall i :: 0 <= i < |lines| ==> '\r' !in lines[i]
    ensures ParseLines(WithCr(lines), current, buf) == ParseLines(lines, current, buf)
    decreases |lines|
  {
    if |lines| > 1 {
      var line := lines[0];
      assert '\r' !in lines[0];
      assert StripCr(line) == line by {
        if line != "" { assert line[|line| - 1] in line; }
      }
      assert StripCr(line + "\r") == line;
      assert WithCr(lines)[1..] == WithCr(lines[1..]);
      var marker := Marker(line);
      CrIsStripped(lines[1..], if marker.Some? then marker else current,
                   if marker.Some? then "" else if current.Some? then buf + line + "\n" else buf);
    }
  }

  lemma {:induction false} SplitKeepsOut(s: string, c: char, sep: char)
    requires c !in s
    ensures forall i :: 0 <= i < |Split(s, sep)| ==> c !in Split(s, sep)[i]
  {
    if s != "" {
      SplitKeepsOut(s[1..], c, sep);
    }
  }

  /** Output with CRLF line ends parses as the same output with LF line ends. */
  lemma {:induction false} CrlfParsesAlike(raw: string)
    requires '\r' !in raw
    ensures ParseSegments(ToCrlf(raw)) == ParseSegments(raw)
  {
    SplitCrlf(raw);
    SplitKeepsOut(raw, '\r', '\n');
    CrIsStripped(Split(raw, '\n'), None, "");
  }
}
