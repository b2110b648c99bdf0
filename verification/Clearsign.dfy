/**
 The clearsigned-message decoder and the framework of section 7 of RFC 4880 it undoes: armor
 header, Hash: headers, a blank line, the dash-escaped text, the signature.
*/
module Clearsign {
  import opened Common
  import opened TextLines

  const HEADER: string := "-----BEGIN PGP SIGNED MESSAGE-----"
  const SIGNATURE: string := "-----BEGIN PGP SIGNATURE-----"

  /** The last is what `next` raises when no whole line is the header. */
  datatype Error = NotClearsigned | NoHeaderLine

  // ------------------------------------------------------------------ decoding

  function AfterHeader(lines: seq<string>): Option<seq<string>> {
    if lines == [] then None
    else if Strip(lines[0]) == HEADER then Some(lines[1..])
    else AfterHeader(lines[1..])
  }

  function AfterBlank(lines: seq<string>): seq<string> {
    if lines == [] then []
    else if lines[0] == "" then lines[1..]
    else AfterBlank(lines[1..])
  }

  function Unescape(line: string): string {
    if "- " <= line then line[2..] else if line == "-" then "" else line
  }

  function Body(lines: seq<string>): seq<string> {
    if lines == [] || Strip(lines[0]) == SIGNATURE then []
    else [Unescape(lines[0])] + Body(lines[1..])
  }

  function Extracted(text: string): Result<string, Error> {
    if !Occurs(HEADER, text) || !Occurs(SIGNATURE, text) then Err(NotClearsigned)
    else
      match AfterHeader(SplitLines(text))
      case None => Err(NoHeaderLine)
      case Some(rest) => Ok(Join(Body(AfterBlank(rest))) + "\n")
  }

  /** The index behind the first header line. */
  method FindHeader(lines: seq<string>) returns (start: Option<nat>)
    ensures start.Some? ==> start.value <= |lines| && AfterHeader(lines) == Some(lines[start.value..])
    ensures start.None? ==> AfterHeader(lines) == None
  {
    hide Strip;
    for idx := 0 to |lines|
      invariant AfterHeader(lines) == AfterHeader(lines[idx..])
    {
      if Strip(lines[idx]) == HEADER {
        return Some(idx + 1);
      }
    }
    return None;
  }

  /** The index behind the blank line that ends the armor headers, or one past the end of the text. */
  method SkipHashes(lines: seq<string>, start: nat) returns (idx: nat)
    requires start <= |lines|
    ensures idx <= |lines| ==> AfterBlank(lines[start..]) == lines[idx..]
    ensures idx > |lines| ==> AfterBlank(lines[start..]) == []
  {
    idx := start;
    while idx < |lines| && lines[idx] != ""
      invariant idx <= |lines|
      invariant AfterBlank(lines[start..]) == AfterBlank(lines[idx..])
    {
      idx := idx + 1;
    }
    idx := idx + 1;
  }

  method CollectPayload(lines: seq<string>, start: nat) returns (payload: seq<string>)
    ensures payload == Body(if start <= |lines| then lines[start..] else [])
  {
    hide Strip, Unescape;
    payload := [];
    var idx := start;
    while idx < |lines| && Strip(lines[idx]) != SIGNATURE
      invariant start <= |lines| ==> idx <= |lines| && payload + Body(lines[idx..]) == Body(lines[start..])
      invariant start > |lines| ==> payload == []
      decreases |lines| - idx
    {
      payload := payload + [Unescape(lines[idx])];
      idx := idx + 1;
    }
  }

  /** The decoder, loop by loop. */
  method ExtractClearsignedPayload(text: string) returns (r: Result<string, Error>)
    ensures r == Extracted(text)
  {
    hide Occurs, SplitLines, Join, Body, AfterHeader, AfterBlank;
    if !Occurs(HEADER, text) || !Occurs(SIGNATURE, text) {
      return Err(NotClearsigned);
    }
    var lines := SplitLines(text);
    var start := FindHeader(lines);
    if start.None? {
      return Err(NoHeaderLine);
    }
    var idx := SkipHashes(lines, start.value);
    var payload := CollectPayload(lines, idx);
    r := Ok(Join(payload) + "\n");
  }

  // ------------------------------------------------------------------ encoding

  /** Ways a signer may write a line; `Trimmed` is an escaped empty line that lost its blank. */
  datatype Style = Plain | Escaped | Trimmed

  function Written(line: string, style: Style): string {
    match style
    case Plain => line
    case Escaped => "- " + line
    case Trimmed => "-"
  }

  /** Section 7.1: a line that starts with a dash must be escaped, any other may be. */
  predicate Legal(line: string, style: Style) {
    match style
    case Plain => !("-" <= line)
    case Escaped => true
    case Trimmed => line == ""
  }

  ghost predicate LegalEach(lines: seq<string>, styles: seq<Style>) {
    |lines| == |styles| && forall k :: 0 <= k < |lines| ==> Legal(lines[k], styles[k])
  }

  function WrittenEach(lines: seq<string>, styles: seq<Style>): (written: seq<string>)
    requires |lines| == |styles|
    ensures |written| == |lines|
    ensures forall k :: 0 <= k < |lines| ==> written[k] == Written(lines[k], styles[k])
  {
    if lines == [] then [] else [Written(lines[0], styles[0])] + WrittenEach(lines[1..], styles[1..])
  }

  /** What surrounds the signed text. */
  datatype Frame = Frame(before: seq<string>, header: string, hashes: seq<string>,
                         signature: string, after: seq<string>, eol: string)

  ghost predicate ProperFrame(frame: Frame) {
    && OneLineEach(frame.before) && OneLineEach(frame.hashes) && OneLineEach(frame.after)
    && OneLine(frame.header) && OneLine(frame.signature) && IsEol(frame.eol)
    && (forall k :: 0 <= k < |frame.before| ==> Strip(frame.before[k]) != "-----BEGIN PGP SIGNED MESSAGE-----")
    && Strip(frame.header) == "-----BEGIN PGP SIGNED MESSAGE-----"
    && (forall k :: 0 <= k < |frame.hashes| ==> frame.hashes[k] != "")
    && Strip(frame.signature) == "-----BEGIN PGP SIGNATURE-----"
  }

  function Head(frame: Frame): seq<string> {
    frame.before + [frame.header] + frame.hashes + [""]
  }

  function Tail(frame: Frame): seq<string> {
    [frame.signature] + frame.after
  }

  function Document(frame: Frame, lines: seq<string>, styles: seq<Style>): string
    requires |lines| == |styles|
  {
    Text(Head(frame) + WrittenEach(lines, styles) + Tail(frame), frame.eol)
  }

  // ------------------------------------------------------------------ the round trip

  lemma {:induction false} AfterHeaderSkips(before: seq<string>, header: string, rest: seq<string>)
    requires forall k :: 0 <= k < |before| ==> Strip(before[k]) != HEADER
    requires Strip(header) == HEADER
    ensures AfterHeader(before + [header] + rest) == Some(rest)
  {
    var all := before + [header] + rest;
    if before == [] {
      assert all[1..] == rest;
    } else {
      assert all[1..] == before[1..] + [header] + rest;
      AfterHeaderSkips(before[1..], header, rest);
    }
  }

  lemma {:induction false} AfterBlankSkips(hashes: seq<string>, rest: seq<string>)
    requires forall k :: 0 <= k < |hashes| ==> hashes[k] != ""
    ensures AfterBlank(hashes + [""] + rest) == rest
  {
    var all := hashes + [""] + rest;
    if hashes == [] {
      assert all[1..] == rest;
    } else {
      assert all[1..] == hashes[1..] + [""] + rest;
      AfterBlankSkips(hashes[1..], rest);
    }
  }

  /** The decoder reads exactly up to the first line that strips to the signature header. */
  lemma {:induction false} BodyStopsAt(written: seq<string>, stop: string, rest: seq<string>)
    requires forall k :: 0 <= k < |written| ==> Strip(written[k]) != SIGNATURE
    requires Strip(stop) == SIGNATURE
    ensures |Body(written + [stop] + rest)| == |written|
    ensures forall k :: 0 <= k < |written| ==> Body(written + [stop] + rest)[k] == Unescape(written[k])
  {
    hide Strip, Unescape;
    var all := written + [stop] + rest;
    if written == [] {
    } else {
      assert all[1..] == written[1..] + [stop] + rest;
      BodyStopsAt(written[1..], stop, rest);
    }
  }

  lemma UnescapeUndoes(line: string, style: Style)
    requires Legal(line, style)
    ensures Unescape(Written(line, style)) == line
  {
  }

  /** An escaped line never passes for the signature header. */
  lemma EscapedIsNoSignature(line: string)
    ensures Strip("- " + line) != SIGNATURE
  {
    StripKeepsStart("- " + line);
    var s := Strip("- " + line);
    assert |s| > 1 ==> s[1] == ("- " + line)[1];
    assert SIGNATURE[1] == '-';
  }

  predicate LooksLikeSignature(line: string, style: Style) {
    style == Plain && Strip(line) == "-----BEGIN PGP SIGNATURE-----"
  }

  lemma SignatureLookalikes(line: string, style: Style)
    requires Legal(line, style)
    ensures Strip(Written(line, style)) == SIGNATURE <==> LooksLikeSignature(line, style)
  {
    match style
    case Plain =>
    case Escaped => EscapedIsNoSignature(line);
    case Trimmed => StripKeepsStart("-");
  }

  lemma WrittenLine(lines: seq<string>, styles: seq<Style>, k: nat)
    requires LegalEach(lines, styles) && k < |lines|
    ensures Strip(WrittenEach(lines, styles)[k]) == SIGNATURE <==> LooksLikeSignature(lines[k], styles[k])
    ensures Unescape(WrittenEach(lines, styles)[k]) == lines[k]
  {
    assert Legal(lines[k], styles[k]);
    SignatureLookalikes(lines[k], styles[k]);
    UnescapeUndoes(lines[k], styles[k]);
  }

  lemma {:induction false} BodyUpTo(all: seq<string>, n: nat, lines: seq<string>)
    requires n < |all| && Strip(all[n]) == SIGNATURE && n <= |lines|
    requires forall k :: 0 <= k < n ==> Strip(all[k]) != SIGNATURE && Unescape(all[k]) == lines[k]
    ensures Body(all) == lines[..n]
  {
    hide Body, Strip, Unescape;
    assert all == all[..n] + [all[n]] + all[n + 1..];
    BodyStopsAt(all[..n], all[n], all[n + 1..]);
  }

  /** Decoding stops before line `n` of the text when that is the first lookalike, else at its end. */
  lemma {:induction false} BodyOfText(lines: seq<string>, styles: seq<Style>, n: nat, frame: Frame)
    requires LegalEach(lines, styles) && ProperFrame(frame) && n <= |lines|
    requires forall k :: 0 <= k < n ==> !LooksLikeSignature(lines[k], styles[k])
    requires n < |lines| ==> LooksLikeSignature(lines[n], styles[n])
    ensures Body(WrittenEach(lines, styles) + Tail(frame)) == lines[..n]
  {
    hide Body, Strip, Unescape, Legal, LooksLikeSignature, OneLineEach, OneLine, WrittenEach;
    var written := WrittenEach(lines, styles);
    var all := written + Tail(frame);
    forall k | 0 <= k <= n && k < |lines|
      ensures Strip(all[k]) == SIGNATURE <==> LooksLikeSignature(lines[k], styles[k])
      ensures Unescape(all[k]) == lines[k]
    {
      WrittenLine(lines, styles, k);
    }
    BodyUpTo(all, n, lines);
  }

  lemma BothHeadersOccur(frame: Frame, lines: seq<string>, styles: seq<Style>)
    requires ProperFrame(frame) && |lines| == |styles|
    ensures Occurs(HEADER, Document(frame, lines, styles))
    ensures Occurs(SIGNATURE, Document(frame, lines, styles))
  {
    var written := WrittenEach(lines, styles);
    var all := Head(frame) + written + Tail(frame);
    assert all[|frame.before|] == frame.header;
    StripOccurs(frame.header);
    OccursInText(HEADER, all, |frame.before|, frame.eol);
    assert all[|Head(frame)| + |written|] == frame.signature;
    StripOccurs(frame.signature);
    OccursInText(SIGNATURE, all, |Head(frame)| + |written|, frame.eol);
  }

  /** Escaping adds no line breaks. */
  lemma {:induction false} DocumentLines(frame: Frame, lines: seq<string>, styles: seq<Style>)
    requires ProperFrame(frame) && |lines| == |styles| && OneLineEach(lines)
    ensures SplitLines(Document(frame, lines, styles)) == Head(frame) + WrittenEach(lines, styles) + Tail(frame)
  {
    var written := WrittenEach(lines, styles);
    forall k | 0 <= k < |written| ensures OneLine(written[k]) {
      assert OneLine(lines[k]);
    }
    assert OneLineEach(Head(frame)) && OneLineEach(Tail(frame));
    SplitLinesOfText(Head(frame) + written + Tail(frame), frame.eol);
  }

  lemma {:induction false} ExtractedFromDocument(frame: Frame, lines: seq<string>, styles: seq<Style>)
    requires ProperFrame(frame) && LegalEach(lines, styles) && OneLineEach(lines)
    ensures Extracted(Document(frame, lines, styles)) == Ok(Join(Body(WrittenEach(lines, styles) + Tail(frame))) + "\n")
  {
    hide Occurs, SplitLines, Strip, Join, Body, OneLine, WrittenEach, OneLineEach;
    var signed := WrittenEach(lines, styles) + Tail(frame);
    BothHeadersOccur(frame, lines, styles);
    DocumentLines(frame, lines, styles);
    var rest := frame.hashes + [""] + signed;
    assert Head(frame) + WrittenEach(lines, styles) + Tail(frame) == frame.before + [frame.header] + rest;
    AfterHeaderSkips(frame.before, frame.header, rest);
    AfterBlankSkips(frame.hashes, signed);
  }

  /** Every decoded text is made of whole lines: of the line breaks it holds newlines only. */
  lemma ExtractedBreaks(text: string)
    requires Extracted(text).Ok?
    ensures forall c :: c in Extracted(text).value && IsBreak(c) ==> c == '\n'
  {
    var lines := SplitLines(text);
    AfterHeaderIsSuffix(lines);
    var rest := AfterHeader(lines).value;
    AfterBlankIsSuffix(rest);
    BodyIsOneLineEach(AfterBlank(rest));
    JoinBreaks(Body(AfterBlank(rest)));
  }

  lemma {:induction false} AfterHeaderIsSuffix(lines: seq<string>)
    requires OneLineEach(lines) && AfterHeader(lines).Some?
    ensures OneLineEach(AfterHeader(lines).value)
  {
    if Strip(lines[0]) != HEADER {
      AfterHeaderIsSuffix(lines[1..]);
    }
  }

  lemma {:induction false} AfterBlankIsSuffix(lines: seq<string>)
    requires OneLineEach(lines)
    ensures OneLineEach(AfterBlank(lines))
  {
    if lines != [] && lines[0] != "" {
      AfterBlankIsSuffix(lines[1..]);
    }
  }

  lemma {:induction false} BodyIsOneLineEach(lines: seq<string>)
    requires OneLineEach(lines)
    ensures OneLineEach(Body(lines))
  {
    if lines != [] && Strip(lines[0]) != SIGNATURE {
      assert OneLine(Unescape(lines[0]));
      BodyIsOneLineEach(lines[1..]);
    }
  }

  ghost predicate NoLookalike(lines: seq<string>, styles: seq<Style>)
    requires |lines| == |styles|
  {
    forall k :: 0 <= k < |lines| ==> !LooksLikeSignature(lines[k], styles[k])
  }

  lemma FirstLookalike(lines: seq<string>, styles: seq<Style>) returns (n: nat)
    requires |lines| == |styles|
    ensures n <= |lines|
    ensures forall k :: 0 <= k < n ==> !LooksLikeSignature(lines[k], styles[k])
    ensures n < |lines| ==> LooksLikeSignature(lines[n], styles[n])
  {
    n := 0;
    while n < |lines| && !LooksLikeSignature(lines[n], styles[n])
      invariant n <= |lines|
      invariant forall k :: 0 <= k < n ==> !LooksLikeSignature(lines[k], styles[k])
    {
      n := n + 1;
    }
  }

  lemma DecodesUpToLookalike(frame: Frame, lines: seq<string>, styles: seq<Style>)
    requires ProperFrame(frame) && LegalEach(lines, styles) && OneLineEach(lines)
    ensures Extracted(Document(frame, lines, styles)) == Ok(Join(lines) + "\n") <==> NoLookalike(lines, styles)
  {
    hide Extracted, Document, Join, Legal, Body, WrittenEach, ProperFrame, OneLineEach, OneLine;
    ExtractedFromDocument(frame, lines, styles);
    var n := FirstLookalike(lines, styles);
    BodyOfText(lines, styles, n, frame);
    if n < |lines| {
      LookalikeIsNotEmpty(lines[n], styles[n]);
      JoinGrows(lines, n);
      assert |Join(lines[..n]) + "\n"| < |Join(lines) + "\n"|;
    } else {
      assert lines[..n] == lines;
    }
  }

  lemma LookalikeIsNotEmpty(line: string, style: Style)
    requires LooksLikeSignature(line, style)
    ensures line != ""
  {
  }

  /**
   Section 7.1: from any proper frame around any lines, escaped in any legal way, the decoder
   returns exactly the lines that were signed if and only if no line holds a character at which
   Python breaks lines and no unescaped line strips to the signature header.
  */
  lemma DecodesExactlyWhatWasSigned(frame: Frame, lines: seq<string>, styles: seq<Style>)
    requires ProperFrame(frame) && LegalEach(lines, styles)
    requires forall k :: 0 <= k < |lines| ==> '\n' !in lines[k]
    ensures Extracted(Document(frame, lines, styles)) == Ok(Join(lines) + "\n")
            <==> OneLineEach(lines) && NoLookalike(lines, styles)
  {
    hide Extracted, Document, Join, LooksLikeSignature, Legal;
    var document := Document(frame, lines, styles);
    if OneLineEach(lines) {
      DecodesUpToLookalike(frame, lines, styles);
    } else if Extracted(document) == Ok(Join(lines) + "\n") {
      var k, i :| 0 <= k < |lines| && 0 <= i < |lines[k]| && IsBreak(lines[k][i]);
      JoinHolds(lines, k, lines[k][i]);
      ExtractedBreaks(document);
    }
  }

  /** A text is no clearsigned message if it lacks either header, nor if no line is the header of one. */
  lemma WhenDecodingFails(text: string)
    ensures Extracted(text) == Err(NotClearsigned) <==>
            || (forall a, b: string :: text != a + "-----BEGIN PGP SIGNED MESSAGE-----" + b)
            || (forall a, b: string :: text != a + "-----BEGIN PGP SIGNATURE-----" + b)
    ensures Extracted(text) == Err(NoHeaderLine) ==>
              forall line :: line in SplitLines(text) ==> Strip(line) != "-----BEGIN PGP SIGNED MESSAGE-----"
    ensures Extracted(text).Ok? ==>
              exists line :: line in SplitLines(text) && Strip(line) == "-----BEGIN PGP SIGNED MESSAGE-----"
  {
    OccursIff(HEADER, text);
    OccursIff(SIGNATURE, text);
    HeaderLineIff(SplitLines(text));
  }

  lemma {:induction false} HeaderLineIff(lines: seq<string>)
    ensures AfterHeader(lines).Some? <==> exists line :: line in lines && Strip(line) == HEADER
  {
    if lines == [] {
    } else {
      HeaderLineIff(lines[1..]);
      assert lines == [lines[0]] + lines[1..];
    }
  }
}
