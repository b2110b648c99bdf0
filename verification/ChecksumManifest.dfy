/**
 Checksum manifests: the parser of the image cache, and the files it has to read, which mix
 `digest  name`, `digest *name`, `SHA256 (name) = digest`, bare digests, remarks and blanks.
*/
module ChecksumManifest {
  import opened Common
  import opened TextLines
  import Clearsign

  datatype Algorithm = Sha256 | Sha512

  function HashLength(algorithm: Algorithm): nat {
    if algorithm.Sha256? then 64 else 128
  }

  predicate IsHexDigit(c: char) {
    '0' <= c <= '9' || 'a' <= c <= 'f' || 'A' <= c <= 'F'
  }

  predicate IsHex(s: string) {
    s != "" && forall i :: 0 <= i < |s| ==> IsHexDigit(s[i])
  }

  function LowerChar(c: char): char {
    if 'A' <= c <= 'Z' then c + 32 as char else c
  }

  function Lower(s: string): (r: string)
    ensures |r| == |s|
    ensures forall i :: 0 <= i < |s| ==> r[i] == LowerChar(s[i])
  {
    seq(|s|, i requires 0 <= i < |s| => LowerChar(s[i]))
  }

  // ------------------------------------------------------------------ the parser

  function IndexOf(c: char, s: string): (n: nat)
    ensures n <= |s|
  {
    if s == "" || s[0] == c then 0 else 1 + IndexOf(c, s[1..])
  }

  function LastIndexOf(c: char, s: string): (r: Option<nat>)
    ensures r.Some? ==> r.value < |s| && s[r.value] == c
    ensures r.None? ==> c !in s
  {
    if s == "" then None
    else if s[|s| - 1] == c then Some(|s| - 1)
    else LastIndexOf(c, s[..|s| - 1])
  }

  /** The last component of a POSIX path; empty and `.` components do not count. */
  function PathName(path: string): string
    decreases |path|
  {
    match LastIndexOf('/', path)
    case None => if path == "." then "" else path
    case Some(i) => if path[i + 1..] == "" || path[i + 1..] == "." then PathName(path[..i]) else path[i + 1..]
  }

  function WithoutStars(s: string): string {
    if "*" <= s then WithoutStars(s[1..]) else s
  }

  function WordLength(s: string): (n: nat)
    ensures n <= |s|
    ensures s != "" && !IsSpace(s[0]) ==> n > 0
  {
    if s == "" || IsSpace(s[0]) then 0 else 1 + WordLength(s[1..])
  }

  /** `str.split` at runs of whitespace. */
  function Words(s: string): seq<string>
    decreases |s|
  {
    if s == "" then []
    else if IsSpace(s[0]) then Words(s[1..])
    else [s[..WordLength(s)]] + Words(s[WordLength(s)..])
  }

  datatype Tag = Tag(algorithm: Algorithm, file: string, digest: string)

  /** What follows the algorithm's name in a tagged line. */
  function MatchRest(algorithm: Algorithm, s: string): Option<Tag> {
    if !("(" <= s) then None
    else
      var n := IndexOf(')', s[1..]);
      if n == 0 || n + 1 == |s| then None
      else
        var t := StripLeft(s[n + 2..]);
        if !("=" <= t) then None
        else
          var digest := StripLeft(t[1..]);
          if IsHex(digest) then Some(Tag(algorithm, s[1..n + 1], digest)) else None
  }

  function MatchTag(line: string): Option<Tag> {
    if "SHA256" <= line then MatchRest(Sha256, StripLeft(line[6..]))
    else if "SHA512" <= line then MatchRest(Sha512, StripLeft(line[6..]))
    else None
  }

  /** The digest one line gives for `wanted`. */
  function LineDigest(raw: string, wanted: string, algorithm: Algorithm): Option<string> {
    var line := Strip(raw);
    if line == "" || "#" <= line then None
    else
      match MatchTag(line)
      case Some(tag) =>
        if tag.algorithm == algorithm && PathName(Strip(tag.file)) == wanted && |tag.digest| == HashLength(algorithm)
        then Some(Lower(tag.digest)) else None
      case None => WordsDigest(Words(line), wanted, algorithm)
  }

  function WordsDigest(parts: seq<string>, wanted: string, algorithm: Algorithm): Option<string> {
    if |parts| == 1 && |parts[0]| == HashLength(algorithm) && IsHex(parts[0]) then Some(Lower(parts[0]))
    else if |parts| < 2 then None
    else
      var digest := Lower(parts[0]);
      var candidate := PathName(WithoutStars(parts[|parts| - 1]));
      if candidate == wanted && |digest| == HashLength(algorithm) && IsHex(digest) then Some(digest) else None
  }

  function Find(lines: seq<string>, wanted: string, algorithm: Algorithm): Option<string> {
    if lines == [] then None
    else
      var digest := LineDigest(lines[0], wanted, algorithm);
      if digest.Some? then digest else Find(lines[1..], wanted, algorithm)
  }

  datatype Error = NoEntry(wanted: string)

  function Lookup(text: string, filename: string, algorithm: Algorithm): Result<string, Error> {
    match Find(SplitLines(text), PathName(filename), algorithm)
    case Some(digest) => Ok(digest)
    case None => Err(NoEntry(PathName(filename)))
  }

  /** The parser's loop over the lines. */
  method ParseChecksumManifest(text: string, filename: string, algorithm: Algorithm) returns (r: Result<string, Error>)
    ensures r == Lookup(text, filename, algorithm)
  {
    var wanted := PathName(filename);
    var lines := SplitLines(text);
    for i := 0 to |lines|
      invariant Find(lines, wanted, algorithm) == Find(lines[i..], wanted, algorithm)
    {
      var digest := LineDigest(lines[i], wanted, algorithm);
      if digest.Some? {
        return Ok(digest.value);
      }
    }
    return Err(NoEntry(wanted));
  }

  // ------------------------------------------------------------------ manifests

  datatype Item = Remark(text: string)
                | Bare(digest: string)
                | Listed(digest: string, binary: bool, directory: string, file: string)
                | Tagged(algorithm: Algorithm, directory: string, file: string, digest: string)

  predicate Unspaced(s: string) {
    forall i :: 0 <= i < |s| ==> !IsSpace(s[i])
  }

  /** Some hexadecimal digits. */
  predicate HexDigits(s: string) {
    s != "" && forall i :: 0 <= i < |s| ==> s[i] in "0123456789abcdefABCDEF"
  }

  /** A SHA-256 digest has 64 hexadecimal digits, a SHA-512 digest 128. */
  predicate Fits(digest: string, algorithm: Algorithm) {
    (algorithm == Sha256 && |digest| == 64) || (algorithm == Sha512 && |digest| == 128)
  }

  /** `r` is `digest` with its capitals written small. */
  predicate SmallLetters(digest: string, r: string) {
    && |r| == |digest|
    && forall i :: 0 <= i < |digest| ==>
         match digest[i]
         case 'A' => r[i] == 'a'
         case 'B' => r[i] == 'b'
         case 'C' => r[i] == 'c'
         case 'D' => r[i] == 'd'
         case 'E' => r[i] == 'e'
         case 'F' => r[i] == 'f'
         case c => r[i] == c
  }

  /** A file name both styles can carry. */
  predicate PlainName(file: string) {
    file != "" && file != "." && Unspaced(file) && '/' !in file && ')' !in file && file[0] != '*'
  }

  /** What may stand before the file name: nothing, or directories. */
  predicate PlainDirectory(directory: string) {
    directory == "" || (directory[|directory| - 1] == '/' && Unspaced(directory) && ')' !in directory
                        && directory[0] != '*')
  }

  predicate ProperItem(item: Item) {
    match item
    case Remark(text) => OneLine(text) && (Strip(text) == "" || "#" <= Strip(text))
    case Bare(digest) => HexDigits(digest)
    case Listed(digest, _, directory, file) => HexDigits(digest) && PlainDirectory(directory) && PlainName(file)
    case Tagged(_, directory, file, digest) => HexDigits(digest) && PlainDirectory(directory) && PlainName(file)
  }

  ghost predicate Proper(items: seq<Item>) {
    forall k :: 0 <= k < |items| ==> ProperItem(items[k])
  }

  function TagName(algorithm: Algorithm): string {
    if algorithm.Sha256? then "SHA256" else "SHA512"
  }

  function LineOf(item: Item): string {
    match item
    case Remark(text) => text
    case Bare(digest) => digest
    case Listed(digest, binary, directory, file) => digest + (if binary then " *" else "  ") + (directory + file)
    case Tagged(algorithm, directory, file, digest) =>
      TagName(algorithm) + (" (" + (directory + file) + (") = " + digest))
  }

  function LinesOf(items: seq<Item>): (lines: seq<string>)
    ensures |lines| == |items|
    ensures forall k :: 0 <= k < |items| ==> lines[k] == LineOf(items[k])
  {
    if items == [] then [] else [LineOf(items[0])] + LinesOf(items[1..])
  }

  /** Whether an item is an entry of `algorithm` for `file`; a bare digest is one for any file. */
  predicate Names(item: Item, file: string, algorithm: Algorithm) {
    match item
    case Remark(_) => false
    case Bare(digest) => Fits(digest, algorithm)
    case Listed(digest, _, _, name) => name == file && Fits(digest, algorithm)
    case Tagged(tag, _, name, digest) => tag == algorithm && name == file && Fits(digest, algorithm)
  }

  lemma DigestsAre(digest: string, algorithm: Algorithm)
    ensures HexDigits(digest) <==> IsHex(digest)
    ensures Fits(digest, algorithm) <==> |digest| == HashLength(algorithm)
  {
    assert forall c :: IsHexDigit(c) <==> c in "0123456789abcdefABCDEF";
  }

  lemma LowerIsSmall(digest: string)
    requires HexDigits(digest)
    ensures SmallLetters(digest, Lower(digest))
  {
    forall i | 0 <= i < |digest|
      ensures match digest[i]
              case 'A' => Lower(digest)[i] == 'a'
              case 'B' => Lower(digest)[i] == 'b'
              case 'C' => Lower(digest)[i] == 'c'
              case 'D' => Lower(digest)[i] == 'd'
              case 'E' => Lower(digest)[i] == 'e'
              case 'F' => Lower(digest)[i] == 'f'
              case c => Lower(digest)[i] == c
    {
      assert digest[i] in "0123456789abcdefABCDEF";
    }
  }

  // ------------------------------------------------------------------ words and names

  lemma {:induction false} WordLengthIs(word: string, rest: string)
    requires Unspaced(word)
    requires rest == "" || IsSpace(rest[0])
    ensures WordLength(word + rest) == |word|
  {
    if word == "" {
      assert word + rest == rest;
    } else {
      assert (word + rest)[1..] == word[1..] + rest;
      WordLengthIs(word[1..], rest);
    }
  }

  lemma WordsOfWord(word: string, rest: string)
    requires word != "" && Unspaced(word)
    requires rest == "" || IsSpace(rest[0])
    ensures Words(word + rest) == [word] + Words(rest)
  {
    WordLengthIs(word, rest);
    assert (word + rest)[..|word|] == word;
    assert (word + rest)[|word|..] == rest;
  }

  /** A path as a line of either style can carry it. */
  predicate PlainPath(path: string) {
    path != "" && Unspaced(path) && ')' !in path && path[0] != '*'
  }

  lemma PathIsItself(path: string)
    requires PlainPath(path)
    ensures WithoutStars(path) == path && Strip(path) == path
  {
    StripOfTight(path);
  }

  lemma PathNamesFile(directory: string, file: string)
    requires PlainDirectory(directory) && PlainName(file)
    ensures PlainPath(directory + file) && PathName(directory + file) == file && PathName(file) == file
  {
    DirectoriesDoNotCount("", file);
    if directory == "" {
      assert directory + file == file;
    } else {
      var d := directory[..|directory| - 1];
      DirectoriesDoNotCount(d, file);
      assert directory + file == d + "/" + file;
    }
  }

  lemma {:induction false} WordsAfterSpaces(spaces: string, rest: string)
    requires forall i :: 0 <= i < |spaces| ==> IsSpace(spaces[i])
    ensures Words(spaces + rest) == Words(rest)
  {
    if spaces == "" {
      assert spaces + rest == rest;
    } else {
      assert (spaces + rest)[1..] == spaces[1..] + rest;
      WordsAfterSpaces(spaces[1..], rest);
    }
  }

  lemma {:induction false} WordsOfTwo(first: string, spaces: string, second: string)
    requires first != "" && Unspaced(first) && second != "" && Unspaced(second)
    requires spaces != "" && forall i :: 0 <= i < |spaces| ==> IsSpace(spaces[i])
    ensures Words(first + (spaces + second)) == [first, second]
  {
    WordsOfWord(first, spaces + second);
    WordsAfterSpaces(spaces, second);
    WordsOfWord(second, "");
    assert second + "" == second;
  }

  /** A listed line is a digest and a word, starred or not, that is the path. */
  lemma ListedWords(digest: string, binary: bool, path: string)
    requires IsHex(digest) && PlainPath(path)
    ensures var parts := Words(digest + (if binary then " *" else "  ") + path);
            |parts| == 2 && parts[0] == digest && WithoutStars(parts[1]) == path
  {
    hide Words, WordLength, Strip, PathName;
    PathIsItself(path);
    var line := digest + (if binary then " *" else "  ") + path;
    if binary {
      var word := "*" + path;
      assert line == digest + (" " + word);
      WordsOfTwo(digest, " ", word);
      assert word[1..] == path;
    } else {
      assert line == digest + ("  " + path);
      WordsOfTwo(digest, "  ", path);
    }
  }

  lemma {:induction false} IndexOfFirst(c: char, s: string, rest: string)
    requires c !in s
    requires rest != "" && rest[0] == c
    ensures IndexOf(c, s + rest) == |s|
  {
    if s == "" {
      assert s + rest == rest;
    } else {
      assert (s + rest)[1..] == s[1..] + rest;
      assert (s + rest)[0] == s[0];
      IndexOfFirst(c, s[1..], rest);
    }
  }

  lemma RestMatches(algorithm: Algorithm, path: string, digest: string)
    requires PlainPath(path) && IsHex(digest)
    ensures MatchRest(algorithm, "(" + path + (") = " + digest)) == Some(Tag(algorithm, path, digest))
  {
    hide IndexOf, StripLeft, IsHex, Unspaced;
    var close := ") = " + digest;
    var s := "(" + path + close;
    assert s[1..] == path + close;
    IndexOfFirst(')', path, close);
    assert s[1..|path| + 1] == path;
    assert s[|path| + 2..] == " " + ("= " + digest);
    assert ("= " + digest)[1..] == " " + digest;
    StripLeftOne("= " + digest);
    StripLeftOne(digest) by { DigestStart(digest); }
    assert "(" <= s && "=" <= "= " + digest;
  }

  lemma StripLeftOne(s: string)
    requires s != "" && !IsSpace(s[0])
    ensures StripLeft(" " + s) == s
  {
    assert (" " + s)[1..] == s;
    assert StripLeft(s) == s;
  }

  lemma DigestStart(digest: string)
    requires IsHex(digest)
    ensures digest != "" && !IsSpace(digest[0])
  {
  }

  lemma TaggedMatches(algorithm: Algorithm, directory: string, file: string, digest: string)
    requires PlainPath(directory + file) && IsHex(digest)
    ensures MatchTag(LineOf(Tagged(algorithm, directory, file, digest)))
            == Some(Tag(algorithm, directory + file, digest))
  {
    var path := directory + file;
    var line := LineOf(Tagged(algorithm, directory, file, digest));
    var rest := " (" + path + (") = " + digest);
    assert line[6..] == rest;
    assert line[..6] == TagName(algorithm);
    var s := "(" + path + (") = " + digest);
    assert rest[1..] == s;
    assert StripLeft(s) == s;
    assert StripLeft(rest) == s;
    assert algorithm.Sha256? <==> "SHA256" <= line by {
      assert TagName(algorithm)[3] == line[3];
    }
    RestMatches(algorithm, path, digest);
  }

  // ------------------------------------------------------------------ one line

  lemma ListedDigest(item: Item, wanted: string, algorithm: Algorithm)
    requires item.Listed? && ProperItem(item)
    ensures LineDigest(LineOf(item), wanted, algorithm)
            == if Names(item, wanted, algorithm) then Some(Lower(item.digest)) else None
  {
    hide HexDigits, Fits, PlainDirectory, PlainName, Words, PathName, WithoutStars;
    DigestsAre(item.digest, algorithm);
    var path := item.directory + item.file;
    PathNamesFile(item.directory, item.file);
    var line := LineOf(item);
    assert line[0] == item.digest[0];
    assert line[|line| - 1] == path[|path| - 1];
    StripOfTight(line);
    ListedWords(item.digest, item.binary, path);
    hide Strip;
  }

  lemma TaggedDigest(item: Item, wanted: string, algorithm: Algorithm)
    requires item.Tagged? && ProperItem(item)
    ensures LineDigest(LineOf(item), wanted, algorithm)
            == if Names(item, wanted, algorithm) then Some(Lower(item.digest)) else None
  {
    hide HexDigits, Fits, PlainDirectory, PlainName;
    DigestsAre(item.digest, algorithm);
    PathNamesFile(item.directory, item.file);
    PathIsItself(item.directory + item.file);
    var line := LineOf(item);
    assert line[0] == 'S';
    assert line[|line| - 1] == item.digest[|item.digest| - 1];
    StripOfTight(line);
    TaggedMatches(item.algorithm, item.directory, item.file, item.digest);
    hide PathName;
  }

  lemma BareDigest(item: Item, wanted: string, algorithm: Algorithm)
    requires item.Bare? && ProperItem(item)
    ensures LineDigest(LineOf(item), wanted, algorithm)
            == if Names(item, wanted, algorithm) then Some(Lower(item.digest)) else None
  {
    hide HexDigits, Fits;
    DigestsAre(item.digest, algorithm);
    var line := item.digest;
    StripOfTight(line);
    WordsOfWord(line, "");
    assert line + "" == line;
  }

  lemma LineIsReadAs(item: Item, wanted: string, algorithm: Algorithm)
    requires ProperItem(item)
    ensures LineDigest(LineOf(item), wanted, algorithm)
            == if Names(item, wanted, algorithm) then Some(Lower(item.digest)) else None
  {
    match item
    case Remark(_) =>
    case Bare(_) => BareDigest(item, wanted, algorithm);
    case Listed(_, _, _, _) => ListedDigest(item, wanted, algorithm);
    case Tagged(_, _, _, _) => TaggedDigest(item, wanted, algorithm);
  }

  /**
   Each kind of line is read as what it says: an entry of that algorithm for the wanted file
   gives its digest in small letters, and an entry of another length, name or algorithm nothing.
  */
  lemma LineIsRead(item: Item, wanted: string, algorithm: Algorithm)
    requires ProperItem(item)
    ensures var r := LineDigest(LineOf(item), wanted, algorithm);
            if Names(item, wanted, algorithm) then r.Some? && SmallLetters(item.digest, r.value) else r.None?
  {
    hide LineDigest, LineOf, SmallLetters;
    LineIsReadAs(item, wanted, algorithm);
    if Names(item, wanted, algorithm) {
      LowerIsSmall(item.digest);
    }
  }

  // ------------------------------------------------------------------ whole manifests

  function FirstNamed(items: seq<Item>, wanted: string, algorithm: Algorithm): Option<string> {
    if items == [] then None
    else if Names(items[0], wanted, algorithm) then Some(Lower(items[0].digest))
    else FirstNamed(items[1..], wanted, algorithm)
  }

  lemma {:induction false} FindIsFirstNamed(items: seq<Item>, wanted: string, algorithm: Algorithm)
    requires Proper(items)
    ensures Find(LinesOf(items), wanted, algorithm) == FirstNamed(items, wanted, algorithm)
  {
    if items == [] {
    } else {
      LineIsReadAs(items[0], wanted, algorithm);
      FindIsFirstNamed(items[1..], wanted, algorithm);
    }
  }

  /** No two entries of `algorithm` are for `wanted`. */
  ghost predicate ListedOnce(items: seq<Item>, wanted: string, algorithm: Algorithm) {
    forall i, j :: 0 <= i < j < |items| ==> !(Names(items[i], wanted, algorithm) && Names(items[j], wanted, algorithm))
  }

  lemma {:induction false} FirstNamedIsTheOne(items: seq<Item>, wanted: string, algorithm: Algorithm)
    requires ListedOnce(items, wanted, algorithm)
    ensures forall k :: 0 <= k < |items| && Names(items[k], wanted, algorithm) ==>
                          FirstNamed(items, wanted, algorithm) == Some(Lower(items[k].digest))
    ensures FirstNamed(items, wanted, algorithm).Some?
            <==> exists k :: 0 <= k < |items| && Names(items[k], wanted, algorithm)
  {
    if items == [] {
    } else {
      var rest := items[1..];
      FirstNamedIsTheOne(rest, wanted, algorithm);
      assert forall k :: 1 <= k < |items| ==> items[k] == rest[k - 1];
    }
  }

  ghost predicate GivesDigest(items: seq<Item>, wanted: string, algorithm: Algorithm, r: Result<string, Error>) {
    && (forall k :: 0 <= k < |items| && Names(items[k], wanted, algorithm) ==>
          r.Ok? && SmallLetters(items[k].digest, r.value))
    && (r.Ok? <==> exists k :: 0 <= k < |items| && Names(items[k], wanted, algorithm))
  }

  lemma ItemsAreLines(items: seq<Item>)
    requires Proper(items)
    ensures OneLineEach(LinesOf(items))
  {
    forall k | 0 <= k < |items| ensures OneLine(LinesOf(items)[k]) {
      ItemIsOneLine(items[k]);
    }
  }

  lemma DigestIsOneLine(digest: string)
    requires HexDigits(digest)
    ensures OneLine(digest)
  {
    DigestsAre(digest, Sha256);
    hide HexDigits;
    assert forall c :: IsBreak(c) ==> !IsHexDigit(c);
  }

  lemma PathIsOneLine(directory: string, file: string)
    requires PlainDirectory(directory) && PlainName(file)
    ensures OneLine(directory + file)
  {
    assert forall c :: IsBreak(c) ==> IsSpace(c);
    hide IsBreak, IsSpace;
  }

  lemma ItemIsOneLine(item: Item)
    requires ProperItem(item)
    ensures OneLine(LineOf(item))
  {
    hide HexDigits, PlainDirectory, PlainName;
    match item
    case Remark(_) =>
    case Bare(digest) => DigestIsOneLine(digest);
    case Listed(digest, _, directory, file) => DigestIsOneLine(digest); PathIsOneLine(directory, file);
    case Tagged(_, directory, file, digest) => DigestIsOneLine(digest); PathIsOneLine(directory, file);
  }

  /**
   The wanted file's digest, in lower case, comes out of a manifest of any mix of styles, or an
   error when it has none.
  */
  lemma ManifestGivesDigest(items: seq<Item>, eol: string, wanted: string, algorithm: Algorithm)
    requires Proper(items) && IsEol(eol) && PlainName(wanted) && ListedOnce(items, wanted, algorithm)
    ensures GivesDigest(items, wanted, algorithm, Lookup(Text(LinesOf(items), eol), wanted, algorithm))
  {
    ItemsAreLines(items);
    SplitLinesOfText(LinesOf(items), eol);
    PathNamesFile("", wanted);
    FindIsFirstNamed(items, wanted, algorithm);
    FirstNamedIsTheOne(items, wanted, algorithm);
    hide HexDigits, SmallLetters, Lower, PlainName;
    forall k | 0 <= k < |items| && Names(items[k], wanted, algorithm)
      ensures SmallLetters(items[k].digest, Lower(items[k].digest))
    {
      assert ProperItem(items[k]);
      LowerIsSmall(items[k].digest);
    }
  }

  // ------------------------------------------------------------------ clearsigned manifests

  lemma NoItemLooksLikeSignature(item: Item)
    requires ProperItem(item)
    ensures Strip(LineOf(item)) != Clearsign.SIGNATURE
  {
    var line := LineOf(item);
    hide HexDigits;
    assert Clearsign.SIGNATURE[0] == '-';
    if !item.Remark? {
      DigestsAre(item.digest, Sha256);
      assert line[0] != '-' && !IsSpace(line[0]);
      StripKeepsStart(line);
    }
  }

  /** Decoding a clearsigned manifest gives back its lines: no item can be taken for the signature. */
  lemma ManifestSurvivesSigning(frame: Clearsign.Frame, items: seq<Item>, styles: seq<Clearsign.Style>)
    requires Clearsign.ProperFrame(frame) && Proper(items)
    requires Clearsign.LegalEach(LinesOf(items), styles)
    ensures Clearsign.Extracted(Clearsign.Document(frame, LinesOf(items), styles)) == Ok(Join(LinesOf(items)) + "\n")
  {
    hide Clearsign.Extracted, Clearsign.Document, Clearsign.ProperFrame, LineOf, ProperItem, Strip, Join;
    var lines := LinesOf(items);
    ItemsAreLines(items);
    forall k | 0 <= k < |lines| ensures '\n' !in lines[k] && !Clearsign.LooksLikeSignature(lines[k], styles[k]) {
      assert OneLine(lines[k]);
      NoItemLooksLikeSignature(items[k]);
    }
    Clearsign.DecodesExactlyWhatWasSigned(frame, lines, styles);
  }

  /** End to end: a clearsigned manifest yields precisely the digest it lists for the wanted file. */
  lemma SignedManifestGivesDigest(frame: Clearsign.Frame, items: seq<Item>, styles: seq<Clearsign.Style>,
                                  wanted: string, algorithm: Algorithm)
    requires Clearsign.ProperFrame(frame) && Proper(items)
    requires Clearsign.LegalEach(LinesOf(items), styles)
    requires PlainName(wanted) && ListedOnce(items, wanted, algorithm)
    ensures var decoded := Clearsign.Extracted(Clearsign.Document(frame, LinesOf(items), styles));
            decoded.Ok? && GivesDigest(items, wanted, algorithm, Lookup(decoded.value, wanted, algorithm))
  {
    hide Clearsign.Extracted, Clearsign.Document, Clearsign.ProperFrame, LineOf, ProperItem, PlainName;
    ManifestSurvivesSigning(frame, items, styles);
    if items == [] {
      EmptyPayload(wanted, algorithm);
    } else {
      JoinIsText(LinesOf(items));
      ManifestGivesDigest(items, "\n", wanted, algorithm);
    }
  }

  lemma EmptyPayload(wanted: string, algorithm: Algorithm)
    ensures Lookup("\n", wanted, algorithm).Err?
  {
    SplitLinesOfText([""], "\n");
    assert Text([""], "\n") == "\n";
    assert Find([""], PathName(wanted), algorithm) == Find([], PathName(wanted), algorithm);
    assert LineDigest("", PathName(wanted), algorithm) == None;
  }

  // ------------------------------------------------------------------ the name asked for

  /** A name with directories before it stands for its last component. */
  lemma {:induction false} DirectoriesDoNotCount(directory: string, name: string)
    requires name != "" && name != "." && '/' !in name
    ensures PathName(directory + "/" + name) == name && PathName(name) == name
    ensures PathName(name + "/") == name && PathName(name + "/.") == name
  {
    LastIndexIs(directory, '/', name);
    LastIndexIs(name, '/', "");
    LastIndexIs(name, '/', ".");
    assert directory + "/" + name == directory + ['/'] + name;
    assert (directory + ['/'] + name)[|directory| + 1..] == name;
    assert (name + "/")[..|name|] == name && (name + "/." )[..|name|] == name;
    assert name + ['/'] + "" == name + "/" && name + ['/'] + "." == name + "/.";
    NoLastIndex('/', name);
  }

  lemma {:induction false} LastIndexIs(before: string, c: char, after: string)
    requires c !in after
    ensures LastIndexOf(c, before + [c] + after) == Some(|before|)
  {
    var s := before + [c] + after;
    if after != "" {
      assert s[..|s| - 1] == before + [c] + after[..|after| - 1];
      assert s[|s| - 1] == after[|after| - 1];
      LastIndexIs(before, c, after[..|after| - 1]);
    }
  }

  lemma {:induction false} NoLastIndex(c: char, s: string)
    requires c !in s
    ensures LastIndexOf(c, s) == None
  {
    if s != "" {
      NoLastIndex(c, s[..|s| - 1]);
    }
  }

  /** A lookup does not depend on the directories of the file asked for. */
  lemma LookupIgnoresDirectories(text: string, directory: string, name: string, algorithm: Algorithm)
    requires name != "" && name != "." && '/' !in name
    ensures Lookup(text, directory + "/" + name, algorithm) == Lookup(text, name, algorithm)
  {
    DirectoriesDoNotCount(directory, name);
  }

  // ------------------------------------------------------------------ any text at all

  /** A digest of the algorithm in small letters. */
  predicate IsDigest(r: string, algorithm: Algorithm) {
    Fits(r, algorithm) && forall i :: 0 <= i < |r| ==> r[i] in "0123456789abcdef"
  }

  lemma LowerHexIsDigest(s: string, algorithm: Algorithm)
    requires IsHex(s) && |s| == HashLength(algorithm)
    ensures IsDigest(Lower(s), algorithm)
  {
    var r := Lower(s);
    forall i | 0 <= i < |r| ensures r[i] in "0123456789abcdef" {
      assert IsHexDigit(s[i]);
    }
  }

  lemma LoweredIsHex(s: string)
    ensures IsHex(Lower(s)) ==> IsHex(s)
  {
    if IsHex(Lower(s)) {
      forall i | 0 <= i < |s| ensures IsHexDigit(s[i]) {
        assert IsHexDigit(Lower(s)[i]);
      }
    }
  }

  lemma MatchedIsHex(line: string)
    ensures MatchTag(line).Some? ==> IsHex(MatchTag(line).value.digest)
  {
    hide StripLeft, IndexOf, IsHex;
  }

  lemma LineGivesDigest(raw: string, wanted: string, algorithm: Algorithm)
    ensures LineDigest(raw, wanted, algorithm).Some? ==> IsDigest(LineDigest(raw, wanted, algorithm).value, algorithm)
  {
    hide MatchTag, IsHex, Words, Strip, PathName, WithoutStars, IsDigest, Lower;
    var line := Strip(raw);
    MatchedIsHex(line);
    if MatchTag(line).Some? {
      var tag := MatchTag(line).value;
      if |tag.digest| == HashLength(algorithm) {
        LowerHexIsDigest(tag.digest, algorithm);
      }
    } else {
      var parts := Words(line);
      if parts != [] {
        LoweredIsHex(parts[0]);
        if IsHex(parts[0]) && |parts[0]| == HashLength(algorithm) {
          LowerHexIsDigest(parts[0], algorithm);
        }
      }
    }
  }

  lemma {:induction false} FoundIsDigest(lines: seq<string>, wanted: string, algorithm: Algorithm)
    ensures Find(lines, wanted, algorithm).Some? ==> IsDigest(Find(lines, wanted, algorithm).value, algorithm)
  {
    hide LineDigest, IsDigest;
    if lines == [] {
    } else {
      LineGivesDigest(lines[0], wanted, algorithm);
      FoundIsDigest(lines[1..], wanted, algorithm);
    }
  }

  /** Whatever the text, the answer is an error that names the file or a digest of the algorithm in small letters. */
  lemma AnyAnswerIsADigest(text: string, filename: string, algorithm: Algorithm)
    ensures match Lookup(text, filename, algorithm)
            case Ok(digest) => IsDigest(digest, algorithm)
            case Err(NoEntry(wanted)) => wanted == PathName(filename)
  {
    hide IsDigest;
    FoundIsDigest(SplitLines(text), PathName(filename), algorithm);
  }
}
