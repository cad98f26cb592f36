/** encode_multipart of src/cronet/request.py, and the reading a server gives its
    output: section 5.1.1 of RFC 2046 and section 4 of RFC 7578. Text stands for its
    UTF-8 bytes; the three escaped characters are single bytes in it and occur
    in no other character's encoding. */
module Multipart {
  import opened Prelude

  const CR: byte := 13
  const LF: byte := 10
  const QUOTE: byte := 34
  const DASH: byte := 45

  const CRLF: seq<byte> := [CR, LF]
  const BLANK: seq<byte> := [CR, LF, CR, LF]

  /** The bytes of an ASCII literal. */
  function Ascii(s: string): (bytes: seq<byte>)
    requires forall i :: 0 <= i < |s| ==> s[i] < 128 as char
    ensures |bytes| == |s| && forall i :: 0 <= i < |s| ==> bytes[i] == s[i] as int
  {
    seq(|s|, i requires 0 <= i < |s| => s[i] as int)
  }

  function Name(): (s: seq<byte>)
    ensures Plain(s) && s != []
  {
    Ascii("Content-Disposition: form-data; name=\"")
  }

  function Filename(): (s: seq<byte>)
    ensures Plain(s) && s != []
  {
    Ascii("; filename=\"")
  }

  function Type(): (s: seq<byte>)
    ensures Plain(s) && s != [] && s[0] == 67
  {
    Ascii("Content-Type: ")
  }

  /** Holds no line break. */
  predicate Plain(s: seq<byte>) {
    forall i :: 0 <= i < |s| ==> s[i] != CR && s[i] != LF
  }

  /** str.translate with _QUOTED. */
  function Escape(s: seq<byte>): (e: seq<byte>)
    ensures Plain(e) && QUOTE !in e
  {
    if s == [] then []
    else
      var first := s[0];
      (if first == QUOTE then [37, 50, 50]
       else if first == CR then [37, 48, 68]
       else if first == LF then [37, 48, 65]
       else [first]) + Escape(s[1..])
  }

  const PERCENT: byte := 37

  /** The byte that one of the three escapes, `b` and the text behind it, stands for. */
  function Escaped(b: byte, rest: seq<byte>): Option<byte> {
    if b != PERCENT then None
    else if Begins(rest, 50, 50) then Some(QUOTE)
    else if Begins(rest, 48, 68) then Some(CR)
    else if Begins(rest, 48, 65) then Some(LF)
    else None
  }

  /** A text with the three escapes undone, as a server undoes them. */
  function Unescape(s: seq<byte>): seq<byte> {
    if s == [] then []
    else
      match Escaped(s[0], s[1..])
      case Some(b) => [b] + Unescape(s[1..][2..])
      case None => [s[0]] + Unescape(s[1..])
  }

  predicate Special(b: byte) {
    b == QUOTE || b == CR || b == LF
  }

  lemma EscapeStep(b: byte, rest: seq<byte>)
    ensures Escape([b] + rest)
            == (if b == QUOTE then [PERCENT, 50, 50] else if b == CR then [PERCENT, 48, 68]
                else if b == LF then [PERCENT, 48, 65] else [b]) + Escape(rest)
  {
    assert ([b] + rest)[1..] == rest;
  }

  /** A byte that no escape holds comes first in the escaped text when it does in
      the text. */
  lemma FirstSurvives(s: seq<byte>, x: byte)
    requires x != PERCENT && !Special(x)
    ensures Escape(s) != [] && Escape(s)[0] == x <==> s != [] && s[0] == x
    ensures s != [] && s[0] == x ==> Escape(s)[1..] == Escape(s[1..])
  {
    if s != [] {
      EscapeStep(s[0], s[1..]);
      assert s == [s[0]] + s[1..];
    }
  }

  predicate Begins(s: seq<byte>, x: byte, y: byte) {
    |s| > 1 && s[0] == x && s[1] == y
  }

  /** Escaping neither makes nor breaks what can follow a percent sign. */
  lemma PairSurvives(s: seq<byte>, x: byte, y: byte)
    requires x != PERCENT && y != PERCENT && !Special(x) && !Special(y)
    ensures Begins(Escape(s), x, y) <==> Begins(s, x, y)
    ensures Begins(s, x, y) ==> Escape(s)[2..] == Escape(s[2..])
  {
    FirstSurvives(s, x);
    if s != [] && s[0] == x {
      FirstSurvives(s[1..], y);
      if Begins(s, x, y) {
        assert Escape(s)[1..][1..] == Escape(s)[2..];
        assert s[1..][1..] == s[2..];
      }
    }
  }

  lemma UnescapePlain(b: byte, rest: seq<byte>)
    requires Escaped(b, rest).None?
    ensures Unescape([b] + rest) == [b] + Unescape(rest)
  {
    assert ([b] + rest)[1..] == rest;
  }

  lemma UnescapeTriple(b: byte, rest: seq<byte>)
    requires Escaped(b, rest).Some?
    ensures Unescape([b] + rest) == [Escaped(b, rest).value] + Unescape(rest[2..])
  {
    assert ([b] + rest)[1..] == rest;
  }

  /** An escaped name still means the name: who undoes the escapes reads from it
      what he would have read from the name itself. */
  lemma {:induction false} EscapeKeepsMeaning(s: seq<byte>)
    ensures Unescape(Escape(s)) == Unescape(s)
    decreases |s|
  {
    if s != [] {
      var b, rest := s[0], s[1..];
      assert s == [b] + rest;
      EscapeStep(b, rest);
      EscapeKeepsMeaning(rest);
      if Special(b) {
        EscapedSpecial(b, Escape(rest));
        UnescapePlain(b, rest);
      } else {
        PairsSurvive(rest);
        if Escaped(b, rest).Some? {
          EscapeKeepsMeaning(rest[2..]);
          UnescapeTriple(b, rest);
          UnescapeTriple(b, Escape(rest));
        } else {
          UnescapePlain(b, rest);
          UnescapePlain(b, Escape(rest));
        }
      }
    }
  }

  lemma PairsSurvive(s: seq<byte>)
    ensures forall b :: Escaped(b, Escape(s)) == Escaped(b, s)
    ensures forall b :: Escaped(b, s).Some? ==> |Escape(s)| > 1 && Escape(s)[2..] == Escape(s[2..])
  {
    PairSurvives(s, 50, 50);
    PairSurvives(s, 48, 68);
    PairSurvives(s, 48, 65);
  }

  lemma EscapedSpecial(b: byte, rest: seq<byte>)
    requires Special(b)
    ensures var escape := if b == QUOTE then [PERCENT, 50, 50] else if b == CR then [PERCENT, 48, 68] else [PERCENT, 48, 65];
            Unescape(escape + rest) == [b] + Unescape(rest)
  {
    var escape := if b == QUOTE then [PERCENT, 50, 50] else if b == CR then [PERCENT, 48, 68] else [PERCENT, 48, 65];
    var tail := escape[1..] + rest;
    assert escape + rest == [PERCENT] + tail;
    assert tail[2..] == rest;
    UnescapeTriple(PERCENT, tail);
  }

  // --- Encoding -------------------------------------------------------------------

  /** One part of the form; only files have a filename and a media type. */
  datatype Part = Part(name: seq<byte>, filename: Option<seq<byte>>, mediaType: Option<seq<byte>>, content: seq<byte>)

  datatype FileSpec =
    | Bare(content: seq<byte>)
    | Named(filename: seq<byte>, content: seq<byte>)
    | Typed(filename: seq<byte>, content: seq<byte>, mediaType: seq<byte>)

  /** _file_part; `guess` is mimetypes.guess_type, empty for no guess. */
  function FilePart(name: seq<byte>, spec: FileSpec, guess: seq<byte> -> seq<byte>): Part {
    var filename := if spec.Bare? then name else spec.filename;
    var declared := if spec.Typed? then spec.mediaType else [];
    var mediaType := if declared != [] then declared
                     else if guess(filename) != [] then guess(filename)
                     else Ascii("application/octet-stream");
    Part(name, Some(filename), Some(mediaType), spec.content)
  }

  function FieldParts(fields: seq<(seq<byte>, seq<byte>)>): (parts: seq<Part>)
    ensures |parts| == |fields|
  {
    seq(|fields|, i requires 0 <= i < |fields| => Part(fields[i].0, None, None, fields[i].1))
  }

  function FileParts(files: seq<(seq<byte>, FileSpec)>, guess: seq<byte> -> seq<byte>): (parts: seq<Part>)
    ensures |parts| == |files|
  {
    seq(|files|, i requires 0 <= i < |files| => FilePart(files[i].0, files[i].1, guess))
  }

  function Disposition(name: seq<byte>, filename: Option<seq<byte>>): seq<byte> {
    Name() + Escape(name) + [QUOTE]
    + (if filename.Some? then Filename() + Escape(filename.value) + [QUOTE] else [])
  }

  /** The lines of a part's header, without the blank line that ends them. */
  function Head(p: Part): seq<byte> {
    Disposition(p.name, p.filename) + (if p.mediaType.Some? then CRLF + Type() + p.mediaType.value else [])
  }

  function Delimiter(boundary: seq<byte>): seq<byte> {
    CRLF + [DASH, DASH] + boundary
  }

  /** The body as a list of parts and a closing line. */
  function Encoded(parts: seq<Part>, boundary: seq<byte>): seq<byte>
  {
    [DASH, DASH] + boundary +
    (if parts == [] then [DASH, DASH] + CRLF
     else CRLF + Head(parts[0]) + BLANK + parts[0].content + CRLF + Encoded(parts[1..], boundary))
  }

  method AppendField(before: seq<byte>, name: seq<byte>, value: seq<byte>, boundary: seq<byte>)
    returns (body: seq<byte>)
    ensures body == before + Written(Part(name, None, None, value), boundary)
  {
    body := before + ([DASH, DASH] + boundary + CRLF);
    body := body + (Disposition(name, None) + CRLF + CRLF);
    body := body + value;
    body := body + CRLF;
    FieldIsWritten(before, Part(name, None, None, value), boundary);
  }

  method AppendFile(before: seq<byte>, name: seq<byte>, spec: FileSpec, boundary: seq<byte>,
                    guess: seq<byte> -> seq<byte>)
    returns (body: seq<byte>)
    ensures body == before + Written(FilePart(name, spec, guess), boundary)
  {
    var part := FilePart(name, spec, guess);
    body := before + ([DASH, DASH] + boundary + CRLF);
    body := body + (Disposition(part.name, part.filename) + CRLF);
    body := body + (Type() + part.mediaType.value + CRLF + CRLF);
    body := body + part.content;
    body := body + CRLF;
    FileIsWritten(before, part, boundary);
  }

  /** The first loop: one part for each field. */
  method AppendFields(fields: seq<(seq<byte>, seq<byte>)>, boundary: seq<byte>, ghost parts: seq<Part>)
    returns (body: seq<byte>)
    requires |parts| == |fields|
    requires forall i :: 0 <= i < |fields| ==> parts[i] == Part(fields[i].0, None, None, fields[i].1)
    ensures body == AllWritten(parts, boundary)
  {
    body := [];
    for i := 0 to |fields|
      invariant body == AllWritten([] + parts[..i], boundary)
    {
      WriteOne([], parts, i, boundary);
      body := AppendField(body, fields[i].0, fields[i].1, boundary);
    }
    assert [] + parts[..|fields|] == parts;
  }

  /** The second loop: one part for each file, behind what the first has written. */
  method AppendFiles(start: seq<byte>, files: seq<(seq<byte>, FileSpec)>, boundary: seq<byte>,
                     guess: seq<byte> -> seq<byte>, ghost done: seq<Part>, ghost parts: seq<Part>)
    returns (body: seq<byte>)
    requires |parts| == |files| && start == AllWritten(done, boundary)
    requires forall j :: 0 <= j < |files| ==> parts[j] == FilePart(files[j].0, files[j].1, guess)
    ensures body == AllWritten(done + parts, boundary)
  {
    body := start;
    assert done + parts[..0] == done;
    for j := 0 to |files|
      invariant body == AllWritten(done + parts[..j], boundary)
    {
      WriteOne(done, parts, j, boundary);
      body := AppendFile(body, files[j].0, files[j].1, boundary, guess);
    }
    assert parts[..|files|] == parts;
  }

  method EncodeMultipart(fields: seq<(seq<byte>, seq<byte>)>, files: seq<(seq<byte>, FileSpec)>,
                         boundary: seq<byte>, guess: seq<byte> -> seq<byte>)
    returns (body: seq<byte>)
    ensures body == Encoded(FieldParts(fields) + FileParts(files, guess), boundary)
  {
    ghost var fieldParts, fileParts := AllParts(fields, files, guess);
    body := AppendFields(fields, boundary, fieldParts);
    body := AppendFiles(body, files, boundary, guess, fieldParts, fileParts);
    AllIsEncoded(fieldParts + fileParts, boundary);
    body := body + Closing(boundary);
  }

  lemma AllParts(fields: seq<(seq<byte>, seq<byte>)>, files: seq<(seq<byte>, FileSpec)>, guess: seq<byte> -> seq<byte>)
    returns (fieldParts: seq<Part>, fileParts: seq<Part>)
    ensures fieldParts == FieldParts(fields) && fileParts == FileParts(files, guess)
    ensures forall i :: 0 <= i < |fields| ==> fieldParts[i] == Part(fields[i].0, None, None, fields[i].1)
    ensures forall j :: 0 <= j < |files| ==> fileParts[j] == FilePart(files[j].0, files[j].1, guess)
  {
    fieldParts, fileParts := FieldParts(fields), FileParts(files, guess);
  }

  lemma AllIsEncoded(parts: seq<Part>, boundary: seq<byte>)
    ensures AllWritten(parts, boundary) + Closing(boundary) == Encoded(parts, boundary)
  {
    ClosedIsEncoded([], parts, boundary);
    assert [] + parts == parts;
    assert [] + Encoded(parts, boundary) == Encoded(parts, boundary);
  }

  function Closing(boundary: seq<byte>): seq<byte> {
    [DASH, DASH] + boundary + ([DASH, DASH] + CRLF)
  }

  /** The parts as the loops leave them behind, the last one last. */
  ghost function AllWritten(parts: seq<Part>, boundary: seq<byte>): seq<byte> {
    if parts == [] then []
    else AllWritten(parts[..|parts| - 1], boundary) + Written(parts[|parts| - 1], boundary)
  }

  lemma WriteOne(done: seq<Part>, parts: seq<Part>, k: nat, boundary: seq<byte>)
    requires k < |parts|
    ensures AllWritten(done + parts[..k + 1], boundary)
            == AllWritten(done + parts[..k], boundary) + Written(parts[k], boundary)
  {
    var next := done + parts[..k + 1];
    assert next[..|next| - 1] == done + parts[..k];
  }

  /** Wherever the list is cut, what is written and what is to come make the same
      body. */
  lemma {:induction false} ClosedIsEncoded(done: seq<Part>, rest: seq<Part>, boundary: seq<byte>)
    ensures AllWritten(done + rest, boundary) + Closing(boundary)
            == AllWritten(done, boundary) + Encoded(rest, boundary)
    decreases |rest|
  {
    if rest == [] {
      assert done + rest == done;
    } else {
      var next := done + [rest[0]];
      assert next + rest[1..] == done + rest;
      ClosedIsEncoded(next, rest[1..], boundary);
      assert next[..|next| - 1] == done;
      assert AllWritten(next, boundary) == AllWritten(done, boundary) + Written(rest[0], boundary);
      OnePart(AllWritten(done, boundary), rest, boundary);
    }
  }

  ghost function Written(p: Part, boundary: seq<byte>): seq<byte> {
    [DASH, DASH] + boundary + CRLF + Head(p) + BLANK + p.content + CRLF
  }

  lemma Regrouped(a: seq<byte>, l: seq<byte>, x: seq<byte>, c: seq<byte>, e: seq<byte>)
    ensures a + l + x + c + e == a + (l + x + c + e)
  {
    var r := l + x;
    assert a + l + x == a + r;
    assert a + r + c == a + (r + c);
    assert a + (r + c) + e == a + (r + c + e);
  }

  lemma FieldIsWritten(before: seq<byte>, p: Part, boundary: seq<byte>)
    requires p.filename.None? && p.mediaType.None?
    ensures before + ([DASH, DASH] + boundary + CRLF) + (Disposition(p.name, None) + CRLF + CRLF) + p.content + CRLF
            == before + Written(p, boundary)
  {
    var d := Disposition(p.name, None);
    assert Head(p) == d;
    assert d + CRLF + CRLF == d + BLANK;
    HeadIsWritten(before, p, boundary);
  }

  lemma HeadIsWritten(before: seq<byte>, p: Part, boundary: seq<byte>)
    ensures before + ([DASH, DASH] + boundary + CRLF) + (Head(p) + BLANK) + p.content + CRLF
            == before + Written(p, boundary)
  {
    var l := [DASH, DASH] + boundary + CRLF;
    assert l + Head(p) + BLANK == l + (Head(p) + BLANK);
    Regrouped(before, l, Head(p) + BLANK, p.content, CRLF);
  }

  lemma TypeLine(d: seq<byte>, t: seq<byte>)
    ensures (d + CRLF) + (t + CRLF + CRLF) == (d + (CRLF + t)) + BLANK
  {
    assert t + CRLF + CRLF == t + BLANK;
    assert (d + CRLF) + (t + BLANK) == (d + CRLF + t) + BLANK;
    assert d + CRLF + t == d + (CRLF + t);
  }

  lemma FileIsWritten(before: seq<byte>, p: Part, boundary: seq<byte>)
    requires p.mediaType.Some?
    ensures before + ([DASH, DASH] + boundary + CRLF) + (Disposition(p.name, p.filename) + CRLF)
            + (Type() + p.mediaType.value + CRLF + CRLF) + p.content + CRLF
            == before + Written(p, boundary)
  {
    var d, t := Disposition(p.name, p.filename), Type() + p.mediaType.value;
    var l := before + ([DASH, DASH] + boundary + CRLF);
    assert Head(p) == d + (CRLF + t) by {
      assert CRLF + Type() + p.mediaType.value == CRLF + t;
    }
    TypeLine(d, t);
    assert l + (d + CRLF) + (t + CRLF + CRLF) == l + ((d + CRLF) + (t + CRLF + CRLF));
    HeadIsWritten(before, p, boundary);
  }

  lemma OnePart(before: seq<byte>, parts: seq<Part>, boundary: seq<byte>)
    requires parts != []
    ensures before + Written(parts[0], boundary) + Encoded(parts[1..], boundary) == before + Encoded(parts, boundary)
  {
    var p, rest := parts[0], Encoded(parts[1..], boundary);
    var open := [DASH, DASH] + boundary;
    var text := CRLF + Head(p) + BLANK + p.content + CRLF;
    assert Encoded(parts, boundary) == open + (text + rest);
    Regrouped5(open, CRLF, Head(p), BLANK, p.content, CRLF);
    assert open + (text + rest) == open + text + rest;
    assert before + Written(p, boundary) + rest == before + (Written(p, boundary) + rest);
  }

  lemma Regrouped5(o: seq<byte>, a: seq<byte>, h: seq<byte>, b: seq<byte>, c: seq<byte>, e: seq<byte>)
    ensures o + a + h + b + c + e == o + (a + h + b + c + e)
  {
    assert o + a + h == o + (a + h);
    assert o + (a + h) + b == o + (a + h + b);
    Regrouped(o, a + h, b, c, e);
  }

  // --- Reading it back ------------------------------------------------------------

  predicate OccursAt(hay: seq<byte>, needle: seq<byte>, i: nat) {
    i + |needle| <= |hay| && hay[i..i + |needle|] == needle
  }

  predicate Occurs(hay: seq<byte>, needle: seq<byte>) {
    exists i: nat :: i <= |hay| && OccursAt(hay, needle, i)
  }

  /** The first occurrence of a non-empty needle. */
  function Find(hay: seq<byte>, needle: seq<byte>): (i: Option<nat>)
    ensures i.Some? ==> OccursAt(hay, needle, i.value) && forall j: nat :: j < i.value ==> !OccursAt(hay, needle, j)
    ensures i.None? ==> forall j: nat :: !OccursAt(hay, needle, j)
  {
    FindFrom(hay, needle, 0)
  }

  function FindFrom(hay: seq<byte>, needle: seq<byte>, from: nat): (i: Option<nat>)
    requires forall j: nat :: j < from ==> !OccursAt(hay, needle, j)
    ensures i.Some? ==> OccursAt(hay, needle, i.value) && forall j: nat :: j < i.value ==> !OccursAt(hay, needle, j)
    ensures i.None? ==> forall j: nat :: !OccursAt(hay, needle, j)
    decreases |hay| + 1 - from
  {
    if from + |needle| > |hay| then None
    else if OccursAt(hay, needle, from) then Some(from)
    else FindFrom(hay, needle, from + 1)
  }

  function Strip(s: seq<byte>, prefix: seq<byte>): Option<seq<byte>> {
    if prefix <= s then Some(s[|prefix|..]) else None
  }

  /** A quoted string's text and what follows its closing quote. */
  function Quoted(s: seq<byte>): Option<(seq<byte>, seq<byte>)> {
    match Find(s, [QUOTE])
    case None => None
    case Some(i) => Some((s[..i], s[i + 1..]))
  }

  /** The header lines of one part: the disposition, then the type of a file. */
  function ParseHead(head: seq<byte>, content: seq<byte>): Option<Part> {
    match Strip(head, Name())
    case None => None
    case Some(afterName) =>
      match Quoted(afterName)
      case None => None
      case Some((name, rest)) =>
        match Strip(rest, Filename())
        case None => if rest == [] then Some(Part(name, None, None, content)) else ParseType(name, None, rest, content)
        case Some(afterFilename) =>
          match Quoted(afterFilename)
          case None => None
          case Some((filename, tail)) => ParseType(name, Some(filename), tail, content)
  }

  function ParseType(name: seq<byte>, filename: Option<seq<byte>>, tail: seq<byte>, content: seq<byte>): Option<Part> {
    if tail == [] then Some(Part(name, filename, None, content))
    else
      match Strip(tail, CRLF + Type())
      case None => None
      case Some(mediaType) => Some(Part(name, filename, Some(mediaType), content))
  }

  function ParsePart(text: seq<byte>): Option<Part> {
    match Find(text, BLANK)
    case None => None
    case Some(i) => ParseHead(text[..i], text[i + 4..])
  }

  /** What is before the first delimiter, and what is behind it. */
  function Cut(text: seq<byte>, delimiter: seq<byte>): (cut: Option<(seq<byte>, seq<byte>)>)
    ensures cut.Some? ==> text == cut.value.0 + delimiter + cut.value.1
  {
    match Find(text, delimiter)
    case None => None
    case Some(i) => Some((text[..i], text[i + |delimiter|..]))
  }

  /** What follows a boundary: two dashes end the body, a line break starts a part
      that runs to the first delimiter. */
  function ParseParts(s: seq<byte>, delimiter: seq<byte>): Option<seq<Part>>
    requires delimiter != []
    decreases |s|
  {
    if [DASH, DASH] <= s then Some([])
    else if !(CRLF <= s) then None
    else
      match Cut(s[2..], delimiter)
      case None => None
      case Some((text, behind)) => OneMore(ParsePart(text), ParseParts(behind, delimiter))
  }

  function OneMore(first: Option<Part>, rest: Option<seq<Part>>): Option<seq<Part>> {
    if first.None? || rest.None? then None else Some([first.value] + rest.value)
  }

  function Parse(body: seq<byte>, boundary: seq<byte>): Option<seq<Part>> {
    match Strip(body, [DASH, DASH] + boundary)
    case None => None
    case Some(s) => ParseParts(s, Delimiter(boundary))
  }

  /** What a reader should find: the parts, their names escaped. */
  function Seen(p: Part): Part {
    Part(Escape(p.name), if p.filename.Some? then Some(Escape(p.filename.value)) else None, p.mediaType, p.content)
  }

  function AllSeen(parts: seq<Part>): seq<Part> {
    if parts == [] then [] else [Seen(parts[0])] + AllSeen(parts[1..])
  }
}
