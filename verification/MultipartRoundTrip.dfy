/** Reading back what encode_multipart writes: exactly when it gives the parts. */
module MultipartRoundTrip {
  import opened Prelude
  import opened Multipart

  // --- Where a delimiter can be ---------------------------------------------------

  lemma OccursByte(hay: seq<byte>, needle: seq<byte>, i: nat, k: nat)
    requires k < |needle|
    ensures OccursAt(hay, needle, i) ==> i + k < |hay| && hay[i + k] == needle[k]
  {
    if OccursAt(hay, needle, i) {
      assert hay[i..i + |needle|][k] == needle[k];
    }
  }

  lemma OccursLater(head: seq<byte>, rest: seq<byte>, needle: seq<byte>, i: nat)
    requires |head| <= i
    ensures OccursAt(head + rest, needle, i) <==> OccursAt(rest, needle, i - |head|)
  {
    if i + |needle| <= |head + rest| {
      assert (head + rest)[i..i + |needle|] == rest[i - |head|..i - |head| + |needle|];
    }
  }

  /** A line break, two dashes, and no further carriage return. */
  ghost predicate DelimiterLike(d: seq<byte>) {
    && |d| >= 4 && d[0] == CR && d[1] == LF && d[2] == DASH && d[3] == DASH
    && forall k :: 0 < k < |d| ==> d[k] != CR
  }

  /** A delimiter breaks the line at its first byte only, so two of them cannot
      overlap: one that begins inside `text` and ends past it does not exist. */
  lemma NoStraddle(text: seq<byte>, d: seq<byte>, after: seq<byte>, i: nat)
    requires DelimiterLike(d) && i < |text|
    ensures OccursAt(text + (d + after), d, i) <==> OccursAt(text, d, i)
  {
    var hay := text + (d + after);
    var k := |text| - i;
    assert hay[|text|] == CR;
    if k < |d| {
      OccursByte(hay, d, i, k);
    } else {
      assert hay[i..i + |d|] == text[i..i + |d|];
    }
  }

  /** In a part's header lines, the only line break is followed by the letter C. */
  lemma HeadBreaks(p: Part, i: nat)
    requires p.mediaType.Some? ==> Plain(p.mediaType.value)
    requires i < |Head(p)| && Head(p)[i] == CR
    ensures i + 2 < |Head(p)| && Head(p)[i + 2] == 67
  {
    var d := Disposition(p.name, p.filename);
    assert Plain(d);
    assert p.mediaType.Some?;
    var tail := CRLF + Type() + p.mediaType.value;
    assert Head(p) == d + tail;
    assert i >= |d|;
    assert tail[i - |d|] == CR;
    assert i == |d|;
    assert tail[2] == Type()[0];
  }

  /** Nothing that begins with a line break and goes on with anything but C begins
      inside the header lines. */
  lemma NotInHead(p: Part, rest: seq<byte>, needle: seq<byte>, i: nat)
    requires p.mediaType.Some? ==> Plain(p.mediaType.value)
    requires |needle| > 2 && needle[0] == CR && needle[2] != 67
    requires i < |Head(p)|
    ensures !OccursAt(Head(p) + rest, needle, i)
  {
    var hay := Head(p) + rest;
    OccursByte(hay, needle, i, 0);
    OccursByte(hay, needle, i, 2);
    assert hay[i] == Head(p)[i];
    if Head(p)[i] == CR {
      HeadBreaks(p, i);
      assert hay[i + 2] == Head(p)[i + 2];
    }
  }

  /** A part's content as a delimiter may hit it: behind the line break that ends
      the blank line. */
  function Exposed(content: seq<byte>): seq<byte> {
    CRLF + content
  }

  /** A part from its header lines on. */
  function Text(p: Part, d: seq<byte>, after: seq<byte>): seq<byte> {
    Head(p) + (CRLF + (Exposed(p.content) + (d + after)))
  }

  /** No delimiter begins before the blank line's second break. */
  lemma NotBeforeContent(p: Part, d: seq<byte>, after: seq<byte>, i: nat)
    requires DelimiterLike(d) && (p.mediaType.Some? ==> Plain(p.mediaType.value))
    requires i < |Head(p)| + 2
    ensures !OccursAt(Text(p, d, after), d, i)
  {
    var rest := CRLF + (Exposed(p.content) + (d + after));
    if i < |Head(p)| {
      NotInHead(p, rest, d, i);
    } else {
      assert rest[1] == LF && rest[2] == CR;
      OccursLater(Head(p), rest, d, i);
      OccursByte(rest, d, i - |Head(p)|, 0);
      OccursByte(rest, d, i - |Head(p)|, 2);
    }
  }

  /** From there on it is a question about the exposed content. */
  lemma InExposed(p: Part, d: seq<byte>, after: seq<byte>, k: nat)
    requires DelimiterLike(d) && k <= |Exposed(p.content)|
    ensures OccursAt(Text(p, d, after), d, |Head(p)| + 2 + k)
            <==> k == |Exposed(p.content)| || OccursAt(Exposed(p.content), d, k)
  {
    var u := Exposed(p.content);
    OccursBehind(Head(p), u + (d + after), d, k);
    OccursNext(u, d, after, k);
  }

  lemma OccursBehind(head: seq<byte>, rest: seq<byte>, d: seq<byte>, k: nat)
    ensures OccursAt(head + (CRLF + rest), d, |head| + 2 + k) <==> OccursAt(rest, d, k)
  {
    OccursLater(head, CRLF + rest, d, |head| + 2 + k);
    OccursLater(CRLF, rest, d, 2 + k);
  }

  lemma OccursNext(u: seq<byte>, d: seq<byte>, after: seq<byte>, k: nat)
    requires DelimiterLike(d) && k <= |u|
    ensures OccursAt(u + (d + after), d, k) <==> k == |u| || OccursAt(u, d, k)
  {
    if k < |u| {
      NoStraddle(u, d, after, k);
    }
  }

  /** There is a delimiter, and the first is not before the content. */
  lemma FoundFromContentOn(p: Part, d: seq<byte>, after: seq<byte>)
    requires DelimiterLike(d) && (p.mediaType.Some? ==> Plain(p.mediaType.value))
    ensures var found, skip := Find(Text(p, d, after), d), |Head(p)| + 2;
            found.Some? && skip <= found.value <= skip + |Exposed(p.content)|
  {
    InExposed(p, d, after, |Exposed(p.content)|);
    var found := Find(Text(p, d, after), d);
    if found.Some? && found.value < |Head(p)| + 2 {
      NotBeforeContent(p, d, after, found.value);
    }
  }

  /** The first delimiter of a part's text ends the part exactly when the exposed
      content holds none; otherwise it comes earlier. */
  lemma FirstDelimiter(p: Part, d: seq<byte>, after: seq<byte>)
    requires DelimiterLike(d) && (p.mediaType.Some? ==> Plain(p.mediaType.value))
    ensures var end := |Head(p)| + 4 + |p.content|;
            && Find(Text(p, d, after), d).Some?
            && |Head(p)| + 2 <= Find(Text(p, d, after), d).value <= end
            && (Find(Text(p, d, after), d).value == end <==> !Occurs(Exposed(p.content), d))
  {
    FoundFromContentOn(p, d, after);
    var u, skip := Exposed(p.content), |Head(p)| + 2;
    var k := Find(Text(p, d, after), d).value - skip;
    InExposed(p, d, after, k);
    if k == |u| {
      NoneExposed(p, d, after);
    } else {
      assert OccursAt(u, d, k);
    }
  }

  lemma NoneExposed(p: Part, d: seq<byte>, after: seq<byte>)
    requires DelimiterLike(d)
    requires Find(Text(p, d, after), d) == Some(|Head(p)| + 2 + |Exposed(p.content)|)
    ensures !Occurs(Exposed(p.content), d)
  {
    var u := Exposed(p.content);
    forall k: nat | k <= |u|
      ensures !OccursAt(u, d, k)
    {
      if k < |u| {
        InExposed(p, d, after, k);
      }
    }
  }

  /** In the caller's terms: the content neither holds a delimiter nor begins with
      one whose line break the header supplies. */
  lemma ExposedHoldsDelimiter(content: seq<byte>, boundary: seq<byte>)
    requires CR !in boundary
    ensures Occurs(Exposed(content), Delimiter(boundary))
            <==> Occurs(content, Delimiter(boundary)) || [DASH, DASH] + boundary <= content
  {
    var d, u := Delimiter(boundary), Exposed(content);
    assert d == CRLF + ([DASH, DASH] + boundary);
    if [DASH, DASH] + boundary <= content {
      assert u[0..0 + |d|] == d;
      assert OccursAt(u, d, 0);
    }
    if i: nat :| i <= |content| && OccursAt(content, d, i) {
      OccursLater(CRLF, content, d, i + 2);
      assert OccursAt(u, d, i + 2);
    }
    if i: nat :| i <= |u| && OccursAt(u, d, i) {
      OccursByte(u, d, i, 0);
      assert i != 1;
      if i == 0 {
        assert content[..|d| - 2] == u[..|d|][2..];
      } else {
        OccursLater(CRLF, content, d, i);
        assert OccursAt(content, d, i - 2);
      }
    }
  }

  // --- Reading one part -----------------------------------------------------------

  lemma QuotedText(e: seq<byte>, rest: seq<byte>)
    requires QUOTE !in e
    ensures Quoted(e + [QUOTE] + rest) == Some((e, rest))
  {
    var s := e + [QUOTE] + rest;
    assert OccursAt(s, [QUOTE], |e|);
    var i := Find(s, [QUOTE]).value;
    assert forall k :: 0 <= k < |e| ==> s[k] == e[k];
    OccursByte(s, [QUOTE], i, 0);
    assert i == |e|;
    assert s[..i] == e && s[i + 1..] == rest;
  }

  lemma TypeRoundTrip(name: seq<byte>, filename: Option<seq<byte>>, mediaType: Option<seq<byte>>, content: seq<byte>)
    ensures var tail := if mediaType.Some? then CRLF + Type() + mediaType.value else [];
            ParseType(name, filename, tail, content) == Some(Part(name, filename, mediaType, content))
  {
    if mediaType.Some? {
      StripPrefix(CRLF + Type(), mediaType.value);
    }
  }

  lemma StripPrefix(prefix: seq<byte>, rest: seq<byte>)
    ensures Strip(prefix + rest, prefix) == Some(rest)
  {
  }

  /** What follows a part's name. */
  function Rest(p: Part): seq<byte> {
    var tail := if p.mediaType.Some? then CRLF + Type() + p.mediaType.value else [];
    if p.filename.Some? then Filename() + (Escape(p.filename.value) + [QUOTE] + tail) else tail
  }

  lemma HeadShape(p: Part)
    ensures Head(p) == Name() + (Escape(p.name) + [QUOTE] + Rest(p))
  {
    var tail := if p.mediaType.Some? then CRLF + Type() + p.mediaType.value else [];
    var f := if p.filename.Some? then Filename() + Escape(p.filename.value) + [QUOTE] else [];
    assert Head(p) == Name() + Escape(p.name) + [QUOTE] + f + tail;
    Pieces4(Name(), Escape(p.name), [QUOTE], f, tail);
    if p.filename.Some? {
      Regroup3(Filename(), Escape(p.filename.value), [QUOTE], tail);
    } else {
      assert [] + tail == tail;
    }
    assert f + tail == Rest(p);
  }

  lemma Pieces4(n: seq<byte>, e: seq<byte>, q: seq<byte>, f: seq<byte>, t: seq<byte>)
    ensures n + e + q + f + t == n + (e + q + (f + t))
  {
    assert n + e + q + f + t == n + e + q + (f + t);
    Regroup3(n, e, q, f + t);
  }

  lemma Regroup3(a: seq<byte>, b: seq<byte>, c: seq<byte>, d: seq<byte>)
    ensures a + b + c + d == a + (b + c + d)
  {
    assert a + b + c == a + (b + c);
  }

  /** The header lines of a part, read, give its escaped names and its type. */
  lemma HeadRoundTrip(p: Part, content: seq<byte>)
    ensures ParseHead(Head(p), content) == Some(Seen(p).(content := content))
  {
    var name := Escape(p.name);
    var tail := if p.mediaType.Some? then CRLF + Type() + p.mediaType.value else [];
    var rest := Rest(p);
    HeadShape(p);
    StripPrefix(Name(), name + [QUOTE] + rest);
    QuotedText(name, rest);
    if p.filename.Some? {
      var filename := Escape(p.filename.value);
      StripPrefix(Filename(), filename + [QUOTE] + tail);
      QuotedText(filename, tail);
      TypeRoundTrip(name, Some(filename), p.mediaType, content);
    } else {
      assert Filename()[0] == 59;
      TypeRoundTrip(name, None, p.mediaType, content);
    }
  }

  /** A blank line in a part's text begins after its header lines. */
  lemma BlankAfterHead(p: Part, r: seq<byte>)
    requires p.mediaType.Some? ==> Plain(p.mediaType.value)
    ensures var found := Find(Head(p) + r, BLANK);
            found.Some? ==> |Head(p)| <= found.value && found.value + 4 <= |Head(p)| + |r|
  {
    var found := Find(Head(p) + r, BLANK);
    if found.Some? && found.value < |Head(p)| {
      NotInHead(p, r, BLANK, found.value);
    }
  }

  lemma BlankBehind(h: seq<byte>, c: seq<byte>)
    ensures OccursAt(h + (BLANK + c), BLANK, |h|)
    ensures (h + (BLANK + c))[..|h|] == h && (h + (BLANK + c))[|h| + 4..] == c
  {
    assert h + (BLANK + c) == (h + BLANK) + c;
    assert (h + (BLANK + c))[|h|..|h| + 4] == BLANK;
  }

  /** A part cut off after its header lines: too short for the blank line it is no
      part, and else it is the part with the content as far as it goes. */
  lemma CutPart(p: Part, r: seq<byte>)
    requires p.mediaType.Some? ==> Plain(p.mediaType.value)
    ensures |r| < 4 ==> ParsePart(Head(p) + r) == None
    ensures ParsePart(Head(p) + (BLANK + r)) == Some(Seen(p).(content := r))
  {
    BlankAfterHead(p, r);
    FirstBlank(p, r);
    BlankBehind(Head(p), r);
    SplitPart(Head(p) + (BLANK + r), Head(p), r);
    HeadRoundTrip(p, r);
  }

  lemma FirstBlank(p: Part, r: seq<byte>)
    requires p.mediaType.Some? ==> Plain(p.mediaType.value)
    ensures Find(Head(p) + (BLANK + r), BLANK) == Some(|Head(p)|)
  {
    BlankAfterHead(p, BLANK + r);
    BlankBehind(Head(p), r);
  }

  lemma SplitPart(text: seq<byte>, head: seq<byte>, content: seq<byte>)
    requires |head| + 4 <= |text| && text[..|head|] == head && text[|head| + 4..] == content
    requires Find(text, BLANK) == Some(|head|)
    ensures ParsePart(text) == ParseHead(head, content)
  {
  }

  // --- Reading the body -----------------------------------------------------------

  /** What follows the first boundary of an encoded body. */
  function After(parts: seq<Part>, boundary: seq<byte>): (s: seq<byte>)
    ensures [DASH, DASH] + boundary + s == Encoded(parts, boundary)
  {
    if parts == [] then [DASH, DASH] + CRLF
    else
      var rest := After(parts[1..], boundary);
      AfterOne(parts, rest, boundary);
      CRLF + Text(parts[0], Delimiter(boundary), rest)
  }

  lemma AfterOne(parts: seq<Part>, rest: seq<byte>, boundary: seq<byte>)
    requires parts != [] && [DASH, DASH] + boundary + rest == Encoded(parts[1..], boundary)
    ensures [DASH, DASH] + boundary + (CRLF + Text(parts[0], Delimiter(boundary), rest)) == Encoded(parts, boundary)
  {
    Regroup(Head(parts[0]), parts[0].content, [DASH, DASH], boundary, rest);
  }

  lemma Regroup(h: seq<byte>, c: seq<byte>, dashes: seq<byte>, boundary: seq<byte>, rest: seq<byte>)
    ensures CRLF + (h + (CRLF + ((CRLF + c) + ((CRLF + dashes + boundary) + rest))))
            == CRLF + h + BLANK + c + CRLF + (dashes + boundary + rest)
  {
    assert CRLF + (CRLF + c) == BLANK + c;
    assert (CRLF + dashes + boundary) + rest == CRLF + (dashes + boundary + rest);
  }

  /** No delimiter is hit before the one that ends the part. */
  ghost predicate Clear(p: Part, d: seq<byte>) {
    !Occurs(Exposed(p.content), d)
  }

  /** Reading one part of the body: the part and the rest if its content is clear,
      and otherwise not the part. */
  lemma ReadPart(p: Part, d: seq<byte>, after: seq<byte>) returns (part: seq<byte>, behind: seq<byte>)
    requires DelimiterLike(d) && (p.mediaType.Some? ==> Plain(p.mediaType.value))
    ensures Cut(Text(p, d, after), d) == Some((part, behind))
    ensures Clear(p, d) ==> ParsePart(part) == Some(Seen(p)) && behind == after
    ensures !Clear(p, d) ==> ParsePart(part) != Some(Seen(p))
  {
    FirstDelimiter(p, d, after);
    var i := Find(Text(p, d, after), d).value;
    ReadCut(p, d, after, i);
    part, behind := Text(p, d, after)[..i], Text(p, d, after)[i + |d|..];
  }

  lemma ReadCut(p: Part, d: seq<byte>, after: seq<byte>, i: nat)
    requires p.mediaType.Some? ==> Plain(p.mediaType.value)
    requires |Head(p)| <= i <= |Head(p)| + 4 + |p.content|
    ensures i + |d| <= |Text(p, d, after)|
    ensures ParsePart(Text(p, d, after)[..i]) == Some(Seen(p)) <==> i == |Head(p)| + 4 + |p.content|
    ensures i == |Head(p)| + 4 + |p.content| ==> Text(p, d, after)[i + |d|..] == after
  {
    CutText(Head(p), p.content, d, after, i);
    CutSeen(p, i - |Head(p)|);
  }

  /** The part is read whole when the cut keeps its whole content, and only then. */
  lemma CutSeen(p: Part, n: nat)
    requires (p.mediaType.Some? ==> Plain(p.mediaType.value)) && n <= 4 + |p.content|
    ensures ParsePart(Head(p) + (BLANK + p.content)[..n]) == Some(Seen(p)) <==> n == 4 + |p.content|
  {
    if n < 4 {
      CutPart(p, (BLANK + p.content)[..n]);
    } else {
      assert (BLANK + p.content)[..n] == BLANK + p.content[..n - 4];
      CutPart(p, p.content[..n - 4]);
      SeenWhole(p, n - 4);
    }
  }

  lemma SeenWhole(p: Part, n: nat)
    requires n <= |p.content|
    ensures Seen(p).(content := p.content[..n]) == Seen(p) <==> n == |p.content|
  {
    assert |p.content[..n]| == n;
    assert p.content[..|p.content|] == p.content;
  }

  lemma CutText(h: seq<byte>, c: seq<byte>, d: seq<byte>, after: seq<byte>, i: nat)
    requires |h| <= i <= |h| + 4 + |c|
    ensures var text := h + (CRLF + (Exposed(c) + (d + after)));
            && text[..i] == h + (BLANK + c)[..i - |h|]
            && i + |d| <= |text|
            && (i == |h| + 4 + |c| ==> text[i + |d|..] == after)
  {
    assert h + (CRLF + (Exposed(c) + (d + after))) == h + (BLANK + c) + (d + after) by {
      assert CRLF + (CRLF + c) == BLANK + c;
    }
  }

  lemma {:induction false} BodyRoundTrip(parts: seq<Part>, boundary: seq<byte>)
    requires CR !in boundary
    requires forall p :: p in parts ==> p.mediaType.Some? ==> Plain(p.mediaType.value)
    ensures ParseParts(After(parts, boundary), Delimiter(boundary)) == Some(AllSeen(parts))
            <==> forall p :: p in parts ==> Clear(p, Delimiter(boundary))
  {
    if parts != [] {
      var p := parts[0];
      BodyRoundTrip(parts[1..], boundary);
      assert forall q :: q in parts <==> q == p || q in parts[1..];
      BodyStep(parts, boundary);
    }
  }

  lemma BodyStep(parts: seq<Part>, boundary: seq<byte>)
    requires parts != [] && CR !in boundary && (parts[0].mediaType.Some? ==> Plain(parts[0].mediaType.value))
    ensures var d := Delimiter(boundary);
            ParseParts(After(parts, boundary), d) == Some(AllSeen(parts))
            <==> Clear(parts[0], d) && ParseParts(After(parts[1..], boundary), d) == Some(AllSeen(parts[1..]))
  {
    assert DelimiterLike(Delimiter(boundary));
    TextStep(parts[0], AllSeen(parts[1..]), Delimiter(boundary), After(parts[1..], boundary));
  }

  lemma TextStep(p: Part, others: seq<Part>, d: seq<byte>, rest: seq<byte>)
    requires DelimiterLike(d) && (p.mediaType.Some? ==> Plain(p.mediaType.value))
    ensures ParseParts(CRLF + Text(p, d, rest), d) == Some([Seen(p)] + others)
            <==> Clear(p, d) && ParseParts(rest, d) == Some(others)
  {
    var part, behind := ReadPart(p, d, rest);
    ParseStep(Text(p, d, rest), d, part, behind);
    FirstAndRest(ParsePart(part), ParseParts(behind, d), Seen(p), others);
  }

  lemma FirstAndRest(first: Option<Part>, rest: Option<seq<Part>>, p: Part, others: seq<Part>)
    ensures OneMore(first, rest) == Some([p] + others) <==> first == Some(p) && rest == Some(others)
  {
    if first.Some? && rest.Some? {
      var all := [first.value] + rest.value;
      assert all[0] == first.value && all[1..] == rest.value;
      assert ([p] + others)[0] == p && ([p] + others)[1..] == others;
    }
  }

  /** One unrolling of ParseParts. */
  lemma ParseStep(text: seq<byte>, d: seq<byte>, part: seq<byte>, rest: seq<byte>)
    requires d != [] && Cut(text, d) == Some((part, rest))
    ensures ParseParts(CRLF + text, d) == OneMore(ParsePart(part), ParseParts(rest, d))
  {
    var s := CRLF + text;
    assert s[0] == CR && s[2..] == text;
  }

  /** The content neither holds a delimiter nor begins with a boundary line. */
  predicate Unbroken(content: seq<byte>, boundary: seq<byte>) {
    !Occurs(content, Delimiter(boundary)) && !([DASH, DASH] + boundary <= content)
  }

  /** The round trip, for every list of parts: a reader who cuts the body at the first
      delimiter each time recovers the parts, in order, with their escaped names,
      exactly when no content holds a delimiter or begins with a boundary line. */
  lemma RoundTrip(parts: seq<Part>, boundary: seq<byte>)
    requires CR !in boundary
    requires forall p :: p in parts ==> p.mediaType.Some? ==> Plain(p.mediaType.value)
    ensures Parse(Encoded(parts, boundary), boundary) == Some(AllSeen(parts))
            <==> forall p :: p in parts ==> Unbroken(p.content, boundary)
  {
    StripPrefix([DASH, DASH] + boundary, After(parts, boundary));
    BodyRoundTrip(parts, boundary);
    forall p | p in parts
      ensures Clear(p, Delimiter(boundary)) <==> Unbroken(p.content, boundary)
    {
      ExposedHoldsDelimiter(p.content, boundary);
    }
  }

  /** A file's media type has no line break unless it was declared with one or
      guessed to have one. */
  lemma FilePartIsPlain(name: seq<byte>, spec: FileSpec, guess: seq<byte> -> seq<byte>)
    requires spec.Typed? ==> Plain(spec.mediaType)
    requires forall n :: Plain(guess(n))
    ensures var p := FilePart(name, spec, guess);
            p.mediaType.Some? && Plain(p.mediaType.value) && p.content == spec.content
  {
  }

  /** What a server should read from a form: the fields and then the files, in order,
      under their escaped names and with their contents. A file comes under the name
      given for it, or else the field's; its type is the one declared, or else the
      one guessed from that name, or else the type of any bytes at all. */
  predicate IsForm(read: seq<Part>, fields: seq<(seq<byte>, seq<byte>)>, files: seq<(seq<byte>, FileSpec)>,
                   guess: seq<byte> -> seq<byte>)
  {
    && |read| == |fields| + |files|
    && (forall i :: 0 <= i < |fields| ==> read[i] == Part(Escape(fields[i].0), None, None, fields[i].1))
    && (forall k :: |fields| <= k < |read| ==> IsFile(read[k], files[k - |fields|].0, files[k - |fields|].1, guess))
  }

  predicate IsFile(read: Part, name: seq<byte>, spec: FileSpec, guess: seq<byte> -> seq<byte>) {
    match spec
    case Bare(content) => read == Part(Escape(name), Some(Escape(name)), Some(Guessed(name, guess)), content)
    case Named(filename, content) =>
      read == Part(Escape(name), Some(Escape(filename)), Some(Guessed(filename, guess)), content)
    case Typed(filename, content, mediaType) =>
      read == Part(Escape(name), Some(Escape(filename)),
                   Some(if mediaType == [] then Guessed(filename, guess) else mediaType), content)
  }

  function Guessed(filename: seq<byte>, guess: seq<byte> -> seq<byte>): seq<byte> {
    if guess(filename) == [] then Ascii("application/octet-stream") else guess(filename)
  }

  /** The round trip, for every form: what EncodeMultipart gives for some fields and
      files reads back as them exactly when none of their contents is broken. */
  lemma FormRoundTrip(fields: seq<(seq<byte>, seq<byte>)>, files: seq<(seq<byte>, FileSpec)>,
                      boundary: seq<byte>, guess: seq<byte> -> seq<byte>, body: seq<byte>)
    requires CR !in boundary
    requires forall i :: 0 <= i < |files| && files[i].1.Typed? ==> Plain(files[i].1.mediaType)
    requires forall n :: Plain(guess(n))
    requires body == Encoded(FieldParts(fields) + FileParts(files, guess), boundary)
    ensures Parse(body, boundary).Some? && IsForm(Parse(body, boundary).value, fields, files, guess)
            <==> (forall i :: 0 <= i < |fields| ==> Unbroken(fields[i].1, boundary))
                 && (forall i :: 0 <= i < |files| ==> Unbroken(files[i].1.content, boundary))
  {
    var parts := FormParts(fields, files, guess);
    PartsAreRead(parts, fields, files, guess, boundary);
    if Parse(body, boundary).Some? {
      FormIsSeen(Parse(body, boundary).value, fields, files, guess, parts);
    }
  }

  lemma {:induction false} SeenAt(parts: seq<Part>)
    ensures |AllSeen(parts)| == |parts|
    ensures forall i :: 0 <= i < |parts| ==> AllSeen(parts)[i] == Seen(parts[i])
  {
    if parts != [] {
      SeenAt(parts[1..]);
    }
  }

  lemma FileIsSeen(read: Part, name: seq<byte>, spec: FileSpec, guess: seq<byte> -> seq<byte>)
    ensures IsFile(read, name, spec, guess) <==> read == Seen(FilePart(name, spec, guess))
  {
  }

  /** The parts an encoder is given, by their indices. */
  ghost predicate PartsOf(parts: seq<Part>, fields: seq<(seq<byte>, seq<byte>)>, files: seq<(seq<byte>, FileSpec)>,
                          guess: seq<byte> -> seq<byte>)
  {
    && |parts| == |fields| + |files|
    && (forall i :: 0 <= i < |fields| ==> parts[i] == Part(fields[i].0, None, None, fields[i].1))
    && (forall k :: |fields| <= k < |parts| ==>
          parts[k] == FilePart(files[k - |fields|].0, files[k - |fields|].1, guess))
  }

  lemma FormParts(fields: seq<(seq<byte>, seq<byte>)>, files: seq<(seq<byte>, FileSpec)>, guess: seq<byte> -> seq<byte>)
    returns (parts: seq<Part>)
    ensures parts == FieldParts(fields) + FileParts(files, guess) && PartsOf(parts, fields, files, guess)
  {
    var fieldParts, fileParts := AllParts(fields, files, guess);
    parts := fieldParts + fileParts;
    assert forall k :: |fields| <= k < |parts| ==> parts[k] == fileParts[k - |fields|];
  }

  lemma FormIsSeen(read: seq<Part>, fields: seq<(seq<byte>, seq<byte>)>, files: seq<(seq<byte>, FileSpec)>,
                   guess: seq<byte> -> seq<byte>, parts: seq<Part>)
    requires PartsOf(parts, fields, files, guess)
    ensures IsForm(read, fields, files, guess) <==> read == AllSeen(parts)
  {
    SeenAt(parts);
    if read == AllSeen(parts) {
      SeenIsForm(read, fields, files, guess, parts);
    }
    if IsForm(read, fields, files, guess) {
      FormIsAllSeen(read, fields, files, guess, parts);
    }
  }

  lemma SeenIsForm(read: seq<Part>, fields: seq<(seq<byte>, seq<byte>)>, files: seq<(seq<byte>, FileSpec)>,
                   guess: seq<byte> -> seq<byte>, parts: seq<Part>)
    requires PartsOf(parts, fields, files, guess)
    requires |read| == |parts| && forall k :: 0 <= k < |read| ==> read[k] == Seen(parts[k])
    ensures IsForm(read, fields, files, guess)
  {
    forall k | |fields| <= k < |read|
      ensures IsFile(read[k], files[k - |fields|].0, files[k - |fields|].1, guess)
    {
      FileIsSeen(read[k], files[k - |fields|].0, files[k - |fields|].1, guess);
    }
  }

  lemma FormIsAllSeen(read: seq<Part>, fields: seq<(seq<byte>, seq<byte>)>, files: seq<(seq<byte>, FileSpec)>,
                      guess: seq<byte> -> seq<byte>, parts: seq<Part>)
    requires PartsOf(parts, fields, files, guess) && IsForm(read, fields, files, guess)
    requires |AllSeen(parts)| == |parts| && forall k :: 0 <= k < |parts| ==> AllSeen(parts)[k] == Seen(parts[k])
    ensures read == AllSeen(parts)
  {
    forall k | 0 <= k < |parts|
      ensures read[k] == AllSeen(parts)[k]
    {
      if k >= |fields| {
        FileIsSeen(read[k], files[k - |fields|].0, files[k - |fields|].1, guess);
      }
    }
  }

  // --- The text of the body -----------------------------------------------------------

  lemma Punctuation()
    ensures Ascii("--") == [DASH, DASH] && Ascii("\r\n") == CRLF
    ensures Ascii("\"\r\n") == [QUOTE] + CRLF && Ascii("\"\r\n\r\n") == [QUOTE] + BLANK
    ensures Ascii("\r\n\r\n") == BLANK
  {
  }

  lemma QuoteAndFilename()
    ensures Ascii("\"; filename=\"") == [QUOTE] + Filename()
  {
  }

  lemma PartLayout(p: Part, rest: seq<Part>, boundary: seq<byte>)
    ensures Encoded([p] + rest, boundary)
            == [DASH, DASH] + boundary + CRLF + (Head(p) + BLANK) + p.content + CRLF + Encoded(rest, boundary)
  {
    var parts := [p] + rest;
    assert parts[1..] == rest;
    OnePart([], parts, boundary);
    HeadIsWritten([], p, boundary);
    Unprefixed([DASH, DASH] + boundary + CRLF, Written(p, boundary), Encoded(rest, boundary), Encoded(parts, boundary));
  }

  lemma Unprefixed(a: seq<byte>, w: seq<byte>, e: seq<byte>, all: seq<byte>)
    ensures [] + a == a && [] + w + e == w + e && [] + w == w && [] + all == all
  {
  }

  /** Nothing but the closing line. */
  lemma ClosingLayout(boundary: seq<byte>)
    ensures Encoded([], boundary) == Ascii("--") + boundary + Ascii("--\r\n")
  {
  }

  /** A field comes under its boundary line and its disposition. */
  lemma FieldLayout(p: Part, rest: seq<Part>, boundary: seq<byte>)
    requires p.filename.None? && p.mediaType.None?
    ensures Encoded([p] + rest, boundary)
            == Ascii("--") + boundary + Ascii("\r\n")
               + (Ascii("Content-Disposition: form-data; name=\"") + Escape(p.name) + Ascii("\"\r\n\r\n"))
               + p.content + Ascii("\r\n") + Encoded(rest, boundary)
  {
    Punctuation();
    PartLayout(p, rest, boundary);
    FieldHead(Name(), Escape(p.name));
    assert Head(p) == Name() + Escape(p.name) + [QUOTE];
  }

  lemma FieldHead(a: seq<byte>, name: seq<byte>)
    ensures a + name + [QUOTE] + BLANK == a + name + ([QUOTE] + BLANK)
  {
  }

  /** A file's disposition holds its name too, and a line with its type follows. */
  lemma FileLayout(p: Part, rest: seq<Part>, boundary: seq<byte>)
    requires p.filename.Some? && p.mediaType.Some?
    ensures Encoded([p] + rest, boundary)
            == Ascii("--") + boundary + Ascii("\r\n")
               + (Ascii("Content-Disposition: form-data; name=\"") + Escape(p.name) + Ascii("\"; filename=\"")
                  + Escape(p.filename.value) + Ascii("\"\r\n")
                  + (Ascii("Content-Type: ") + p.mediaType.value + Ascii("\r\n\r\n")))
               + p.content + Ascii("\r\n") + Encoded(rest, boundary)
  {
    Punctuation();
    QuoteAndFilename();
    PartLayout(p, rest, boundary);
    FileHead(Name() + Escape(p.name), Filename(), Escape(p.filename.value), Type(), p.mediaType.value);
  }

  lemma FileHead(a: seq<byte>, f: seq<byte>, filename: seq<byte>, t: seq<byte>, mediaType: seq<byte>)
    ensures a + [QUOTE] + (f + filename + [QUOTE]) + (CRLF + t + mediaType) + BLANK
            == a + ([QUOTE] + f) + filename + ([QUOTE] + CRLF) + (t + mediaType + BLANK)
  {
    var b := a + [QUOTE] + f + filename;
    assert a + [QUOTE] + (f + filename + [QUOTE]) == b + [QUOTE];
    assert a + ([QUOTE] + f) + filename == b;
    TypeLine(b + [QUOTE], t + mediaType);
    assert CRLF + t + mediaType == CRLF + (t + mediaType);
    assert t + mediaType + CRLF + CRLF == t + mediaType + BLANK;
    assert b + ([QUOTE] + CRLF) == b + [QUOTE] + CRLF;
  }

  /** Every part is read as it should be exactly when no content is broken. */
  lemma PartsAreRead(parts: seq<Part>, fields: seq<(seq<byte>, seq<byte>)>, files: seq<(seq<byte>, FileSpec)>,
                     guess: seq<byte> -> seq<byte>, boundary: seq<byte>)
    requires CR !in boundary && PartsOf(parts, fields, files, guess)
    requires forall i :: 0 <= i < |files| && files[i].1.Typed? ==> Plain(files[i].1.mediaType)
    requires forall n :: Plain(guess(n))
    ensures Parse(Encoded(parts, boundary), boundary) == Some(AllSeen(parts))
            <==> (forall i :: 0 <= i < |fields| ==> Unbroken(fields[i].1, boundary))
                 && (forall i :: 0 <= i < |files| ==> Unbroken(files[i].1.content, boundary))
  {
    PartsArePlain(parts, fields, files, guess);
    RoundTrip(parts, boundary);
    AllUnbroken(parts, fields, files, guess, boundary);
  }

  lemma PartsArePlain(parts: seq<Part>, fields: seq<(seq<byte>, seq<byte>)>, files: seq<(seq<byte>, FileSpec)>,
                      guess: seq<byte> -> seq<byte>)
    requires PartsOf(parts, fields, files, guess)
    requires forall i :: 0 <= i < |files| && files[i].1.Typed? ==> Plain(files[i].1.mediaType)
    requires forall n :: Plain(guess(n))
    ensures forall p :: p in parts ==> p.mediaType.Some? ==> Plain(p.mediaType.value)
  {
    forall k | |fields| <= k < |parts|
      ensures parts[k].mediaType.Some? && Plain(parts[k].mediaType.value)
    {
      FilePartIsPlain(files[k - |fields|].0, files[k - |fields|].1, guess);
    }
  }

  lemma AllUnbroken(parts: seq<Part>, fields: seq<(seq<byte>, seq<byte>)>, files: seq<(seq<byte>, FileSpec)>,
                    guess: seq<byte> -> seq<byte>, boundary: seq<byte>)
    requires PartsOf(parts, fields, files, guess)
    ensures (forall p :: p in parts ==> Unbroken(p.content, boundary))
            <==> (forall i :: 0 <= i < |fields| ==> Unbroken(fields[i].1, boundary))
                 && (forall i :: 0 <= i < |files| ==> Unbroken(files[i].1.content, boundary))
  {
    forall j | 0 <= j < |files|
      ensures parts[|fields| + j] in parts && parts[|fields| + j].content == files[j].1.content
    {
    }
    forall i | 0 <= i < |fields|
      ensures parts[i] in parts && parts[i].content == fields[i].1
    {
    }
  }

  /** Holding no delimiter is not enough: a field whose value is the boundary line
      itself is lost. */
  lemma BoundaryLineIsLost(name: seq<byte>, boundary: seq<byte>)
    requires CR !in boundary
    ensures var value := [DASH, DASH] + boundary;
            && !Occurs(value, Delimiter(boundary))
            && Parse(Encoded([Part(name, None, None, value)], boundary), boundary)
               != Some([Part(Escape(name), None, None, value)])
  {
    var value := [DASH, DASH] + boundary;
    RoundTrip([Part(name, None, None, value)], boundary);
    assert Part(name, None, None, value) in [Part(name, None, None, value)];
    OneSeen(Part(name, None, None, value));
  }

  lemma OneSeen(p: Part)
    ensures AllSeen([p]) == [Seen(p)]
  {
    assert [p][1..] == [];
  }
}
