/**
 * The body of an email (src/infrastructure/email/mime-message.ts): base64 bodies in 76-column lines
 * (section 6.8 of RFC 2045), nested in multipart/related and multipart/mixed (section 5.1.1 of RFC 2046).
 */
module Multipart {
  import opened Wrappers
  import opened Base64

  type Line = Text

  const DASHES: Text := [45, 45]
  const COLUMNS: nat := 76

  // ---------- the builder ----------

  /** A part with its header lines and its bytes. */
  datatype Leaf = Leaf(headers: seq<Line>, content: Bytes)

  /** The HTML alone, or with its inline images; `token` is the random part of the boundary. */
  datatype Body = Html(html: Leaf) | Related(token: Text, leaves: seq<Leaf>)

  datatype Content = Only(body: Body) | Mixed(token: Text, body: Body, attachments: seq<Leaf>)

  datatype Kind = MixedKind | RelatedKind

  function Ascii(s: string): Text { seq(|s|, i requires 0 <= i < |s| => s[i] as nat) }

  function KindName(kind: Kind): string { if kind == MixedKind then "mixed" else "related" }

  /** `=_quote_mixed_…` or `=_quote_related_…`. */
  function Boundary(kind: Kind, token: Text): Text { Ascii("=_quote_" + KindName(kind) + "_") + token }

  function Lines64(t: Text): seq<Line> {
    if |t| <= COLUMNS then [t] else [t[..COLUMNS]] + Lines64(t[COLUMNS..])
  }

  function LeafLines(leaf: Leaf): seq<Line> { leaf.headers + [[]] + Lines64(Encode(leaf.content)) + [[]] }

  /** The Content-Type header up to the quoted boundary. */
  function TypePrefix(kind: Kind): Text { Ascii("Content-Type: multipart/" + KindName(kind) + "; boundary=\"") }

  function TypeHeader(kind: Kind, sep: Text): Line { TypePrefix(kind) + sep + [34] }

  function PartsLines(sep: Text, parts: seq<seq<Line>>): seq<Line> {
    if parts == [] then [DASHES + sep + DASHES, []] else [DASHES + sep] + parts[0] + PartsLines(sep, parts[1..])
  }

  function MultipartLines(kind: Kind, token: Text, parts: seq<seq<Line>>): seq<Line> {
    var sep := Boundary(kind, token);
    [TypeHeader(kind, sep), []] + PartsLines(sep, parts)
  }

  function AllLeafLines(leaves: seq<Leaf>): seq<seq<Line>> {
    seq(|leaves|, i requires 0 <= i < |leaves| => LeafLines(leaves[i]))
  }

  function BodyLines(body: Body): seq<Line> {
    match body
    case Html(html) => LeafLines(html)
    case Related(token, leaves) => MultipartLines(RelatedKind, token, AllLeafLines(leaves))
  }

  function ContentLines(c: Content): seq<Line> {
    match c
    case Only(body) => BodyLines(body)
    case Mixed(token, body, attachments) => MultipartLines(MixedKind, token, [BodyLines(body)] + AllLeafLines(attachments))
  }

  function JoinLines(lines: seq<Line>): Text {
    if lines == [] then [] else if |lines| == 1 then lines[0] else lines[0] + [13, 10] + JoinLines(lines[1..])
  }

  // ---------- a reader ----------

  function LineLength(t: Text): (n: nat)
    ensures n <= |t| && (n < |t| ==> t[n] == 13)
  {
    if t == [] || t[0] == 13 then 0 else 1 + LineLength(t[1..])
  }

  /** The lines of a text delimited by CRLF. */
  function SplitLines(t: Text): seq<Line>
    decreases |t|
  {
    var n := LineLength(t);
    if |t| < n + 2 then [t] else [t[..n]] + SplitLines(t[n + 2..])
  }

  /** A line that begins with the delimiter of this boundary. */
  predicate IsDelimiter(sep: Text, line: Line) { DASHES + sep <= line }

  /** The lines between delimiters, up to the closing one; `open` are those of the current part. */
  function SplitParts(sep: Text, lines: seq<Line>, open: Option<seq<Line>>): Option<seq<seq<Line>>>
    decreases |lines|
  {
    if lines == [] then None
    else
      var done := if open.Some? then [open.value] else [];
      var line := lines[0];
      if !IsDelimiter(sep, line) then
        SplitParts(sep, lines[1..], if open.Some? then Some(open.value + [line]) else None)
      else if DASHES + sep + DASHES <= line then Some(done)
      else
        var rest := SplitParts(sep, lines[1..], Some([]));
        if rest.None? then None else Some(done + rest.value)
  }

  /** Header lines up to the first empty one. */
  function HeaderCount(lines: seq<Line>): (n: nat)
    ensures n <= |lines|
  {
    if lines == [] || lines[0] == [] then 0 else 1 + HeaderCount(lines[1..])
  }

  function Unfold(lines: seq<Line>): Text { if lines == [] then [] else lines[0] + Unfold(lines[1..]) }

  function ReadLeaf(lines: seq<Line>): Option<Leaf> {
    var n := HeaderCount(lines);
    if n == |lines| then None
    else
      var content := Decode(Unfold(lines[n + 1..]));
      if content.None? then None else Some(Leaf(lines[..n], content.value))
  }

  function ReadLeaves(parts: seq<seq<Line>>): Option<seq<Leaf>> {
    if parts == [] then Some([])
    else
      var (first, rest) := (ReadLeaf(parts[0]), ReadLeaves(parts[1..]));
      if first.None? || rest.None? then None else Some([first.value] + rest.value)
  }

  /** The boundary named by a multipart header of this kind. */
  function ReadBoundary(kind: Kind, line: Line): Option<Text> {
    var n := |TypePrefix(kind)|;
    if TypePrefix(kind) <= line && |line| > n && line[|line| - 1] == 34 then Some(line[n..|line| - 1]) else None
  }

  /** The parts of a multipart of this kind. */
  function ReadMultipart(kind: Kind, lines: seq<Line>): Option<(Text, seq<seq<Line>>)> {
    if |lines| < 2 || ReadBoundary(kind, lines[0]).None? then None
    else
      var sep := ReadBoundary(kind, lines[0]).value;
      var parts := SplitParts(sep, lines[2..], None);
      if parts.None? then None else Some((sep, parts.value))
  }

  function Token(kind: Kind, sep: Text): Text { sep[if |sep| < |Boundary(kind, [])| then |sep| else |Boundary(kind, [])|..] }

  function ReadBody(lines: seq<Line>): Option<Body> {
    var related := ReadMultipart(RelatedKind, lines);
    if related.None? then
      var leaf := ReadLeaf(lines);
      if leaf.None? then None else Some(Html(leaf.value))
    else
      var leaves := ReadLeaves(related.value.1);
      if leaves.None? then None else Some(Related(Token(RelatedKind, related.value.0), leaves.value))
  }

  function ReadContent(lines: seq<Line>): Option<Content> {
    var mixed := ReadMultipart(MixedKind, lines);
    if mixed.None? || mixed.value.1 == [] then
      var body := ReadBody(lines);
      if body.None? then None else Some(Only(body.value))
    else
      var (body, attachments) := (ReadBody(mixed.value.1[0]), ReadLeaves(mixed.value.1[1..]));
      if body.None? || attachments.None? then None
      else Some(Mixed(Token(MixedKind, mixed.value.0), body.value, attachments.value))
  }

  // ---------- parts without delimiters ----------

  predicate NoDelimiter(sep: Text, lines: seq<Line>) { forall i | 0 <= i < |lines| :: !IsDelimiter(sep, lines[i]) }

  lemma {:induction false} PartIsCollected(sep: Text, part: seq<Line>, rest: seq<Line>, open: seq<Line>)
    requires NoDelimiter(sep, part)
    ensures SplitParts(sep, part + rest, Some(open)) == SplitParts(sep, rest, Some(open + part))
    decreases |part|
  {
    if part == [] {
      assert part + rest == rest && open + part == open;
    } else {
      assert (part + rest)[1..] == part[1..] + rest;
      PartIsCollected(sep, part[1..], rest, open + [part[0]]);
      assert open + [part[0]] + part[1..] == open + part;
    }
  }

  /** Splitting by the boundary gives back exactly the parts, when none of their lines starts a delimiter. */
  lemma {:induction false} PartsReadBack(sep: Text, parts: seq<seq<Line>>, open: Option<seq<Line>>)
    requires forall i | 0 <= i < |parts| :: NoDelimiter(sep, parts[i])
    ensures SplitParts(sep, PartsLines(sep, parts), open) == Some((if open.Some? then [open.value] else []) + parts)
    decreases |parts|
  {
    var lines := PartsLines(sep, parts);
    if parts == [] {
      assert (if open.Some? then [open.value] else []) + parts == if open.Some? then [open.value] else [];
    } else {
      var rest := PartsLines(sep, parts[1..]);
      assert lines[0] == DASHES + sep && lines[1..] == parts[0] + rest;
      PartIsCollected(sep, parts[0], rest, []);
      assert [] + parts[0] == parts[0];
      PartsReadBack(sep, parts[1..], Some(parts[0]));
      assert parts == [parts[0]] + parts[1..];
    }
  }

  // ---------- base64 bodies and headers ----------

  predicate NoBreak(line: Line) { forall i | 0 <= i < |line| :: line[i] != 13 }

  /** A body or header line: no line break inside, and it does not begin with a dash. */
  predicate Plain(line: Line) { NoBreak(line) && (line != [] ==> line[0] != 45) }

  lemma PlainIsNoDelimiter(sep: Text, line: Line)
    requires Plain(line)
    ensures !IsDelimiter(sep, line)
  {
    assert (DASHES + sep)[0] == 45;
  }

  lemma {:induction false} Base64LinesArePlain(t: Text)
    requires AllSymbols(t)
    ensures forall i | 0 <= i < |Lines64(t)| :: Plain(Lines64(t)[i]) && |Lines64(t)[i]| <= COLUMNS
    ensures Unfold(Lines64(t) + [[]]) == t
    decreases |t|
  {
    if |t| <= COLUMNS {
      SymbolsArePlain(t);
      assert (Lines64(t) + [[]])[1..] == [[]];
      assert Unfold([[]]) == [];
    } else {
      Base64LinesArePlain(t[COLUMNS..]);
      SymbolsArePlain(t[..COLUMNS]);
      assert (Lines64(t) + [[]])[1..] == Lines64(t[COLUMNS..]) + [[]];
      assert t == t[..COLUMNS] + t[COLUMNS..];
    }
  }

  /** Every line but the last is exactly 76 columns, and the last is not longer. */
  lemma {:induction false} LinesAreFull(t: Text, i: nat)
    requires i < |Lines64(t)|
    ensures |Lines64(t)[i]| <= 76 && (i < |Lines64(t)| - 1 ==> |Lines64(t)[i]| == 76)
    decreases |t|
  {
    if |t| > COLUMNS && i > 0 { LinesAreFull(t[COLUMNS..], i - 1); }
  }

  lemma SymbolsArePlain(t: Text)
    requires AllSymbols(t)
    ensures Plain(t)
  {
    forall i | 0 <= i < |t| ensures t[i] != 13 && t[i] != 45 { assert IsSymbol(t[i]); }
  }

  /** Header lines as the builders write them. */
  predicate GoodHeader(line: Line) { line != [] && Plain(line) }

  ghost predicate GoodLeaf(leaf: Leaf) {
    && leaf.headers != []
    && (forall i | 0 <= i < |leaf.headers| :: GoodHeader(leaf.headers[i]))
    && !(TypePrefix(MixedKind) <= leaf.headers[0]) && !(TypePrefix(RelatedKind) <= leaf.headers[0])
  }

  lemma {:induction false} HeadersAreCounted(headers: seq<Line>, rest: seq<Line>)
    requires forall i | 0 <= i < |headers| :: headers[i] != []
    ensures HeaderCount(headers + ([[]] + rest)) == |headers|
    decreases |headers|
  {
    if headers == [] {
      assert headers + ([[]] + rest) == [[]] + rest;
    } else {
      assert (headers + ([[]] + rest))[1..] == headers[1..] + ([[]] + rest);
      HeadersAreCounted(headers[1..], rest);
    }
  }

  lemma LeafReadsBack(leaf: Leaf)
    requires GoodLeaf(leaf)
    ensures ReadLeaf(LeafLines(leaf)) == Some(leaf)
  {
    var body := Lines64(Encode(leaf.content)) + [[]];
    var lines := LeafLines(leaf);
    assert lines == leaf.headers + ([[]] + body);
    HeadersAreCounted(leaf.headers, body);
    assert lines[|leaf.headers| + 1..] == body && lines[..|leaf.headers|] == leaf.headers;
    EncodedShape(leaf.content);
    Base64LinesArePlain(Encode(leaf.content));
    DecodeUndoesEncode(leaf.content);
  }

  ghost predicate AllPlain(lines: seq<Line>) { forall i | 0 <= i < |lines| :: Plain(lines[i]) }

  lemma LeafLinesArePlain(leaf: Leaf)
    requires GoodLeaf(leaf)
    ensures AllPlain(LeafLines(leaf)) && LeafLines(leaf)[0] == leaf.headers[0]
  {
    EncodedShape(leaf.content);
    Base64LinesArePlain(Encode(leaf.content));
  }

  lemma PlainPartsHaveNoDelimiter(sep: Text, lines: seq<Line>)
    requires AllPlain(lines)
    ensures NoDelimiter(sep, lines)
  {
    forall i | 0 <= i < |lines| ensures !IsDelimiter(sep, lines[i]) { PlainIsNoDelimiter(sep, lines[i]); }
  }

  // ---------- nesting ----------

  ghost predicate GoodLeaves(leaves: seq<Leaf>) { forall i | 0 <= i < |leaves| :: GoodLeaf(leaves[i]) }

  ghost predicate GoodBody(body: Body) {
    match body
    case Html(html) => GoodLeaf(html)
    case Related(token, leaves) => NoBreak(token) && GoodLeaves(leaves)
  }

  ghost predicate GoodContent(c: Content) {
    match c
    case Only(body) => GoodBody(body)
    case Mixed(token, body, attachments) => NoBreak(token) && GoodBody(body) && GoodLeaves(attachments)
  }

  /** The boundary of the images can never begin with the boundary of the attachments. */
  lemma KindsDiffer(mixed: Text, related: Text, tail: Text)
    ensures !IsDelimiter(Boundary(MixedKind, mixed), DASHES + Boundary(RelatedKind, related) + tail)
    ensures forall s :: !(TypePrefix(MixedKind) <= TypeHeader(RelatedKind, s))
  {
    var (a, b) := (DASHES + Boundary(MixedKind, mixed), DASHES + Boundary(RelatedKind, related) + tail);
    assert a[10] == 'm' as nat && b[10] == 'r' as nat;
    forall s ensures !(TypePrefix(MixedKind) <= TypeHeader(RelatedKind, s)) {
      assert TypePrefix(MixedKind)[24] == 'm' as nat && TypeHeader(RelatedKind, s)[24] == 'r' as nat;
    }
  }

  lemma {:induction false} NestedPartsHaveNoDelimiter(mixed: Text, related: Text, parts: seq<seq<Line>>)
    requires forall i | 0 <= i < |parts| :: AllPlain(parts[i])
    ensures NoDelimiter(Boundary(MixedKind, mixed), PartsLines(Boundary(RelatedKind, related), parts))
    decreases |parts|
  {
    var (outer, inner) := (Boundary(MixedKind, mixed), Boundary(RelatedKind, related));
    if parts == [] {
      KindsDiffer(mixed, related, DASHES);
      PlainIsNoDelimiter(outer, []);
    } else {
      KindsDiffer(mixed, related, []);
      assert DASHES + inner + [] == DASHES + inner;
      PlainPartsHaveNoDelimiter(outer, parts[0]);
      NestedPartsHaveNoDelimiter(mixed, related, parts[1..]);
    }
  }

  lemma LeavesArePlain(leaves: seq<Leaf>)
    requires GoodLeaves(leaves)
    ensures forall i | 0 <= i < |leaves| :: AllPlain(AllLeafLines(leaves)[i])
  {
    forall i | 0 <= i < |leaves| ensures AllPlain(AllLeafLines(leaves)[i]) { LeafLinesArePlain(leaves[i]); }
  }

  lemma TypeHeaderIsPlain(kind: Kind, token: Text)
    ensures TypeHeader(kind, Boundary(kind, token)) != [] && TypeHeader(kind, Boundary(kind, token))[0] == 'C' as nat
  {
  }

  lemma BodyHasNoDelimiter(mixed: Text, body: Body)
    requires GoodBody(body)
    ensures NoDelimiter(Boundary(MixedKind, mixed), BodyLines(body))
  {
    var outer := Boundary(MixedKind, mixed);
    match body
    case Html(html) =>
      LeafLinesArePlain(html);
      PlainPartsHaveNoDelimiter(outer, BodyLines(body));
    case Related(token, leaves) =>
      LeavesArePlain(leaves);
      NestedPartsHaveNoDelimiter(mixed, token, AllLeafLines(leaves));
      TypeHeaderIsPlain(RelatedKind, token);
      assert (DASHES + outer)[0] == 45;
      PlainIsNoDelimiter(outer, []);
  }

  lemma BoundaryReadsBack(kind: Kind, token: Text)
    ensures ReadBoundary(kind, TypeHeader(kind, Boundary(kind, token))) == Some(Boundary(kind, token))
    ensures Token(kind, Boundary(kind, token)) == token
  {
    assert Boundary(kind, []) == Ascii("=_quote_" + KindName(kind) + "_");
  }

  lemma MultipartReadsBack(kind: Kind, token: Text, parts: seq<seq<Line>>)
    requires forall i | 0 <= i < |parts| :: NoDelimiter(Boundary(kind, token), parts[i])
    ensures ReadMultipart(kind, MultipartLines(kind, token, parts)) == Some((Boundary(kind, token), parts))
  {
    var lines := MultipartLines(kind, token, parts);
    BoundaryReadsBack(kind, token);
    assert lines[2..] == PartsLines(Boundary(kind, token), parts);
    PartsReadBack(Boundary(kind, token), parts, None);
    assert [] + parts == parts;
  }

  lemma {:induction false} LeavesReadBack(leaves: seq<Leaf>)
    requires GoodLeaves(leaves)
    ensures ReadLeaves(AllLeafLines(leaves)) == Some(leaves)
    decreases |leaves|
  {
    if leaves != [] {
      LeafReadsBack(leaves[0]);
      LeavesReadBack(leaves[1..]);
      assert AllLeafLines(leaves)[1..] == AllLeafLines(leaves[1..]);
      assert leaves == [leaves[0]] + leaves[1..];
    }
  }

  lemma BodyReadsBack(body: Body)
    requires GoodBody(body)
    ensures ReadBody(BodyLines(body)) == Some(body)
    ensures ReadMultipart(MixedKind, BodyLines(body)).None?
  {
    match body
    case Html(html) =>
      LeafLinesArePlain(html);
      LeafReadsBack(html);
    case Related(token, leaves) =>
      LeavesArePlain(leaves);
      forall i | 0 <= i < |leaves| ensures NoDelimiter(Boundary(RelatedKind, token), AllLeafLines(leaves)[i]) {
        PlainPartsHaveNoDelimiter(Boundary(RelatedKind, token), AllLeafLines(leaves)[i]);
      }
      MultipartReadsBack(RelatedKind, token, AllLeafLines(leaves));
      LeavesReadBack(leaves);
      BoundaryReadsBack(RelatedKind, token);
      KindsDiffer([], token, []);
  }

  lemma MixedReadsBack(token: Text, body: Body, attachments: seq<Leaf>)
    requires NoBreak(token) && GoodBody(body) && GoodLeaves(attachments)
    ensures ReadContent(ContentLines(Mixed(token, body, attachments))) == Some(Mixed(token, body, attachments))
  {
    var (sep, leaves) := (Boundary(MixedKind, token), AllLeafLines(attachments));
    var parts := [BodyLines(body)] + leaves;
    BodyHasNoDelimiter(token, body);
    LeavesArePlain(attachments);
    forall i | 0 <= i < |parts| ensures NoDelimiter(sep, parts[i]) {
      if i > 0 { PlainPartsHaveNoDelimiter(sep, leaves[i - 1]); }
    }
    MultipartReadsBack(MixedKind, token, parts);
    BodyReadsBack(body);
    LeavesReadBack(attachments);
    BoundaryReadsBack(MixedKind, token);
    assert parts[1..] == leaves;
  }

  // ---------- the text ----------

  lemma {:induction false} LineIsFound(line: Line, rest: Text)
    requires NoBreak(line) && (rest == [] || rest[0] == 13)
    ensures LineLength(line + rest) == |line|
    decreases |line|
  {
    if line == [] {
      assert line + rest == rest;
    } else {
      assert (line + rest)[1..] == line[1..] + rest;
      LineIsFound(line[1..], rest);
    }
  }

  lemma FirstLineReadsBack(line: Line, tail: Text)
    requires NoBreak(line)
    ensures SplitLines(line + ([13, 10] + tail)) == [line] + SplitLines(tail)
  {
    var t := line + ([13, 10] + tail);
    LineIsFound(line, [13, 10] + tail);
    assert t[..|line|] == line && t[|line| + 2..] == tail;
  }

  lemma {:induction false} LinesReadBack(lines: seq<Line>)
    requires lines != [] && forall i | 0 <= i < |lines| :: NoBreak(lines[i])
    ensures SplitLines(JoinLines(lines)) == lines
    decreases |lines|
  {
    if |lines| == 1 {
      LineIsFound(lines[0], []);
      assert lines[0] + [] == lines[0];
    } else {
      FirstLineReadsBack(lines[0], JoinLines(lines[1..]));
      LinesReadBack(lines[1..]);
      assert lines[0] + [13, 10] + JoinLines(lines[1..]) == lines[0] + ([13, 10] + JoinLines(lines[1..]));
    }
  }

  ghost predicate NoBreaks(lines: seq<Line>) { forall i | 0 <= i < |lines| :: NoBreak(lines[i]) }

  lemma {:induction false} PartsHaveNoBreaks(sep: Text, parts: seq<seq<Line>>)
    requires NoBreak(sep) && forall i | 0 <= i < |parts| :: NoBreaks(parts[i])
    ensures NoBreaks(PartsLines(sep, parts))
    decreases |parts|
  {
    if parts != [] { PartsHaveNoBreaks(sep, parts[1..]); }
  }

  lemma MultipartHasNoBreaks(kind: Kind, token: Text, parts: seq<seq<Line>>)
    requires NoBreak(token) && forall i | 0 <= i < |parts| :: NoBreaks(parts[i])
    ensures NoBreaks(MultipartLines(kind, token, parts)) && MultipartLines(kind, token, parts) != []
  {
    NamesHaveNoBreaks(kind);
    assert NoBreak(Boundary(kind, token));
    PartsHaveNoBreaks(Boundary(kind, token), parts);
    assert NoBreak(TypeHeader(kind, Boundary(kind, token)));
  }

  lemma NamesHaveNoBreaks(kind: Kind)
    ensures NoBreak(Ascii("=_quote_" + KindName(kind) + "_")) && NoBreak(TypePrefix(kind))
  {
  }

  lemma BodyHasNoBreaks(body: Body)
    requires GoodBody(body)
    ensures NoBreaks(BodyLines(body)) && BodyLines(body) != []
  {
    match body
    case Html(html) => LeafLinesArePlain(html);
    case Related(token, leaves) =>
      LeavesArePlain(leaves);
      MultipartHasNoBreaks(RelatedKind, token, AllLeafLines(leaves));
  }

  lemma ContentHasNoBreaks(c: Content)
    requires GoodContent(c)
    ensures NoBreaks(ContentLines(c)) && ContentLines(c) != []
  {
    match c
    case Only(body) => BodyHasNoBreaks(body);
    case Mixed(token, body, attachments) =>
      BodyHasNoBreaks(body);
      LeavesArePlain(attachments);
      MultipartHasNoBreaks(MixedKind, token, [BodyLines(body)] + AllLeafLines(attachments));
  }

  /**
   * Reading the text of a message body by its boundaries gives back exactly its parts and their
   * bytes, whatever the bytes and whatever the random tokens of the boundaries.
   */
  lemma MessageBodyReadsBack(c: Content)
    requires GoodContent(c)
    ensures ReadContent(SplitLines(JoinLines(ContentLines(c)))) == Some(c)
  {
    ContentHasNoBreaks(c);
    LinesReadBack(ContentLines(c));
    match c
    case Only(body) => BodyReadsBack(body);
    case Mixed(token, body, attachments) => MixedReadsBack(token, body, attachments);
  }

  // ---------- the builder's own headers ----------

  /** Letters, digits, dots, underscores and hyphens. */
  predicate SafeName(s: string) {
    0 < |s| <= 96 && forall i | 0 <= i < |s| ::
      'a' <= s[i] <= 'z' || 'A' <= s[i] <= 'Z' || '0' <= s[i] <= '9' || s[i] == '.' || s[i] == '_' || s[i] == '-'
  }

  const ENCODING := "Content-Transfer-Encoding: base64"

  function HtmlHeaders(): seq<Line> { [Ascii("Content-Type: text/html; charset=\"" + "UTF-8" + "\""), Ascii(ENCODING)] }

  function InlineHeaders(filename: string, contentId: string): seq<Line> {
    [Ascii("Content-Type: image/png; name=\"" + filename + "\""), Ascii(ENCODING),
     Ascii("Content-ID: <" + contentId + ">"), Ascii("Content-Disposition: inline; filename=\"" + filename + "\"")]
  }

  function AttachmentHeaders(filename: string): seq<Line> {
    [Ascii("Content-Type: application/pdf; name=\"" + filename + "\""), Ascii(ENCODING),
     Ascii("Content-Disposition: attachment; filename=\"" + filename + "\"")]
  }

  lemma SurroundedNameIsGood(before: string, name: string, after: string)
    requires before != "" && before[0] == 'C' && SafeName(name)
    requires forall i | 0 <= i < |before| :: before[i] != '\r'
    requires forall i | 0 <= i < |after| :: after[i] != '\r'
    ensures GoodHeader(Ascii(before + name + after))
  {
    var all := before + name + after;
    forall i | 0 <= i < |all| ensures Ascii(all)[i] != 13 { assert all[i] != '\r'; }
  }

  lemma OtherTypes(line: string, kind: Kind)
    requires |line| > 14 && line[14] != 'm'
    ensures !(TypePrefix(kind) <= Ascii(line))
  {
    assert TypePrefix(kind)[14] == 'm' as nat;
  }

  lemma EncodingIsGood()
    ensures GoodHeader(Ascii(ENCODING))
  {
  }

  predicate NoMultipart(line: Line) { !(TypePrefix(MixedKind) <= line) && !(TypePrefix(RelatedKind) <= line) }

  lemma HeadersAreGood(a: Line, b: Line, c: Line, d: Line, content: Bytes)
    requires GoodHeader(a) && GoodHeader(b) && GoodHeader(c) && GoodHeader(d) && NoMultipart(a)
    ensures GoodLeaf(Leaf([a, b], content)) && GoodLeaf(Leaf([a, b, c], content)) && GoodLeaf(Leaf([a, b, c, d], content))
  {
  }

  lemma HtmlIsGood(content: Bytes)
    ensures GoodLeaf(Leaf(HtmlHeaders(), content))
  {
    var (first, second) := (HtmlHeaders()[0], HtmlHeaders()[1]);
    SurroundedNameIsGood("Content-Type: text/html; charset=\"", "UTF-8", "\"");
    OtherTypes("Content-Type: text/html; charset=\"" + "UTF-8" + "\"", MixedKind);
    OtherTypes("Content-Type: text/html; charset=\"" + "UTF-8" + "\"", RelatedKind);
    EncodingIsGood();
    HeadersAreGood(first, second, second, second, content);
  }

  lemma InlineTypeIsGood(filename: string)
    requires SafeName(filename)
    ensures GoodHeader(Ascii("Content-Type: image/png; name=\"" + filename + "\""))
    ensures NoMultipart(Ascii("Content-Type: image/png; name=\"" + filename + "\""))
  {
    SurroundedNameIsGood("Content-Type: image/png; name=\"", filename, "\"");
    OtherTypes("Content-Type: image/png; name=\"" + filename + "\"", MixedKind);
    OtherTypes("Content-Type: image/png; name=\"" + filename + "\"", RelatedKind);
  }

  lemma InlineIsGood(filename: string, contentId: string, content: Bytes)
    requires SafeName(filename) && SafeName(contentId)
    ensures GoodLeaf(Leaf(InlineHeaders(filename, contentId), content))
  {
    var (id, disposition) := (Ascii("Content-ID: <" + contentId + ">"), Ascii("Content-Disposition: inline; filename=\"" + filename + "\""));
    InlineTypeIsGood(filename);
    SurroundedNameIsGood("Content-ID: <", contentId, ">");
    SurroundedNameIsGood("Content-Disposition: inline; filename=\"", filename, "\"");
    EncodingIsGood();
    HeadersAreGood(Ascii("Content-Type: image/png; name=\"" + filename + "\""), Ascii(ENCODING), id, disposition, content);
  }

  lemma AttachmentIsGood(filename: string, content: Bytes)
    requires SafeName(filename)
    ensures GoodLeaf(Leaf(AttachmentHeaders(filename), content))
  {
    var (kind, disposition) := (Ascii("Content-Type: application/pdf; name=\"" + filename + "\""), Ascii("Content-Disposition: attachment; filename=\"" + filename + "\""));
    AttachmentTypeIsGood(filename);
    SurroundedNameIsGood("Content-Disposition: attachment; filename=\"", filename, "\"");
    EncodingIsGood();
    HeadersAreGood(kind, Ascii(ENCODING), disposition, disposition, content);
  }

  lemma AttachmentTypeIsGood(filename: string)
    requires SafeName(filename)
    ensures GoodHeader(Ascii("Content-Type: application/pdf; name=\"" + filename + "\""))
    ensures NoMultipart(Ascii("Content-Type: application/pdf; name=\"" + filename + "\""))
  {
    SurroundedNameIsGood("Content-Type: application/pdf; name=\"", filename, "\"");
    OtherTypes("Content-Type: application/pdf; name=\"" + filename + "\"", MixedKind);
    OtherTypes("Content-Type: application/pdf; name=\"" + filename + "\"", RelatedKind);
  }

  /** Whatever names pass the checks, the parts the builder writes read back. */
  lemma BuiltLeavesAreGood(filename: string, contentId: string, content: Bytes)
    requires SafeName(filename) && SafeName(contentId)
    ensures GoodLeaf(Leaf(HtmlHeaders(), content))
    ensures GoodLeaf(Leaf(InlineHeaders(filename, contentId), content))
    ensures GoodLeaf(Leaf(AttachmentHeaders(filename), content))
  {
    HtmlIsGood(content);
    InlineIsGood(filename, contentId, content);
    AttachmentIsGood(filename, content);
  }

  /** The Content-Type of each multipart, and the delimiters of its parts. */
  lemma HeadersAreStandard(token: Text)
    ensures TypeHeader(MixedKind, Boundary(MixedKind, token)) ==
            Ascii("Content-Type: multipart/mixed; boundary=\"") + (Ascii("=_quote_mixed_") + token) + Ascii("\"")
    ensures TypeHeader(RelatedKind, Boundary(RelatedKind, token)) ==
            Ascii("Content-Type: multipart/related; boundary=\"") + (Ascii("=_quote_related_") + token) + Ascii("\"")
    ensures DASHES == Ascii("--")
  {
    assert "Content-Type: multipart/" + "mixed" + "; boundary=\"" == "Content-Type: multipart/mixed; boundary=\"";
    assert "Content-Type: multipart/" + "related" + "; boundary=\"" == "Content-Type: multipart/related; boundary=\"";
    assert "=_quote_" + "mixed" + "_" == "=_quote_mixed_" && "=_quote_" + "related" + "_" == "=_quote_related_";
  }
}
