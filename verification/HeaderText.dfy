/**
 * Subjects and display names (src/infrastructure/email/mime-message.ts): encoded words of section 2
 * of RFC 2047, split so that no word exceeds 75 characters or cuts a code point.
 */
module HeaderText {
  import opened Wrappers
  import opened Base64

  type CodePoint = n: nat | n < 0x11_0000

  // ---------- UTF-8 ----------

  /** Buffer.from replaces a lone surrogate by U+FFFD. */
  function Replaced(c: CodePoint): CodePoint { if 0xD800 <= c < 0xE000 then 0xFFFD else c }

  function Utf8(point: CodePoint): (b: Bytes)
    ensures 1 <= |b| <= 4
  {
    var c := Replaced(point);
    if c < 0x80 then [c]
    else if c < 0x800 then [0xC0 + c / 64, 0x80 + c % 64]
    else if c < 0x1_0000 then [0xE0 + c / 4096, 0x80 + c / 64 % 64, 0x80 + c % 64]
    else [0xF0 + c / 262144, 0x80 + c / 4096 % 64, 0x80 + c / 64 % 64, 0x80 + c % 64]
  }

  function Utf8All(s: seq<CodePoint>): Bytes {
    if s == [] then [] else Utf8All(s[..|s| - 1]) + Utf8(s[|s| - 1])
  }

  /** The payload of a byte above its marker. */
  function Over(b: nat, marker: nat): nat
    requires marker <= b
  {
    b - marker
  }

  predicate Follows(b: Bytes, n: nat) { |b| > n && forall i | 1 <= i <= n :: b[i] >= 0x80 }

  /** The first code point of well-formed bytes, and how many bytes it takes. */
  function FirstPoint(b: Bytes): Option<(nat, nat)> {
    if b == [] then None
    else if b[0] < 0x80 then Some((b[0], 1))
    else if 0xC0 <= b[0] < 0xE0 && Follows(b, 1) then Some((Over(b[0], 0xC0) * 64 + Over(b[1], 0x80), 2))
    else if 0xE0 <= b[0] < 0xF0 && Follows(b, 2) then
      Some((Over(b[0], 0xE0) * 4096 + Over(b[1], 0x80) * 64 + Over(b[2], 0x80), 3))
    else if 0xF0 <= b[0] && Follows(b, 3) then
      Some((Over(b[0], 0xF0) * 262144 + Over(b[1], 0x80) * 4096 + Over(b[2], 0x80) * 64 + Over(b[3], 0x80), 4))
    else None
  }

  function DecodeUtf8(b: Bytes): Option<seq<nat>> {
    if b == [] then Some([])
    else
      var first := FirstPoint(b);
      if first.None? || first.value.1 > |b| || first.value.1 == 0 then None
      else
        var rest := DecodeUtf8(b[first.value.1..]);
        if rest.None? then None else Some([first.value.0] + rest.value)
  }

  function AllReplaced(s: seq<CodePoint>): seq<nat> { seq(|s|, i requires 0 <= i < |s| => Replaced(s[i])) }

  lemma PointReadsBack(c: CodePoint, rest: Bytes)
    ensures FirstPoint(Utf8(c) + rest) == Some((Replaced(c) as nat, |Utf8(c)|))
  {
    var p := Replaced(c);
    assert p == p / 64 * 64 + p % 64;
    assert p / 64 == p / 64 / 64 * 64 + p / 64 % 64 && p / 64 / 64 == p / 4096;
    assert p / 4096 == p / 4096 / 64 * 64 + p / 4096 % 64 && p / 4096 / 64 == p / 262144;
  }

  lemma {:induction false} Utf8AllFromFront(s: seq<CodePoint>)
    requires s != []
    ensures Utf8All(s) == Utf8(s[0]) + Utf8All(s[1..])
    decreases |s|
  {
    if |s| > 1 {
      var front := s[..|s| - 1];
      Utf8AllFromFront(front);
      assert front[1..] == s[1..][..|s| - 2];
    } else {
      assert s[..0] == [] && s[1..] == [];
    }
  }

  lemma DecodePointThenRest(c: CodePoint, rest: Bytes, points: seq<nat>)
    requires DecodeUtf8(rest) == Some(points)
    ensures DecodeUtf8(Utf8(c) + rest) == Some([Replaced(c) as nat] + points)
  {
    PointReadsBack(c, rest);
    assert (Utf8(c) + rest)[|Utf8(c)|..] == rest;
  }

  lemma {:induction false} Utf8ReadsBack(s: seq<CodePoint>)
    ensures DecodeUtf8(Utf8All(s)) == Some(AllReplaced(s))
    decreases |s|
  {
    if s != [] {
      Utf8AllFromFront(s);
      Utf8ReadsBack(s[1..]);
      DecodePointThenRest(s[0], Utf8All(s[1..]), AllReplaced(s[1..]));
      assert AllReplaced(s) == [Replaced(s[0]) as nat] + AllReplaced(s[1..]);
    } else {
      assert AllReplaced(s) == [];
    }
  }

  // ---------- encoded words ----------

  // =?UTF-8?B? and ?= around the payload, CRLF SP between two words
  const PREFIX: Text := [61, 63, 85, 84, 70, 45, 56, 63, 66, 63]
  const SUFFIX: Text := [63, 61]
  const FOLD: Text := [13, 10, 32]
  const MAX_BYTES: nat := 45
  const MAX_WORD: nat := 75

  function Word(b: Bytes): Text { PREFIX + Encode(b) + SUFFIX }

  /** The words of the chunks, folded. */
  function JoinWords(chunks: seq<seq<CodePoint>>): Text {
    if chunks == [] then []
    else if |chunks| == 1 then Word(Utf8All(chunks[0]))
    else Word(Utf8All(chunks[0])) + FOLD + JoinWords(chunks[1..])
  }

  function Concat(chunks: seq<seq<CodePoint>>): seq<CodePoint> {
    if chunks == [] then [] else chunks[0] + Concat(chunks[1..])
  }

  /** Printable ASCII. */
  predicate Printable(s: seq<nat>) { forall i | 0 <= i < |s| :: 32 <= s[i] <= 126 }

  /** `=?` occurs in the text. */
  predicate HasMarker(s: seq<nat>) { exists i | 0 <= i < |s| - 1 :: s[i] == 61 && s[i + 1] == 63 }

  predicate GoodChunk(chunk: seq<CodePoint>) {
    chunk != [] && |Utf8All(chunk)| <= MAX_BYTES && |Word(Utf8All(chunk))| <= MAX_WORD
  }

  /** Whole code points in chunks of 1 to 45 bytes, whose words fit 75 characters. */
  predicate GoodChunks(chunks: seq<seq<CodePoint>>) { forall i | 0 <= i < |chunks| :: GoodChunk(chunks[i]) }

  lemma {:induction false} OneMoreChunk(chunks: seq<seq<CodePoint>>, chunk: seq<CodePoint>)
    ensures Concat(chunks + [chunk]) == Concat(chunks) + chunk
    decreases |chunks|
  {
    if chunks == [] {
      assert chunks + [chunk] == [chunk];
    } else {
      assert (chunks + [chunk])[1..] == chunks[1..] + [chunk];
      OneMoreChunk(chunks[1..], chunk);
    }
  }

  lemma ChunkFits(chunk: seq<CodePoint>)
    requires chunk != [] && |Utf8All(chunk)| <= MAX_BYTES
    ensures GoodChunk(chunk)
  {
    EncodedShape(Utf8All(chunk));
  }

  /** Joins the words with CRLF SP. */
  method Fold(words: seq<Text>, ghost chunks: seq<seq<CodePoint>>) returns (r: Text)
    requires WordsOf(words, chunks)
    ensures r == JoinWords(chunks)
  {
    r := [];
    var i := |words|;
    while i > 0
      invariant 0 <= i <= |words|
      invariant r == JoinWords(chunks[i..])
    {
      i := i - 1;
      assert chunks[i..][1..] == chunks[i + 1..];
      r := if i == |words| - 1 then words[i] else words[i] + FOLD + r;
    }
    assert chunks[0..] == chunks;
  }

  ghost predicate WordsOf(words: seq<Text>, chunks: seq<seq<CodePoint>>) {
    |words| == |chunks| && forall k | 0 <= k < |words| :: words[k] == Word(Utf8All(chunks[k]))
  }

  /** Each word is full: the first character of the next one would not have fitted. */
  predicate Packed(chunks: seq<seq<CodePoint>>) {
    |chunks| < 2 ||
    var n := |chunks| - 1;
    Packed(chunks[..n]) && NoRoomFor(chunks[n - 1], chunks[n])
  }

  predicate NoRoomFor(chunk: seq<CodePoint>, next: seq<CodePoint>) { next != [] && |Utf8All(chunk)| + |Utf8(next[0])| > 45 }

  /** The last word has no room for the character at `start`. */
  ghost predicate LastIsFull(text: seq<CodePoint>, start: nat, chunks: seq<seq<CodePoint>>) {
    chunks != [] && start < |text| ==> |Utf8All(chunks[|chunks| - 1])| + |Utf8(text[start])| > 45
  }

  lemma PacksOneMore(text: seq<CodePoint>, start: nat, i: nat, chunks: seq<seq<CodePoint>>)
    requires Packed(chunks) && LastIsFull(text, start, chunks) && start < i <= |text|
    ensures Packed(chunks + [text[start..i]])
  {
    var longer := chunks + [text[start..i]];
    assert longer[..|longer| - 1] == chunks;
  }

  /** The finished words hold the first `start` characters, and the open chunk those from there to i. */
  ghost predicate Filled(text: seq<CodePoint>, start: nat, i: nat, words: seq<Text>, chunks: seq<seq<CodePoint>>, chunk: Bytes) {
    && start <= i <= |text| && (start == i <==> |chunk| == 0)
    && WordsOf(words, chunks) && GoodChunks(chunks) && Concat(chunks) == text[..start]
    && chunk == Utf8All(text[start..i]) && |chunk| <= MAX_BYTES
    && Packed(chunks) && LastIsFull(text, start, chunks)
  }

  lemma ClosesWord(text: seq<CodePoint>, start: nat, i: nat, words: seq<Text>, chunks: seq<seq<CodePoint>>, chunk: Bytes)
    requires Filled(text, start, i, words, chunks, chunk) && |chunk| > 0
    requires i < |text| ==> |chunk| + |Utf8(text[i])| > 45
    ensures Filled(text, i, i, words + [Word(chunk)], chunks + [text[start..i]], [])
  {
    PacksOneMore(text, start, i, chunks);
    ChunkFits(text[start..i]);
    OneMoreChunk(chunks, text[start..i]);
    assert text[..start] + text[start..i] == text[..i];
  }

  lemma AddsCharacter(text: seq<CodePoint>, start: nat, i: nat, words: seq<Text>, chunks: seq<seq<CodePoint>>, chunk: Bytes)
    requires Filled(text, start, i, words, chunks, chunk) && i < |text| && |chunk| + |Utf8(text[i])| <= MAX_BYTES
    ensures Filled(text, start, i + 1, words, chunks, chunk + Utf8(text[i]))
  {
    var longer := text[start..i + 1];
    assert longer[..|longer| - 1] == text[start..i] && longer[|longer| - 1] == text[i];
  }

  /** One character: into the open word, or into a new one when it would not fit. */
  method TakeCharacter(text: seq<CodePoint>, ghost start: nat, i: nat, words: seq<Text>, ghost chunks: seq<seq<CodePoint>>, chunk: Bytes)
    returns (words': seq<Text>, chunk': Bytes, ghost start': nat, ghost chunks': seq<seq<CodePoint>>)
    requires Filled(text, start, i, words, chunks, chunk) && i < |text|
    ensures Filled(text, start', i + 1, words', chunks', chunk')
  {
    words', chunk', start', chunks' := words, chunk, start, chunks;
    var bytes := Utf8(text[i]);
    if |chunk| + |bytes| > MAX_BYTES {
      ClosesWord(text, start, i, words, chunks, chunk);
      words', chunks', start', chunk' := words + [Word(chunk)], chunks + [text[start..i]], i, [];
    }
    AddsCharacter(text, start', i, words', chunks', chunk');
    chunk' := chunk' + bytes;
  }

  /** Fills words of at most 45 bytes, starting a new one when the next character would not fit. */
  method SplitWords(text: seq<CodePoint>) returns (words: seq<Text>, ghost chunks: seq<seq<CodePoint>>)
    ensures WordsOf(words, chunks) && GoodChunks(chunks) && Packed(chunks) && Concat(chunks) == text
  {
    words, chunks := [], [];
    var chunk: Bytes := [];
    ghost var start: nat := 0;
    var i := 0;
    NothingIsFilled(text);
    while i < |text|
      invariant Filled(text, start, i, words, chunks, chunk)
    {
      words, chunk, start, chunks := TakeCharacter(text, start, i, words, chunks, chunk);
      i := i + 1;
    }
    words, chunks := LastWord(text, start, words, chunks, chunk);
  }

  method LastWord(text: seq<CodePoint>, ghost start: nat, words: seq<Text>, ghost chunks: seq<seq<CodePoint>>, chunk: Bytes)
    returns (words': seq<Text>, ghost chunks': seq<seq<CodePoint>>)
    requires Filled(text, start, |text|, words, chunks, chunk)
    ensures WordsOf(words', chunks') && GoodChunks(chunks') && Packed(chunks') && Concat(chunks') == text
  {
    words', chunks' := words, chunks;
    if |chunk| > 0 {
      ClosesWord(text, start, |text|, words, chunks, chunk);
      words', chunks' := words + [Word(chunk)], chunks + [text[start..]];
      assert text[start..] == text[start..|text|];
    }
    assert text[..|text|] == text;
  }

  lemma NothingIsFilled(text: seq<CodePoint>)
    ensures Filled(text, 0, 0, [], [], [])
  {
    assert text[..0] == [] && text[0..0] == [];
  }

  /**
   * Printable ASCII without `=?` is returned as it is; anything else becomes encoded words of whole
   * code points, at most 75 characters each. Either way the header decodes back to the text.
   */
  method EncodeHeaderText(text: seq<CodePoint>) returns (r: Text)
    ensures Printable(text) && !HasMarker(text) ==> r == text
    ensures !Printable(text) || HasMarker(text) ==>
              exists chunks :: GoodChunks(chunks) && Packed(chunks) && Concat(chunks) == text && r == JoinWords(chunks)
    ensures DecodeHeader(r) == Some(AllReplaced(text))
  {
    if Printable(text) && !HasMarker(text) {
      PlainIsItself(text);
      return text;
    }
    var words, chunks := SplitWords(text);
    r := Fold(words, chunks);
    WordsReadBack(chunks);
  }

  // ---------- decoding ----------

  /** How many symbols precede the closing `?`. */
  function PayloadLength(t: Text): (n: nat)
    ensures n <= |t|
  {
    if t == [] || !IsSymbol(t[0]) then 0 else 1 + PayloadLength(t[1..])
  }

  /** The text of the encoded word at the front, and what follows it. */
  function FirstWord(t: Text): (r: Option<(seq<nat>, Text)>)
    ensures r.Some? ==> |r.value.1| < |t|
  {
    if !(PREFIX <= t) then None
    else
      var end := 10 + PayloadLength(t[10..]);
      if !(SUFFIX <= t[end..]) then None
      else
        var bytes := Decode(t[10..end]);
        var points := if bytes.None? then None else DecodeUtf8(bytes.value);
        if points.None? then None else Some((points.value, t[end + 2..]))
  }

  /** Adjacent encoded words, each decoded on its own; the folding white space between them is dropped. */
  function DecodeWords(t: Text): Option<seq<nat>>
    decreases |t|
  {
    var first := FirstWord(t);
    if first.None? then None
    else
      var (points, after) := first.value;
      if after == [] then Some(points)
      else if !(FOLD <= after) then None
      else
        var rest := DecodeWords(after[3..]);
        if rest.None? then None else Some(points + rest.value)
  }

  function DecodeHeader(t: Text): Option<seq<nat>> {
    if HasMarker(t) then DecodeWords(t) else Some(t)
  }

  lemma PlainIsItself(text: seq<CodePoint>)
    requires Printable(text)
    ensures AllReplaced(text) == text
  {
  }

  lemma {:induction false} PayloadReadsBack(payload: Text, rest: Text)
    requires forall i | 0 <= i < |payload| :: IsSymbol(payload[i])
    requires rest != [] && !IsSymbol(rest[0])
    ensures PayloadLength(payload + rest) == |payload|
    decreases |payload|
  {
    if payload == [] {
      assert payload + rest == rest;
    } else {
      assert (payload + rest)[1..] == payload[1..] + rest;
      PayloadReadsBack(payload[1..], rest);
    }
  }

  lemma FirstWordIs(t: Text, payload: Text, rest: Text, b: Bytes, points: seq<nat>)
    requires PREFIX <= t && t[10..] == payload + (SUFFIX + rest) && PayloadLength(t[10..]) == |payload|
    requires Decode(payload) == Some(b) && DecodeUtf8(b) == Some(points)
    ensures FirstWord(t) == Some((points, rest))
  {
    var end := 10 + |payload|;
    assert t[10..end] == t[10..][..|payload|] == payload;
    assert t[end..] == t[10..][|payload|..] == SUFFIX + rest;
    assert t[end + 2..] == t[end..][2..] == rest;
  }

  lemma Regroup(a: Text, b: Text, c: Text, d: Text)
    ensures (a + b + c + d)[|a|..] == b + (c + d)
    ensures a <= a + b + c + d
  {
  }

  lemma WordReadsBack(b: Bytes, points: seq<nat>, rest: Text)
    requires DecodeUtf8(b) == Some(points)
    ensures FirstWord(Word(b) + rest) == Some((points, rest))
  {
    var payload := Encode(b);
    EncodedShape(b);
    PayloadReadsBack(payload, SUFFIX + rest);
    DecodeUndoesEncode(b);
    Regroup(PREFIX, payload, SUFFIX, rest);
    FirstWordIs(Word(b) + rest, payload, rest, b, points);
  }

  lemma LastWordReadsBack(word: Text, points: seq<nat>)
    requires FirstWord(word) == Some((points, []))
    ensures DecodeWords(word) == Some(points)
  {
  }

  lemma WordThenRestReadsBack(all: Text, points: seq<nat>, t: Text, rest: seq<nat>)
    requires FirstWord(all) == Some((points, FOLD + t)) && DecodeWords(t) == Some(rest)
    ensures DecodeWords(all) == Some(points + rest)
  {
    assert (FOLD + t)[3..] == t;
  }

  lemma ReplacedConcat(a: seq<CodePoint>, b: seq<CodePoint>)
    ensures AllReplaced(a + b) == AllReplaced(a) + AllReplaced(b)
  {
  }

  lemma {:induction false} ChunksReadBack(chunks: seq<seq<CodePoint>>)
    requires chunks != []
    ensures DecodeWords(JoinWords(chunks)) == Some(AllReplaced(Concat(chunks)))
    decreases |chunks|
  {
    var b, rest := Utf8All(chunks[0]), chunks[1..];
    Utf8ReadsBack(chunks[0]);
    if |chunks| == 1 {
      WordReadsBack(b, AllReplaced(chunks[0]), []);
      assert Word(b) + [] == Word(b);
      LastWordReadsBack(Word(b), AllReplaced(chunks[0]));
      assert rest == [] && Concat(rest) == [] && Concat(chunks) == chunks[0];
    } else {
      ChunksReadBack(rest);
      WordReadsBack(b, AllReplaced(chunks[0]), FOLD + JoinWords(rest));
      WordThenRestReadsBack(Word(b) + (FOLD + JoinWords(rest)), AllReplaced(chunks[0]), JoinWords(rest), AllReplaced(Concat(rest)));
      JoinsFirst(chunks);
      ReplacedConcat(chunks[0], Concat(rest));
    }
  }

  lemma JoinsFirst(chunks: seq<seq<CodePoint>>)
    requires |chunks| > 1
    ensures JoinWords(chunks) == Word(Utf8All(chunks[0])) + (FOLD + JoinWords(chunks[1..]))
  {
    var word, rest := Word(Utf8All(chunks[0])), JoinWords(chunks[1..]);
    assert word + FOLD + rest == word + (FOLD + rest);
  }

  lemma WordsReadBack(chunks: seq<seq<CodePoint>>)
    requires chunks != []
    ensures DecodeHeader(JoinWords(chunks)) == Some(AllReplaced(Concat(chunks)))
  {
    ChunksReadBack(chunks);
    var t := JoinWords(chunks);
    assert t[0] == 61 && t[1] == 63;
  }

  // ---------- as the standards write it ----------

  predicate Spells(t: Text, s: string) { |t| == |s| && forall i | 0 <= i < |s| :: t[i] == s[i] as int }

  /** The delimiters of section 2 of RFC 2047, and the examples of UTF-8 for one to four bytes. */
  lemma WordsAreStandard()
    ensures Spells(PREFIX, "=?UTF-8?B?") && Spells(SUFFIX, "?=") && FOLD == [13, 10, 32]
    ensures Utf8(0x24) == [0x24] && Utf8(0xA2) == [0xC2, 0xA2] && Utf8(0x20AC) == [0xE2, 0x82, 0xAC] && Utf8(0x10348) == [0xF0, 0x90, 0x8D, 0x88]
  {
  }
}
