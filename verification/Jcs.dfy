/**
 * Canonical JSON, sections 3.2.2 and 3.2.3 of RFC 8785 (src/application/quote/canonical-json.ts).
 * Texts are sequences of UTF-16 code units. A number is represented by its ECMAScript text, which
 * the serialization copies.
 */
module Jcs {
  import opened Wrappers

  type Unit = n: nat | n < 0x1_0000
  type Text = seq<Unit>

  const QUOTE: Unit := 34
  const BACKSLASH: Unit := 92
  const COMMA: Unit := 44
  const COLON: Unit := 58
  const OPEN_ARRAY: Unit := 91
  const CLOSE_ARRAY: Unit := 93
  const OPEN_OBJECT: Unit := 123
  const CLOSE_OBJECT: Unit := 125
  const NULL_TEXT: Text := [110, 117, 108, 108]
  const TRUE_TEXT: Text := [116, 114, 117, 101]
  const FALSE_TEXT: Text := [102, 97, 108, 115, 101]

  datatype Json =
    | Null
    | Bool(value: bool)
    | Number(digits: Text)
    | String(text: Text)
    | Array(items: Items)
    | Object(members: Members)

  datatype Items = NoItem | Item(first: Json, others: Items)

  /** Members in the order the record holds them. */
  datatype Members = NoMember | Member(key: Text, value: Json, next: Members)

  // ---------- strings ----------

  predicate High(u: Unit) { 0xD800 <= u < 0xDC00 }

  predicate Low(u: Unit) { 0xDC00 <= u < 0xE000 }

  predicate Surrogate(u: Unit) { 0xD800 <= u < 0xE000 }

  function HexDigit(n: nat): Unit
    requires n < 16
  {
    if n < 10 then 48 + n else 87 + n
  }

  function UnicodeEscape(u: Unit): Text {
    [BACKSLASH, 117, HexDigit(u / 4096), HexDigit(u / 256 % 16), HexDigit(u / 16 % 16), HexDigit(u % 16)]
  }

  /** The two-character escapes: \b \t \n \f \r \" and \\. */
  function ShortEscape(u: Unit): Option<Unit> {
    if u == 8 then Some(98) else if u == 9 then Some(116) else if u == 10 then Some(110)
    else if u == 12 then Some(102) else if u == 13 then Some(114) else if u == QUOTE then Some(QUOTE)
    else if u == BACKSLASH then Some(BACKSLASH) else None
  }

  function EscapeUnit(u: Unit): Text {
    if ShortEscape(u).Some? then [BACKSLASH, ShortEscape(u).value]
    else if u < 32 || Surrogate(u) then UnicodeEscape(u)
    else [u]
  }

  /** JSON.stringify of the inside of a string: a surrogate pair stays as it is, a lone surrogate is escaped. */
  function Escape(s: Text): Text {
    if s == [] then []
    else if |s| > 1 && High(s[0]) && Low(s[1]) then s[..2] + Escape(s[2..])
    else EscapeUnit(s[0]) + Escape(s[1..])
  }

  function Quoted(s: Text): Text { [QUOTE] + Escape(s) + [QUOTE] }

  // ---------- canonicalizeJcs ----------

  /** Order by code units. */
  predicate Less(a: Text, b: Text) {
    if b == [] then false
    else if a == [] then true
    else a[0] < b[0] || (a[0] == b[0] && Less(a[1..], b[1..]))
  }

  type Entry = (Text, Text)

  function InsertEntry(e: Entry, sorted: seq<Entry>): seq<Entry> {
    if sorted == [] || Less(e.0, sorted[0].0) then [e] + sorted else [sorted[0]] + InsertEntry(e, sorted[1..])
  }

  function EntryText(e: Entry): Text { Quoted(e.0) + [COLON] + e.1 }

  function JoinEntries(es: seq<Entry>): Text {
    if es == [] then []
    else if |es| == 1 then EntryText(es[0])
    else EntryText(es[0]) + [COMMA] + JoinEntries(es[1..])
  }

  function Canonicalize(j: Json): Text {
    match j
    case Null => NULL_TEXT
    case Bool(b) => if b then TRUE_TEXT else FALSE_TEXT
    case Number(digits) => digits
    case String(s) => Quoted(s)
    case Array(items) => [OPEN_ARRAY] + CanonicalItems(items) + [CLOSE_ARRAY]
    case Object(members) => [OPEN_OBJECT] + JoinEntries(SortedEntries(members)) + [CLOSE_OBJECT]
  }

  function CanonicalItems(items: Items): Text {
    match items
    case NoItem => []
    case Item(first, others) =>
      if others.NoItem? then Canonicalize(first) else Canonicalize(first) + [COMMA] + CanonicalItems(others)
  }

  /** The members by key, each with the canonical text of its value. */
  function SortedEntries(members: Members): seq<Entry> {
    match members
    case NoMember => []
    case Member(key, value, next) => InsertEntry((key, Canonicalize(value)), SortedEntries(next))
  }

  // ---------- a parser ----------

  datatype Parsed<T> = Parsed(value: T, rest: Text) | Bad

  function HexValue(u: Unit): Option<nat> {
    if 48 <= u <= 57 then Some(u - 48) else if 97 <= u <= 102 then Some(u - 87) else None
  }

  function ParseHex(t: Text): Option<Unit>
    requires |t| == 4
  {
    var (a, b, c, d) := (HexValue(t[0]), HexValue(t[1]), HexValue(t[2]), HexValue(t[3]));
    if a.Some? && b.Some? && c.Some? && d.Some? && a.value < 16 && b.value < 16 && c.value < 16 && d.value < 16
    then Some(a.value * 4096 + b.value * 256 + c.value * 16 + d.value) else None
  }

  function Unshort(u: Unit): Option<Unit> {
    if u == 98 then Some(8) else if u == 116 then Some(9) else if u == 110 then Some(10)
    else if u == 102 then Some(12) else if u == 114 then Some(13)
    else if u == QUOTE || u == BACKSLASH then Some(u) else None
  }

  /** Reads the inside of a string up to its closing quote. */
  function ParseInside(t: Text): (r: Parsed<Text>)
    ensures r.Parsed? ==> |r.rest| < |t|
    decreases |t|
  {
    if t == [] then Bad
    else if t[0] == QUOTE then Parsed([], t[1..])
    else if t[0] != BACKSLASH then Prepend(t[0], ParseInside(t[1..]))
    else if |t| >= 6 && t[1] == 117 then
      var u := ParseHex(t[2..6]);
      if u.None? then Bad else Prepend(u.value, ParseInside(t[6..]))
    else if |t| >= 2 && Unshort(t[1]).Some? then Prepend(Unshort(t[1]).value, ParseInside(t[2..]))
    else Bad
  }

  function Prepend(u: Unit, r: Parsed<Text>): Parsed<Text> {
    if r.Bad? then Bad else Parsed([u] + r.value, r.rest)
  }

  predicate NumberUnit(u: Unit) { 48 <= u <= 57 || u == 45 || u == 43 || u == 46 || u == 101 || u == 69 }

  /** How many leading units can belong to a number. */
  function NumberLength(t: Text): (n: nat)
    ensures n <= |t| && (forall i | 0 <= i < n :: NumberUnit(t[i])) && (n < |t| ==> !NumberUnit(t[n]))
  {
    if t == [] || !NumberUnit(t[0]) then 0 else 1 + NumberLength(t[1..])
  }

  function ParseValue(t: Text): (r: Parsed<Json>)
    ensures r.Parsed? ==> |r.rest| < |t|
    decreases |t|, 1
  {
    if t == [] then Bad
    else if t[0] == 110 then if NULL_TEXT <= t then Parsed(Null, t[4..]) else Bad
    else if t[0] == 116 then if TRUE_TEXT <= t then Parsed(Bool(true), t[4..]) else Bad
    else if t[0] == 102 then if FALSE_TEXT <= t then Parsed(Bool(false), t[5..]) else Bad
    else if t[0] == QUOTE then
      match ParseInside(t[1..])
      case Bad => Bad
      case Parsed(s, rest) => Parsed(String(s), rest)
    else if t[0] == OPEN_ARRAY then
      if |t| > 1 && t[1] == CLOSE_ARRAY then Parsed(Array(NoItem), t[2..])
      else
        match ParseItems(t[1..])
        case Bad => Bad
        case Parsed(items, rest) => Parsed(Array(items), rest)
    else if t[0] == OPEN_OBJECT then
      if |t| > 1 && t[1] == CLOSE_OBJECT then Parsed(Object(NoMember), t[2..])
      else
        match ParseMembers(t[1..])
        case Bad => Bad
        case Parsed(members, rest) => Parsed(Object(members), rest)
    else if NumberLength(t) > 0 then Parsed(Number(t[..NumberLength(t)]), t[NumberLength(t)..])
    else Bad
  }

  /** One or more items up to the closing bracket. */
  function ParseItems(t: Text): (r: Parsed<Items>)
    ensures r.Parsed? ==> |r.rest| < |t|
    decreases |t|, 2
  {
    match ParseValue(t)
    case Bad => Bad
    case Parsed(first, rest) =>
      if rest == [] then Bad
      else if rest[0] == CLOSE_ARRAY then Parsed(Item(first, NoItem), rest[1..])
      else if rest[0] != COMMA then Bad
      else
        match ParseItems(rest[1..])
        case Bad => Bad
        case Parsed(others, end) => Parsed(Item(first, others), end)
  }

  /** One or more members up to the closing brace. */
  function ParseMembers(t: Text): (r: Parsed<Members>)
    ensures r.Parsed? ==> |r.rest| < |t|
    decreases |t|, 2
  {
    if t == [] || t[0] != QUOTE then Bad
    else
      match ParseInside(t[1..])
      case Bad => Bad
      case Parsed(key, afterKey) =>
        if afterKey == [] || afterKey[0] != COLON then Bad
        else
          match ParseValue(afterKey[1..])
          case Bad => Bad
          case Parsed(value, rest) =>
            if rest == [] then Bad
            else if rest[0] == CLOSE_OBJECT then Parsed(Member(key, value, NoMember), rest[1..])
            else if rest[0] != COMMA then Bad
            else
              match ParseMembers(rest[1..])
              case Bad => Bad
              case Parsed(next, end) => Parsed(Member(key, value, next), end)
  }

  // ---------- values ----------

  predicate HasKey(members: Members, key: Text) {
    members.Member? && (members.key == key || HasKey(members.next, key))
  }

  /** Numbers have a number's text, and a record has each key once. */
  predicate ValidJson(j: Json) {
    match j
    case Number(digits) => digits != [] && forall i | 0 <= i < |digits| :: NumberUnit(digits[i])
    case Array(items) => ValidItems(items)
    case Object(members) => ValidMembers(members)
    case _ => true
  }

  predicate ValidItems(items: Items) {
    items.Item? ==> ValidJson(items.first) && ValidItems(items.others)
  }

  predicate ValidMembers(members: Members) {
    members.Member? ==> !HasKey(members.next, members.key) && ValidJson(members.value) && ValidMembers(members.next)
  }

  /** The value with the members of every record sorted by key. */
  function Normal(j: Json): Json {
    match j
    case Array(items) => Array(NormalItems(items))
    case Object(members) => Object(NormalMembers(members))
    case _ => j
  }

  function NormalItems(items: Items): Items {
    match items
    case NoItem => NoItem
    case Item(first, others) => Item(Normal(first), NormalItems(others))
  }

  function NormalMembers(members: Members): Members {
    match members
    case NoMember => NoMember
    case Member(key, value, next) => InsertMember(key, Normal(value), NormalMembers(next))
  }

  function InsertMember(key: Text, value: Json, sorted: Members): Members {
    if sorted.NoMember? || Less(key, sorted.key) then Member(key, value, sorted)
    else Member(sorted.key, sorted.value, InsertMember(key, value, sorted.next))
  }

  function Lookup(members: Members, key: Text): Option<Json> {
    if members.NoMember? then None
    else if members.key == key then Some(members.value)
    else Lookup(members.next, key)
  }

  function Count(members: Members): nat { if members.NoMember? then 0 else 1 + Count(members.next) }

  /** The same JSON value: member order does not matter. */
  predicate Same(a: Json, b: Json) {
    match a
    case Array(items) => b.Array? && SameItems(items, b.items)
    case Object(members) => b.Object? && Count(members) == Count(b.members) && AllIn(members, b.members)
    case _ => a == b
  }

  predicate SameItems(a: Items, b: Items) {
    match a
    case NoItem => b.NoItem?
    case Item(first, others) => b.Item? && Same(first, b.first) && SameItems(others, b.others)
  }

  predicate AllIn(a: Members, b: Members) {
    match a
    case NoMember => true
    case Member(key, value, next) => Lookup(b, key).Some? && Same(value, Lookup(b, key).value) && AllIn(next, b)
  }

  // ---------- the parser reads strings back ----------

  lemma DigitReadsBack(n: nat)
    requires n < 16
    ensures HexValue(HexDigit(n)) == Some(n)
  {
  }

  lemma HexDigitsOf(u: Unit)
    ensures u / 4096 < 16 && u == u / 4096 * 4096 + u / 256 % 16 * 256 + u / 16 % 16 * 16 + u % 16
  {
    assert u == u / 16 * 16 + u % 16;
    assert u / 16 == u / 16 / 16 * 16 + u / 16 % 16 && u / 16 / 16 == u / 256;
    assert u / 256 == u / 256 / 16 * 16 + u / 256 % 16 && u / 256 / 16 == u / 4096;
  }

  lemma HexReadsBack(u: Unit)
    ensures ParseHex(UnicodeEscape(u)[2..6]) == Some(u)
  {
    var (a, b, c, d) := (u / 4096, u / 256 % 16, u / 16 % 16, u % 16);
    HexDigitsOf(u);
    assert UnicodeEscape(u)[2..6] == [HexDigit(a), HexDigit(b), HexDigit(c), HexDigit(d)];
    DigitReadsBack(a);
    DigitReadsBack(b);
    DigitReadsBack(c);
    DigitReadsBack(d);
  }

  lemma UnicodeReadsBack(u: Unit, escape: Text, rest: Text)
    requires escape == UnicodeEscape(u)
    ensures ParseInside(escape + rest) == Prepend(u, ParseInside(rest))
  {
    HexReadsBack(u);
    var t := escape + rest;
    assert |t| >= 6 && t[0] == BACKSLASH && t[1] == 117;
    assert t[2..6] == escape[2..6] && t[6..] == rest;
  }

  lemma ShortReadsBack(u: Unit, rest: Text)
    requires ShortEscape(u).Some?
    ensures ParseInside([BACKSLASH, ShortEscape(u).value] + rest) == Prepend(u, ParseInside(rest))
  {
    assert ([BACKSLASH, ShortEscape(u).value] + rest)[2..] == rest;
  }

  lemma UnitReadsBack(u: Unit, rest: Text)
    ensures ParseInside(EscapeUnit(u) + rest) == Prepend(u, ParseInside(rest))
  {
    if ShortEscape(u).Some? {
      ShortReadsBack(u, rest);
    } else if u < 32 || Surrogate(u) {
      UnicodeReadsBack(u, UnicodeEscape(u), rest);
    } else {
      assert ([u] + rest)[1..] == rest;
    }
  }

  lemma PairReadsBack(high: Unit, low: Unit, tail: Text)
    requires High(high) && Low(low)
    ensures ParseInside([high, low] + tail) == Prepend(high, Prepend(low, ParseInside(tail)))
  {
    var t := [high, low] + tail;
    assert t[1..] == [low] + tail && t[1..][1..] == tail;
  }

  lemma Regroup(a: Text, b: Text, c: Text)
    ensures (a + b) + c == a + (b + c)
  {
  }

  lemma TwoThenRest(s: Text)
    requires |s| >= 2
    ensures s[..2] == [s[0], s[1]] && s == [s[0]] + ([s[1]] + s[2..])
  {
  }

  lemma {:induction false} InsideReadsBack(s: Text, rest: Text)
    ensures ParseInside(Escape(s) + ([QUOTE] + rest)) == Parsed(s, rest)
    decreases |s|
  {
    var end := [QUOTE] + rest;
    if s == [] {
      assert Escape(s) + end == end && end[1..] == rest;
    } else if |s| > 1 && High(s[0]) && Low(s[1]) {
      InsideReadsBack(s[2..], rest);
      PairReadsBack(s[0], s[1], Escape(s[2..]) + end);
      Regroup(s[..2], Escape(s[2..]), end);
      TwoThenRest(s);
    } else {
      InsideReadsBack(s[1..], rest);
      UnitReadsBack(s[0], Escape(s[1..]) + end);
      Regroup(EscapeUnit(s[0]), Escape(s[1..]), end);
      assert s == [s[0]] + s[1..];
    }
  }

  lemma Enclosed(inside: Text, rest: Text)
    ensures var t := [QUOTE] + inside + [QUOTE] + rest; t[0] == QUOTE && t[1..] == inside + ([QUOTE] + rest)
  {
  }

  lemma QuotedReadsBack(s: Text, rest: Text)
    ensures var t := Quoted(s) + rest; t[0] == QUOTE && ParseInside(t[1..]) == Parsed(s, rest)
  {
    InsideReadsBack(s, rest);
    Enclosed(Escape(s), rest);
  }

  lemma {:induction false} NumberReadsBack(digits: Text, rest: Text)
    requires forall i | 0 <= i < |digits| :: NumberUnit(digits[i])
    requires rest == [] || !NumberUnit(rest[0])
    ensures NumberLength(digits + rest) == |digits|
    decreases |digits|
  {
    if digits == [] {
      assert digits + rest == rest;
    } else {
      assert (digits + rest)[1..] == digits[1..] + rest;
      NumberReadsBack(digits[1..], rest);
    }
  }

  // ---------- the parser reads canonical texts back ----------

  /** The text of a value with the members in the order they stand. */
  function Render(j: Json): Text {
    match j
    case Null => NULL_TEXT
    case Bool(b) => if b then TRUE_TEXT else FALSE_TEXT
    case Number(digits) => digits
    case String(s) => Quoted(s)
    case Array(items) => [OPEN_ARRAY] + RenderItems(items) + [CLOSE_ARRAY]
    case Object(members) => [OPEN_OBJECT] + RenderMembers(members) + [CLOSE_OBJECT]
  }

  function RenderItems(items: Items): Text {
    match items
    case NoItem => []
    case Item(first, others) => if others.NoItem? then Render(first) else Render(first) + [COMMA] + RenderItems(others)
  }

  function RenderMembers(members: Members): Text {
    match members
    case NoMember => []
    case Member(key, value, next) =>
      var one := EntryText((key, Render(value)));
      if next.NoMember? then one else one + [COMMA] + RenderMembers(next)
  }

  ghost predicate EndsNumber(rest: Text) { rest == [] || !NumberUnit(rest[0]) }

  lemma LiteralReadsBack(j: Json, rest: Text)
    requires j.Null? || j.Bool?
    ensures ParseValue(Render(j) + rest) == Parsed(j, rest)
  {
    assert (Render(j) + rest)[|Render(j)|..] == rest;
  }

  lemma NumberTextReadsBack(digits: Text, rest: Text)
    requires ValidJson(Number(digits)) && EndsNumber(rest)
    ensures ParseValue(digits + rest) == Parsed(Number(digits), rest)
  {
    var t := digits + rest;
    NumberReadsBack(digits, rest);
    assert NumberUnit(t[0]) by { assert t[0] == digits[0]; }
    assert t[..|digits|] == digits && t[|digits|..] == rest;
  }

  /** A value's text starts with none of the closing brackets. */
  lemma {:induction false} RenderStarts(j: Json)
    requires ValidJson(j)
    ensures Render(j) != [] && Render(j)[0] != CLOSE_ARRAY && Render(j)[0] != CLOSE_OBJECT
  {
    if j.Number? { assert NumberUnit(j.digits[0]); }
  }

  lemma BracketParses(inner: Text, items: Items, rest: Text)
    requires inner != [] && inner[0] != CLOSE_ARRAY && ParseItems(inner) == Parsed(items, rest)
    ensures ParseValue([OPEN_ARRAY] + inner) == Parsed(Array(items), rest)
  {
    assert ([OPEN_ARRAY] + inner)[1..] == inner && ([OPEN_ARRAY] + inner)[1] == inner[0];
  }

  lemma BraceParses(inner: Text, members: Members, rest: Text)
    requires inner != [] && inner[0] != CLOSE_OBJECT && ParseMembers(inner) == Parsed(members, rest)
    ensures ParseValue([OPEN_OBJECT] + inner) == Parsed(Object(members), rest)
  {
    assert ([OPEN_OBJECT] + inner)[1..] == inner && ([OPEN_OBJECT] + inner)[1] == inner[0];
  }

  lemma EmptyReadsBack(rest: Text)
    ensures ParseValue([OPEN_ARRAY] + ([CLOSE_ARRAY] + rest)) == Parsed(Array(NoItem), rest)
    ensures ParseValue([OPEN_OBJECT] + ([CLOSE_OBJECT] + rest)) == Parsed(Object(NoMember), rest)
  {
    assert ([OPEN_ARRAY] + ([CLOSE_ARRAY] + rest))[2..] == rest;
    assert ([OPEN_OBJECT] + ([CLOSE_OBJECT] + rest))[2..] == rest;
  }

  /** A bracketed text regrouped around its opening unit. */
  lemma Bracketed(open: Unit, inner: Text, close: Unit, rest: Text)
    ensures ([open] + inner + [close]) + rest == [open] + (inner + [close] + rest)
  {
  }

  /** A list regrouped after its first element, at the end of the list or at a comma. */
  lemma Listed(first: Text, others: Text, close: Unit, rest: Text)
    ensures first + [close] + rest == first + ([close] + rest) && ([close] + rest)[1..] == rest
    ensures var tail := others + [close] + rest;
            (first + [COMMA] + others) + [close] + rest == first + ([COMMA] + tail) && ([COMMA] + tail)[1..] == tail
  {
  }

  lemma ArrayReadsBack(items: Items, rest: Text)
    requires ValidItems(items)
    requires items.Item? ==> ParseItems(RenderItems(items) + [CLOSE_ARRAY] + rest) == Parsed(items, rest)
    ensures ParseValue(Render(Array(items)) + rest) == Parsed(Array(items), rest)
  {
    var inner := RenderItems(items) + [CLOSE_ARRAY] + rest;
    Bracketed(OPEN_ARRAY, RenderItems(items), CLOSE_ARRAY, rest);
    if items.NoItem? {
      assert inner == [CLOSE_ARRAY] + rest;
      EmptyReadsBack(rest);
    } else {
      RenderStarts(items.first);
      assert inner[0] == Render(items.first)[0];
      BracketParses(inner, items, rest);
    }
  }

  lemma ObjectReadsBack(members: Members, rest: Text)
    requires members.Member? ==> ParseMembers(RenderMembers(members) + [CLOSE_OBJECT] + rest) == Parsed(members, rest)
    ensures ParseValue(Render(Object(members)) + rest) == Parsed(Object(members), rest)
  {
    var inner := RenderMembers(members) + [CLOSE_OBJECT] + rest;
    Bracketed(OPEN_OBJECT, RenderMembers(members), CLOSE_OBJECT, rest);
    if members.NoMember? {
      assert inner == [CLOSE_OBJECT] + rest;
      EmptyReadsBack(rest);
    } else {
      assert inner[0] == QUOTE;
      BraceParses(inner, members, rest);
    }
  }

  lemma {:induction false} ValueReadsBack(j: Json, rest: Text)
    requires ValidJson(j) && EndsNumber(rest)
    ensures ParseValue(Render(j) + rest) == Parsed(j, rest)
    decreases j
  {
    match j
    case Null => LiteralReadsBack(j, rest);
    case Bool(_) => LiteralReadsBack(j, rest);
    case Number(digits) => NumberTextReadsBack(digits, rest);
    case String(s) => QuotedReadsBack(s, rest);
    case Array(items) =>
      if items.Item? { ItemsReadBack(items, rest); }
      ArrayReadsBack(items, rest);
    case Object(members) =>
      if members.Member? { MembersReadBack(members, rest); }
      ObjectReadsBack(members, rest);
  }

  lemma {:induction false} ItemsReadBack(items: Items, rest: Text)
    requires ValidItems(items) && items.Item?
    ensures ParseItems(RenderItems(items) + [CLOSE_ARRAY] + rest) == Parsed(items, rest)
    decreases items
  {
    var others := RenderItems(items.others);
    Listed(Render(items.first), others, CLOSE_ARRAY, rest);
    if items.others.NoItem? {
      ValueReadsBack(items.first, [CLOSE_ARRAY] + rest);
    } else {
      ValueReadsBack(items.first, [COMMA] + (others + [CLOSE_ARRAY] + rest));
      ItemsReadBack(items.others, rest);
    }
  }

  /** How the parser reads one member: key, colon, value, and then a comma or the closing brace. */
  lemma MemberReadsBack(key: Text, value: Json, end: Text)
    requires end != [] && ParseValue(Render(value) + end) == Parsed(value, end)
    ensures var r := ParseMembers(EntryText((key, Render(value))) + end);
            && (end[0] == CLOSE_OBJECT ==> r == Parsed(Member(key, value, NoMember), end[1..]))
            && (end[0] == COMMA ==>
                  var next := ParseMembers(end[1..]);
                  r == if next.Bad? then Bad else Parsed(Member(key, value, next.value), next.rest))
  {
    var after := [COLON] + (Render(value) + end);
    assert EntryText((key, Render(value))) + end == Quoted(key) + after;
    QuotedReadsBack(key, after);
    assert after[1..] == Render(value) + end;
  }

  lemma {:induction false} MembersReadBack(members: Members, rest: Text)
    requires ValidMembers(members) && members.Member?
    ensures ParseMembers(RenderMembers(members) + [CLOSE_OBJECT] + rest) == Parsed(members, rest)
    decreases members
  {
    var Member(key, value, next) := members;
    var (one, others) := (EntryText((key, Render(value))), RenderMembers(next));
    Listed(one, others, CLOSE_OBJECT, rest);
    if next.NoMember? {
      var end := [CLOSE_OBJECT] + rest;
      ValueReadsBack(value, end);
      MemberReadsBack(key, value, end);
    } else {
      var end := [COMMA] + (others + [CLOSE_OBJECT] + rest);
      ValueReadsBack(value, end);
      MembersReadBack(next, rest);
      MemberReadsBack(key, value, end);
    }
  }

  // ---------- canonicalization renders the normal form ----------

  function Entries(members: Members): seq<Entry> {
    match members
    case NoMember => []
    case Member(key, value, next) => [(key, Render(value))] + Entries(next)
  }

  lemma {:induction false} InsertedEntries(key: Text, value: Json, sorted: Members)
    ensures Entries(InsertMember(key, value, sorted)) == InsertEntry((key, Render(value)), Entries(sorted))
    decreases sorted
  {
    if sorted.Member? && !Less(key, sorted.key) {
      InsertedEntries(key, value, sorted.next);
      assert Entries(sorted)[1..] == Entries(sorted.next);
    }
  }

  lemma {:induction false} JoinedEntries(members: Members)
    ensures JoinEntries(Entries(members)) == RenderMembers(members)
    decreases members
  {
    if members.Member? {
      JoinedEntries(members.next);
      assert Entries(members)[1..] == Entries(members.next);
    }
  }

  /** canonicalizeJcs writes the value with its members sorted. */
  lemma {:induction false} CanonicalizeRendersNormal(j: Json)
    ensures Canonicalize(j) == Render(Normal(j))
    decreases j
  {
    match j
    case Array(items) => ItemsRenderNormal(items);
    case Object(members) =>
      EntriesRenderNormal(members);
      JoinedEntries(NormalMembers(members));
    case _ =>
  }

  lemma {:induction false} ItemsRenderNormal(items: Items)
    ensures CanonicalItems(items) == RenderItems(NormalItems(items))
    decreases items
  {
    if items.Item? {
      CanonicalizeRendersNormal(items.first);
      ItemsRenderNormal(items.others);
    }
  }

  lemma {:induction false} EntriesRenderNormal(members: Members)
    ensures SortedEntries(members) == Entries(NormalMembers(members))
    decreases members
  {
    if members.Member? {
      CanonicalizeRendersNormal(members.value);
      EntriesRenderNormal(members.next);
      InsertedEntries(members.key, Normal(members.value), NormalMembers(members.next));
    }
  }

  // ---------- normal forms ----------

  lemma {:induction false} InsertKeeps(key: Text, value: Json, sorted: Members, other: Text)
    requires !HasKey(sorted, key)
    ensures HasKey(InsertMember(key, value, sorted), other) <==> other == key || HasKey(sorted, other)
    ensures Lookup(InsertMember(key, value, sorted), other) == if other == key then Some(value) else Lookup(sorted, other)
    ensures Count(InsertMember(key, value, sorted)) == Count(sorted) + 1
    ensures ValidMembers(sorted) && ValidJson(value) ==> ValidMembers(InsertMember(key, value, sorted))
    decreases sorted
  {
    if sorted.Member? {
      InsertKeeps(key, value, sorted.next, other);
      InsertKeeps(key, value, sorted.next, sorted.key);
    }
  }

  lemma {:induction false} NormalIsValid(j: Json)
    requires ValidJson(j)
    ensures ValidJson(Normal(j))
    decreases j
  {
    match j
    case Array(items) => NormalItemsAreValid(items);
    case Object(members) => NormalMembersAreValid(members, []);
    case _ =>
  }

  lemma {:induction false} NormalItemsAreValid(items: Items)
    requires ValidItems(items)
    ensures ValidItems(NormalItems(items))
    decreases items
  {
    if items.Item? {
      NormalIsValid(items.first);
      NormalItemsAreValid(items.others);
    }
  }

  lemma {:induction false} NormalMembersAreValid(members: Members, key: Text)
    requires ValidMembers(members)
    ensures ValidMembers(NormalMembers(members))
    ensures HasKey(NormalMembers(members), key) <==> HasKey(members, key)
    ensures Lookup(NormalMembers(members), key) == if Lookup(members, key).None? then None else Some(Normal(Lookup(members, key).value))
    ensures Count(NormalMembers(members)) == Count(members)
    decreases members
  {
    if members.Member? {
      NormalIsValid(members.value);
      NormalMembersAreValid(members.next, key);
      NormalMembersAreValid(members.next, members.key);
      InsertKeeps(members.key, Normal(members.value), NormalMembers(members.next), key);
    }
  }

  /** For every JSON value the parser recovers the value, with its members sorted, from the canonical text. */
  lemma CanonicalTextParsesBack(j: Json)
    requires ValidJson(j)
    ensures ParseValue(Canonicalize(j)) == Parsed(Normal(j), [])
  {
    CanonicalizeRendersNormal(j);
    NormalIsValid(j);
    ValueReadsBack(Normal(j), []);
    assert Render(Normal(j)) + [] == Render(Normal(j));
  }

  // ---------- equal texts mean equal values ----------

  lemma {:induction false} LessIsTotal(a: Text, b: Text)
    ensures !(Less(a, b) && Less(b, a))
    ensures a == b <==> !Less(a, b) && !Less(b, a)
    decreases |a|
  {
    if a != [] && b != [] && a[0] == b[0] {
      LessIsTotal(a[1..], b[1..]);
      assert a == b <==> a[1..] == b[1..] by { assert a == [a[0]] + a[1..] && b == [b[0]] + b[1..]; }
    }
  }

  lemma {:induction false} LessIsTransitive(a: Text, b: Text, c: Text)
    requires Less(a, b) && Less(b, c)
    ensures Less(a, c)
    decreases |a|
  {
    if a != [] && a[0] == b[0] && b[0] == c[0] { LessIsTransitive(a[1..], b[1..], c[1..]); }
  }

  /** Sorted by key, strictly. */
  predicate Sorted(members: Members) {
    members.Member? ==> Sorted(members.next) && (members.next.Member? ==> Less(members.key, members.next.key))
  }

  lemma {:induction false} InsertKeepsSorted(key: Text, value: Json, sorted: Members)
    requires Sorted(sorted) && !HasKey(sorted, key)
    ensures Sorted(InsertMember(key, value, sorted))
    decreases sorted
  {
    if sorted.Member? && !Less(key, sorted.key) {
      LessIsTotal(key, sorted.key);
      InsertKeepsSorted(key, value, sorted.next);
    }
  }

  lemma {:induction false} NormalIsSorted(members: Members)
    requires ValidMembers(members)
    ensures Sorted(NormalMembers(members))
    decreases members
  {
    if members.Member? {
      NormalIsSorted(members.next);
      NormalMembersAreValid(members.next, members.key);
      InsertKeepsSorted(members.key, Normal(members.value), NormalMembers(members.next));
    }
  }

  lemma {:induction false} HeadIsLeast(members: Members, key: Text)
    requires Sorted(members) && members.Member? && HasKey(members.next, key)
    ensures Less(members.key, key)
    decreases members
  {
    if members.next.key != key {
      HeadIsLeast(members.next, key);
      LessIsTransitive(members.key, members.next.key, key);
    }
  }

  lemma {:induction false} HasKeyIsLookup(members: Members, key: Text)
    ensures HasKey(members, key) <==> Lookup(members, key).Some?
    decreases members
  {
    if members.Member? { HasKeyIsLookup(members.next, key); }
  }

  /** Two sorted lists that answer every key alike are the same list. */
  lemma {:induction false} SortedIsCanonical(a: Members, b: Members)
    requires Sorted(a) && Sorted(b) && forall key :: Lookup(a, key) == Lookup(b, key)
    ensures a == b
    decreases a
  {
    var keyOfB := if b.Member? then b.key else [];
    assert Lookup(a, keyOfB) == Lookup(b, keyOfB);
    if a.Member? {
      assert Lookup(a, a.key) == Lookup(b, a.key);
      SameHeads(a, b);
      forall key ensures Lookup(a.next, key) == Lookup(b.next, key) {
        assert Lookup(a, key) == Lookup(b, key);
        NotInTail(a, key);
        NotInTail(b, key);
      }
      SortedIsCanonical(a.next, b.next);
    }
  }

  lemma NotInTail(a: Members, key: Text)
    requires Sorted(a) && a.Member?
    ensures key == a.key ==> Lookup(a.next, key).None?
  {
    HasKeyIsLookup(a.next, key);
    if HasKey(a.next, key) {
      HeadIsLeast(a, key);
      LessIsTotal(a.key, key);
    }
  }

  lemma SameHeads(a: Members, b: Members)
    requires Sorted(a) && Sorted(b) && a.Member? && b.Member?
    requires Lookup(b, a.key).Some? && Lookup(a, b.key).Some?
    ensures a.key == b.key
  {
    HasKeyIsLookup(b.next, a.key);
    HasKeyIsLookup(a.next, b.key);
    if a.key != b.key {
      HeadIsLeast(b, a.key);
      HeadIsLeast(a, b.key);
      LessIsTotal(a.key, b.key);
    }
  }

  // ---------- same value, same normal form ----------

  lemma {:induction false} AllInByLookup(a: Members, b: Members, key: Text)
    requires AllIn(a, b) && Lookup(a, key).Some?
    ensures Lookup(b, key).Some? && Same(Lookup(a, key).value, Lookup(b, key).value)
    decreases a
  {
    if a.key != key { AllInByLookup(a.next, b, key); }
  }

  /** Distinct keys found in a list of the same length are all of its keys. */
  lemma {:induction false} NoOtherKeys(a: Members, b: Members, key: Text)
    requires ValidMembers(a) && ValidMembers(b) && Count(a) == Count(b)
    requires forall k :: HasKey(a, k) ==> HasKey(b, k)
    ensures HasKey(b, key) ==> HasKey(a, key)
    decreases a
  {
    if a.Member? {
      var rest := Remove(b, a.key);
      assert HasKey(a, a.key);
      RemoveKeeps(b, a.key, key);
      forall k | HasKey(a.next, k) ensures HasKey(rest, k) {
        assert HasKey(a, k);
        RemoveKeeps(b, a.key, k);
      }
      NoOtherKeys(a.next, rest, key);
    }
  }

  function Remove(members: Members, key: Text): Members {
    if members.NoMember? then NoMember
    else if members.key == key then members.next
    else Member(members.key, members.value, Remove(members.next, key))
  }

  lemma {:induction false} RemoveKeeps(members: Members, key: Text, other: Text)
    requires ValidMembers(members) && HasKey(members, key)
    ensures Count(Remove(members, key)) == Count(members) - 1
    ensures HasKey(Remove(members, key), other) <==> HasKey(members, other) && other != key
    ensures ValidMembers(Remove(members, key))
    decreases members
  {
    if members.key != key {
      RemoveKeeps(members.next, key, other);
      RemoveKeeps(members.next, key, members.key);
    }
  }

  lemma {:induction false} SameIffSameNormal(a: Json, b: Json)
    requires ValidJson(a) && ValidJson(b)
    ensures Same(a, b) <==> Normal(a) == Normal(b)
    decreases a
  {
    match a
    case Array(items) => if b.Array? { SameItemsIffSameNormal(items, b.items); }
    case Object(members) =>
      if b.Object? {
        if Same(a, b) { SameMembersNormalizeAlike(members, b.members); }
        if Normal(a) == Normal(b) { AlikeMembersAreSame(members, b.members); }
      }
    case _ =>
  }

  lemma {:induction false} SameItemsIffSameNormal(a: Items, b: Items)
    requires ValidItems(a) && ValidItems(b)
    ensures SameItems(a, b) <==> NormalItems(a) == NormalItems(b)
    decreases a
  {
    if a.Item? && b.Item? {
      SameIffSameNormal(a.first, b.first);
      SameItemsIffSameNormal(a.others, b.others);
    }
  }

  lemma {:induction false} LookupsAreValid(members: Members, key: Text)
    requires ValidMembers(members) && Lookup(members, key).Some?
    ensures ValidJson(Lookup(members, key).value) && Lookup(members, key).value < members
    decreases members
  {
    if members.key != key { LookupsAreValid(members.next, key); }
  }

  lemma {:induction false} SameMembersNormalizeAlike(a: Members, b: Members)
    requires ValidMembers(a) && ValidMembers(b) && Count(a) == Count(b) && AllIn(a, b)
    ensures NormalMembers(a) == NormalMembers(b)
    decreases a, 1
  {
    forall key ensures Lookup(NormalMembers(a), key) == Lookup(NormalMembers(b), key) { SameLookups(a, b, key); }
    NormalIsSorted(a);
    NormalIsSorted(b);
    SortedIsCanonical(NormalMembers(a), NormalMembers(b));
  }

  lemma {:induction false} SameLookups(a: Members, b: Members, key: Text)
    requires ValidMembers(a) && ValidMembers(b) && Count(a) == Count(b) && AllIn(a, b)
    ensures Lookup(NormalMembers(a), key) == Lookup(NormalMembers(b), key)
    decreases a, 0
  {
    NormalMembersAreValid(a, key);
    NormalMembersAreValid(b, key);
    if Lookup(a, key).Some? {
      AllInByLookup(a, b, key);
      LookupsAreValid(a, key);
      LookupsAreValid(b, key);
      SameIffSameNormal(Lookup(a, key).value, Lookup(b, key).value);
    } else {
      forall k | HasKey(a, k) ensures HasKey(b, k) {
        HasKeyIsLookup(a, k);
        AllInByLookup(a, b, k);
        HasKeyIsLookup(b, k);
      }
      NoOtherKeys(a, b, key);
      HasKeyIsLookup(a, key);
      HasKeyIsLookup(b, key);
    }
  }

  lemma {:induction false} AlikeMembersAreSame(a: Members, b: Members)
    requires ValidMembers(a) && ValidMembers(b) && NormalMembers(a) == NormalMembers(b)
    ensures Count(a) == Count(b) && AllIn(a, b)
    decreases a, 1
  {
    NormalMembersAreValid(a, []);
    NormalMembersAreValid(b, []);
    forall key | Lookup(a, key).Some?
      ensures Lookup(b, key).Some? && Normal(Lookup(a, key).value) == Normal(Lookup(b, key).value)
    {
      NormalMembersAreValid(a, key);
      NormalMembersAreValid(b, key);
    }
    AllInByNormal(a, b);
  }

  lemma {:induction false} AllInByNormal(a: Members, b: Members)
    requires ValidMembers(a) && ValidMembers(b)
    requires forall key | Lookup(a, key).Some? :: Lookup(b, key).Some? && Normal(Lookup(a, key).value) == Normal(Lookup(b, key).value)
    ensures AllIn(a, b)
    decreases a, 0
  {
    if a.Member? {
      assert Lookup(a, a.key) == Some(a.value);
      LookupsAreValid(b, a.key);
      SameIffSameNormal(a.value, Lookup(b, a.key).value);
      forall key | Lookup(a.next, key).Some? ensures Lookup(a, key) == Lookup(a.next, key) { HasKeyIsLookup(a.next, key); }
      AllInByNormal(a.next, b);
    }
  }

  /** Two values have the same canonical text exactly when they are the same JSON value, in whatever member order. */
  lemma CanonicalTextIsUnambiguous(a: Json, b: Json)
    requires ValidJson(a) && ValidJson(b)
    ensures Canonicalize(a) == Canonicalize(b) <==> Same(a, b)
  {
    SameIffSameNormal(a, b);
    CanonicalTextParsesBack(a);
    CanonicalTextParsesBack(b);
    CanonicalizeRendersNormal(a);
    CanonicalizeRendersNormal(b);
  }

  // ---------- order and escapes, as the standard states them ----------

  /** Keys are ordered by their first differing code unit, and a prefix comes first. */
  lemma {:induction false} LessIsByFirstDifference(a: Text, b: Text)
    ensures Less(a, b) <==>
              || (a < b)
              || exists i :: 0 <= i < |a| && i < |b| && a[..i] == b[..i] && a[i] < b[i]
    decreases |a|
  {
    if a != [] && b != [] && a[0] == b[0] {
      LessIsByFirstDifference(a[1..], b[1..]);
      if a[1..] < b[1..] { assert a == [a[0]] + a[1..] && b == [b[0]] + b[1..]; }
      if i :| 0 <= i < |a| && i < |b| && a[..i] == b[..i] && a[i] < b[i] {
        assert i > 0;
        assert a[1..][..i - 1] == a[..i][1..] == b[..i][1..] == b[1..][..i - 1] && a[1..][i - 1] < b[1..][i - 1];
      }
      if j :| 0 <= j < |a[1..]| && j < |b[1..]| && a[1..][..j] == b[1..][..j] && a[1..][j] < b[1..][j] {
        assert a[..j + 1] == [a[0]] + a[1..][..j] && b[..j + 1] == [b[0]] + b[1..][..j];
      }
    } else if a != [] && b != [] {
      assert a[..0] == b[..0];
    }
  }

  /** Nothing is escaped but control characters, the quote, the backslash and lone surrogates. */
  lemma EscapesAreMinimal(u: Unit)
    ensures u >= 32 && u != 34 && u != 92 && !(0xD800 <= u < 0xE000) ==> Escape([u]) == [u]
    ensures Escape([8]) == [92, 98] && Escape([9]) == [92, 116] && Escape([10]) == [92, 110] && Escape([12]) == [92, 102]
    ensures Escape([13]) == [92, 114] && Escape([34]) == [92, 34] && Escape([92]) == [92, 92]
    ensures u < 32 && u !in {8, 9, 10, 12, 13} ==> |Escape([u])| == 6 && Escape([u])[..4] == [92, 117, 48, 48]
    ensures 0xD800 <= u < 0xE000 ==> |Escape([u])| == 6 && Escape([u])[..3] == [92, 117, 100]
  {
    assert forall x: Unit :: Escape([x]) == EscapeUnit(x) + Escape([x][1..]) && [x][1..] == [];
  }
}
