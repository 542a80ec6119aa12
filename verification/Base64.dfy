/** Base64 of section 4 of RFC 4648, as Node's Buffer writes it. */
module Base64 {
  import opened Wrappers

  type Byte = n: nat | n < 256
  type Bytes = seq<Byte>
  type Sextet = n: nat | n < 64
  type Text = seq<nat>

  const PAD: nat := 61

  /** A-Z a-z 0-9 + / */
  function Symbol(v: Sextet): nat {
    if v < 26 then 65 + v else if v < 52 then 71 + v else if v < 62 then v - 4 else if v == 62 then 43 else 47
  }

  function Value(c: nat): Option<Sextet> {
    if 65 <= c <= 90 then Some(c - 65) else if 97 <= c <= 122 then Some(c - 71)
    else if 48 <= c <= 57 then Some(c + 4) else if c == 43 then Some(62) else if c == 47 then Some(63) else None
  }

  predicate IsSymbol(c: nat) { Value(c).Some? || c == PAD }

  function Triple(a: Byte, b: Byte, c: Byte): Text {
    [Symbol(a / 4), Symbol(a % 4 * 16 + b / 16), Symbol(b % 16 * 4 + c / 64), Symbol(c % 64)]
  }

  function Double(a: Byte, b: Byte): Text { [Symbol(a / 4), Symbol(a % 4 * 16 + b / 16), Symbol(b % 16 * 4), PAD] }

  function Single(a: Byte): Text { [Symbol(a / 4), Symbol(a % 4 * 16), PAD, PAD] }

  function Encode(b: Bytes): Text {
    if b == [] then []
    else if |b| == 1 then Single(b[0])
    else if |b| == 2 then Double(b[0], b[1])
    else Triple(b[0], b[1], b[2]) + Encode(b[3..])
  }

  predicate AllSymbols(t: Text) { forall i | 0 <= i < |t| :: IsSymbol(t[i]) }

  /** Four symbols for every three bytes begun. */
  lemma {:induction false} EncodedShape(b: Bytes)
    ensures 4 * |b| <= 3 * |Encode(b)| <= 4 * |b| + 8
    ensures AllSymbols(Encode(b))
    decreases |b|
  {
    if |b| >= 3 { EncodedShape(b[3..]); }
  }

  /** The bytes of one group of four symbols. */
  function Group(t: Text): Option<Bytes>
    requires |t| == 4
  {
    var (v, w) := (Value(t[0]), Value(t[1]));
    if v.None? || w.None? then None
    else
      var first := v.value * 4 + w.value / 16;
      if t[2] == PAD then if t[3] == PAD then Some([first]) else None
      else
        var x := Value(t[2]);
        if x.None? then None
        else
          var second := w.value % 16 * 16 + x.value / 4;
          if t[3] == PAD then Some([first, second])
          else
            var y := Value(t[3]);
            if y.None? then None else Some([first, second, x.value % 4 * 64 + y.value])
  }

  function Decode(t: Text): Option<Bytes> {
    if t == [] then Some([])
    else if |t| < 4 then None
    else
      var (group, rest) := (Group(t[..4]), Decode(t[4..]));
      if group.None? || rest.None? then None else Some(group.value + rest.value)
  }

  lemma SymbolsReadBack(v: Sextet)
    ensures Value(Symbol(v)) == Some(v) && Symbol(v) != PAD
  {
  }

  lemma Halves(a: Byte, b: Byte)
    ensures (a % 4 * 16 + b / 16) / 16 == a % 4 && (a % 4 * 16 + b / 16) % 16 == b / 16
    ensures (a % 16 * 4 + b / 64) / 4 == a % 16 && (a % 16 * 4 + b / 64) % 4 == b / 64
  {
  }

  lemma GroupsReadBack(a: Byte, b: Byte, c: Byte)
    ensures Group(Triple(a, b, c)) == Some([a, b, c])
    ensures Group(Double(a, b)) == Some([a, b])
    ensures Group(Single(a)) == Some([a])
  {
    SymbolsReadBack(a / 4);
    SymbolsReadBack(a % 4 * 16 + b / 16);
    SymbolsReadBack(b % 16 * 4 + c / 64);
    SymbolsReadBack(c % 64);
    SymbolsReadBack(b % 16 * 4);
    SymbolsReadBack(a % 4 * 16);
    Halves(a, b);
    Halves(b, c);
  }

  lemma DecodeGroupThenRest(group: Text, rest: Text, b: Bytes, c: Bytes)
    requires |group| == 4 && Group(group) == Some(b) && Decode(rest) == Some(c)
    ensures Decode(group + rest) == Some(b + c)
  {
    assert (group + rest)[..4] == group && (group + rest)[4..] == rest;
  }

  lemma {:induction false} DecodeUndoesEncode(b: Bytes)
    ensures Decode(Encode(b)) == Some(b)
    decreases |b|
  {
    if b == [] {
    } else if |b| == 1 {
      GroupsReadBack(b[0], 0, 0);
      assert b == [b[0]] && b + [] == b;
      DecodeGroupThenRest(Single(b[0]), [], b, []);
      assert Single(b[0]) + [] == Encode(b);
    } else if |b| == 2 {
      GroupsReadBack(b[0], b[1], 0);
      assert b == [b[0], b[1]] && b + [] == b;
      DecodeGroupThenRest(Double(b[0], b[1]), [], b, []);
      assert Double(b[0], b[1]) + [] == Encode(b);
    } else {
      GroupsReadBack(b[0], b[1], b[2]);
      DecodeUndoesEncode(b[3..]);
      DecodeGroupThenRest(Triple(b[0], b[1], b[2]), Encode(b[3..]), [b[0], b[1], b[2]], b[3..]);
      assert b == [b[0], b[1], b[2]] + b[3..];
    }
  }

  /** The alphabet of table 1 of RFC 4648: four runs of characters and two single ones, padded with `=`. */
  lemma AlphabetIsStandard(v: Sextet)
    ensures v < 26 ==> Symbol(v) == 'A' as int + v
    ensures 26 <= v < 52 ==> Symbol(v) == 'a' as int + (v - 26)
    ensures 52 <= v < 62 ==> Symbol(v) == '0' as int + (v - 52)
    ensures Symbol(62) == '+' as int && Symbol(63) == '/' as int && PAD == '=' as int
  {
  }
}
