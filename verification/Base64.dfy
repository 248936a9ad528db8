/** Standard padded base64 (section 4 of RFC 4648), as snapshot chunks use it:
    canonical padding is required and unused bits must be zero. */
module Base64 {
  import opened Core

  type Digit = v: nat | v < 64

  function Symbol(v: Digit): char {
    if v < 26 then ('A' as int + v) as char
    else if v < 52 then ('a' as int + (v - 26)) as char
    else if v < 62 then ('0' as int + (v - 52)) as char
    else if v == 62 then '+'
    else '/'
  }

  function Value(c: char): Option<Digit> {
    if 'A' <= c <= 'Z' then Some(c as int - 'A' as int)
    else if 'a' <= c <= 'z' then Some(c as int - 'a' as int + 26)
    else if '0' <= c <= '9' then Some(c as int - '0' as int + 52)
    else if c == '+' then Some(62)
    else if c == '/' then Some(63)
    else None
  }

  lemma SymbolRoundTrip(v: Digit)
    ensures Value(Symbol(v)) == Some(v) && Symbol(v) != '='
  {
  }

  lemma ValueRoundTrip(c: char)
    requires Value(c).Some?
    ensures Symbol(Value(c).value) == c && c != '='
  {
  }

  /** The four digits of three bytes. */
  function Split(x: byte, y: byte, z: byte): (Digit, Digit, Digit, Digit) {
    var a, b, c := x as nat, y as nat, z as nat;
    (a / 4, a % 4 * 16 + b / 16, b % 16 * 4 + c / 64, c % 64)
  }

  function Join(a: Digit, b: Digit, c: Digit, d: Digit): (byte, byte, byte) {
    ((a * 4 + b / 16) as byte, (b % 16 * 16 + c / 4) as byte, (c % 4 * 64 + d) as byte)
  }

  lemma Halves(high: nat, low: nat)
    ensures low < 4 ==> (high * 4 + low) / 4 == high && (high * 4 + low) % 4 == low
    ensures low < 16 ==> (high * 16 + low) / 16 == high && (high * 16 + low) % 16 == low
    ensures low < 64 ==> (high * 64 + low) / 64 == high && (high * 64 + low) % 64 == low
  {
  }

  lemma JoinSplit(x: byte, y: byte, z: byte)
    ensures var (a, b, c, d) := Split(x, y, z); Join(a, b, c, d) == (x, y, z)
  {
    Halves(x as nat % 4, y as nat / 16);
    Halves(y as nat % 16, z as nat / 64);
  }

  lemma SplitJoin(a: Digit, b: Digit, c: Digit, d: Digit)
    ensures var (x, y, z) := Join(a, b, c, d); Split(x, y, z) == (a, b, c, d)
  {
    Halves(a, b / 16);
    Halves(b % 16, c / 4);
    Halves(c % 4, d);
  }

  function Encode(bytes: seq<byte>): (text: string)
    ensures |text| == (|bytes| + 2) / 3 * 4
  {
    if |bytes| == 0 then ""
    else if |bytes| == 1 then
      var (a, b, _, _) := Split(bytes[0], 0, 0);
      [Symbol(a), Symbol(b), '=', '=']
    else if |bytes| == 2 then
      var (a, b, c, _) := Split(bytes[0], bytes[1], 0);
      [Symbol(a), Symbol(b), Symbol(c), '=']
    else
      var (a, b, c, d) := Split(bytes[0], bytes[1], bytes[2]);
      [Symbol(a), Symbol(b), Symbol(c), Symbol(d)] + Encode(bytes[3..])
  }

  /** The bytes of a last group with padding. */
  function DecodePadded(text: string): Option<seq<byte>>
    requires |text| == 4 && text[3] == '='
  {
    var a, b := Value(text[0]), Value(text[1]);
    if a.None? || b.None? then None
    else if text[2] == '=' then
      if b.value % 16 != 0 then None else Some([Join(a.value, b.value, 0, 0).0])
    else
      var c := Value(text[2]);
      if c.None? || c.value % 4 != 0 then None
      else
        var (x, y, _) := Join(a.value, b.value, c.value, 0);
        Some([x, y])
  }

  function Decode(text: string): Option<seq<byte>> {
    if |text| == 0 then Some([])
    else if |text| < 4 then None
    else if |text| == 4 && text[3] == '=' then DecodePadded(text)
    else
      var a, b, c, d := Value(text[0]), Value(text[1]), Value(text[2]), Value(text[3]);
      var rest := Decode(text[4..]);
      if a.None? || b.None? || c.None? || d.None? || rest.None? then None
      else
        var (x, y, z) := Join(a.value, b.value, c.value, d.value);
        Some([x, y, z] + rest.value)
  }

  lemma DecodeEncodePadded(bytes: seq<byte>)
    requires 1 <= |bytes| <= 2
    ensures Decode(Encode(bytes)) == Some(bytes)
  {
    var y := if |bytes| == 1 then 0 else bytes[1];
    var (a, b, c, _) := Split(bytes[0], y, 0);
    SymbolRoundTrip(a);
    SymbolRoundTrip(b);
    SymbolRoundTrip(c);
    JoinSplit(bytes[0], y, 0);
    assert bytes == if |bytes| == 1 then [bytes[0]] else [bytes[0], y];
  }

  lemma DecodeGroup(x: byte, y: byte, z: byte, text: string)
    requires Decode(text).Some?
    ensures var (a, b, c, d) := Split(x, y, z);
            Decode([Symbol(a), Symbol(b), Symbol(c), Symbol(d)] + text) == Some([x, y, z] + Decode(text).value)
  {
    var (a, b, c, d) := Split(x, y, z);
    SymbolRoundTrip(a);
    SymbolRoundTrip(b);
    SymbolRoundTrip(c);
    SymbolRoundTrip(d);
    JoinSplit(x, y, z);
    assert ([Symbol(a), Symbol(b), Symbol(c), Symbol(d)] + text)[4..] == text;
  }

  /** Decoding undoes encoding. */
  lemma {:induction false} DecodeEncode(bytes: seq<byte>)
    ensures Decode(Encode(bytes)) == Some(bytes)
  {
    if 1 <= |bytes| <= 2 {
      DecodeEncodePadded(bytes);
    } else if |bytes| >= 3 {
      DecodeEncode(bytes[3..]);
      DecodeGroup(bytes[0], bytes[1], bytes[2], Encode(bytes[3..]));
      assert bytes == [bytes[0], bytes[1], bytes[2]] + bytes[3..];
    }
  }

  lemma EncodeDecodePadded(text: string)
    requires |text| == 4 && text[3] == '=' && DecodePadded(text).Some?
    ensures Encode(DecodePadded(text).value) == text
  {
    ValueRoundTrip(text[0]);
    ValueRoundTrip(text[1]);
    var a, b := Value(text[0]).value, Value(text[1]).value;
    if text[2] == '=' {
      SplitJoin(a, b, 0, 0);
    } else {
      ValueRoundTrip(text[2]);
      SplitJoin(a, b, Value(text[2]).value, 0);
    }
  }

  lemma EncodeGroup(text: string, rest: seq<byte>)
    requires |text| >= 4 && Encode(rest) == text[4..]
    requires Value(text[0]).Some? && Value(text[1]).Some? && Value(text[2]).Some? && Value(text[3]).Some?
    ensures var (x, y, z) := Join(Value(text[0]).value, Value(text[1]).value, Value(text[2]).value, Value(text[3]).value);
            Encode([x, y, z] + rest) == text
  {
    ValueRoundTrip(text[0]);
    ValueRoundTrip(text[1]);
    ValueRoundTrip(text[2]);
    ValueRoundTrip(text[3]);
    SplitJoin(Value(text[0]).value, Value(text[1]).value, Value(text[2]).value, Value(text[3]).value);
    var (x, y, z) := Join(Value(text[0]).value, Value(text[1]).value, Value(text[2]).value, Value(text[3]).value);
    assert ([x, y, z] + rest)[3..] == rest;
    assert text == [text[0], text[1], text[2], text[3]] + text[4..];
  }

  /** Only the encoding of some bytes is accepted. */
  lemma {:induction false} EncodeDecode(text: string)
    requires Decode(text).Some?
    ensures Encode(Decode(text).value) == text
  {
    if |text| == 4 && text[3] == '=' {
      EncodeDecodePadded(text);
    } else if |text| != 0 {
      EncodeDecode(text[4..]);
      EncodeGroup(text, Decode(text[4..]).value);
    }
  }
}
