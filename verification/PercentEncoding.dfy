/** Percent-encoding of query values, as in sections 2.1 and 2.3 of RFC 3986. */
module PercentEncoding {
  import opened MachineInts
  import opened Wrappers

  predicate IsUnreserved(b: int) {
    || 'a' as int <= b <= 'z' as int || 'A' as int <= b <= 'Z' as int || '0' as int <= b <= '9' as int
    || b == '-' as int || b == '_' as int || b == '.' as int || b == '~' as int
  }

  function HexDigit(n: nat): char
    requires n < 16
  {
    if n < 10 then '0' + n as char else 'A' + (n - 10) as char
  }

  function EncodeByte(b: Byte): string {
    if IsUnreserved(b) then [b as char] else ['%', HexDigit(b / 16), HexDigit(b % 16)]
  }

  function Encode(raw: seq<Byte>): string {
    if raw == [] then "" else Encode(raw[..|raw| - 1]) + EncodeByte(raw[|raw| - 1])
  }

  /** The encoder appends byte by byte. */
  method PercentEncodeComponent(raw: seq<Byte>) returns (out: string)
    ensures out == Encode(raw)
  {
    out := "";
    for i := 0 to |raw|
      invariant out == Encode(raw[..i])
    {
      var byte := raw[i];
      if IsUnreserved(byte) {
        out := out + [byte as char];
      } else {
        out := out + ['%', HexDigit(byte / 16), HexDigit(byte % 16)];
      }
      assert raw[..i + 1][..i] == raw[..i];
    }
    assert raw[..|raw|] == raw;
  }

  function HexValue(c: char): Option<nat> {
    if '0' <= c <= '9' then Some((c - '0') as nat)
    else if 'A' <= c <= 'F' then Some((c - 'A') as nat + 10)
    else if 'a' <= c <= 'f' then Some((c - 'a') as nat + 10)
    else None
  }

  /** The standard's decoder: triples stand for their octet, other characters for themselves. */
  function Decode(text: string): Option<seq<Byte>> {
    if text == "" then Some([])
    else if text[0] == '%' then
      if |text| < 3 then None
      else
        var high, low, rest := HexValue(text[1]), HexValue(text[2]), Decode(text[3..]);
        if high.None? || low.None? || rest.None? then None else Some([high.value * 16 + low.value] + rest.value)
    else
      var rest := Decode(text[1..]);
      if rest.None? || text[0] as int >= 256 then None else Some([text[0] as int] + rest.value)
  }

  lemma HexReadsBack(n: nat)
    requires n < 16
    ensures HexValue(HexDigit(n)) == Some(n)
  {
  }

  lemma {:induction false} EncodeStartsWithFirst(raw: seq<Byte>)
    requires raw != []
    ensures Encode(raw) == EncodeByte(raw[0]) + Encode(raw[1..])
  {
    var init, tail, last := raw[..|raw| - 1], raw[1..], raw[|raw| - 1];
    EncodeEndsWithLast(raw);
    if init == [] {
      assert tail == [] && last == raw[0];
    } else {
      EncodeStartsWithFirst(init);
      EncodeEndsWithLast(tail);
      assert tail[..|tail| - 1] == init[1..] && tail[|tail| - 1] == last && init[0] == raw[0];
      Reassociate(EncodeByte(raw[0]), Encode(init[1..]), EncodeByte(last));
    }
  }

  lemma Reassociate(a: string, b: string, c: string)
    ensures a + b + c == a + (b + c)
  {
  }

  lemma EncodeEndsWithLast(raw: seq<Byte>)
    requires raw != []
    ensures Encode(raw) == Encode(raw[..|raw| - 1]) + EncodeByte(raw[|raw| - 1])
  {
  }

  lemma DecodeTakesOneByte(b: Byte, tail: string)
    requires Decode(tail).Some?
    ensures Decode(EncodeByte(b) + tail) == Some([b] + Decode(tail).value)
  {
    var text := EncodeByte(b) + tail;
    if IsUnreserved(b) {
      assert text[0] == b as char && text[1..] == tail;
    } else {
      HexReadsBack(b / 16);
      HexReadsBack(b % 16);
      assert text[0] == '%' && text[1] == HexDigit(b / 16) && text[2] == HexDigit(b % 16) && text[3..] == tail;
    }
  }

  /** Decoding returns the bytes that were encoded. */
  lemma {:induction false} DecodeUndoesEncode(raw: seq<Byte>)
    ensures Decode(Encode(raw)) == Some(raw)
  {
    if raw != [] {
      EncodeStartsWithFirst(raw);
      DecodeUndoesEncode(raw[1..]);
      DecodeTakesOneByte(raw[0], Encode(raw[1..]));
      assert raw == [raw[0]] + raw[1..];
    }
  }

  /** No two byte strings are encoded alike. */
  lemma EncodeIsInjective(a: seq<Byte>, b: seq<Byte>)
    requires Encode(a) == Encode(b)
    ensures a == b
  {
    DecodeUndoesEncode(a);
    DecodeUndoesEncode(b);
  }

  /** Only unreserved characters and triples of a percent sign and two upper-case digits. */
  predicate IsEscaped(text: string) {
    if text == "" then true
    else if text[0] == '%' then
      && |text| >= 3 && IsUpperHex(text[1]) && IsUpperHex(text[2]) && IsEscaped(text[3..])
    else IsUnreserved(text[0] as int) && IsEscaped(text[1..])
  }

  predicate IsUpperHex(c: char) {
    '0' <= c <= '9' || 'A' <= c <= 'F'
  }

  lemma {:induction false} EncodeEscapes(raw: seq<Byte>)
    ensures IsEscaped(Encode(raw))
  {
    if raw != [] {
      EncodeStartsWithFirst(raw);
      EncodeEscapes(raw[1..]);
      if IsUnreserved(raw[0]) {
        assert Encode(raw)[1..] == Encode(raw[1..]);
      } else {
        assert Encode(raw)[3..] == Encode(raw[1..]);
      }
    }
  }

  /** No triple stands for an unreserved character. */
  predicate IsShort(text: string)
    requires IsEscaped(text)
  {
    if text == "" then true
    else if text[0] == '%' then
      !IsUnreserved(HexValue(text[1]).value * 16 + HexValue(text[2]).value) && IsShort(text[3..])
    else IsShort(text[1..])
  }

  lemma TripleReadsBack(high: char, low: char)
    requires IsUpperHex(high) && IsUpperHex(low)
    ensures var b := HexValue(high).value * 16 + HexValue(low).value;
            && b < 256 && HexDigit(b / 16) == high && HexDigit(b % 16) == low
  {
  }

  lemma TripleIsEncoding(text: string)
    requires IsEscaped(text) && IsShort(text) && text != "" && text[0] == '%' && Decode(text[3..]).Some?
    ensures exists b: Byte :: EncodeByte(b) == text[..3] && Decode(text) == Some([b] + Decode(text[3..]).value)
  {
    TripleReadsBack(text[1], text[2]);
    var b: Byte := HexValue(text[1]).value * 16 + HexValue(text[2]).value;
    assert EncodeByte(b) == text[..3];
    DecodeTakesOneByte(b, text[3..]);
    assert EncodeByte(b) + text[3..] == text;
  }

  lemma UnreservedIsEncoding(text: string)
    requires IsEscaped(text) && text != "" && text[0] != '%' && Decode(text[1..]).Some?
    ensures exists b: Byte :: EncodeByte(b) == text[..1] && Decode(text) == Some([b] + Decode(text[1..]).value)
  {
    var b: Byte := text[0] as int;
    assert EncodeByte(b) == text[..1];
    DecodeTakesOneByte(b, text[1..]);
    assert EncodeByte(b) + text[1..] == text;
  }

  /** An escaped text that spells no unreserved character as a triple is the encoding of what it decodes to. */
  lemma {:induction false} EncodeUndoesDecode(text: string)
    requires IsEscaped(text) && IsShort(text)
    ensures Decode(text).Some? && Encode(Decode(text).value) == text
  {
    if text != "" {
      var step := if text[0] == '%' then 3 else 1;
      EncodeUndoesDecode(text[step..]);
      if text[0] == '%' {
        TripleIsEncoding(text);
      } else {
        UnreservedIsEncoding(text);
      }
      var rest := Decode(text[step..]).value;
      var b: Byte :| EncodeByte(b) == text[..step] && Decode(text) == Some([b] + rest);
      EncodeStartsWithFirst([b] + rest);
      assert ([b] + rest)[1..] == rest;
    }
  }
}
