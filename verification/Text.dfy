/** String comparison: code point by code point, a proper prefix first. */
module Text {
  import opened Prelude

  function Compare(a: string, b: string): Ordering {
    if a == [] && b == [] then Equal
    else if a == [] then Less
    else if b == [] then Greater
    else if a[0] < b[0] then Less
    else if b[0] < a[0] then Greater
    else Compare(a[1..], b[1..])
  }

  predicate AtMost(a: string, b: string) { Compare(a, b) != Greater }

  lemma {:induction false} CompareEqual(a: string, b: string)
    ensures Compare(a, b) == Equal <==> a == b
  {
    if a != [] && b != [] && a[0] == b[0] {
      CompareEqual(a[1..], b[1..]);
      assert a == [a[0]] + a[1..] && b == [b[0]] + b[1..];
    }
  }

  lemma {:induction false} CompareFlip(a: string, b: string)
    ensures Compare(b, a) == Compare(a, b).Reverse()
  {
    if a != [] && b != [] && a[0] == b[0] {
      CompareFlip(a[1..], b[1..]);
    }
  }

  lemma {:induction false} CompareTransitive(a: string, b: string, c: string)
    requires Compare(a, b) == Less && Compare(b, c) == Less
    ensures Compare(a, c) == Less
  {
    if a != [] && c != [] && a[0] == b[0] == c[0] {
      CompareTransitive(a[1..], b[1..], c[1..]);
    }
  }

  /** String order is total, so sorted ids and sorted keys can be searched. */
  lemma AtMostTotal()
    ensures forall a, b :: AtMost(a, b) || AtMost(b, a)
    ensures forall a, b, c :: AtMost(a, b) && AtMost(b, c) ==> AtMost(a, c)
    ensures forall a, b :: AtMost(a, b) && AtMost(b, a) ==> a == b
  {
    forall a, b
      ensures AtMost(a, b) || AtMost(b, a)
      ensures AtMost(a, b) && AtMost(b, a) ==> a == b
    {
      CompareFlip(a, b);
      CompareEqual(a, b);
    }
    forall a, b, c | AtMost(a, b) && AtMost(b, c)
      ensures AtMost(a, c)
    {
      CompareEqual(a, b);
      CompareEqual(b, c);
      if Compare(a, b) == Less && Compare(b, c) == Less {
        CompareTransitive(a, b, c);
      }
    }
  }

  type Byte = b: int | 0 <= b < 256

  /** The UTF-8 bytes of a string (RFC 3629, section 3). */
  function Bytes(s: string): (r: seq<Byte>)
    ensures |r| >= |s|
  {
    if s == [] then [] else EncodeChar(s[0] as int) + Bytes(s[1..])
  }

  function EncodeChar(c: int): (r: seq<Byte>)
    requires 0 <= c < 0x110000
    ensures 1 <= |r| <= 4
    ensures c < 0x80 <==> r == [c]
  {
    if c < 0x80 then [c]
    else if c < 0x800 then [0xC0 + c / 0x40, 0x80 + c % 0x40]
    else if c < 0x10000 then [0xE0 + c / 0x1000, 0x80 + c / 0x40 % 0x40, 0x80 + c % 0x40]
    else [0xF0 + c / 0x40000, 0x80 + c / 0x1000 % 0x40, 0x80 + c / 0x40 % 0x40, 0x80 + c % 0x40]
  }

  /** A byte that continues a character. */
  predicate IsTail(b: Byte) { 0x80 <= b < 0xC0 }

  function Payload(b: Byte, marker: int): int { b - marker }

  /** One to four bytes by the size of the code point, which the payload bits of the bytes spell. */
  lemma EncodedChar(c: int)
    requires 0 <= c < 0x110000
    ensures var r := EncodeChar(c);
      match |r|
      case 1 => c < 0x80 && r[0] == c
      case 2 =>
        && 0x80 <= c < 0x800 && 0xC0 <= r[0] < 0xE0 && IsTail(r[1])
        && c == Payload(r[0], 0xC0) * 0x40 + Payload(r[1], 0x80)
      case 3 =>
        && 0x800 <= c < 0x10000 && 0xE0 <= r[0] < 0xF0 && IsTail(r[1]) && IsTail(r[2])
        && c == (Payload(r[0], 0xE0) * 0x40 + Payload(r[1], 0x80)) * 0x40 + Payload(r[2], 0x80)
      case _ =>
        && 0x10000 <= c && 0xF0 <= r[0] < 0xF8 && IsTail(r[1]) && IsTail(r[2]) && IsTail(r[3])
        && c == ((Payload(r[0], 0xF0) * 0x40 + Payload(r[1], 0x80)) * 0x40 + Payload(r[2], 0x80)) * 0x40
          + Payload(r[3], 0x80)
  {
    var q := c / 0x40;
    var p := q / 0x40;
    assert p == c / 0x1000 && p / 0x40 == c / 0x40000;
    assert c == q * 0x40 + c % 0x40 && q == p * 0x40 + q % 0x40 && p == p / 0x40 * 0x40 + p % 0x40;
  }
}
