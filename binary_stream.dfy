/** The text of one falling binary stream (`createStream`, app.js:87-97).
 *
 *  Each stream shows 50 random bits, with a space after every eighth bit
 *  except after the last one.  `Math.random` is abstracted as the sequence
 *  of 50 bits it yields (`Math.floor(Math.random() * 2)`); everything else
 *  about the stream element (position, timing, removal) is not modelled.
 */
module BinaryStream {

  /** Number of bits per stream (app.js:93). */
  const StreamBits: nat := 50
  /** Length of the text: the bits plus one space per full group of eight
      that is not at the end. */
  const StreamLength: nat := 56

  type Bit = b: int | 0 <= b <= 1

  /** How JavaScript turns the number 0 or 1 into text when appending it. */
  function Digit(b: Bit): (c: char)
    ensures c == '0' || c == '1'
    ensures c == '1' <==> b == 1
  {
    if b == 0 then '0' else '1'
  }

  /** Reads a digit back. */
  function BitOf(c: char): Bit
  {
    if c == '1' then 1 else 0
  }

  /** `binaryText` after the first `i` iterations of the loop (app.js:92-96). */
  function StreamPrefix(bits: seq<Bit>, i: nat): (r: string)
    requires i <= |bits|
    ensures |r| == i + (if i < StreamBits then i / 8 else 6)
    decreases i
  {
    if i == 0 then ""
    else
      var k := i - 1;
      StreamPrefix(bits, k) + [Digit(bits[k])] + (if k % 8 == 7 && k < StreamBits - 1 then " " else "")
  }

  /** `binaryText` when the loop is done. */
  function StreamText(bits: seq<Bit>): (r: string)
    requires |bits| == StreamBits
    ensures |r| == StreamLength
  {
    StreamPrefix(bits, StreamBits)
  }

  /** The digits of `bits`, with no separators. */
  function Digits(bits: seq<Bit>): (s: string)
    ensures |s| == |bits|
    ensures forall k :: 0 <= k < |bits| ==> s[k] == Digit(bits[k])
  {
    seq(|bits|, k requires 0 <= k < |bits| => Digit(bits[k]))
  }

  /** The bits a string of digits spells. */
  function ReadBits(s: string): (bits: seq<Bit>)
    ensures |bits| == |s|
  {
    seq(|s|, k requires 0 <= k < |s| => BitOf(s[k]))
  }

  /** The string with every space deleted. */
  function RemoveSpaces(s: string): (r: string)
    ensures |r| <= |s|
    ensures ' ' !in r
  {
    if s == [] then []
    else (if s[0] == ' ' then [] else [s[0]]) + RemoveSpaces(s[1..])
  }

  /** Every ninth character (0-based positions 8, 17, 26, ...) is a space and
      every other character is the digit of bit `j - j / 9`. */
  ghost predicate LaidOut(bits: seq<Bit>, t: string)
  {
    forall j :: 0 <= j < |t| ==>
      if j % 9 == 8 then t[j] == ' '
      else j - j / 9 < |bits| && t[j] == Digit(bits[j - j / 9])
  }

  /** Writing `m = 8q + r` with `r < 8`, the `m`-th bit sits at position
      `9q + r`, the space that may follow it at `9q + 8`. */
  lemma DigitPosition(m: nat)
    ensures (m + m / 8) % 9 == m % 8
    ensures (m + m / 8) / 9 == m / 8
    ensures (m + m / 8 + 1) % 9 == 8 <==> m % 8 == 7
  {
    var q, r := m / 8, m % 8;
    assert m + q == 9 * q + r;
  }

  /** After `i` iterations the text has `i` digits and `i / 8` spaces (6 at
      the end: the space after the 48th bit is the last one) and is laid out
      as `LaidOut` says. */
  lemma {:induction false} PrefixLayout(bits: seq<Bit>, i: nat)
    requires |bits| == StreamBits && i <= StreamBits
    ensures |StreamPrefix(bits, i)| == i + (if i < StreamBits then i / 8 else 6)
    ensures LaidOut(bits, StreamPrefix(bits, i))
    decreases i
  {
    if i > 0 {
      var k := i - 1;
      PrefixLayout(bits, k);
      DigitPosition(k);
      var t := StreamPrefix(bits, k);
      var t' := StreamPrefix(bits, i);
      assert |t| == k + k / 8;
      forall j | 0 <= j < |t'|
        ensures if j % 9 == 8 then t'[j] == ' '
                else j - j / 9 < |bits| && t'[j] == Digit(bits[j - j / 9])
      {
        if j < |t| {
          assert t'[j] == t[j];
        } else if j == |t| {
          assert t'[j] == Digit(bits[k]);
        } else {
          assert j == |t| + 1 && t'[j] == ' ';
        }
      }
    }
  }

  /** Deleting spaces distributes over concatenation. */
  lemma {:induction false} RemoveSpacesAppend(a: string, b: string)
    ensures RemoveSpaces(a + b) == RemoveSpaces(a) + RemoveSpaces(b)
    decreases |a|
  {
    if a != [] {
      assert (a + b)[1..] == a[1..] + b;
      RemoveSpacesAppend(a[1..], b);
    } else {
      assert a + b == b;
    }
  }

  /** Deleting the spaces of the first `i` iterations' text leaves the
      digits of the first `i` bits. */
  lemma {:induction false} PrefixDigits(bits: seq<Bit>, i: nat)
    requires i <= |bits|
    ensures RemoveSpaces(StreamPrefix(bits, i)) == Digits(bits[..i])
    decreases i
  {
    if i > 0 {
      var k := i - 1;
      PrefixDigits(bits, k);
      var t, d := StreamPrefix(bits, k), [Digit(bits[k])];
      var sep := if k % 8 == 7 && k < StreamBits - 1 then " " else "";
      assert StreamPrefix(bits, i) == t + d + sep;
      RemoveSpacesAppend(t, d);
      RemoveSpacesAppend(t + d, sep);
      assert RemoveSpaces(sep) == [];
      assert RemoveSpaces(d) == d;
      DigitsAppend(bits, k);
    }
  }

  /** The digits of one more bit. */
  lemma DigitsAppend(bits: seq<Bit>, k: nat)
    requires k < |bits|
    ensures Digits(bits[..k + 1]) == Digits(bits[..k]) + [Digit(bits[k])]
  {
  }

  /** Reading the digits back gives the bits. */
  lemma ReadDigits(bits: seq<Bit>)
    ensures ReadBits(Digits(bits)) == bits
  {
  }

  /** Below 56, the positions that are 8 modulo 9 are 8, 17, 26, 35, 44, 53. */
  lemma SpacePosition(j: nat)
    requires j < StreamLength
    ensures j % 9 == 8 <==> j in {8, 17, 26, 35, 44, 53}
  {
    var q := j / 9;
    assert j == 9 * q + j % 9;
    assert q <= 6;
  }

  /** The stream text for any 50 bits: 56 characters; a space at exactly the
      positions 8, 17, 26, 35, 44 and 53, so 6 spaces, none first or last;
      and deleting the spaces gives back the bits in order (app.js:92-96). */
  lemma StreamLayout(bits: seq<Bit>)
    requires |bits| == StreamBits
    ensures |StreamText(bits)| == StreamLength
    ensures forall j :: 0 <= j < StreamLength ==>
      (StreamText(bits)[j] == ' ' <==> j in {8, 17, 26, 35, 44, 53})
    ensures StreamText(bits)[0] != ' ' && StreamText(bits)[StreamLength - 1] != ' '
    ensures |StreamText(bits)| - |RemoveSpaces(StreamText(bits))| == 6
    ensures ReadBits(RemoveSpaces(StreamText(bits))) == bits
  {
    var t := StreamText(bits);
    PrefixLayout(bits, StreamBits);
    forall j | 0 <= j < StreamLength
      ensures t[j] == ' ' <==> j in {8, 17, 26, 35, 44, 53}
    {
      SpacePosition(j);
    }
    PrefixDigits(bits, StreamBits);
    assert bits[..StreamBits] == bits;
    ReadDigits(bits);
  }

  /** `createStream`'s loop (app.js:92-96): one digit per bit, and a space
      after every bit whose index is 7 modulo 8 and below 49. */
  method CreateStreamText(bits: seq<Bit>) returns (binaryText: string)
    requires |bits| == StreamBits
    ensures binaryText == StreamText(bits)
    ensures |binaryText| == StreamLength
    ensures ReadBits(RemoveSpaces(binaryText)) == bits
  {
    binaryText := "";
    for i := 0 to StreamBits
      invariant binaryText == StreamPrefix(bits, i)
    {
      binaryText := binaryText + [Digit(bits[i])];
      if i % 8 == 7 && i < 49 {
        binaryText := binaryText + " ";
      }
    }
    StreamLayout(bits);
  }
}
