/**
 The coding of section 4 of RFC 4648, character by character.
 */
module Base64Law {
  import opened Common
  import opened Base64

  // The alphabet in four rows.
  const ALPHABET: seq<string> := ["ABCDEFGHIJKLMNOP", "QRSTUVWXYZabcdef", "ghijklmnopqrstuv", "wxyz0123456789+/"]

  function Letter(n: nat): char
    requires n < 64
  {
    var row := ALPHABET[n / 16];
    row[n % 16]
  }

  lemma LetterIs(n: nat)
    requires n < 64
    ensures Digit(n) == Letter(n)
  {
    var k := n % 16;
    if n < 16 {
      assert "ABCDEFGHIJKLMNOP"[k] == Digit(k);
    } else if n < 32 {
      assert "QRSTUVWXYZabcdef"[k] == Digit(16 + k);
    } else if n < 48 {
      assert "ghijklmnopqrstuv"[k] == Digit(32 + k);
    } else {
      assert "wxyz0123456789+/"[k] == Digit(48 + k);
    }
  }

  // The byte at `i`, or zero bits behind the end.
  function ByteOr0(s: seq<Byte>, i: nat): Byte {
    if i < |s| then s[i] else 0
  }

  // The `r`-th six bits of three bytes.
  function SixBits(a: Byte, b: Byte, c: Byte, r: nat): (n: nat)
    requires r < 4
    ensures n < 64
  {
    if r == 0 then a / 4 else if r == 1 then a % 4 * 16 + b / 16 else if r == 2 then b % 16 * 4 + c / 64 else c % 64
  }

  // Character `k` of the text: six bits of the bytes, from the left, or padding where there are none.
  function CharacterAt(s: seq<Byte>, k: nat): char {
    var g, r := k / 4 * 3, k % 4;
    if r >= 2 && g + r - 1 >= |s| then '=' else Letter(SixBits(ByteOr0(s, g), ByteOr0(s, g + 1), ByteOr0(s, g + 2), r))
  }

  lemma GroupLetters(a: Byte, b: Byte, c: Byte, r: nat)
    requires r < 4
    ensures Group(a, b, c)[r] == Letter(SixBits(a, b, c, r))
  {
    LetterIs(SixBits(a, b, c, r));
  }

  lemma OneByte(s: seq<Byte>, k: nat)
    requires |s| == 1 && k < 4
    ensures Encode(s)[k] == CharacterAt(s, k)
  {
    LetterIs(s[0] / 4);
    LetterIs(s[0] % 4 * 16);
  }

  lemma TwoBytes(s: seq<Byte>, k: nat)
    requires |s| == 2 && k < 4
    ensures Encode(s)[k] == CharacterAt(s, k)
  {
    LetterIs(s[0] / 4);
    LetterIs(s[0] % 4 * 16 + s[1] / 16);
    LetterIs(s[1] % 16 * 4);
  }

  lemma ThreeBytes(s: seq<Byte>, k: nat)
    requires |s| >= 3 && k < 4
    ensures |Encode(s)| >= 4 && Encode(s)[k] == CharacterAt(s, k)
  {
    GroupLetters(s[0], s[1], s[2], k);
  }

  lemma NextGroup(s: seq<Byte>, k: nat)
    requires |s| >= 3 && k >= 4
    ensures CharacterAt(s, k) == CharacterAt(s[3..], k - 4)
  {
    assert (k - 4) / 4 == k / 4 - 1 && (k - 4) % 4 == k % 4;
  }

  lemma EncodeNext(s: seq<Byte>, k: nat)
    requires |s| >= 3 && 4 <= k < |Encode(s)|
    ensures |Encode(s[3..])| == |Encode(s)| - 4 && Encode(s)[k] == Encode(s[3..])[k - 4]
  {
  }

  // Every character of the coding is the alphabet's character for its six bits.
  lemma {:induction false} EncodeLaw(s: seq<Byte>, k: nat)
    requires k < |Encode(s)|
    ensures Encode(s)[k] == CharacterAt(s, k)
    decreases |s|
  {
    if |s| == 1 {
      OneByte(s, k);
    } else if |s| == 2 {
      TwoBytes(s, k);
    } else if k < 4 {
      ThreeBytes(s, k);
    } else {
      EncodeNext(s, k);
      EncodeLaw(s[3..], k - 4);
      NextGroup(s, k);
    }
  }
}
