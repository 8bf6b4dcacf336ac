/**
 Base64 encoding by a bit accumulator that wraps to 32 bits, against the three-byte groups
 of section 4 of RFC 4648.
 */
module Base64 {
  import opened Common

  /* ---------- The alphabet ---------- */

  function Digit(n: nat): char
    requires n < 64
  {
    if n < 26 then ('A' as int + n) as char
    else if n < 52 then ('a' as int + n - 26) as char
    else if n < 62 then ('0' as int + n - 52) as char
    else if n == 62 then '+' else '/'
  }

  function Value(c: char): (n: nat)
    ensures n < 64
  {
    if 'A' <= c <= 'Z' then c as int - 'A' as int
    else if 'a' <= c <= 'z' then c as int - 'a' as int + 26
    else if '0' <= c <= '9' then c as int - '0' as int + 52
    else if c == '+' then 62 else if c == '/' then 63 else 0
  }

  lemma ValueOfDigit(n: nat)
    requires n < 64
    ensures Value(Digit(n)) == n && Digit(n) != '='
  {
  }

  /* ---------- Groups of three bytes ---------- */

  // The digits that the first bytes of a group determine.
  function Partial(g: seq<Byte>): string
    requires |g| <= 2
  {
    if |g| == 0 then ""
    else if |g| == 1 then [Digit(g[0] / 4)]
    else [Digit(g[0] / 4), Digit(g[0] % 4 * 16 + g[1] / 16)]
  }

  function Group(a: Byte, b: Byte, c: Byte): string {
    [Digit(a / 4), Digit(a % 4 * 16 + b / 16), Digit(b % 16 * 4 + c / 64), Digit(c % 64)]
  }

  function Encode(s: seq<Byte>): string {
    if |s| == 0 then ""
    else if |s| == 1 then [Digit(s[0] / 4), Digit(s[0] % 4 * 16), '=', '=']
    else if |s| == 2 then [Digit(s[0] / 4), Digit(s[0] % 4 * 16 + s[1] / 16), Digit(s[1] % 16 * 4), '=']
    else Group(s[0], s[1], s[2]) + Encode(s[3..])
  }

  function Decode(t: string): seq<Byte> {
    if |t| < 4 then [] else
    var a, b, c, d := Value(t[0]), Value(t[1]), Value(t[2]), Value(t[3]);
    var first := [a * 4 + b / 16];
    var second := if t[2] == '=' then [] else [b % 16 * 16 + c / 4];
    var third := if t[3] == '=' then [] else [c % 4 * 64 + d];
    first + second + third + Decode(t[4..])
  }

  lemma {:induction false} EncodedLength(s: seq<Byte>)
    ensures |Encode(s)| == (|s| + 2) / 3 * 4
    decreases |s|
  {
    if |s| >= 3 {
      EncodedLength(s[3..]);
      var n := |s|;
      assert (n + 2) / 3 == (n - 3 + 2) / 3 + 1;
    }
  }

  lemma {:induction false} DecodeEncode(s: seq<Byte>)
    ensures Decode(Encode(s)) == s
  {
    if |s| == 1 {
      DecodeOne(s);
    } else if |s| == 2 {
      DecodeTwo(s);
    } else if |s| >= 3 {
      DecodeEncode(s[3..]);
      DecodeGroup(s[0], s[1], s[2], Encode(s[3..]));
      assert [s[0], s[1], s[2]] + s[3..] == s;
    }
  }

  lemma DecodeOne(s: seq<Byte>)
    requires |s| == 1
    ensures Decode(Encode(s)) == s
  {
    var x := s[0];
    Recombine(x, 0, 0);
    DecodePadded(x / 4, x % 4 * 16, x);
  }

  lemma DecodeTwo(s: seq<Byte>)
    requires |s| == 2
    ensures Decode(Encode(s)) == s
  {
    EncodeTwo(s);
    DecodeTwoBytes(s[0], s[1]);
    assert s == [s[0], s[1]];
  }

  lemma EncodeTwo(s: seq<Byte>)
    requires |s| == 2
    ensures Encode(s) == [Digit(s[0] / 4), Digit(s[0] % 4 * 16 + s[1] / 16), Digit(s[1] % 16 * 4), '=']
  {
  }

  lemma DecodeTwoBytes(x: Byte, y: Byte)
    ensures Decode([Digit(x / 4), Digit(x % 4 * 16 + y / 16), Digit(y % 16 * 4), '=']) == [x, y]
  {
    RecombineTwo(x, y);
    DecodeHalfPadded(x / 4, x % 4 * 16 + y / 16, y % 16 * 4, x, y);
  }

  lemma RecombineTwo(x: Byte, y: Byte)
    ensures x / 4 * 4 + (x % 4 * 16 + y / 16) / 16 == x
    ensures (x % 4 * 16 + y / 16) % 16 * 16 + y % 16 * 4 / 4 == y
  {
  }

  lemma DecodePadded(a: nat, b: nat, x: Byte)
    requires a < 64 && b < 64 && x == a * 4 + b / 16
    ensures Decode([Digit(a), Digit(b), '=', '=']) == [x]
  {
    ValueOfDigit(a);
    ValueOfDigit(b);
    assert [Digit(a), Digit(b), '=', '='][4..] == "";
  }

  lemma DecodeHalfPadded(a: nat, b: nat, c: nat, x: Byte, y: Byte)
    requires a < 64 && b < 64 && c < 64 && x == a * 4 + b / 16 && y == b % 16 * 16 + c / 4
    ensures Decode([Digit(a), Digit(b), Digit(c), '=']) == [x, y]
  {
    ValueOfDigit(a);
    ValueOfDigit(b);
    ValueOfDigit(c);
    assert [Digit(a), Digit(b), Digit(c), '='][4..] == "";
  }

  lemma Recombine(a: Byte, b: Byte, c: Byte)
    ensures a / 4 * 4 + (a % 4 * 16 + b / 16) / 16 == a
    ensures (a % 4 * 16 + b / 16) % 16 * 16 + (b % 16 * 4 + c / 64) / 4 == b
    ensures (b % 16 * 4 + c / 64) % 4 * 64 + c % 64 == c
  {
  }

  lemma DecodeFour(t: string, a: nat, b: nat, c: nat, d: nat)
    requires a < 64 && b < 64 && c < 64 && d < 64
    ensures Decode([Digit(a), Digit(b), Digit(c), Digit(d)] + t)
            == [a * 4 + b / 16, b % 16 * 16 + c / 4, c % 4 * 64 + d] + Decode(t)
  {
    ValueOfDigit(a);
    ValueOfDigit(b);
    ValueOfDigit(c);
    ValueOfDigit(d);
    var u := [Digit(a), Digit(b), Digit(c), Digit(d)] + t;
    assert u[4..] == t;
    assert [a * 4 + b / 16] + [b % 16 * 16 + c / 4] + [c % 4 * 64 + d]
        == [a * 4 + b / 16, b % 16 * 16 + c / 4, c % 4 * 64 + d];
  }

  lemma DecodeGroup(a: Byte, b: Byte, c: Byte, tail: string)
    ensures Decode(Group(a, b, c) + tail) == [a, b, c] + Decode(tail)
  {
    var p, q, r, t := a / 4, a % 4 * 16 + b / 16, b % 16 * 4 + c / 64, c % 64;
    DecodeFour(tail, p, q, r, t);
    assert [p * 4 + q / 16, q % 16 * 16 + r / 4, r % 4 * 64 + t] == [a, b, c] by {
      Recombine(a, b, c);
    }
  }

  /* ---------- The accumulator ---------- */

  const WORD := 0x1_0000_0000

  // The low six bits of `val` shifted right by `shift`.
  function Sextet(val: nat, shift: nat): (d: nat)
    ensures d < 64
  {
    val / Pow2(shift) % 64
  }

  // The digits that the inner loop of the source appends.
  function Pushed(val: nat, valb: int): string
    decreases valb + 6
  {
    if valb < 0 then "" else [Digit(Sextet(val, valb))] + Pushed(val, valb - 6)
  }

  lemma Mod1024(w: int, k: int, r: int)
    requires w == 1024 * k + r && 0 <= r < 1024
    ensures w % 1024 == r
  {
  }

  lemma Mod4096(w: int, k: int, r: int)
    requires w == 4096 * k + r && 0 <= r < 4096
    ensures w % 4096 == r
  {
  }

  // What remains of the low bits when a byte is shifted in and the accumulator wraps.
  lemma ShiftIn(val: nat, c: Byte)
    ensures var w := (val * 256 + c) % WORD;
            w % 1024 == val % 4 * 256 + c && w % 4096 == val % 16 * 256 + c
  {
    var q := (val * 256 + c) / WORD;
    var w := val * 256 + c - q * WORD;
    assert w == (val * 256 + c) % WORD;
    Mod1024(w, val / 4 - q * 0x40_0000, val % 4 * 256 + c);
    Mod4096(w, val / 16 - q * 0x10_0000, val % 16 * 256 + c);
  }

  lemma LowByte(w: nat, hi: nat, c: Byte)
    requires w % 1024 == hi * 256 + c
    ensures w % 256 == c && w % 64 == c % 64 && w % 16 == c % 16 && w % 4 == c % 4
  {
  }

  lemma Sextet0(w: nat)
    ensures Sextet(w, 0) == w % 64
  {
  }

  lemma Sextet2(w: nat)
    ensures Sextet(w, 2) == w % 256 / 4
  {
    assert Pow2(1) == 2 && Pow2(2) == 4;
  }

  lemma Sextet4(w: nat)
    ensures Sextet(w, 4) == w % 1024 / 16
  {
    assert Pow2(2) == 4 && Pow2(3) == 8 && Pow2(4) == 16;
  }

  lemma Sextet6(w: nat)
    ensures Sextet(w, 6) == w % 4096 / 64
  {
    assert Pow2(2) == 4 && Pow2(4) == 16 && Pow2(5) == 32 && Pow2(6) == 64;
  }

  lemma PushOne(w: nat, valb: nat)
    requires valb < 6
    ensures Pushed(w, valb) == [Digit(Sextet(w, valb))]
  {
    assert Pushed(w, valb - 6) == "";
  }

  lemma HighPart(h: nat, c: Byte)
    ensures (h * 256 + c) / 16 == h * 16 + c / 16 && (h * 256 + c) / 64 == h * 4 + c / 64
  {
  }

  // The digits pushed for the first, second and third byte of a group.
  lemma PushedFirst(val: nat, c: Byte)
    ensures Pushed((val * 256 + c) % WORD, 2) == [Digit(c / 4)]
  {
    var w := (val * 256 + c) % WORD;
    ShiftIn(val, c);
    LowByte(w, val % 4, c);
    PushOne(w, 2);
    Sextet2(w);
  }

  lemma PushedSecond(val: nat, c: Byte)
    ensures Pushed((val * 256 + c) % WORD, 4) == [Digit(val % 4 * 16 + c / 16)]
  {
    var w := (val * 256 + c) % WORD;
    ShiftIn(val, c);
    PushOne(w, 4);
    Sextet4(w);
    HighPart(val % 4, c);
  }

  lemma PushedThird(val: nat, c: Byte)
    ensures Pushed((val * 256 + c) % WORD, 6) == [Digit(val % 16 * 4 + c / 64), Digit(c % 64)]
  {
    var w := (val * 256 + c) % WORD;
    ShiftIn(val, c);
    LowByte(w, val % 4, c);
    PushOne(w, 0);
    Sextet6(w);
    Sextet0(w);
    HighPart(val % 16, c);
  }

  // The digit for the bits left over at the end.
  lemma LastDigit(val: nat)
    ensures Sextet(val * 256 % WORD, 4) == val % 4 * 16 && Sextet(val * 256 % WORD, 6) == val % 16 * 4
  {
    ShiftIn(val, 0);
    Sextet4(val * 256 % WORD);
    Sextet6(val * 256 % WORD);
    HighPart(val % 4, 0);
    HighPart(val % 16, 0);
  }

  // The state between two bytes: `g` is the unfinished group.
  ghost predicate Between(g: seq<Byte>, val: nat, valb: int) {
    && |g| <= 2 && valb == 2 * |g| - 6
    && (|g| == 1 ==> val % 4 == g[0] % 4)
    && (|g| == 2 ==> val % 16 == g[1] % 16)
  }

  function Shifted(val: nat, c: Byte): nat {
    (val * 256 + c) % WORD
  }

  lemma NextByte(g: seq<Byte>, val: nat, valb: int, c: Byte)
    requires Between(g, val, valb)
    ensures |g| < 2 ==> Partial(g) + Pushed(Shifted(val, c), valb + 8) == Partial(g + [c])
    ensures |g| < 2 ==> Between(g + [c], Shifted(val, c), valb + 2)
    ensures |g| == 2 ==> Partial(g) + Pushed(Shifted(val, c), valb + 8) == Group(g[0], g[1], c)
  {
    ShiftIn(val, c);
    LowByte(Shifted(val, c), val % 4, c);
    if |g| == 0 {
      PushedFirst(val, c);
    } else if |g| == 1 {
      PushedSecond(val, c);
    } else {
      PushedThird(val, c);
    }
  }

  // The inner loop of the source: six bits at a time while there are enough.
  method Push(before: string, val: nat, valb0: int) returns (out: string, valb: int)
    requires 0 <= valb0 <= 6
    ensures out == before + Pushed(val, valb0)
    ensures valb == if valb0 == 6 then -6 else valb0 - 6
  {
    out, valb := before, valb0;
    while valb >= 0
      invariant valb == valb0 || valb == valb0 - 6 || valb == valb0 - 12
      invariant -6 <= valb && (valb == valb0 - 12 ==> valb0 == 6)
      invariant out + Pushed(val, valb) == before + Pushed(val, valb0)
      decreases valb + 6
    {
      out := out + [Digit(Sextet(val, valb))];
      valb := valb - 6;
    }
  }

  // `done` is the text of the whole groups, which end at `j`.
  ghost predicate Reading(s: seq<Byte>, j: nat, done: string) {
    j <= |s| && Encode(s) == done + Encode(s[j..]) && |done| % 4 == 0
  }

  lemma TakeGroup(s: seq<Byte>, j: nat)
    requires j + 3 <= |s|
    ensures Encode(s[j..]) == Group(s[j], s[j + 1], s[j + 2]) + Encode(s[j + 3..])
  {
    assert s[j..][3..] == s[j + 3..];
  }

  lemma StepGroup(s: seq<Byte>, j: nat, done: string)
    requires Reading(s, j, done) && j + 3 <= |s|
    ensures Reading(s, j + 3, done + Group(s[j], s[j + 1], s[j + 2]))
  {
    TakeGroup(s, j);
    GroupDone(Encode(s), done, Group(s[j], s[j + 1], s[j + 2]), Encode(s[j + 3..]));
  }

  lemma GroupDone(whole: string, done: string, group: string, rest: string)
    requires whole == done + (group + rest) && |done| % 4 == 0 && |group| == 4
    ensures whole == done + group + rest && |done + group| % 4 == 0
  {
    Regroup(done, group, rest);
  }

  // The text of the last, unfinished group without its padding.
  function Unpadded(g: seq<Byte>): string
    requires |g| <= 2
  {
    if |g| == 0 then ""
    else if |g| == 1 then [Digit(g[0] / 4), Digit(g[0] % 4 * 16)]
    else [Digit(g[0] / 4), Digit(g[0] % 4 * 16 + g[1] / 16), Digit(g[1] % 16 * 4)]
  }

  lemma EndGroup(g: seq<Byte>, val: nat, valb: int)
    requires Between(g, val, valb)
    ensures Unpadded(g) == Partial(g) + if valb > -6 then [Digit(Sextet(val * 256 % WORD, valb + 8))] else ""
  {
    LastDigit(val);
  }

  method Pad(text: string, ghost done: string, ghost g: seq<Byte>) returns (out: string)
    requires |g| <= 2 && |done| % 4 == 0 && text == done + Unpadded(g)
    ensures out == done + Encode(g)
  {
    out := text;
    ghost var n := (4 - |text| % 4) % 4;
    assert Encode(g) == Unpadded(g) + if |g| == 0 then "" else if |g| == 1 then "==" else "=";
    while |out| % 4 != 0
      invariant |text| <= |out| <= |text| + n && out == text + seq(|out| - |text|, _ => '=')
      decreases n - (|out| - |text|)
    {
      out := out + ['='];
    }
    assert |out| == |text| + n;
  }

  // The group after one more byte, and the digits known then.
  function Extended(g: seq<Byte>, c: Byte): seq<Byte>
    requires |g| <= 2
  {
    if |g| == 2 then [] else g + [c]
  }

  function Completed(g: seq<Byte>, c: Byte): string
    requires |g| <= 2
  {
    if |g| == 2 then Group(g[0], g[1], c) else ""
  }

  // One byte: shift it in and push the digits that are complete.
  method Absorb(before: string, val: nat, valb: int, c: Byte, ghost done: string, ghost g: seq<Byte>)
    returns (out: string, val': nat, valb': int)
    requires Between(g, val, valb) && before == done + Partial(g)
    ensures Between(Extended(g, c), val', valb')
    ensures out == done + Completed(g, c) + Partial(Extended(g, c))
  {
    NextByte(g, val, valb, c);
    Regroup(done, Partial(g), Pushed(Shifted(val, c), valb + 8));
    val' := (val * 256 + c) % WORD;
    valb' := valb + 8;
    out, valb' := Push(before, val', valb');
  }

  lemma StepReading(s: seq<Byte>, j: nat, i: nat, done: string)
    requires j <= i < |s| && i - j <= 2 && Reading(s, j, done)
    ensures var g := s[j..i];
            var j' := if |g| == 2 then i + 1 else j;
            Reading(s, j', done + Completed(g, s[i])) && Extended(g, s[i]) == s[j'..i + 1]
  {
    if i - j == 2 {
      StepGroup(s, j, done);
    } else {
      assert done + "" == done;
    }
  }

  method Accumulate(s: seq<Byte>) returns (out: string, val: nat, valb: int, ghost done: string, ghost j: nat)
    ensures Reading(s, j, done) && Between(s[j..], val, valb) && out == done + Partial(s[j..])
  {
    out, val, valb := "", 0, -6;
    done, j := "", 0;
    var i := 0;
    ghost var g: seq<Byte> := [];
    assert s[0..] == s && "" + Encode(s) == Encode(s);
    while i < |s|
      invariant 0 <= j <= i <= |s| && g == s[j..i] && Reading(s, j, done)
      invariant Between(g, val, valb) && out == done + Partial(g)
    {
      out, val, valb := Absorb(out, val, valb, s[i], done, g);
      StepReading(s, j, i, done);
      done, j, g := done + Completed(g, s[i]), if |g| == 2 then i + 1 else j, Extended(g, s[i]);
      i := i + 1;
    }
    assert s[j..i] == s[j..];
  }

  // The accumulator loop gives the three-byte-group encoding for inputs of every length.
  method Base64Encode(s: seq<Byte>) returns (out: string)
    ensures out == Encode(s)
  {
    var val, valb;
    ghost var done, j;
    out, val, valb, done, j := Accumulate(s);
    ghost var g := s[j..];
    EndGroup(g, val, valb);
    if valb > -6 {
      out := out + [Digit(Sextet(val * 256 % WORD, valb + 8))];
    }
    assert out == done + Unpadded(g);
    out := Pad(out, done, g);
  }
}
