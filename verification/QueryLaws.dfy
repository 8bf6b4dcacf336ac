/**
 What percent-encoded text means, token by token, and how bytes are written.
 */
module QueryLaws {
  import opened Common
  import opened HttpText
  import opened Query

  const UPPER: string := "0123456789ABCDEF"
  const LOWER: string := "0123456789abcdef"

  /* ---------- Encoding ---------- */

  // Letters, digits and nine signs stand for themselves.
  predicate StandsForItself(c: char) {
    'A' <= c <= 'Z' || 'a' <= c <= 'z' || '0' <= c <= '9' || c in "-_.!~*'()"
  }

  // Every other byte is written as a percent sign and two upper-case digits.
  function Escaped(value: string): string
    requires IsBytes(value)
  {
    if value == "" then "" else
    var c := value[0];
    (if StandsForItself(c) then [c] else ['%', UPPER[c as int / 16], UPPER[c as int % 16]]) + Escaped(value[1..])
  }

  lemma UpperIs(n: nat)
    requires n < 16
    ensures HexDigit(n) == UPPER[n]
  {
  }

  lemma {:induction false} EncodeLaw(value: string)
    requires IsBytes(value)
    ensures Encode(value) == Escaped(value)
  {
    if value != "" {
      UpperIs(value[0] as int / 16);
      UpperIs(value[0] as int % 16);
      EncodeLaw(value[1..]);
    }
  }

  /* ---------- UTF-8 ---------- */

  predicate Follows(c: char) {
    0x80 <= c as int < 0xC0
  }

  // The bytes are the code point in one, two or three bytes of UTF-8.
  predicate IsUtf8(bytes: string, code: nat) {
    || (|bytes| == 1 && code < 0x80 && bytes[0] as int == code)
    || (|bytes| == 2 && 0x80 <= code < 0x800 && 0xC0 <= bytes[0] as int < 0xE0 && Follows(bytes[1])
        && code == (bytes[0] as int - 0xC0) * 64 + (bytes[1] as int - 0x80))
    || (|bytes| == 3 && 0x800 <= code < 0x10000 && 0xE0 <= bytes[0] as int < 0xF0 && Follows(bytes[1]) && Follows(bytes[2])
        && code == (bytes[0] as int - 0xE0) * 4096 + (bytes[1] as int - 0x80) * 64 + (bytes[2] as int - 0x80))
  }

  lemma ThreeBytes(code: nat, high: nat, middle: nat, low: nat)
    requires 0x800 <= code < 0x10000 && code == high * 4096 + middle * 64 + low && high < 16 && middle < 64 && low < 64
    ensures IsUtf8([(0xE0 + high) as char, (0x80 + middle) as char, (0x80 + low) as char], code)
  {
  }

  lemma TwoBytes(code: nat, high: nat, low: nat)
    requires 0x80 <= code < 0x800 && code == high * 64 + low && high < 32 && low < 64
    ensures IsUtf8([(0xC0 + high) as char, (0x80 + low) as char], code)
  {
  }

  // The digits of the code point in base 64.
  lemma CodeDigits(code: nat)
    requires code < 0x10000
    ensures code / 64 % 64 == code / 64 - code / 4096 * 64 && code % 64 == code - code / 64 * 64
    ensures code / 4096 % 16 == code / 4096 && (code < 0x800 ==> code / 64 % 32 == code / 64)
  {
  }

  // A code point below 0x10000 gives its bytes; half of a surrogate pair gives none.
  lemma Utf8Law(code: nat)
    requires code < 0x10000
    ensures if 0xD800 <= code < 0xE000 then ToUtf8(code) == "" else IsUtf8(ToUtf8(code), code)
  {
    CodeDigits(code);
    if 0x800 <= code {
      ThreeBytes(code, code / 4096 % 16, code / 64 % 64, code % 64);
    } else if 0x80 <= code {
      TwoBytes(code, code / 64 % 32, code % 64);
    }
  }

  /* ---------- Decoding ---------- */

  // A digit in either case.
  function Digit(n: nat, upper: bool): char
    requires n < 16
  {
    if upper then UPPER[n] else LOWER[n]
  }

  lemma DigitIs(n: nat, upper: bool)
    requires n < 16
    ensures HexValue(Digit(n, upper)) == Some(n) && Digit(n, upper) != 'u'
  {
  }

  // A character, a plus sign for a space, two digits of a byte, or four of a code point.
  datatype Token = Plain(c: char) | Plus | Two(n: nat, upper: bool) | Four(n: nat, upper: bool)

  predicate IsToken(t: Token, plus: bool) {
    match t
    case Plain(c) => c != '%' && !(plus && c == '+')
    case Plus => plus
    case Two(n, _) => n < 0x100
    case Four(n, _) => n < 0x10000
  }

  function Written(t: Token, plus: bool): (s: string)
    requires IsToken(t, plus)
    ensures s != ""
  {
    match t
    case Plain(c) => [c]
    case Plus => "+"
    case Two(n, u) => ['%', Digit(n / 16, u), Digit(n % 16, u)]
    case Four(n, u) => ['%', 'u', Digit(n / 4096, u), Digit(n / 256 % 16, u), Digit(n / 16 % 16, u), Digit(n % 16, u)]
  }

  // The bytes that the token means.
  ghost predicate Means(t: Token, bytes: string) {
    match t
    case Plain(c) => bytes == [c]
    case Plus => bytes == " "
    case Two(n, _) => n < 0x100 && bytes == [n as char]
    case Four(n, _) => if 0xD800 <= n < 0xE000 then bytes == "" else IsUtf8(bytes, n)
  }

  lemma HexTwo(s: string, i: nat, a: nat, b: nat, upper: bool)
    requires a < 16 && b < 16 && i + 2 <= |s| && s[i] == Digit(a, upper) && s[i + 1] == Digit(b, upper)
    ensures HexNumber(s, i, 2, 0) == Some(a * 16 + b)
  {
    DigitIs(a, upper);
    DigitIs(b, upper);
    assert HexNumber(s, i + 2, 0, a * 16 + b) == Some(a * 16 + b);
    assert HexNumber(s, i + 1, 1, a) == Some(a * 16 + b);
  }

  lemma HexStep(s: string, i: nat, cnt: nat, val: nat, d: nat, upper: bool)
    requires d < 16 && i < |s| && s[i] == Digit(d, upper)
    ensures HexNumber(s, i, cnt + 1, val) == HexNumber(s, i + 1, cnt, val * 16 + d)
  {
    DigitIs(d, upper);
  }

  lemma FourDigits(n: nat)
    requires n < 0x10000
    ensures n / 4096 < 16 && ((n / 4096 * 16 + n / 256 % 16) * 16 + n / 16 % 16) * 16 + n % 16 == n
  {
    assert n / 256 == n / 4096 * 16 + n / 256 % 16 && n / 16 == n / 256 * 16 + n / 16 % 16;
  }

  lemma HexFour(s: string, i: nat, a: nat, b: nat, c: nat, d: nat, upper: bool)
    requires a < 16 && b < 16 && c < 16 && d < 16 && i + 4 <= |s|
    requires s[i] == Digit(a, upper) && s[i + 1] == Digit(b, upper) && s[i + 2] == Digit(c, upper) && s[i + 3] == Digit(d, upper)
    ensures HexNumber(s, i, 4, 0) == Some(((a * 16 + b) * 16 + c) * 16 + d)
  {
    HexStep(s, i, 3, 0, a, upper);
    HexStep(s, i + 1, 2, a, b, upper);
    HexStep(s, i + 2, 1, a * 16 + b, c, upper);
    HexStep(s, i + 3, 0, (a * 16 + b) * 16 + c, d, upper);
  }

  // The token stands at position `i`.
  ghost predicate StandsAt(s: string, i: nat, w: string) {
    i + |w| <= |s| && forall k :: 0 <= k < |w| ==> s[i + k] == w[k]
  }

  lemma TwoRead(s: string, i: nat, n: nat, upper: bool, plus: bool)
    requires n < 0x100 && StandsAt(s, i, ['%', Digit(n / 16, upper), Digit(n % 16, upper)])
    ensures DecodeAt(s, i, plus) == ([n as char], i + 3)
  {
    var w := ['%', Digit(n / 16, upper), Digit(n % 16, upper)];
    assert s[i + 0] == w[0] && s[i + 1] == w[1] && s[i + 2] == w[2];
    DigitIs(n / 16, upper);
    HexTwo(s, i + 1, n / 16, n % 16, upper);
  }

  lemma FourRead(s: string, i: nat, n: nat, a: nat, b: nat, c: nat, d: nat, upper: bool, plus: bool)
    requires a < 16 && b < 16 && c < 16 && d < 16 && n == ((a * 16 + b) * 16 + c) * 16 + d < 0x10000
    requires StandsAt(s, i, ['%', 'u', Digit(a, upper), Digit(b, upper), Digit(c, upper), Digit(d, upper)])
    ensures DecodeAt(s, i, plus) == (ToUtf8(n), i + 6)
  {
    var w := ['%', 'u', Digit(a, upper), Digit(b, upper), Digit(c, upper), Digit(d, upper)];
    assert s[i + 0] == w[0] && s[i + 1] == w[1] && s[i + 2] == w[2] && s[i + 3] == w[3] && s[i + 4] == w[4] && s[i + 5] == w[5];
    HexFour(s, i + 2, a, b, c, d, upper);
  }

  lemma TokenHere(s: string, i: nat, t: Token, plus: bool)
    requires IsToken(t, plus) && StandsAt(s, i, Written(t, plus))
    ensures i < |s| && Means(t, DecodeAt(s, i, plus).0) && DecodeAt(s, i, plus).1 == i + |Written(t, plus)|
  {
    match t
    case Plain(_) => assert s[i + 0] == Written(t, plus)[0];
    case Plus => assert s[i + 0] == Written(t, plus)[0];
    case Two(n, u) => TwoRead(s, i, n, u, plus);
    case Four(n, u) =>
      FourDigits(n);
      FourRead(s, i, n, n / 4096, n / 256 % 16, n / 16 % 16, n % 16, u, plus);
      Utf8Law(n);
  }

  lemma DecodeStep(s: string, i: nat, plus: bool, n: nat)
    requires i < |s| && DecodeAt(s, i, plus).1 == n
    ensures DecodeFrom(s, i, plus) == DecodeAt(s, i, plus).0 + DecodeFrom(s, n, plus)
  {
  }

  lemma TokenRead(s: string, i: nat, t: Token, plus: bool, n: nat) returns (bytes: string)
    requires IsToken(t, plus) && StandsAt(s, i, Written(t, plus)) && n == i + |Written(t, plus)|
    ensures Means(t, bytes) && DecodeFrom(s, i, plus) == bytes + DecodeFrom(s, n, plus)
  {
    TokenHere(s, i, t, plus);
    bytes := DecodeAt(s, i, plus).0;
    DecodeStep(s, i, plus, n);
  }

  // A percent sign that is not followed by its digits stands for itself, and what follows is read on its own.
  lemma BrokenEscape(s: string, i: nat, plus: bool)
    requires i < |s| && s[i] == '%'
    requires i + 1 < |s| && s[i + 1] == 'u' ==> exists k :: i + 2 <= k < i + 6 && NoDigitAt(s, k)
    requires i + 1 < |s| && s[i + 1] != 'u' ==> exists k :: i + 1 <= k < i + 3 && NoDigitAt(s, k)
    ensures DecodeFrom(s, i, plus) == "%" + DecodeFrom(s, i + 1, plus)
  {
    if i + 1 < |s| && s[i + 1] == 'u' {
      var k :| i + 2 <= k < i + 6 && NoDigitAt(s, k);
      NoNumber(s, i + 2, 4, 0, k);
    } else if i + 1 < |s| {
      var k :| i + 1 <= k < i + 3 && NoDigitAt(s, k);
      NoNumber(s, i + 1, 2, 0, k);
    }
  }

  ghost predicate NoDigitAt(s: string, k: nat) {
    k >= |s| || (s[k] !in UPPER && s[k] !in LOWER)
  }

  lemma HexIsDigit(c: char)
    requires HexValue(c).Some?
    ensures c in UPPER || c in LOWER
  {
    var n := HexValue(c).value;
    assert c == UPPER[n] || c == LOWER[n];
  }

  lemma {:induction false} NoNumber(s: string, i: nat, cnt: nat, val: nat, k: nat)
    requires i <= k < i + cnt && NoDigitAt(s, k)
    ensures HexNumber(s, i, cnt, val).None?
    decreases cnt
  {
    if i < |s| && HexValue(s[i]).Some? {
      HexIsDigit(s[i]);
      NoNumber(s, i + 1, cnt - 1, val * 16 + HexValue(s[i]).value, k);
    }
  }

  /* ----- Whole texts ----- */

  function WrittenAll(tokens: seq<Token>, plus: bool): string
    requires forall k :: 0 <= k < |tokens| ==> IsToken(tokens[k], plus)
  {
    if tokens == [] then "" else Written(tokens[0], plus) + WrittenAll(tokens[1..], plus)
  }

  ghost predicate MeansAll(tokens: seq<Token>, bytes: string)
    decreases |tokens|
  {
    if tokens == [] then bytes == "" else
    exists n: nat :: MeansFirst(tokens, bytes, n) && MeansAll(tokens[1..], bytes[n..])
  }

  ghost predicate MeansFirst(tokens: seq<Token>, bytes: string, n: nat)
    requires tokens != []
  {
    n <= |bytes| && Means(tokens[0], bytes[..n])
  }

  lemma MeansCons(tokens: seq<Token>, bytes: string, more: string)
    requires tokens != [] && Means(tokens[0], bytes) && MeansAll(tokens[1..], more)
    ensures MeansAll(tokens, bytes + more)
  {
    var all, n := bytes + more, |bytes|;
    assert all[..n] == bytes && all[n..] == more;
    assert MeansFirst(tokens, all, n);
  }

  lemma FirstStands(s: string, i: nat, w: string, rest: string)
    requires i <= |s| && s[i..] == w + rest
    ensures StandsAt(s, i, w) && s[i + |w|..] == rest
  {
    forall k {:trigger w[k]} | 0 <= k < |w|
      ensures s[i + k] == w[k]
    {
      assert s[i..][k] == (w + rest)[k];
    }
    assert s[i + |w|..] == s[i..][|w|..];
  }

  lemma TokenFirst(s: string, i: nat, tokens: seq<Token>, plus: bool, n: nat)
    requires tokens != [] && IsToken(tokens[0], plus) && StandsAt(s, i, Written(tokens[0], plus))
    requires n == i + |Written(tokens[0], plus)| && MeansAll(tokens[1..], DecodeFrom(s, n, plus))
    ensures MeansAll(tokens, DecodeFrom(s, i, plus))
  {
    var bytes := TokenRead(s, i, tokens[0], plus, n);
    MeansCons(tokens, bytes, DecodeFrom(s, n, plus));
  }

  lemma {:induction false} TokensRead(s: string, i: nat, tokens: seq<Token>, plus: bool)
    requires i <= |s| && (forall k :: 0 <= k < |tokens| ==> IsToken(tokens[k], plus)) && s[i..] == WrittenAll(tokens, plus)
    ensures MeansAll(tokens, DecodeFrom(s, i, plus))
    decreases |tokens|
  {
    if tokens != [] {
      var w := Written(tokens[0], plus);
      FirstStands(s, i, w, WrittenAll(tokens[1..], plus));
      TokensRead(s, i + |w|, tokens[1..], plus);
      TokenFirst(s, i, tokens, plus, i + |w|);
    }
  }

  // Text made of tokens decodes to what they mean, one after the other.
  lemma DecodeLaw(tokens: seq<Token>, plus: bool)
    requires forall k :: 0 <= k < |tokens| ==> IsToken(tokens[k], plus)
    ensures MeansAll(tokens, Decode(WrittenAll(tokens, plus), plus))
  {
    var s := WrittenAll(tokens, plus);
    assert s[0..] == s;
    TokensRead(s, 0, tokens, plus);
  }

  /* ---------- Query text ---------- */

  // A part of a piece: no delimiter in it and no blanks around it.
  predicate IsPart(t: string) {
    t != "" && Trimmed(t) && '&' !in t && '=' !in t
  }

  function Joined(parts: seq<string>, d: char): string {
    if parts == [] then "" else if |parts| == 1 then parts[0] else parts[0] + [d] + Joined(parts[1..], d)
  }

  predicate IsSegment(part: string, d: char) {
    part != "" && Trimmed(part) && d !in part
  }

  lemma SplitFirst(part: string, d: char, rest: string)
    requires IsSegment(part, d)
    ensures Split(part, d) == [part] && Split(part + [d] + rest, d) == [part] + Split(rest, d)
  {
    StripTrimmed(part);
    SplitWhole(part, d);
    SplitAtDelimiter(part, d, rest);
  }

  lemma {:induction false} SplitJoined(parts: seq<string>, d: char)
    requires parts != [] && forall k :: 0 <= k < |parts| ==> IsSegment(parts[k], d)
    ensures Split(Joined(parts, d), d) == parts
  {
    var rest := parts[1..];
    SplitFirst(parts[0], d, Joined(rest, d));
    if rest == [] {
      assert parts == [parts[0]];
    } else {
      SplitJoined(rest, d);
      assert parts == [parts[0]] + rest;
    }
  }

  lemma {:induction false} JoinedParts(parts: seq<string>)
    requires parts != [] && forall k :: 0 <= k < |parts| ==> IsPart(parts[k])
    ensures IsSegment(Joined(parts, '='), '&')
  {
    if |parts| > 1 {
      JoinedParts(parts[1..]);
    }
  }

  lemma PieceOf(parts: seq<string>)
    requires parts != [] && forall k :: 0 <= k < |parts| ==> IsPart(parts[k])
    ensures KeyValue(Joined(parts, '=')) == (parts[0], if |parts| == 1 then "" else parts[|parts| - 1])
  {
    SplitJoined(parts, '=');
  }

  // The pairs of different pieces that all have a key.
  lemma {:induction false} PairsOf(pieces: seq<string>, seen: set<string>, f: string -> string)
    requires forall k :: 0 <= k < |pieces| ==> pieces[k] !in seen && KeyValue(pieces[k]).0 != ""
    requires forall j, k :: 0 <= j < k < |pieces| ==> pieces[j] != pieces[k]
    ensures var r := Pairs(pieces, seen, f);
            && |r| == |pieces|
            && forall k :: 0 <= k < |pieces| ==> r[k] == (f(KeyValue(pieces[k]).0), f(KeyValue(pieces[k]).1))
  {
    if pieces != [] {
      PairsOf(pieces[1..], seen + {pieces[0]}, f);
    }
  }

  // The pieces that are written, each of its parts.
  ghost predicate AreWritten(lists: seq<seq<string>>, pieces: seq<string>) {
    && |pieces| == |lists|
    && (forall k :: 0 <= k < |lists| ==> lists[k] != [] && pieces[k] == Joined(lists[k], '='))
    && (forall k, i :: 0 <= k < |lists| && 0 <= i < |lists[k]| ==> IsPart(lists[k][i]))
    && (forall j, k :: 0 <= j < k < |pieces| ==> pieces[j] != pieces[k])
  }

  // A pair is the first part of its piece and the last one behind it, both decoded with plus signs as spaces.
  ghost predicate IsPair(parts: seq<string>, pair: Pair)
    requires parts != []
  {
    pair == (Decode(parts[0], true), if |parts| == 1 then "" else Decode(parts[|parts| - 1], true))
  }

  lemma WrittenPieces(lists: seq<seq<string>>, pieces: seq<string>)
    requires pieces != [] && AreWritten(lists, pieces)
    ensures Split(Joined(pieces, '&'), '&') == pieces
    ensures forall k :: 0 <= k < |pieces| ==>
              KeyValue(pieces[k]) == (lists[k][0], if |lists[k]| == 1 then "" else lists[k][|lists[k]| - 1])
  {
    forall k | 0 <= k < |pieces|
      ensures IsSegment(pieces[k], '&')
      ensures KeyValue(pieces[k]) == (lists[k][0], if |lists[k]| == 1 then "" else lists[k][|lists[k]| - 1])
    {
      JoinedParts(lists[k]);
      PieceOf(lists[k]);
    }
    SplitJoined(pieces, '&');
  }

  lemma PairsRead(lists: seq<seq<string>>, pieces: seq<string>, f: string -> string)
    requires pieces != [] && AreWritten(lists, pieces) && forall x :: f(x) == Decode(x, true)
    ensures var r := Pairs(Split(Joined(pieces, '&'), '&'), {}, f);
            |r| == |lists| && forall k :: 0 <= k < |lists| ==> IsPair(lists[k], r[k])
  {
    WrittenPieces(lists, pieces);
    PairsOf(pieces, {}, f);
    assert Decode("", true) == "";
  }

  // Query text of different pieces gives one pair for each, in order.
  lemma QueryLaw(lists: seq<seq<string>>, pieces: seq<string>)
    requires pieces != [] && AreWritten(lists, pieces)
    ensures var r := ParseQuery(Joined(pieces, '&'));
            |r| == |lists| && forall k :: 0 <= k < |lists| ==> IsPair(lists[k], r[k])
  {
    PairsRead(lists, pieces, x => Decode(x, true));
  }
}
