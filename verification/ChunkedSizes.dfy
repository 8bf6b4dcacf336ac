/**
 Which size lines a chunk may begin with, and what sizes they give.
 */
module ChunkedSizes {
  import opened Common
  import opened HttpText
  import opened Chunked
  import opened ChunkedCut
  import Query
  import QueryLaws

  // The digits stand for these values, each in either case.
  ghost predicate IsNumber(digits: string, values: seq<nat>) {
    && |digits| == |values| > 0
    && forall k :: 0 <= k < |digits| ==> values[k] < 16 && IsDigit(digits[k], values[k])
  }

  ghost predicate IsDigit(c: char, n: nat)
    requires n < 16
  {
    c == QueryLaws.UPPER[n] || c == QueryLaws.LOWER[n]
  }

  function Value(values: seq<nat>): nat {
    if values == [] then 0 else Value(values[..|values| - 1]) * 16 + values[|values| - 1]
  }

  lemma DigitValue(c: char, n: nat)
    requires n < 16 && IsDigit(c, n)
    ensures Query.HexValue(c) == Some(n) && !IsSpace(c) && c != '-' && c != '+' && c != 'x' && c != 'X'
  {
    QueryLaws.DigitIs(n, true);
    QueryLaws.DigitIs(n, false);
  }

  // No digit begins the text.
  predicate NoDigitFirst(s: string) {
    s == "" || Query.HexValue(s[0]).None?
  }

  lemma {:induction false} SpacesSkipped(s: string, blanks: string, i: nat, rest: string)
    requires s == blanks + rest && (forall k :: 0 <= k < |blanks| ==> IsSpace(blanks[k])) && i <= |blanks|
    requires rest != "" && !IsSpace(rest[0])
    ensures SkipSpaces(s, i) == |blanks|
    decreases |blanks| - i
  {
    if i < |blanks| {
      SpacesSkipped(s, blanks, i + 1, rest);
    }
  }

  lemma {:induction false} DigitsScanned(s: string, i: nat, digits: string, values: seq<nat>, n: nat)
    requires |digits| == |values| && n <= |digits| && i + |digits| <= |s|
    requires forall k :: 0 <= k < |digits| ==> s[i + k] == digits[k] && Query.HexValue(digits[k]) == Some(values[k])
    ensures ScanHex(s, i, 0) == ScanHex(s, i + n, Value(values[..n]))
  {
    if n > 0 {
      DigitsScanned(s, i, digits, values, n - 1);
      assert values[..n][..n - 1] == values[..n - 1];
      assert s[i + (n - 1)] == digits[n - 1];
    }
  }

  lemma NumberScanned(s: string, i: nat, digits: string, values: seq<nat>, tail: string)
    requires IsNumber(digits, values) && i <= |s| && s[i..] == digits + tail && NoDigitFirst(tail)
    ensures ScanHex(s, i, 0) == Value(values) && i < |s| && Query.HexValue(s[i]).Some?
  {
    forall k {:trigger digits[k]} | 0 <= k < |digits|
      ensures s[i + k] == digits[k] && Query.HexValue(digits[k]) == Some(values[k])
    {
      assert s[i + k] == s[i..][k];
      DigitValue(digits[k], values[k]);
    }
    var n := |digits|;
    DigitsScanned(s, i, digits, values, n);
    assert values[..n] == values && s[i + 0] == digits[0];
    assert tail != "" ==> s[i + n] == s[i..][n] == tail[0];
  }

  /* ----- Blanks, a sign and 0x in front of the digits ----- */

  // What a size line may hold in front of its digits, and what may stand behind them.
  datatype Size = Size(blanks: string, sign: string, prefix: string, digits: string, tail: string)

  ghost predicate IsSize(z: Size, values: seq<nat>) {
    && (forall k :: 0 <= k < |z.blanks| ==> IsSpace(z.blanks[k]))
    && (z.sign == "" || z.sign == "+" || z.sign == "-") && (z.prefix == "" || z.prefix == "0x" || z.prefix == "0X")
    && IsNumber(z.digits, values) && NoDigitFirst(z.tail) && (z.prefix == "" && z.digits == "0" ==> NoPrefixLater(z.tail))
  }

  // A single zero is not itself the beginning of 0x and a digit.
  predicate NoPrefixLater(tail: string) {
    |tail| < 2 || (tail[0] != 'x' && tail[0] != 'X') || Query.HexValue(tail[1]).None?
  }

  // The number that stands behind its sign and prefix, in the range of the type: a minus sign wraps around.
  function SizeOf(sign: string, v: nat, max: nat): nat {
    if v > max then max else if sign == "-" && v > 0 then max + 1 - v else v
  }

  function Digits(z: Size): string {
    z.digits + z.tail
  }

  function Prefixed(z: Size): string {
    z.prefix + Digits(z)
  }

  function Signed(z: Size): string {
    z.sign + Prefixed(z)
  }

  function Written(z: Size): string {
    z.blanks + Signed(z)
  }

  predicate PrefixAt(s: string, j: nat) {
    j + 2 < |s| && s[j] == '0' && (s[j + 1] == 'x' || s[j + 1] == 'X') && Query.HexValue(s[j + 2]).Some?
  }

  function DigitsAt(s: string, j: nat): nat {
    if PrefixAt(s, j) then j + 2 else j
  }

  // Where the digits start is not a prefix again.
  lemma DigitsFirst(t: string, z: Size, values: seq<nat>)
    requires IsSize(z, values) && t == Digits(z)
    ensures t != "" && Query.HexValue(t[0]).Some? && !IsSpace(t[0]) && t[0] != '-' && t[0] != '+'
    ensures z.prefix == "" ==> !PrefixAt(t, 0)
  {
    DigitValue(z.digits[0], values[0]);
    if |t| > 2 {
      if |z.digits| > 1 {
        DigitValue(z.digits[1], values[1]);
      } else {
        assert z.digits == [z.digits[0]] && t[1] == z.tail[0] && t[2] == z.tail[1];
      }
    }
  }

  // The first character behind the blanks and the one behind the sign.
  lemma SignedFirst(z: Size, values: seq<nat>)
    requires IsSize(z, values)
    ensures Signed(z) != "" && !IsSpace(Signed(z)[0])
    ensures (Signed(z)[0] == '-' <==> z.sign == "-") && (Signed(z)[0] == '+' <==> z.sign == "+")
  {
    DigitsFirst(Digits(z), z, values);
  }

  lemma CutTwice(a: string, b: string, c: string, d: string)
    ensures (a + (b + (c + d)))[|a| + |b|..] == c + d && (a + (b + (c + d)))[|a| + |b| + |c|..] == d
  {
  }

  lemma FirstBehind(blanks: string, rest: string)
    requires (forall k :: 0 <= k < |blanks| ==> IsSpace(blanks[k])) && rest != "" && !IsSpace(rest[0])
    ensures SkipSpaces(blanks + rest, 0) == |blanks| && (blanks + rest)[|blanks|] == rest[0]
  {
    SpacesSkipped(blanks + rest, blanks, 0, rest);
  }

  // The text from `i` on begins with the sign, from `j` on with the prefix, and from `k` on with the digits.
  ghost predicate Placed(s: string, z: Size, i: nat, j: nat, k: nat) {
    && SkipSpaces(s, 0) == i < |s| && (s[i] == '-' <==> z.sign == "-") && (s[i] == '+' <==> z.sign == "+")
    && j == i + |z.sign| && k == j + |z.prefix| <= |s| && s[j..] == Prefixed(z) && s[k..] == Digits(z)
  }

  lemma Parts(z: Size, values: seq<nat>)
    requires IsSize(z, values)
    ensures exists i, j, k :: Placed(Written(z), z, i, j, k)
  {
    SignedFirst(z, values);
    FirstBehind(z.blanks, Signed(z));
    CutTwice(z.blanks, z.sign, z.prefix, Digits(z));
    var i := |z.blanks|;
    assert Placed(Written(z), z, i, i + |z.sign|, i + |z.sign| + |z.prefix|);
  }

  // The position of the digits, as the conversion finds it.
  lemma PrefixEnd(s: string, j: nat, z: Size, values: seq<nat>)
    requires IsSize(z, values) && j <= |s| && s[j..] == Prefixed(z)
    ensures DigitsAt(s, j) == j + |z.prefix|
  {
    var t := Prefixed(z);
    DigitsFirst(Digits(z), z, values);
    assert |s| == j + |t| && forall k :: 0 <= k < |t| ==> s[j + k] == t[k];
    if z.prefix == "" {
      assert t == Digits(z);
    } else {
      assert t[2] == Digits(z)[0];
    }
  }

  // The conversion, where the blanks, the sign and the prefix end.
  lemma Converted(s: string, i: nat, j: nat, k: nat, sign: string, v: nat, max: nat)
    requires SkipSpaces(s, 0) == i < |s| && (s[i] == '-' <==> sign == "-") && (s[i] == '+' <==> sign == "+")
    requires j == i + (if sign == "-" || sign == "+" then 1 else 0) && k == DigitsAt(s, j)
    requires k < |s| && Query.HexValue(s[k]).Some? && ScanHex(s, k, 0) == v
    ensures StrToUl(s, max) == Some(SizeOf(sign, v, max))
  {
  }

  lemma SizePlaced(s: string, z: Size, values: seq<nat>, max: nat, i: nat, j: nat, k: nat)
    requires IsSize(z, values) && Placed(s, z, i, j, k)
    ensures StrToUl(s, max) == Some(SizeOf(z.sign, Value(values), max))
  {
    PrefixEnd(s, j, z, values);
    NumberScanned(s, k, z.digits, values, z.tail);
    Converted(s, i, j, k, z.sign, Value(values), max);
  }

  // The size that the conversion reads from such a line.
  lemma SizeLaw(z: Size, values: seq<nat>, max: nat)
    requires IsSize(z, values)
    ensures StrToUl(Written(z), max) == Some(SizeOf(z.sign, Value(values), max))
  {
    Parts(z, values);
    var i, j, k :| Placed(Written(z), z, i, j, k);
    SizePlaced(Written(z), z, values, max, i, j, k);
  }

  /* ----- Chunks behind such lines ----- */

  // What stands behind the size in its line is not looked at.
  lemma LineSize(z: Size, values: seq<nat>, after: string, max: nat)
    requires IsSize(z, values) && '\n' !in Written(z) && '\0' !in Written(z)
    ensures var l := GetLine(Written(z) + (CRLF + after));
            l == Some(Line(Written(z) + CRLF, after)) && StrToUl(CString(l.value.text), max) == Some(SizeOf(z.sign, Value(values), max))
  {
    var longer := z.(tail := z.tail + CRLF);
    LineOf(Written(z), after);
    NoTerminator(Written(z) + CRLF);
    assert Written(longer) == Written(z) + CRLF;
    SizeLaw(longer, values, max);
  }

  // A chunk is read by its size line, whatever its form and extension.
  lemma ChunkBySize(z: Size, values: seq<nat>, p: string, rest: string, body: string, max: nat)
    requires IsSize(z, values) && '\n' !in Written(z) && '\0' !in Written(z)
    requires p != "" && |p| == SizeOf(z.sign, Value(values), max) < max
    ensures ReadChunks(Written(z) + (CRLF + (p + (CRLF + rest))), body, max) == ReadChunks(rest, body + p, max)
  {
    var after := p + (CRLF + rest);
    LineSize(z, values, after, max);
    assert after[..|p|] == p && after[|p|..] == CRLF + rest;
    StartsCrlf(CRLF + rest);
    assert (CRLF + rest)[2..] == rest;
  }

  // A size that the type cannot hold, or its largest value, is refused.
  lemma SizeTooLarge(z: Size, values: seq<nat>, after: string, body: string, max: nat)
    requires IsSize(z, values) && '\n' !in Written(z) && '\0' !in Written(z)
    requires Value(values) >= max && (Value(values) == max ==> z.sign != "-")
    ensures Refused(ReadChunks(Written(z) + (CRLF + after), body, max), body)
  {
    LineSize(z, values, after, max);
  }
}
