/**
 Percent-encoding of query parameters and the parsing of query text.
 A `char` stands for a byte, that is for one of the values 0 to 255.
 */
module Query {
  import opened Common
  import opened HttpText

  predicate IsByte(c: char) {
    c as int < 256
  }

  predicate IsBytes(s: string) {
    forall k :: 0 <= k < |s| ==> IsByte(s[k])
  }

  /* ---------- Encoding ---------- */

  predicate IsAlnum(c: char) {
    '0' <= c <= '9' || 'A' <= c <= 'Z' || 'a' <= c <= 'z'
  }

  // The characters that stand for themselves.
  predicate IsPlain(c: char) {
    IsAlnum(c) || c == '-' || c == '_' || c == '.' || c == '!' || c == '~' || c == '*' || c == '\'' || c == '(' || c == ')'
  }

  function HexDigit(n: nat): (c: char)
    requires n < 16
    ensures IsAlnum(c)
  {
    if n < 10 then ('0' as int + n) as char else ('A' as int + n - 10) as char
  }

  function EncodeChar(c: char): string
    requires IsByte(c)
  {
    if IsPlain(c) then [c] else ['%', HexDigit(c as int / 16), HexDigit(c as int % 16)]
  }

  function Encode(value: string): string
    requires IsBytes(value)
  {
    if value == "" then "" else EncodeChar(value[0]) + Encode(value[1..])
  }

  method EncodeQueryParam(value: string) returns (escaped: string)
    requires IsBytes(value)
    ensures escaped == Encode(value)
  {
    escaped := "";
    var i := 0;
    while i < |value|
      invariant 0 <= i <= |value|
      invariant escaped + Encode(value[i..]) == Encode(value)
    {
      var c := value[i];
      assert value[i..][0] == c && value[i..][1..] == value[i + 1..];
      Regroup(escaped, EncodeChar(c), Encode(value[i + 1..]));
      if IsPlain(c) {
        escaped := escaped + [c];
      } else {
        escaped := escaped + ['%', HexDigit(c as int / 16), HexDigit(c as int % 16)];
      }
      i := i + 1;
    }
  }

  /* ---------- Decoding ---------- */

  function HexValue(c: char): Option<nat> {
    if '0' <= c <= '9' then Some(c as int - '0' as int)
    else if 'A' <= c <= 'F' then Some(c as int - 'A' as int + 10)
    else if 'a' <= c <= 'f' then Some(c as int - 'a' as int + 10)
    else None
  }

  // The value of `cnt` hexadecimal digits from position `i` on, read onto `val`.
  function HexNumber(s: string, i: nat, cnt: nat, val: nat): Option<nat>
    decreases cnt
  {
    if cnt == 0 then Some(val)
    else if i >= |s| || HexValue(s[i]).None? then None
    else HexNumber(s, i + 1, cnt - 1, val * 16 + HexValue(s[i]).value)
  }

  lemma {:induction false} HexBound(s: string, i: nat, cnt: nat, val: nat, base: nat)
    requires val < base
    ensures var r := HexNumber(s, i, cnt, val); r.Some? ==> r.value < base * Power16(cnt)
    decreases cnt
  {
    if cnt > 0 && i < |s| && HexValue(s[i]).Some? {
      HexBound(s, i + 1, cnt - 1, val * 16 + HexValue(s[i]).value, base * 16);
      assert base * 16 * Power16(cnt - 1) == base * Power16(cnt);
    }
  }

  function Power16(n: nat): nat {
    if n == 0 then 1 else 16 * Power16(n - 1)
  }

  method FromHex(s: string, i: nat, cnt: nat) returns (r: Option<nat>)
    requires cnt > 0
    ensures r == HexNumber(s, i, cnt, 0)
  {
    if i >= |s| {
      return None;
    }
    var val: nat, k: nat, left: nat := 0, i, cnt;
    while left > 0
      invariant 0 <= left <= cnt
      invariant HexNumber(s, k, left, val) == HexNumber(s, i, cnt, 0)
      decreases left
    {
      if k >= |s| || HexValue(s[k]).None? {
        return None;
      }
      val := val * 16 + HexValue(s[k]).value;
      k, left := k + 1, left - 1;
    }
    r := Some(val);
  }

  // The bytes of a code point below 0x10000, as four hexadecimal digits can name; none for a surrogate.
  function ToUtf8(code: nat): (r: string)
    requires code < 0x10000
    ensures IsBytes(r)
  {
    if code < 0x80 then [code as char]
    else if code < 0x800 then [(0xC0 + code / 64 % 32) as char, (0x80 + code % 64) as char]
    else if 0xD800 <= code < 0xE000 then ""
    else [(0xE0 + code / 4096 % 16) as char, (0x80 + code / 64 % 64) as char, (0x80 + code % 64) as char]
  }

  // What stands at position `i`: the bytes it decodes to and the position behind it.
  function DecodeAt(s: string, i: nat, plus: bool): (r: (string, nat))
    requires i < |s|
    ensures i < r.1
  {
    var here := [s[i]];
    if s[i] == '%' && i + 1 < |s| then
      if s[i + 1] == 'u' then
        var v := HexNumber(s, i + 2, 4, 0);
        HexBound(s, i + 2, 4, 0, 1);
        assert Power16(4) == 65536;
        if v.Some? then (ToUtf8(v.value), i + 6) else (here, i + 1)
      else
        var v := HexNumber(s, i + 1, 2, 0);
        HexBound(s, i + 1, 2, 0, 1);
        assert Power16(2) == 256;
        if v.Some? then ([v.value as char], i + 3) else (here, i + 1)
    else if plus && s[i] == '+' then (" ", i + 1)
    else (here, i + 1)
  }

  function DecodeFrom(s: string, i: nat, plus: bool): string
    decreases |s| - i
  {
    if i >= |s| then "" else
    var (bytes, next) := DecodeAt(s, i, plus);
    bytes + DecodeFrom(s, next, plus)
  }

  function Decode(s: string, plus: bool): string {
    DecodeFrom(s, 0, plus)
  }

  // What stands at position `i`.
  method DecodeHere(s: string, i: nat, plus: bool) returns (bytes: string, next: nat)
    requires i < |s|
    ensures (bytes, next) == DecodeAt(s, i, plus)
  {
    bytes, next := [s[i]], i + 1;
    if s[i] == '%' && i + 1 < |s| {
      if s[i + 1] == 'u' {
        var v := FromHex(s, i + 2, 4);
        HexBound(s, i + 2, 4, 0, 1);
        assert Power16(4) == 65536;
        if v.Some? {
          bytes, next := ToUtf8(v.value), i + 6;
        }
      } else {
        var v := FromHex(s, i + 1, 2);
        HexBound(s, i + 1, 2, 0, 1);
        assert Power16(2) == 256;
        if v.Some? {
          bytes, next := [v.value as char], i + 3;
        }
      }
    } else if plus && s[i] == '+' {
      bytes := [' '];
    }
  }

  method DecodeUrl(s: string, plus: bool) returns (result: string)
    ensures result == Decode(s, plus)
  {
    result := "";
    var i := 0;
    while i < |s|
      invariant result + DecodeFrom(s, i, plus) == Decode(s, plus)
      decreases |s| - i
    {
      var bytes, next := DecodeHere(s, i, plus);
      Regroup(result, bytes, DecodeFrom(s, next, plus));
      result := result + bytes;
      i := next;
    }
  }

  /* ---------- Decoding undoes encoding ---------- */

  lemma HexDigitValue(n: nat)
    requires n < 16
    ensures HexValue(HexDigit(n)) == Some(n) && HexDigit(n) != 'u'
  {
  }

  // At the start of an encoded character.
  lemma DecodeOne(s: string, i: nat, c: char, plus: bool)
    requires IsByte(c) && i + |EncodeChar(c)| <= |s| && s[i..i + |EncodeChar(c)|] == EncodeChar(c)
    ensures DecodeAt(s, i, plus) == ([c], i + |EncodeChar(c)|)
  {
    var e := EncodeChar(c);
    assert s[i] == s[i..i + |e|][0] == e[0];
    if !IsPlain(c) {
      var hi, lo := c as int / 16, c as int % 16;
      assert s[i + 1] == s[i..i + |e|][1] == HexDigit(hi);
      assert s[i + 2] == s[i..i + |e|][2] == HexDigit(lo);
      HexDigitValue(hi);
      HexDigitValue(lo);
      assert HexNumber(s, i + 3, 0, hi * 16 + lo) == Some(c as int);
      assert HexNumber(s, i + 2, 1, hi) == Some(c as int);
      assert HexNumber(s, i + 1, 2, 0) == Some(c as int);
    }
  }

  lemma DecodeOneMore(s: string, i: nat, c: char, plus: bool)
    requires IsByte(c) && i + |EncodeChar(c)| <= |s| && s[i..i + |EncodeChar(c)|] == EncodeChar(c)
    ensures DecodeFrom(s, i, plus) == [c] + DecodeFrom(s, i + |EncodeChar(c)|, plus)
  {
    DecodeOne(s, i, c, plus);
  }

  lemma Middle(pre: string, e: string, post: string)
    ensures (pre + e + post)[|pre|..|pre| + |e|] == e
  {
  }

  lemma DecodeFirst(pre: string, c: char, post: string, plus: bool)
    requires IsByte(c)
    ensures var s, e := pre + EncodeChar(c) + post, EncodeChar(c);
            DecodeFrom(s, |pre|, plus) == [c] + DecodeFrom(s, |pre + e|, plus)
  {
    Middle(pre, EncodeChar(c), post);
    DecodeOneMore(pre + EncodeChar(c) + post, |pre|, c, plus);
  }

  lemma {:induction false} DecodeSuffix(pre: string, value: string, plus: bool)
    requires IsBytes(value)
    ensures DecodeFrom(pre + Encode(value), |pre|, plus) == value
    decreases |value|
  {
    if value != "" {
      DecodeSuffix(pre + EncodeChar(value[0]), value[1..], plus);
      DecodeFirst(pre, value[0], Encode(value[1..]), plus);
      Regroup(pre, EncodeChar(value[0]), Encode(value[1..]));
      assert [value[0]] + value[1..] == value;
    }
  }

  lemma DecodeEncode(value: string, plus: bool)
    requires IsBytes(value)
    ensures Decode(Encode(value), plus) == value
  {
    DecodeSuffix("", value, plus);
    assert "" + Encode(value) == Encode(value);
  }

  lemma {:induction false} EncodePlain(s: string)
    requires IsBytes(s) && forall k :: 0 <= k < |s| ==> IsPlain(s[k])
    ensures Encode(s) == s
  {
    if s != "" {
      EncodePlain(s[1..]);
      assert [s[0]] + s[1..] == s;
    }
  }

  lemma {:induction false} EncodedAlphabet(value: string)
    requires IsBytes(value)
    ensures forall k :: 0 <= k < |Encode(value)| ==> IsPlain(Encode(value)[k]) || Encode(value)[k] == '%'
  {
    if value != "" {
      EncodedAlphabet(value[1..]);
    }
  }

  /* ---------- Query text ---------- */

  type Pair = (string, string)

  // A key that the source writes as it is and reads back unchanged, and any bytes as value.
  predicate IsParam(p: Pair) {
    && p.0 != "" && IsBytes(p.0) && (forall k :: 0 <= k < |p.0| ==> IsPlain(p.0[k]))
    && IsBytes(p.1)
  }

  predicate AreParams(ps: seq<Pair>) {
    forall k :: 0 <= k < |ps| ==> IsParam(ps[k])
  }

  function Piece(p: Pair): string
    requires IsBytes(p.1)
  {
    p.0 + "=" + Encode(p.1)
  }

  function ToQuery(ps: seq<Pair>): string
    requires forall k :: 0 <= k < |ps| ==> IsBytes(ps[k].1)
  {
    if |ps| == 0 then "" else if |ps| == 1 then Piece(ps[0]) else Piece(ps[0]) + "&" + ToQuery(ps[1..])
  }

  function ParseQuery(s: string): seq<Pair> {
    Pairs(Split(s, '&'), {}, x => Decode(x, true))
  }

  // Every pair once, where it first stands.
  function Distinct(ps: seq<Pair>, seen: set<Pair>): seq<Pair> {
    if ps == [] then []
    else if ps[0] in seen then Distinct(ps[1..], seen)
    else [ps[0]] + Distinct(ps[1..], seen + {ps[0]})
  }

  lemma {:induction false} DistinctIs(ps: seq<Pair>, seen: set<Pair>)
    ensures forall p :: p in Distinct(ps, seen) <==> p in ps && p !in seen
    ensures forall i, j :: 0 <= i < j < |Distinct(ps, seen)| ==> Distinct(ps, seen)[i] != Distinct(ps, seen)[j]
  {
    if ps != [] {
      DistinctIs(ps[1..], if ps[0] in seen then seen else seen + {ps[0]});
      assert ps == [ps[0]] + ps[1..];
    }
  }

  function Pieces(ps: seq<Pair>): (r: seq<string>)
    requires forall k :: 0 <= k < |ps| ==> IsBytes(ps[k].1)
  {
    if ps == [] then [] else [Piece(ps[0])] + Pieces(ps[1..])
  }

  lemma PieceAlphabet(p: Pair)
    requires IsParam(p)
    ensures forall k :: 0 <= k < |Piece(p)| ==> IsPlain(Piece(p)[k]) || Piece(p)[k] == '%' || Piece(p)[k] == '='
  {
    var e := Encode(p.1);
    EncodedAlphabet(p.1);
    assert Piece(p) == p.0 + "=" + e;
  }

  // A piece has no '&', is not trimmed, and falls apart into its key and encoded value.
  lemma PieceText(p: Pair)
    requires IsParam(p)
    ensures '&' !in Piece(p) && Segment(Piece(p)) == [Piece(p)]
  {
    PieceAlphabet(p);
    StripTrimmed(Piece(p));
  }

  lemma PieceParts(p: Pair)
    requires IsParam(p)
    ensures KeyValue(Piece(p)) == (p.0, Encode(p.1))
  {
    var e := Encode(p.1);
    EncodedAlphabet(p.1);
    StripTrimmed(p.0);
    StripTrimmed(e);
    SplitAtDelimiter(p.0, '=', e);
    SplitWhole(e, '=');
  }

  lemma PieceValue(p: Pair)
    requires IsParam(p)
    ensures Decode(p.0, true) == p.0 && Decode(Encode(p.1), true) == p.1
  {
    EncodePlain(p.0);
    DecodeEncode(p.0, true);
    DecodeEncode(p.1, true);
  }

  lemma PieceInjective(p: Pair, q: Pair)
    requires IsParam(p) && IsParam(q) && Piece(p) == Piece(q)
    ensures p == q
  {
    PieceParts(p);
    PieceParts(q);
    PieceValue(p);
    PieceValue(q);
  }

  lemma {:induction false} QuerySplits(ps: seq<Pair>)
    requires AreParams(ps)
    ensures Split(ToQuery(ps), '&') == Pieces(ps)
  {
    if |ps| >= 1 {
      PieceText(ps[0]);
      if |ps| == 1 {
        SplitWhole(Piece(ps[0]), '&');
        assert Pieces(ps[1..]) == [];
      } else {
        QuerySplits(ps[1..]);
        SplitAtDelimiter(Piece(ps[0]), '&', ToQuery(ps[1..]));
      }
    }
  }

  lemma {:induction false} PairsOfPieces(ps: seq<Pair>, seen: set<Pair>, texts: set<string>, f: string -> string)
    requires AreParams(ps) && forall x :: f(x) == Decode(x, true)
    requires forall p :: IsParam(p) ==> (p in seen <==> Piece(p) in texts)
    ensures Pairs(Pieces(ps), texts, f) == Distinct(ps, seen)
  {
    if ps != [] {
      var p, rest := ps[0], ps[1..];
      if p in seen {
        PairsOfPieces(rest, seen, texts, f);
      } else {
        PieceParts(p);
        PieceValue(p);
        forall q | IsParam(q)
          ensures q in seen + {p} <==> Piece(q) in texts + {Piece(p)}
        {
          if Piece(q) == Piece(p) {
            PieceInjective(p, q);
          }
        }
        PairsOfPieces(rest, seen + {p}, texts + {Piece(p)}, f);
      }
    }
  }

  // Writing parameters as query text and reading it back gives every distinct pair once, in order.
  lemma QueryRoundTrip(ps: seq<Pair>)
    requires AreParams(ps)
    ensures ParseQuery(ToQuery(ps)) == Distinct(ps, {})
  {
    QuerySplits(ps);
    PairsOfPieces(ps, {}, {}, x => Decode(x, true));
  }

  // The text still to be written for the parameters `ps`.
  function Unwritten(ps: seq<Pair>, first: bool): string
    requires forall k :: 0 <= k < |ps| ==> IsBytes(ps[k].1)
  {
    if ps == [] then "" else (if first then "" else "&") + ToQuery(ps)
  }

  lemma WriteOne(query: string, ps: seq<Pair>, first: bool)
    requires ps != [] && forall k :: 0 <= k < |ps| ==> IsBytes(ps[k].1)
    ensures query + Unwritten(ps, first)
            == query + (if first then "" else "&") + ps[0].0 + "=" + Encode(ps[0].1) + Unwritten(ps[1..], false)
  {
    var sep := if first then "" else "&";
    assert ToQuery(ps) == Piece(ps[0]) + Unwritten(ps[1..], false);
    Reassociate(query, sep, ps[0].0, Encode(ps[0].1), Unwritten(ps[1..], false));
    assert Unwritten(ps, first) == sep + ToQuery(ps);
  }

  lemma Reassociate(query: string, sep: string, key: string, value: string, rest: string)
    ensures query + (sep + (key + "=" + value + rest)) == query + sep + key + "=" + value + rest
  {
    Regroup(query, sep, key + "=" + value + rest);
    Regroup(query + sep, key + "=" + value, rest);
    Regroup(query + sep, key + "=", value);
    Regroup(query + sep, key, "=");
  }

  method ParamsToQueryStr(params: seq<Pair>) returns (query: string)
    requires forall k :: 0 <= k < |params| ==> IsBytes(params[k].1)
    ensures query == ToQuery(params)
  {
    query := "";
    var i := 0;
    while i < |params|
      invariant 0 <= i <= |params|
      invariant query + Unwritten(params[i..], i == 0) == ToQuery(params)
    {
      ghost var todo := params[i..];
      assert todo[0] == params[i] && todo[1..] == params[i + 1..];
      WriteOne(query, todo, i == 0);
      var value := EncodeQueryParam(params[i].1);
      query := query + (if i != 0 then "&" else "") + params[i].0 + "=" + value;
      i := i + 1;
    }
  }

  method ParseQueryText(s: string) returns (params: seq<Pair>)
    ensures params == ParseQuery(s)
  {
    params := ParsePairs(s, '&', x => Decode(x, true));
  }
}
