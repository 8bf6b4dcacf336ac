/**
 The chunked transfer coding as functions of the plain byte stream, and the round trip.
 */
module Chunked {
  import opened Common
  import opened HttpText
  import Query

  /* ---------- Chunk sizes ---------- */

  function LowerHexDigit(n: nat): (c: char)
    requires n < 16
    ensures Query.HexValue(c) == Some(n)
  {
    if n < 10 then ('0' as int + n) as char else ('a' as int + n - 10) as char
  }

  function HexOf(n: nat): (s: string)
    ensures s != ""
  {
    if n < 16 then [LowerHexDigit(n)] else HexOf(n / 16) + [LowerHexDigit(n % 16)]
  }

  // The loop of the source puts one digit in front of the others at a time.
  method FromIToHex(n: nat) returns (ret: string)
    ensures ret == HexOf(n)
  {
    ret := [LowerHexDigit(n % 16)];
    var k: nat := n / 16;
    assert HexOf(n) == if k == 0 then ret else HexOf(k) + ret;
    while k > 0
      invariant HexOf(n) == if k == 0 then ret else HexOf(k) + ret
    {
      ghost var was := ret;
      ret := [LowerHexDigit(k % 16)] + ret;
      if k >= 16 {
        assert HexOf(k / 16) + [LowerHexDigit(k % 16)] + was == HexOf(k / 16) + ret;
      }
      k := k / 16;
    }
  }

  function SkipSpaces(s: string, i: nat): (r: nat)
    requires i <= |s|
    ensures i <= r <= |s|
    decreases |s| - i
  {
    if i < |s| && IsSpace(s[i]) then SkipSpaces(s, i + 1) else i
  }

  function ScanHex(s: string, i: nat, val: nat): nat
    decreases |s| - i
  {
    if i < |s| && Query.HexValue(s[i]).Some? then ScanHex(s, i + 1, val * 16 + Query.HexValue(s[i]).value) else val
  }

  // The C conversion with base 16: blanks, a sign, 0x, digits; `max` is the largest value of the type.
  function StrToUl(s: string, max: nat): Option<nat> {
    var i := SkipSpaces(s, 0);
    var negative := i < |s| && s[i] == '-';
    var j := if i < |s| && (s[i] == '-' || s[i] == '+') then i + 1 else i;
    var k := if j + 2 < |s| && s[j] == '0' && (s[j + 1] == 'x' || s[j + 1] == 'X') && Query.HexValue(s[j + 2]).Some? then j + 2 else j;
    if k >= |s| || Query.HexValue(s[k]).None? then None else
    var v := ScanHex(s, k, 0);
    Some(if v > max then max else if negative && v > 0 then max + 1 - v else v)
  }

  // The text up to its terminator, as the C functions see it.
  function CString(s: string): string {
    s[..IndexFrom(s, '\0', 0)]
  }

  /* ---------- Reading ---------- */

  datatype Line = Line(text: string, rest: string)

  // The next line with its line feed, or what is left of the stream; None at its end.
  function GetLine(s: string): (r: Option<Line>)
    ensures r.Some? ==> |r.value.rest| < |s|
  {
    if s == "" then None else
    var i := IndexFrom(s, '\n', 0);
    if i < |s| then Some(Line(s[..i + 1], s[i + 1..])) else Some(Line(s, ""))
  }

  // What a reader has handed on, and what it has left in the stream.
  datatype Outcome = Outcome(ok: bool, body: string, trailers: seq<string>, rest: string)

  predicate IsCrlf(text: string) {
    CString(text) == CRLF
  }

  // Trailer lines up to the blank line.
  function ReadTrailers(s: string, body: string, trailers: seq<string>): Outcome
    decreases |s|
  {
    var l := GetLine(s);
    if l.None? then Outcome(false, body, trailers, s)
    else if IsCrlf(l.value.text) then Outcome(true, body, trailers, l.value.rest)
    else if |l.value.text| > HEADER_MAX_LENGTH then Outcome(false, body, trailers, l.value.rest)
    else ReadTrailers(l.value.rest, body, trailers + [l.value.text])
  }

  function ReadChunks(s: string, body: string, max: nat): Outcome
    decreases |s|
  {
    var l := GetLine(s);
    if l.None? then Outcome(false, body, [], s) else
    var n := StrToUl(CString(l.value.text), max);
    if n.None? || n.value == max then Outcome(false, body, [], l.value.rest)
    else if n.value == 0 then ReadTrailers(l.value.rest, body, [])
    else if |l.value.rest| < n.value then Outcome(false, body + l.value.rest, [], "")
    else
      var body', rest := body + l.value.rest[..n.value], l.value.rest[n.value..];
      var e := GetLine(rest);
      if e.None? then Outcome(false, body', [], rest)
      else if !IsCrlf(e.value.text) then Outcome(false, body', [], e.value.rest)
      else ReadChunks(e.value.rest, body', max)
  }

  /* ---------- Writing ---------- */

  function Chunk(payload: string): string {
    HexOf(|payload|) + CRLF + payload + CRLF
  }

  function Chunks(writes: seq<string>): string {
    if writes == [] then "" else (if writes[0] == "" then "" else Chunk(writes[0])) + Chunks(writes[1..])
  }

  // The wire text of non-empty writes followed by `done`.
  function Encoded(writes: seq<string>): string {
    Chunks(writes) + ("0" + CRLF + CRLF)
  }

  /* ---------- The round trip ---------- */

  lemma {:induction false} ScanHexOf(pre: string, n: nat, tail: string)
    ensures ScanHex(pre + HexOf(n) + tail, |pre|, 0) == ScanHex(pre + HexOf(n) + tail, |pre| + |HexOf(n)|, n)
    decreases n
  {
    var s := pre + HexOf(n) + tail;
    if n < 16 {
      assert s[|pre|] == LowerHexDigit(n);
    } else {
      var d := [LowerHexDigit(n % 16)];
      ScanHexOf(pre, n / 16, d + tail);
      assert s == pre + HexOf(n / 16) + (d + tail);
      assert s[|pre| + |HexOf(n / 16)|] == d[0];
    }
  }

  lemma {:induction false} HexText(n: nat)
    ensures forall k :: 0 <= k < |HexOf(n)| ==> Query.HexValue(HexOf(n)[k]).Some?
    ensures n > 0 ==> HexOf(n)[0] != '0'
    decreases n
  {
    if n >= 16 {
      HexText(n / 16);
    }
  }

  lemma SizeScanned(n: nat)
    ensures ScanHex(HexOf(n) + CRLF, 0, 0) == n
  {
    var h := HexOf(n);
    ScanHexOf("", n, CRLF);
    assert "" + h + CRLF == h + CRLF;
    assert (h + CRLF)[|h|] == '\r';
  }

  lemma SizeStart(n: nat)
    ensures var s := HexOf(n) + CRLF;
            && Query.HexValue(s[0]).Some? && SkipSpaces(s, 0) == 0
            && !(s[0] == '0' && (s[1] == 'x' || s[1] == 'X'))
  {
    var h := HexOf(n);
    HexText(n);
    assert (h + CRLF)[0] == h[0];
    if n == 0 {
      assert (h + CRLF)[1] == '\r';
    }
  }

  lemma PlainNumber(s: string, n: nat, max: nat)
    requires |s| >= 2 && SkipSpaces(s, 0) == 0 && Query.HexValue(s[0]).Some? && ScanHex(s, 0, 0) == n <= max
    requires !(s[0] == '0' && (s[1] == 'x' || s[1] == 'X'))
    ensures StrToUl(s, max) == Some(n)
  {
  }

  // A size line reads back as the size.
  lemma SizeLine(n: nat, max: nat)
    requires n <= max
    ensures StrToUl(HexOf(n) + CRLF, max) == Some(n)
  {
    SizeStart(n);
    SizeScanned(n);
    PlainNumber(HexOf(n) + CRLF, n, max);
  }

  lemma LineOf(text: string, tail: string)
    requires '\n' !in text
    ensures GetLine(text + (CRLF + tail)) == Some(Line(text + CRLF, tail))
  {
    var s := text + (CRLF + tail);
    IndexFromIs(s, '\n', 0, |text| + 1);
    assert s[..|text| + 2] == text + CRLF && s[|text| + 2..] == tail;
  }

  lemma NoTerminator(text: string)
    requires '\0' !in text
    ensures CString(text) == text
  {
    IndexFromIs(text, '\0', 0, |text|);
  }

  lemma RegroupChunk(h: string, e: string, p: string, c: string, l: string, t: string)
    ensures h + e + p + e + c + l + t == h + (e + (p + (e + (c + l + t))))
  {
  }

  lemma EncodedText(p: string, writes: seq<string>, tail: string)
    requires p != ""
    ensures Encoded([p] + writes) + tail == HexOf(|p|) + (CRLF + (p + (CRLF + (Encoded(writes) + tail))))
  {
    assert ([p] + writes)[1..] == writes;
    RegroupChunk(HexOf(|p|), CRLF, p, Chunks(writes), "0" + CRLF + CRLF, tail);
  }

  lemma {:induction false} ReadWrites(writes: seq<string>, body: string, tail: string, max: nat)
    requires forall k :: 0 <= k < |writes| ==> 0 < |writes[k]| < max
    requires 0 < max
    ensures ReadChunks(Encoded(writes) + tail, body, max) == Outcome(true, body + Flatten(writes), [], tail)
    decreases |writes|
  {
    if writes == [] {
      LastChunk(body, tail, max);
      assert Encoded(writes) + tail == "0" + (CRLF + (CRLF + tail));
      assert body + "" == body;
    } else {
      var p, rest := writes[0], writes[1..];
      assert [p] + rest == writes;
      EncodedText(p, rest, tail);
      OneChunk(p, body, Encoded(rest) + tail, max);
      ReadWrites(rest, body + p, tail, max);
      Regroup(body, p, Flatten(rest));
    }
  }

  lemma LastChunk(body: string, tail: string, max: nat)
    requires 0 < max
    ensures ReadChunks("0" + (CRLF + (CRLF + tail)), body, max) == Outcome(true, body, [], tail)
  {
    LineOf("0", CRLF + tail);
    NoTerminator("0" + CRLF);
    SizeLine(0, max);
    assert HexOf(0) == "0";
    LineOf("", tail);
    assert "" + (CRLF + tail) == CRLF + tail && "" + CRLF == CRLF;
    NoTerminator(CRLF);
  }

  lemma OneChunk(p: string, body: string, rest: string, max: nat)
    requires 0 < |p| < max
    ensures ReadChunks(HexOf(|p|) + (CRLF + (p + (CRLF + rest))), body, max) == ReadChunks(rest, body + p, max)
  {
    var h := HexOf(|p|);
    HexText(|p|);
    LineOf(h, p + (CRLF + rest));
    NoTerminator(h + CRLF);
    SizeLine(|p|, max);
    var after := p + (CRLF + rest);
    assert after[..|p|] == p && after[|p|..] == CRLF + rest;
    LineOf("", rest);
    assert "" + (CRLF + rest) == CRLF + rest && "" + CRLF == CRLF;
    NoTerminator(CRLF);
  }

  // Any sequence of non-empty writes followed by `done` reads back as their concatenation,
  // leaving in the stream exactly what follows.
  lemma RoundTrip(writes: seq<string>, tail: string, max: nat)
    requires forall k :: 0 <= k < |writes| ==> 0 < |writes[k]| < max
    requires 0 < max
    ensures ReadChunks(Encoded(writes) + tail, "", max) == Outcome(true, Flatten(writes), [], tail)
  {
    ReadWrites(writes, "", tail, max);
    assert "" + Flatten(writes) == Flatten(writes);
  }
}
