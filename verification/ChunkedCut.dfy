/**
 What the chunked reader makes of streams that break off or are malformed, and of trailers.
 */
module ChunkedCut {
  import opened Common
  import opened HttpText
  import opened Chunked
  import Query

  /* ---------- Streams that break off or are malformed ---------- */

  ghost predicate IsPrefixOf(s: string, whole: string) {
    |s| <= |whole| && s == whole[..|s|]
  }

  // The reader has refused the stream behind this body.
  ghost predicate Refused(o: Outcome, body: string) {
    !o.ok && o.body == body
  }

  lemma NoLineBreak(s: string)
    requires '\n' !in s
    ensures GetLine(s) == if s == "" then None else Some(Line(s, ""))
  {
    IndexFromIs(s, '\n', 0, |s|);
  }

  // A stream that ends inside a size line.
  lemma CutInSize(s: string, body: string, max: nat)
    requires '\n' !in s
    ensures Refused(ReadChunks(s, body, max), body)
  {
    NoLineBreak(s);
    assert body + "" == body;
    if s != "" {
      assert GetLine("") == None;
    }
  }

  lemma SizePlain(n: nat)
    ensures '\n' !in HexOf(n) && '\0' !in HexOf(n)
  {
    HexText(n);
  }

  lemma SizeRead(p: string, after: string, max: nat)
    requires 0 < |p| < max
    ensures GetLine(HexOf(|p|) + (CRLF + after)) == Some(Line(HexOf(|p|) + CRLF, after))
    ensures StrToUl(CString(HexOf(|p|) + CRLF), max) == Some(|p|)
  {
    SizePlain(|p|);
    LineOf(HexOf(|p|), after);
    NoTerminator(HexOf(|p|) + CRLF);
    SizeLine(|p|, max);
  }

  // A stream that ends inside a payload: what there is of it is handed on.
  lemma CutInPayload(p: string, part: string, body: string, max: nat)
    requires 0 < |p| < max && |part| < |p|
    ensures Refused(ReadChunks(HexOf(|p|) + (CRLF + part), body, max), body + part)
  {
    SizeRead(p, part, max);
  }

  lemma CrlfStarts(s: string)
    requires s != "" && IsCrlf(GetLine(s).value.text)
    ensures |s| >= 2 && s[..2] == CRLF
  {
    var text := GetLine(s).value.text;
    assert CString(text)[0] == text[0] && CString(text)[1] == text[1];
    assert s[..2][0] == text[0] && s[..2][1] == text[1];
  }

  lemma StartsCrlf(s: string)
    requires |s| >= 2 && s[..2] == CRLF
    ensures GetLine(s) == Some(Line(CRLF, s[2..])) && IsCrlf(CRLF)
  {
    assert s == "" + (CRLF + s[2..]) && "" + CRLF == CRLF;
    LineOf("", s[2..]);
    NoTerminator(CRLF);
  }

  // The text up to a line feed is a line break of its own only if it is one.
  lemma CrlfLine(s: string)
    requires s != ""
    ensures IsCrlf(GetLine(s).value.text) <==> |s| >= 2 && s[..2] == CRLF
  {
    if IsCrlf(GetLine(s).value.text) {
      CrlfStarts(s);
    }
    if |s| >= 2 && s[..2] == CRLF {
      StartsCrlf(s);
    }
  }

  // A payload without a line break behind it is never accepted.
  lemma NoCrlfBehind(p: string, x: string, body: string, max: nat)
    requires 0 < |p| < max && !(|x| >= 2 && x[..2] == CRLF)
    ensures Refused(ReadChunks(HexOf(|p|) + (CRLF + (p + x)), body, max), body + p)
  {
    SizeRead(p, p + x, max);
    assert (p + x)[..|p|] == p && (p + x)[|p|..] == x;
    if x != "" {
      CrlfLine(x);
    }
  }

  lemma NoHexDigit(s: string, max: nat)
    requires forall k :: 0 <= k < |s| ==> Query.HexValue(s[k]).None?
    ensures StrToUl(s, max).None?
  {
  }

  // A size line without a hexadecimal digit is never accepted.
  lemma NoSize(line: string, after: string, body: string, max: nat)
    requires '\n' !in line && forall k :: 0 <= k < |line| ==> Query.HexValue(line[k]).None?
    ensures Refused(ReadChunks(line + (CRLF + after), body, max), body)
  {
    LineOf(line, after);
    var text := line + CRLF;
    assert forall k :: 0 <= k < |text| ==> Query.HexValue(text[k]).None?;
    NoHexDigit(CString(text), max);
  }

  /* ----- Every proper prefix ----- */

  lemma PrefixBehind(s: string, pre: string, tail: string)
    requires IsPrefixOf(s, pre + tail) && |pre| <= |s|
    ensures s == pre + s[|pre|..] && IsPrefixOf(s[|pre|..], tail)
  {
    assert s[..|pre|] == (pre + tail)[..|pre|] == pre;
    assert s[|pre|..] == (pre + tail)[..|s|][|pre|..] == tail[..|s| - |pre|];
  }

  lemma ShortPrefix(s: string, pre: string, tail: string)
    requires IsPrefixOf(s, pre + tail) && |s| <= |pre|
    ensures IsPrefixOf(s, pre)
  {
    assert (pre + tail)[..|s|] == pre[..|s|];
  }

  // Inside the size line with its carriage return.
  lemma CutHead(s: string, h: string, tail: string)
    requires '\n' !in h && IsPrefixOf(s, h + (CRLF + tail)) && |s| < |h| + 2
    ensures '\n' !in s
  {
    var whole := h + (CRLF + tail);
    forall k | 0 <= k < |s|
      ensures s[k] != '\n'
    {
      assert s[k] == whole[k];
      assert k == |h| ==> whole[k] == CRLF[0];
    }
  }

  lemma CutAtPayload(t: string, p: string, rest: string)
    requires IsPrefixOf(t, p + (CRLF + rest)) && |t| < |p| + 2
    ensures if |t| < |p| then t == p[..|t|] else t == p + t[|p|..] && t[|p|..] == CRLF[..|t| - |p|]
  {
    if |t| < |p| {
      ShortPrefix(t, p, CRLF + rest);
    } else {
      PrefixBehind(t, p, CRLF + rest);
      ShortPrefix(t[|p|..], CRLF, rest);
    }
  }

  lemma CutChunk(s: string, p: string, rest: string, body: string, max: nat) returns (part: string)
    requires 0 < |p| < max && IsPrefixOf(s, HexOf(|p|) + (CRLF + (p + (CRLF + rest)))) && |s| < |HexOf(|p|)| + 2 + |p| + 2
    ensures IsPrefixOf(part, p) && Refused(ReadChunks(s, body, max), body + part)
  {
    var h := HexOf(|p|);
    HexText(|p|);
    if |s| < |h| + 2 {
      part := "";
      CutHead(s, h, p + (CRLF + rest));
      CutInSize(s, body, max);
    } else {
      PrefixBehind(s, h, CRLF + (p + (CRLF + rest)));
      PrefixBehind(s[|h|..], CRLF, p + (CRLF + rest));
      var t := s[|h|..][2..];
      CutAtPayload(t, p, rest);
      if |t| < |p| {
        part := t;
        CutInPayload(p, t, body, max);
      } else {
        part := p;
        NoCrlfBehind(p, t[|p|..], body, max);
      }
    }
  }

  lemma EndRead(after: string, body: string, max: nat)
    requires 0 < max
    ensures ReadChunks("0" + (CRLF + after), body, max) == ReadTrailers(after, body, [])
  {
    LineOf("0", after);
    NoTerminator("0" + CRLF);
    SizeLine(0, max);
    assert HexOf(0) == "0";
  }

  lemma CutTrailer(t: string, body: string)
    requires '\n' !in t && |t| < 2 && (t != "" ==> t[0] == '\r')
    ensures Refused(ReadTrailers(t, body, []), body)
  {
    NoLineBreak(t);
    if t != "" {
      NoCrlf(t);
      assert ReadTrailers("", body, [t]) == Outcome(false, body, [t], "");
    }
  }

  lemma NoCrlf(t: string)
    requires |t| == 1 && t[0] == '\r'
    ensures !IsCrlf(t)
  {
    NoTerminator(t);
  }

  // Inside the end marker.
  lemma CutEnd(s: string, body: string, max: nat)
    requires 0 < max && IsPrefixOf(s, "0" + (CRLF + CRLF)) && |s| < 5
    ensures Refused(ReadChunks(s, body, max), body)
  {
    if |s| < 3 {
      CutHead(s, "0", CRLF);
      CutInSize(s, body, max);
    } else {
      PrefixBehind(s, "0", CRLF + CRLF);
      PrefixBehind(s[1..], CRLF, CRLF);
      var t := s[1..][2..];
      CutHead(t, "", "");
      assert t != "" ==> t[0] == CRLF[0];
      EndRead(t, body, max);
      CutTrailer(t, body);
    }
  }

  // A stream that ends anywhere before the end of what was written is refused, and what is handed on
  // until then is a prefix of what was written.
  lemma {:induction false} CutAnywhere(writes: seq<string>, s: string, body: string, max: nat) returns (part: string)
    requires 0 < max && forall k :: 0 <= k < |writes| ==> 0 < |writes[k]| < max
    requires IsPrefixOf(s, Encoded(writes)) && s != Encoded(writes)
    ensures IsPrefixOf(part, Flatten(writes)) && Refused(ReadChunks(s, body, max), body + part)
    decreases |writes|
  {
    if writes == [] {
      part := "";
      assert Encoded(writes) == "0" + (CRLF + CRLF);
      CutEnd(s, body, max);
      assert body + "" == body;
    } else {
      var p, rest := writes[0], writes[1..];
      assert [p] + rest == writes;
      EncodedText(p, rest, "");
      assert Encoded(writes) + "" == Encoded(writes) && Encoded(rest) + "" == Encoded(rest);
      part := CutFrom(writes, p, rest, s, body, max);
    }
  }

  lemma {:induction false} CutFrom(writes: seq<string>, p: string, rest: seq<string>, s: string, body: string, max: nat) returns (part: string)
    requires 0 < max && (forall k :: 0 <= k < |writes| ==> 0 < |writes[k]| < max) && writes == [p] + rest
    requires Encoded(writes) == HexOf(|p|) + (CRLF + (p + (CRLF + Encoded(rest))))
    requires IsPrefixOf(s, Encoded(writes)) && s != Encoded(writes)
    ensures IsPrefixOf(part, Flatten(writes)) && Refused(ReadChunks(s, body, max), body + part)
    decreases |writes|, 0
  {
    var h, n := HexOf(|p|), |HexOf(|p|)| + 2 + |p| + 2;
    assert Flatten(writes) == p + Flatten(rest);
    if |s| < n {
      part := CutChunk(s, p, Encoded(rest), body, max);
      assert part == (p + Flatten(rest))[..|part|];
    } else {
      var t := BehindChunk(s, h, p, Encoded(rest));
      OneChunk(p, body, t, max);
      var more := CutAnywhere(rest, t, body + p, max);
      part := p + more;
      Regroup(body, p, more);
      assert part == (p + Flatten(rest))[..|part|];
    }
  }

  lemma BehindChunk(s: string, h: string, p: string, rest: string) returns (t: string)
    requires IsPrefixOf(s, h + (CRLF + (p + (CRLF + rest)))) && s != h + (CRLF + (p + (CRLF + rest))) && |s| >= |h| + 2 + |p| + 2
    ensures s == h + (CRLF + (p + (CRLF + t))) && IsPrefixOf(t, rest) && t != rest
  {
    PrefixBehind(s, h, CRLF + (p + (CRLF + rest)));
    PrefixBehind(s[|h|..], CRLF, p + (CRLF + rest));
    PrefixBehind(s[|h|..][2..], p, CRLF + rest);
    PrefixBehind(s[|h|..][2..][|p|..], CRLF, rest);
    t := s[|h|..][2..][|p|..][2..];
  }

  // The reader accepts a beginning of what was written only if it is all of it.
  lemma AcceptedWhole(writes: seq<string>, s: string, max: nat)
    requires 0 < max && forall k :: 0 <= k < |writes| ==> 0 < |writes[k]| < max
    requires IsPrefixOf(s, Encoded(writes))
    ensures ReadChunks(s, "", max).ok <==> s == Encoded(writes)
    ensures IsPrefixOf(ReadChunks(s, "", max).body, Flatten(writes))
  {
    if s == Encoded(writes) {
      RoundTrip(writes, "", max);
      assert s + "" == s;
    } else {
      var part := CutAnywhere(writes, s, "", max);
      assert "" + part == part;
    }
  }

  /* ---------- Trailers ---------- */

  function TrailerText(lines: seq<string>): string {
    if lines == [] then CRLF else lines[0] + (CRLF + TrailerText(lines[1..]))
  }

  function Ended(lines: seq<string>): (r: seq<string>)
    ensures |r| == |lines|
  {
    seq(|lines|, i requires 0 <= i < |lines| => lines[i] + CRLF)
  }

  ghost predicate IsTrailer(line: string) {
    line != "" && '\n' !in line && line[0] != '\r' && |line| + 2 <= HEADER_MAX_LENGTH
  }

  lemma FirstTwo(line: string, rest: string)
    requires line != "" && line[0] != '\r'
    ensures (line + (CRLF + rest))[..2] != CRLF
  {
    assert (line + (CRLF + rest))[..2][0] == line[0];
  }

  lemma TrailerRead(line: string, rest: string, body: string, before: seq<string>)
    requires IsTrailer(line)
    ensures ReadTrailers(line + (CRLF + rest), body, before) == ReadTrailers(rest, body, before + [line + CRLF])
  {
    LineOf(line, rest);
    FirstTwo(line, rest);
    CrlfLine(line + (CRLF + rest));
  }

  lemma BlankRead(rest: string, body: string, before: seq<string>)
    ensures ReadTrailers(CRLF + rest, body, before) == Outcome(true, body, before, rest)
  {
    assert (CRLF + rest)[..2] == CRLF && (CRLF + rest)[2..] == rest;
    StartsCrlf(CRLF + rest);
  }

  lemma {:induction false} TrailersRead(lines: seq<string>, body: string, before: seq<string>, tail: string)
    requires forall k :: 0 <= k < |lines| ==> IsTrailer(lines[k])
    ensures ReadTrailers(TrailerText(lines) + tail, body, before) == Outcome(true, body, before + Ended(lines), tail)
    decreases |lines|
  {
    if lines == [] {
      BlankRead(tail, body, before);
      assert before + Ended(lines) == before;
    } else {
      var rest := TrailerText(lines[1..]) + tail;
      assert TrailerText(lines) + tail == lines[0] + (CRLF + rest);
      TrailerRead(lines[0], rest, body, before);
      TrailersRead(lines[1..], body, before + [lines[0] + CRLF], tail);
      assert before + [lines[0] + CRLF] + Ended(lines[1..]) == before + Ended(lines);
    }
  }

  // Trailer lines come back as they were written, and nothing behind the blank line is touched.
  lemma TrailersKept(lines: seq<string>, body: string, tail: string, max: nat)
    requires 0 < max && forall k :: 0 <= k < |lines| ==> IsTrailer(lines[k])
    ensures ReadChunks("0" + (CRLF + (TrailerText(lines) + tail)), body, max) == Outcome(true, body, Ended(lines), tail)
  {
    EndRead(TrailerText(lines) + tail, body, max);
    TrailersRead(lines, body, [], tail);
    assert [] + Ended(lines) == Ended(lines);
  }

  lemma TrailerStops(s: string, text: string, rest: string, body: string)
    requires GetLine(s) == Some(Line(text, rest)) && !IsCrlf(text) && |text| > HEADER_MAX_LENGTH
    ensures Refused(ReadTrailers(s, body, []), body)
  {
  }

  // A trailer line over the limit is refused.
  lemma TrailerTooLong(line: string, body: string, tail: string, max: nat)
    requires 0 < max && '\n' !in line && |line| + 2 > HEADER_MAX_LENGTH && line[0] != '\r'
    ensures Refused(ReadChunks("0" + (CRLF + (line + (CRLF + tail))), body, max), body)
  {
    var s := line + (CRLF + tail);
    EndRead(s, body, max);
    LineOf(line, tail);
    FirstTwo(line, tail);
    CrlfLine(s);
    TrailerStops(s, line + CRLF, tail, body);
  }
}
