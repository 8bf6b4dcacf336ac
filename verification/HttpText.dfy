/**
 Text helpers shared by the HTTP message code: first occurrence, trimming and splitting.
 */
module HttpText {
  import opened Common

  const CRLF: string := "\r\n"

  // No header line is longer.
  const HEADER_MAX_LENGTH := 8192

  // White space as the C library has it.
  predicate IsSpace(c: char) {
    c == ' ' || 9 <= c as int <= 13
  }

  // The text that arrives in pieces.
  function Flatten(pieces: seq<string>): string {
    if pieces == [] then "" else pieces[0] + Flatten(pieces[1..])
  }

  /* ---------- First occurrence ---------- */

  predicate OccursAt(s: string, t: string, i: nat) {
    i + |t| <= |s| && s[i..i + |t|] == t
  }

  function FindFrom(s: string, t: string, i: nat): (r: nat)
    requires i <= |s|
    ensures i <= r <= |s| && (r < |s| ==> r + |t| <= |s|)
    decreases |s| - i
  {
    if i == |s| || OccursAt(s, t, i) then i else FindFrom(s, t, i + 1)
  }

  // The least position of `t` in `s`, or the length of `s` when it does not occur.
  function Find(s: string, t: string): (r: nat)
    ensures r <= |s| && (r < |s| ==> r + |t| <= |s|)
  {
    FindFrom(s, t, 0)
  }

  lemma {:induction false} FindFromIs(s: string, t: string, i: nat, r: nat)
    requires i <= r <= |s| && (forall j :: i <= j < r ==> !OccursAt(s, t, j)) && (r < |s| ==> OccursAt(s, t, r))
    ensures FindFrom(s, t, i) == r
    decreases r - i
  {
    if i < r {
      FindFromIs(s, t, i + 1, r);
    }
  }

  lemma {:induction false} FindFromLeast(s: string, t: string, i: nat)
    requires i <= |s|
    ensures var r := FindFrom(s, t, i);
            (r < |s| ==> OccursAt(s, t, r)) && forall j :: i <= j < r ==> !OccursAt(s, t, j)
    decreases |s| - i
  {
    if i < |s| && !OccursAt(s, t, i) {
      FindFromLeast(s, t, i + 1);
    }
  }

  lemma NoStraddle(c: string, t: string, tail: string, j: nat)
    requires t != "" && t[0] !in t[1..] && j < |c| && |c| < j + |t|
    ensures !OccursAt(c + t + tail, t, j)
  {
    var s, k := c + t + tail, |c| - j;
    assert t[k] == t[1..][k - 1] != t[0];
    assert j + |t| <= |s| ==> s[j..j + |t|][k] == s[|c|] == t[0];
  }

  // A delimiter whose first character does not come back in it is found where the text
  // before it ends, provided that text does not hold it.
  lemma FindDelimiter(c: string, t: string, tail: string)
    requires t != "" && t[0] !in t[1..]
    requires Find(c, t) == |c|
    ensures Find(c + t + tail, t) == |c|
  {
    var s := c + t + tail;
    FindFromLeast(c, t, 0);
    assert s[|c|..|c| + |t|] == t;
    forall j | 0 <= j < |c|
      ensures !OccursAt(s, t, j)
    {
      if j + |t| <= |c| {
        assert s[j..j + |t|] == c[j..j + |t|];
        assert !OccursAt(c, t, j);
      } else {
        NoStraddle(c, t, tail, j);
      }
    }
    FindFromIs(s, t, 0, |c|);
  }

  // Dropping text before the first occurrence.
  lemma FindSuffix(s: string, t: string, n: nat)
    requires n <= Find(s, t)
    ensures Find(s[n..], t) == Find(s, t) - n
  {
    var r := Find(s, t);
    FindFromLeast(s, t, 0);
    forall j: nat | j + n <= |s|
      ensures OccursAt(s[n..], t, j) == OccursAt(s, t, j + n)
    {
      assert j + n + |t| <= |s| ==> s[n..][j..j + |t|] == s[j + n..j + n + |t|];
    }
    FindFromIs(s[n..], t, 0, r - n);
  }

  // Looking into a prefix of a text.
  lemma FindInPrefix(s: string, rest: string, t: string)
    requires t != ""
    ensures var i := Find(s + rest, t);
            Find(s, t) == if i < |s + rest| && i + |t| <= |s| then i else |s|
  {
    var u := s + rest;
    var i := Find(u, t);
    FindFromLeast(u, t, 0);
    forall j: nat | j + |t| <= |s|
      ensures OccursAt(u, t, j) == OccursAt(s, t, j)
    {
      assert u[j..j + |t|] == s[j..j + |t|];
    }
    if i < |u| && i + |t| <= |s| {
      FindFromIs(s, t, 0, i);
    } else {
      FindFromIs(s, t, 0, |s|);
    }
  }

  /* ---------- Trimming ---------- */

  predicate IsBlank(c: char) {
    c == ' ' || c == '\t'
  }

  // The first position at or after `i` that is not blank.
  function LeftEdge(s: string, i: nat): (l: nat)
    requires i <= |s|
    ensures i <= l <= |s|
    decreases |s| - i
  {
    if i < |s| && IsBlank(s[i]) then LeftEdge(s, i + 1) else i
  }

  // The end of what is left of s[..i] without its trailing blanks.
  function RightEdge(s: string, i: nat): (r: nat)
    requires i <= |s|
    ensures r <= i
  {
    if i > 0 && IsBlank(s[i - 1]) then RightEdge(s, i - 1) else i
  }

  function Strip(s: string): (r: string)
    ensures |r| <= |s|
  {
    var l, r := LeftEdge(s, 0), RightEdge(s, |s|);
    if l < r then s[l..r] else ""
  }

  lemma {:induction false} LeftEdgeIs(s: string, i: nat, l: nat)
    requires i <= l <= |s| && (forall k :: i <= k < l ==> IsBlank(s[k])) && (l < |s| ==> !IsBlank(s[l]))
    ensures LeftEdge(s, i) == l
    decreases l - i
  {
    if i < l {
      LeftEdgeIs(s, i + 1, l);
    }
  }

  lemma {:induction false} RightEdgeIs(s: string, i: nat, r: nat)
    requires r <= i <= |s| && (forall k :: r <= k < i ==> IsBlank(s[k])) && (r > 0 ==> !IsBlank(s[r - 1]))
    ensures RightEdge(s, i) == r
  {
    if r < i {
      RightEdgeIs(s, i - 1, r);
    }
  }

  lemma StripIs(s: string, l: nat, r: nat)
    requires l <= |s| && r <= |s|
    requires (forall k :: 0 <= k < l ==> IsBlank(s[k])) && (l < |s| ==> !IsBlank(s[l]))
    requires (forall k :: r <= k < |s| ==> IsBlank(s[k])) && (r > 0 ==> !IsBlank(s[r - 1]))
    ensures Strip(s) == if l < r then s[l..r] else ""
  {
    LeftEdgeIs(s, 0, l);
    RightEdgeIs(s, |s|, r);
  }

  predicate Trimmed(s: string) {
    s == "" || (!IsBlank(s[0]) && !IsBlank(s[|s| - 1]))
  }

  lemma StripTrimmed(s: string)
    requires Trimmed(s)
    ensures Strip(s) == s && Strip([' '] + s) == s
  {
    StripIs(s, 0, |s|);
    var t := [' '] + s;
    StripIs(t, 1, if s == "" then 0 else |t|);
    assert t[1..] == s;
  }

  lemma SliceOfSlice(b: string, left: nat, right: nat, l: nat, r: nat)
    requires left <= l <= r <= right <= |b|
    ensures b[left..right][l - left..r - left] == b[l..r]
  {
    var inner, direct := b[left..right][l - left..r - left], b[l..r];
    forall k | 0 <= k < r - l
      ensures inner[k] == direct[k]
    {
      assert inner[k] == b[left..right][l - left + k] == b[l + k];
    }
  }

  lemma StripRange(b: string, left: nat, right: nat, l: nat, r: nat)
    requires left <= l <= right <= |b| && left <= r <= right
    requires (forall k :: left <= k < l ==> IsBlank(b[k])) && (l < right ==> !IsBlank(b[l]))
    requires (forall k :: r <= k < right ==> IsBlank(b[k])) && (r > left ==> !IsBlank(b[r - 1]))
    ensures Strip(b[left..right]) == if l < r then b[l..r] else ""
  {
    var s := b[left..right];
    forall k | 0 <= k < l - left
      ensures IsBlank(s[k])
    {
      assert s[k] == b[left + k];
    }
    forall k | r - left <= k < |s|
      ensures IsBlank(s[k])
    {
      assert s[k] == b[left + k];
    }
    StripIs(s, l - left, r - left);
    if l < r {
      SliceOfSlice(b, left, right, l, r);
    }
  }

  // The two scans of the source over one segment [left, right) of a larger buffer.
  method TrimRange(b: string, left: nat, right: nat) returns (l: nat, r: nat)
    requires left <= right <= |b|
    requires left > 0 ==> !IsBlank(b[left - 1])
    requires right < |b| ==> !IsBlank(b[right])
    ensures l < r <==> Strip(b[left..right]) != ""
    ensures l < r ==> r <= |b| && b[l..r] == Strip(b[left..right])
  {
    l, r := left, right;
    while l < |b| && IsBlank(b[l])
      invariant left <= l <= right && forall k :: left <= k < l ==> IsBlank(b[k])
    {
      l := l + 1;
    }
    while r > 0 && IsBlank(b[r - 1])
      invariant left <= r <= right && forall k :: r <= k < right ==> IsBlank(b[k])
    {
      r := r - 1;
    }
    StripRange(b, left, right, l, r);
  }

  /* ---------- Splitting ---------- */

  function Segment(s: string): seq<string> {
    if Strip(s) == "" then [] else [Strip(s)]
  }

  // The first position of `d` at or after `i`.
  function IndexFrom(s: string, d: char, i: nat): (r: nat)
    requires i <= |s|
    ensures i <= r <= |s|
    decreases |s| - i
  {
    if i == |s| || s[i] == d then i else IndexFrom(s, d, i + 1)
  }

  lemma {:induction false} IndexFromIs(s: string, d: char, i: nat, r: nat)
    requires i <= r <= |s| && (forall k :: i <= k < r ==> s[k] != d) && (r < |s| ==> s[r] == d)
    ensures IndexFrom(s, d, i) == r
    decreases r - i
  {
    if i < r {
      IndexFromIs(s, d, i + 1, r);
    }
  }

  // The trimmed, non-empty segments between the delimiters.
  function Split(s: string, d: char): seq<string> {
    var i := IndexFrom(s, d, 0);
    if i < |s| then Segment(s[..i]) + Split(s[i + 1..], d) else Segment(s)
  }

  lemma SplitAtDelimiter(a: string, d: char, tail: string)
    requires d !in a
    ensures Split(a + [d] + tail, d) == Segment(a) + Split(tail, d)
  {
    var s := a + [d] + tail;
    IndexFromIs(s, d, 0, |a|);
    assert s[..|a|] == a && s[|a| + 1..] == tail;
  }

  lemma SplitWhole(a: string, d: char)
    requires d !in a
    ensures Split(a, d) == Segment(a)
  {
    IndexFromIs(a, d, 0, |a|);
  }

  // One segment of the scan, handed on when it is not empty.
  method Emit(s: string, beg: nat, i: nat) returns (r: seq<string>)
    requires beg <= i <= |s| && (beg > 0 ==> !IsBlank(s[beg - 1])) && (i < |s| ==> !IsBlank(s[i]))
    ensures r == Segment(s[beg..i])
  {
    var l, e := TrimRange(s, beg, i);
    r := if l < e then [s[l..e]] else [];
  }

  lemma Cut(s: string, beg: nat, i: nat)
    requires beg <= i < |s|
    ensures s[beg..] == s[beg..i] + [s[i]] + s[i + 1..]
  {
  }

  lemma Regroup4(a: string, b: string, c: string, d: string)
    ensures a + (b + c + d) == a + b + c + d
  {
  }

  // The segments handed on so far, and those of the text from `beg` on, are those of the whole.
  ghost predicate SplitSoFar(s: string, d: char, beg: nat, i: nat, r: seq<string>) {
    && beg <= i <= |s|
    && (forall k :: beg <= k < i ==> s[k] != d)
    && r + Split(s[beg..], d) == Split(s, d)
  }

  lemma SplitStep(s: string, d: char, beg: nat, i: nat, r: seq<string>)
    requires SplitSoFar(s, d, beg, i, r) && i < |s| && s[i] == d
    ensures SplitSoFar(s, d, i + 1, i + 1, r + Segment(s[beg..i]))
  {
    Cut(s, beg, i);
    SplitAtDelimiter(s[beg..i], d, s[i + 1..]);
    Regroup(r, Segment(s[beg..i]), Split(s[i + 1..], d));
  }

  lemma SplitLast(s: string, d: char, beg: nat, r: seq<string>)
    requires SplitSoFar(s, d, beg, |s|, r)
    ensures r + Segment(s[beg..|s|]) == Split(s, d)
    ensures s == "" ==> r == Split(s, d)
  {
    assert s[beg..|s|] == s[beg..];
    SplitWhole(s[beg..], d);
  }

  // The scan of the source up to the end of the text: `r` went to the callback, and the last
  // segment, from `beg` on, is still to be handed on.
  method ScanSegments(s: string, d: char) returns (r: seq<string>, beg: nat)
    requires !IsBlank(d)
    ensures SplitSoFar(s, d, beg, |s|, r) && (beg > 0 ==> s[beg - 1] == d)
  {
    r, beg := [], 0;
    var i := 0;
    assert s[0..] == s;
    while i < |s|
      invariant SplitSoFar(s, d, beg, i, r) && (beg > 0 ==> s[beg - 1] == d)
      decreases |s| - i
    {
      r, beg := Look(s, d, beg, i, r);
      i := i + 1;
    }
  }

  // One character of the scan.
  method Look(s: string, d: char, beg: nat, i: nat, r: seq<string>) returns (r': seq<string>, beg': nat)
    requires !IsBlank(d) && SplitSoFar(s, d, beg, i, r) && i < |s| && (beg > 0 ==> s[beg - 1] == d)
    ensures SplitSoFar(s, d, beg', i + 1, r') && (beg' > 0 ==> s[beg' - 1] == d)
  {
    r', beg' := r, beg;
    if s[i] == d {
      var segment := Emit(s, beg, i);
      SplitStep(s, d, beg, i, r);
      r', beg' := r + segment, i + 1;
    }
  }

  method SplitLoop(s: string, d: char) returns (r: seq<string>)
    requires !IsBlank(d)
    ensures r == Split(s, d)
  {
    var beg;
    r, beg := ScanSegments(s, d);
    SplitLast(s, d, beg, r);
    if |s| > 0 {
      var segment := Emit(s, beg, |s|);
      r := r + segment;
    }
  }
  /* ---------- key=value lists ---------- */

  // The key is the first segment of a piece and the value its last other one.
  function KeyValue(piece: string): (string, string) {
    var parts := Split(piece, '=');
    if |parts| == 0 then ("", "")
    else if |parts| == 1 then (parts[0], "")
    else (parts[0], parts[|parts| - 1])
  }

  // The pairs of a list of pieces in order: a piece seen before, or without a key, is skipped.
  function Pairs(pieces: seq<string>, seen: set<string>, f: string -> string): seq<(string, string)> {
    if pieces == [] then []
    else if pieces[0] in seen then Pairs(pieces[1..], seen, f)
    else
      PairOf(pieces[0], f) + Pairs(pieces[1..], seen + {pieces[0]}, f)
  }

  // The pair of one piece, if it has a key.
  function PairOf(piece: string, f: string -> string): seq<(string, string)> {
    var kv := KeyValue(piece);
    if kv.0 == "" then [] else [(f(kv.0), f(kv.1))]
  }

  // The key and the value as the callback of the source assigns them, part by part.
  method AssignParts(parts: seq<string>) returns (key: string, val: string)
    requires forall k :: 0 <= k < |parts| ==> parts[k] != ""
    ensures key == (if |parts| == 0 then "" else parts[0])
    ensures val == (if |parts| <= 1 then "" else parts[|parts| - 1])
  {
    key, val := "", "";
    for i := 0 to |parts|
      invariant key == (if i == 0 then "" else parts[0])
      invariant val == (if i <= 1 then "" else parts[i - 1])
    {
      if key == "" {
        key := parts[i];
      } else {
        val := parts[i];
      }
    }
  }

  lemma {:induction false} SplitNonEmpty(s: string, d: char)
    ensures forall k :: 0 <= k < |Split(s, d)| ==> Split(s, d)[k] != ""
    decreases |s|
  {
    var i := IndexFrom(s, d, 0);
    if i < |s| {
      SplitNonEmpty(s[i + 1..], d);
      AllNonEmpty(Segment(s[..i]), Split(s[i + 1..], d));
    }
  }

  lemma AllNonEmpty(a: seq<string>, b: seq<string>)
    requires (forall k :: 0 <= k < |a| ==> a[k] != "") && (forall k :: 0 <= k < |b| ==> b[k] != "")
    ensures forall k :: 0 <= k < |a + b| ==> (a + b)[k] != ""
  {
  }

  method ParsePiece(piece: string, f: string -> string) returns (pair: seq<(string, string)>)
    ensures pair == PairOf(piece, f)
  {
    var parts := SplitLoop(piece, '=');
    SplitNonEmpty(piece, '=');
    var key, val := AssignParts(parts);
    pair := if key != "" then [(f(key), f(val))] else [];
  }

  method ParsePairs(s: string, d: char, f: string -> string) returns (params: seq<(string, string)>)
    requires !IsBlank(d)
    ensures params == Pairs(Split(s, d), {}, f)
  {
    var pieces := SplitLoop(s, d);
    var cache: set<string> := {};
    params := [];
    var i := 0;
    while i < |pieces|
      invariant 0 <= i <= |pieces|
      invariant params + Pairs(pieces[i..], cache, f) == Pairs(pieces, {}, f)
    {
      assert pieces[i..][0] == pieces[i] && pieces[i..][1..] == pieces[i + 1..];
      if pieces[i] !in cache {
        var pair := ParsePiece(pieces[i], f);
        Regroup(params, pair, Pairs(pieces[i + 1..], cache + {pieces[i]}, f));
        params := params + pair;
        cache := cache + {pieces[i]};
      }
      i := i + 1;
    }
  }
}
