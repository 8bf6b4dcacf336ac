/**
 What the multipart parser makes of a serialized form whose pieces are cut inside boundary lines:
 before it has seen a whole boundary line in one piece, it forgets every piece.
 */
module MultipartCut {
  import opened Common
  import opened HttpText
  import opened Multipart
  import Query

  /* ---------- Boundary lines in the serialized form ---------- */

  // How far an item reaches in the serialized form.
  function ItemLength(item: Item, b: string): nat {
    |ItemBegin(item, b)| + |item.content| + 2
  }

  // Where the boundary line of item `k` begins.
  function Mark(items: seq<Item>, b: string, k: nat): nat
    requires k < |items|
  {
    if k == 0 then 0 else ItemLength(items[0], b) + Mark(items[1..], b, k - 1)
  }

  lemma FormTail(items: seq<Item>, b: string)
    requires items != []
    ensures var n := ItemLength(items[0], b);
            n <= |Serialize(items, b)| && Serialize(items, b)[n..] == Serialize(items[1..], b)
  {
    var p := ItemBegin(items[0], b) + (items[0].content + CRLF);
    var rest, fin := SerializeItems(items[1..], b), "--" + b + "--\r\n";
    Regroup(p, rest, fin);
    assert Serialize(items, b) == p + (rest + fin);
  }

  lemma SuffixOfSuffix(s: string, n: nat, m: nat)
    requires n + m <= |s|
    ensures s[n..][m..] == s[n + m..]
  {
  }

  lemma TextBehind(w: string, rest: string, tail: string, n: nat, m: nat)
    requires n <= |w| && w[n..] == rest && m <= |rest| && rest[m..] == tail
    ensures n + m <= |w| && w[n + m..] == tail
  {
    SuffixOfSuffix(w, n, m);
  }

  // The serialized form from the boundary line of item `k` on is that of the items from `k` on.
  ghost predicate FormFrom(items: seq<Item>, b: string, k: nat)
    requires k < |items|
  {
    Mark(items, b, k) <= |Serialize(items, b)| && Serialize(items, b)[Mark(items, b, k)..] == Serialize(items[k..], b)
  }

  lemma {:induction false} MarkText(items: seq<Item>, b: string, k: nat)
    requires k < |items|
    ensures FormFrom(items, b, k)
    decreases k
  {
    if k == 0 {
      FirstMarkText(items, b);
    } else {
      MarkText(items[1..], b, k - 1);
      NextMarkText(items, b, k);
    }
  }

  lemma FirstMarkText(items: seq<Item>, b: string)
    requires items != []
    ensures FormFrom(items, b, 0)
  {
    assert items[0..] == items;
    assert Serialize(items, b)[0..] == Serialize(items, b);
  }

  lemma NextMarkText(items: seq<Item>, b: string, k: nat)
    requires 0 < k < |items| && FormFrom(items[1..], b, k - 1)
    ensures FormFrom(items, b, k)
  {
    assert items[1..][k - 1..] == items[k..];
    FormTail(items, b);
    TextBehind(Serialize(items, b), Serialize(items[1..], b), Serialize(items[k..], b), ItemLength(items[0], b), Mark(items[1..], b, k - 1));
  }

  lemma {:induction false} MarksGrow(items: seq<Item>, b: string, j: nat, k: nat)
    requires j < k < |items|
    ensures Mark(items, b, j) < Mark(items, b, k)
    decreases j
  {
    if j > 0 {
      MarksGrow(items[1..], b, j - 1, k - 1);
    }
  }

  // Where the boundary lines begin.
  function Marks(items: seq<Item>, b: string): (ms: seq<nat>)
    ensures |ms| == |items|
  {
    seq(|items|, k requires 0 <= k < |items| => Mark(items, b, k))
  }

  // `o` stands at the positions `ms`, one behind the other, and nowhere else in `w`.
  ghost predicate StandsAt(w: string, o: string, ms: seq<nat>) {
    && (forall k :: 0 <= k < |ms| ==> OccursAt(w, o, ms[k]))
    && (forall j, k :: 0 <= j < k < |ms| ==> ms[j] < ms[k])
    && forall p: nat :: OccursAt(w, o, p) ==> p in ms
  }

  // The text of a boundary line stands nowhere but at the boundary lines.
  ghost predicate OnlyAtMarks(items: seq<Item>, b: string) {
    forall p: nat :: OccursAt(Serialize(items, b), Opening(b), p) ==> p in Marks(items, b)
  }

  lemma MarkOccurs(items: seq<Item>, b: string, k: nat)
    requires k < |items|
    ensures OccursAt(Serialize(items, b), Opening(b), Mark(items, b, k))
  {
    MarkText(items, b, k);
    SerializeText(items[k..], b);
    StartsThere(Serialize(items, b), Opening(b), Stream(items[k..], b), Mark(items, b, k));
  }

  lemma StartsThere(w: string, o: string, tail: string, p: nat)
    requires p <= |w| && w[p..] == o + tail
    ensures OccursAt(w, o, p)
  {
    assert w[p..p + |o|] == w[p..][..|o|];
  }

  lemma MarksStand(items: seq<Item>, b: string)
    requires OnlyAtMarks(items, b)
    ensures StandsAt(Serialize(items, b), Opening(b), Marks(items, b))
  {
    var ms := Marks(items, b);
    forall k | 0 <= k < |ms|
      ensures OccursAt(Serialize(items, b), Opening(b), ms[k])
    {
      MarkOccurs(items, b, k);
    }
    forall j, k | 0 <= j < k < |ms|
      ensures ms[j] < ms[k]
    {
      MarksGrow(items, b, j, k);
    }
  }

  /* ---------- Pieces ---------- */

  // The `n` bytes from position `p` on lie in one piece.
  predicate Whole(chunks: seq<string>, p: nat, n: nat) {
    chunks != [] && if p < |chunks[0]| then p + n <= |chunks[0]| else Whole(chunks[1..], p - |chunks[0]|, n)
  }

  // Of the texts of length `n` at the positions `ms` from `q` on, where the pieces begin, text `j` is
  // the first that lies in one piece; there is none if `j` is their number.
  ghost predicate FirstFrom(ms: seq<nat>, n: nat, chunks: seq<string>, q: nat, j: nat) {
    && j <= |ms|
    && (forall k :: 0 <= k < j && q <= ms[k] ==> !Whole(chunks, ms[k] - q, n))
    && (j < |ms| ==> q <= ms[j] && Whole(chunks, ms[j] - q, n))
  }

  // Item `j` is the first whose boundary line lies in one piece.
  ghost predicate FirstWhole(items: seq<Item>, b: string, chunks: seq<string>, j: nat) {
    FirstFrom(Marks(items, b), |Opening(b)|, chunks, 0, j)
  }

  lemma OccursInPiece(w: string, q: nat, chunk: string, fut: string, o: string, i: nat)
    requires q <= |w| && w[q..] == chunk + fut && i + |o| <= |chunk|
    ensures OccursAt(chunk, o, i) == OccursAt(w, o, q + i)
  {
    assert w[q + i..q + i + |o|] == w[q..][i..i + |o|] == chunk[i..i + |o|];
  }

  // The pieces are what comes from position `q` on.
  ghost predicate Ahead(w: string, chunks: seq<string>, q: nat) {
    q <= |w| && w[q..] == Flatten(chunks)
  }

  lemma AheadNext(w: string, chunks: seq<string>, q: nat)
    requires Ahead(w, chunks, q) && chunks != []
    ensures w[q..] == chunks[0] + Flatten(chunks[1..]) && Ahead(w, chunks[1..], q + |chunks[0]|)
  {
    assert |w[q..]| == |chunks[0]| + |Flatten(chunks[1..])|;
    SuffixOfSuffix(w, q, |chunks[0]|);
  }

  // A piece without a boundary line changes nothing.
  lemma StillFirst(w: string, o: string, ms: seq<nat>, chunks: seq<string>, q: nat, j: nat)
    requires StandsAt(w, o, ms) && FirstFrom(ms, |o|, chunks, q, j) && chunks != [] && Find(chunks[0], o) == |chunks[0]|
    requires q <= |w| && w[q..] == chunks[0] + Flatten(chunks[1..])
    ensures FirstFrom(ms, |o|, chunks[1..], q + |chunks[0]|, j)
  {
    FindFromLeast(chunks[0], o, 0);
    if j < |ms| && ms[j] < q + |chunks[0]| {
      OccursInPiece(w, q, chunks[0], Flatten(chunks[1..]), o, ms[j] - q);
    }
  }

  // The first boundary line in a piece is the first that lies in one piece.
  lemma EnteredAt(w: string, o: string, ms: seq<nat>, chunks: seq<string>, q: nat, j: nat)
    requires StandsAt(w, o, ms) && FirstFrom(ms, |o|, chunks, q, j) && chunks != [] && Find(chunks[0], o) < |chunks[0]|
    requires q <= |w| && w[q..] == chunks[0] + Flatten(chunks[1..])
    ensures j < |ms| && ms[j] == q + Find(chunks[0], o)
  {
    var k := FirstInPiece(w, o, ms, chunks[0], Flatten(chunks[1..]), q);
    assert Whole(chunks, ms[k] - q, |o|);
  }

  lemma FirstInPiece(w: string, o: string, ms: seq<nat>, chunk: string, fut: string, q: nat) returns (k: nat)
    requires StandsAt(w, o, ms) && Find(chunk, o) < |chunk| && q <= |w| && w[q..] == chunk + fut
    ensures k < |ms| && ms[k] == q + Find(chunk, o) && Find(chunk, o) + |o| <= |chunk|
    ensures forall j :: 0 <= j < k && q <= ms[j] ==> |chunk| < ms[j] - q + |o|
  {
    var i := Find(chunk, o);
    forall j | 0 <= j < |ms| && q <= ms[j] && ms[j] - q + |o| <= |chunk|
      ensures OccursAt(chunk, o, ms[j] - q)
    {
      OccursInPiece(w, q, chunk, fut, o, ms[j] - q);
    }
    FindFromLeast(chunk, o, 0);
    OccursInPiece(w, q, chunk, fut, o, i);
    k :| 0 <= k < |ms| && ms[k] == q + i;
  }

  lemma PieceForgotten(b: string, accept: seq<Out> -> bool, chunk: string)
    requires Find(chunk, Opening(b)) == |chunk|
    ensures Feed(Initial, b, accept, chunk) == (Initial, true)
  {
    assert Initial.rest + chunk == chunk;
    if chunk != "" {
      var m := Initial.(rest := chunk);
      assert chunk[|chunk|..] == "";
      assert FindOpening(m, b) == Turn(Initial, Some(true));
    }
  }

  // The parser goes on behind the first boundary line of a piece.
  lemma PieceEntered(b: string, accept: seq<Out> -> bool, chunk: string, i: nat, m: Machine)
    requires i == Find(chunk, Opening(b)) < |chunk| && i + |Opening(b)| <= |chunk|
    requires m == Initial.(state := 1, rest := chunk[i + |Opening(b)|..])
    ensures Feed(Initial, b, accept, chunk) == Run(m, b, accept)
  {
    assert Initial.rest + chunk == chunk;
    OpeningFound(b, chunk, i, m);
  }

  lemma OpeningFound(b: string, chunk: string, i: nat, m: Machine)
    requires i == Find(chunk, Opening(b)) < |chunk| && i + |Opening(b)| <= |chunk|
    requires m == Initial.(state := 1, rest := chunk[i + |Opening(b)|..])
    ensures FindOpening(Initial.(rest := chunk), b) == Turn(m, None)
  {
    var o, rest := Opening(b), chunk[i..];
    FindFromLeast(chunk, o, 0);
    assert rest[0..|o|] == chunk[i..i + |o|];
    assert rest[|o|..] == chunk[i + |o|..];
  }

  /* ---------- What is left of a cut form ---------- */

  lemma FeedStep(m: Machine, b: string, accept: seq<Out> -> bool, chunks: seq<string>, r: (Machine, bool))
    requires m.state <= 4 && chunks != [] && r == Feed(m, b, accept, chunks[0])
    ensures FeedAll(m, b, accept, chunks) == if r.1 then FeedAll(r.0, b, accept, chunks[1..]) else r
  {
  }

  // Pieces that do not hold a boundary line are forgotten, without an error.
  lemma {:induction false} PiecesForgotten(b: string, accept: seq<Out> -> bool, chunks: seq<string>, i: nat)
    requires i <= |chunks| && forall k :: 0 <= k < i ==> Find(chunks[k], Opening(b)) == |chunks[k]|
    ensures FeedAll(Initial, b, accept, chunks) == FeedAll(Initial, b, accept, chunks[i..])
    decreases i
  {
    if i == 0 {
      assert chunks[0..] == chunks;
    } else {
      PieceForgotten(b, accept, chunks[0]);
      FeedStep(Initial, b, accept, chunks, (Initial, true));
      PiecesForgotten(b, accept, chunks[1..], i - 1);
      assert chunks[1..][i - 1..] == chunks[i..];
    }
  }

  // The piece `i` that holds the first boundary line, and where it begins; or none does.
  lemma {:induction false} FindPiece(w: string, o: string, ms: seq<nat>, chunks: seq<string>, q: nat, j: nat) returns (i: nat, q': nat)
    requires StandsAt(w, o, ms) && FirstFrom(ms, |o|, chunks, q, j) && Ahead(w, chunks, q)
    ensures i <= |chunks| && Ahead(w, chunks[i..], q') && forall k :: 0 <= k < i ==> Find(chunks[k], o) == |chunks[k]|
    ensures i == |chunks| ==> j == |ms|
    ensures i < |chunks| ==> j < |ms| && Find(chunks[i], o) < |chunks[i]| && ms[j] == q' + Find(chunks[i], o)
    decreases |chunks|
  {
    i, q' := 0, q;
    assert chunks[0..] == chunks;
    if chunks != [] {
      AheadNext(w, chunks, q);
      if Find(chunks[0], o) == |chunks[0]| {
        StillFirst(w, o, ms, chunks, q, j);
        i, q' := FindPiece(w, o, ms, chunks[1..], q + |chunks[0]|, j);
        i := i + 1;
        assert chunks[1..][i - 1..] == chunks[i..];
      } else {
        EnteredAt(w, o, ms, chunks, q, j);
      }
    }
  }

  lemma BehindMark(w: string, o: string, tail: string, chunk: string, fut: string, q: nat, i: nat)
    requires q + i <= |w| && w[q..] == chunk + fut && w[q + i..] == o + tail && i + |o| <= |chunk|
    ensures chunk[i + |o|..] + fut == tail
  {
    SuffixOfSuffix(w, q, i);
    assert w[q..][i..] == chunk[i..] + fut;
    assert (chunk[i..] + fut)[|o|..] == chunk[i + |o|..] + fut;
  }

  // Behind its boundary line an item and those after it are parsed as if the form began there.
  lemma ParsedFrom(items: seq<Item>, b: string, accept: seq<Out> -> bool, chunks: seq<string>, i: nat)
    requires Ready(items, b, accept) && items != [] && chunks != []
    requires Find(chunks[0], Opening(b)) == i < |chunks[0]| && i + |Opening(b)| <= |chunks[0]|
    requires chunks[0][i + |Opening(b)|..] + Flatten(chunks[1..]) == Stream(items, b)
    ensures var r := FeedAll(Initial, b, accept, chunks); r.1 && r.0.valid && Collect(r.0.log) == items
  {
    var m, r := Initial.(state := 1, rest := chunks[0][i + |Opening(b)|..]), Feed(Initial, b, accept, chunks[0]);
    PieceEntered(b, accept, chunks[0], i, m);
    FormKeeps(m, chunks[1..], items, b, accept);
    FeedStep(Initial, b, accept, chunks, r);
  }

  // However the form is cut: the items come back from the first on whose boundary line lies in one
  // piece, with the form accepted as valid; without such a line nothing comes, and no error.
  lemma WhatIsLeft(items: seq<Item>, b: string, accept: seq<Out> -> bool, chunks: seq<string>, j: nat)
    requires Ready(items, b, accept) && OnlyAtMarks(items, b) && Flatten(chunks) == Serialize(items, b)
    requires FirstWhole(items, b, chunks, j)
    ensures j <= |items|
    ensures var r := FeedAll(Initial, b, accept, chunks);
            if j == |items| then r == (Initial, true) else r.1 && r.0.valid && Collect(r.0.log) == items[j..]
  {
    var w, o, ms := Serialize(items, b), Opening(b), Marks(items, b);
    MarksStand(items, b);
    assert w[0..] == w;
    var i, q := FindPiece(w, o, ms, chunks, 0, j);
    PiecesForgotten(b, accept, chunks, i);
    if i < |chunks| {
      EnteredForm(items, b, accept, chunks[i..], q, j, Find(chunks[i], o));
    }
  }

  lemma EnteredForm(items: seq<Item>, b: string, accept: seq<Out> -> bool, chunks: seq<string>, q: nat, j: nat, i: nat)
    requires Ready(items, b, accept) && j < |items| && chunks != [] && Ahead(Serialize(items, b), chunks, q)
    requires Find(chunks[0], Opening(b)) == i < |chunks[0]| && Mark(items, b, j) == q + i
    ensures var r := FeedAll(Initial, b, accept, chunks); r.1 && r.0.valid && Collect(r.0.log) == items[j..]
  {
    MarkText(items, b, j);
    ReadyFrom(items, b, accept, j);
    ParsedHere(Serialize(items, b), items[j..], b, accept, chunks, q, i);
  }

  lemma ParsedHere(w: string, items: seq<Item>, b: string, accept: seq<Out> -> bool, chunks: seq<string>, q: nat, i: nat)
    requires Ready(items, b, accept) && items != [] && chunks != [] && Ahead(w, chunks, q)
    requires Find(chunks[0], Opening(b)) == i < |chunks[0]| && q + i <= |w| && w[q + i..] == Serialize(items, b)
    ensures var r := FeedAll(Initial, b, accept, chunks); r.1 && r.0.valid && Collect(r.0.log) == items
  {
    StreamHere(w, items, b, chunks, q, i);
    ParsedFrom(items, b, accept, chunks, i);
  }

  lemma StreamHere(w: string, items: seq<Item>, b: string, chunks: seq<string>, q: nat, i: nat)
    requires items != [] && chunks != [] && Ahead(w, chunks, q) && q + i <= |w| && w[q + i..] == Serialize(items, b)
    requires i + |Opening(b)| <= |chunks[0]|
    ensures chunks[0][i + |Opening(b)|..] + Flatten(chunks[1..]) == Stream(items, b)
  {
    SerializeText(items, b);
    StreamAhead(w, Opening(b), Stream(items, b), chunks, q, i);
  }

  lemma ReadyFrom(items: seq<Item>, b: string, accept: seq<Out> -> bool, j: nat)
    requires Ready(items, b, accept) && j <= |items|
    ensures Ready(items[j..], b, accept)
  {
  }

  lemma StreamAhead(w: string, o: string, tail: string, chunks: seq<string>, q: nat, i: nat)
    requires Ahead(w, chunks, q) && chunks != [] && q + i <= |w| && w[q + i..] == o + tail && i + |o| <= |chunks[0]|
    ensures chunks[0][i + |o|..] + Flatten(chunks[1..]) == tail
  {
    AheadNext(w, chunks, q);
    BehindMark(w, o, tail, chunks[0], Flatten(chunks[1..]), q, i);
  }

  /* ---------- Where boundary lines stand ---------- */

  predicate NoBreak(s: string) {
    '\r' !in s && '\n' !in s
  }

  // One line with its line break.
  ghost predicate IsLine(o: string) {
    |o| > 2 && o[|o| - 2] == '\r' && o[|o| - 1] == '\n' && forall k :: 0 <= k < |o| - 2 ==> o[k] != '\r' && o[k] != '\n'
  }

  // A line occurs at the end of another line, or behind it.
  lemma LineOccurs(line: string, post: string, o: string, p: nat)
    requires IsLine(o) && NoBreak(line) && OccursAt(line + (CRLF + post), o, p)
    ensures (p + |o| == |line| + 2 && line[p..] == o[..|o| - 2]) || (p >= |line| + 2 && OccursAt(post, o, p - |line| - 2))
  {
    var s, n := line + (CRLF + post), |line|;
    var c := p + |o| - 2;
    assert s[n] == '\r' && s[n + 1] == '\n' && (c < n ==> s[c] == line[c] != '\r');
    CharThere(s, o, p, |o| - 2);
    if c == n {
      assert line[p..] == s[p..p + |o|][..|o| - 2];
    } else if p >= n + 2 {
      assert s[p..p + |o|] == post[p - n - 2..p - n - 2 + |o|];
    } else if c > n {
      CharThere(s, o, p, if p <= n then n - p else 0);
    }
  }

  lemma CharThere(s: string, o: string, p: nat, k: nat)
    requires OccursAt(s, o, p) && k < |o|
    ensures s[p + k] == o[k]
  {
    assert s[p..p + |o|][k] == s[p + k];
  }

  // The text of a boundary line stands in an item only where its boundary line does: its content does
  // not hold one or end in the beginning of one, and neither does its content type.
  ghost predicate Plain(item: Item, b: string) {
    && (forall p: nat :: !OccursAt(item.content + CRLF, Opening(b), p))
    && !(|item.contentType| >= |b| + 2 && item.contentType[|item.contentType| - |b| - 2..] == "--" + b)
  }

  lemma OpeningIsLine(b: string)
    requires IsBoundary(b)
    ensures IsLine(Opening(b))
  {
  }

  // No header line of a plain item ends like a boundary line.
  lemma LineEnds(item: Item, b: string, k: nat, p: nat)
    requires IsBoundary(b) && WellFormed(item, b) && Plain(item, b) && k < |Lines(item)|
    requires p + |b| + 2 == |Lines(item)[k]|
    ensures Lines(item)[k][p..] != "--" + b
  {
    var line := Lines(item)[k];
    if k == 0 {
      assert line[|line| - 1] == '"';
      assert line[p..][|b| + 1] == line[|line| - 1];
      assert forall i :: 0 <= i < |b| + 2 ==> ("--" + b)[i] != '"';
    } else {
      var t := item.contentType;
      assert line == "Content-Type:" + (" " + t);
      if |t| < |b| + 2 {
        assert line[p..][|b| + 1 - |t|] == line[13] == ' ';
        assert forall i :: 0 <= i < |b| + 2 ==> ("--" + b)[i] != ' ';
      } else {
        assert line[p..] == t[|t| - |b| - 2..];
      }
    }
  }

  // Behind the header lines of a plain item.
  lemma {:induction false} HeadOccurs(lines: seq<string>, post: string, o: string, p: nat)
    requires IsLine(o) && OccursAt(Head(lines) + post, o, p)
    requires forall k :: 0 <= k < |lines| ==> NoBreak(lines[k])
    requires forall k, i: nat :: 0 <= k < |lines| && i + |o| == |lines[k]| + 2 ==> lines[k][i..] != o[..|o| - 2]
    ensures p >= |Head(lines)| && OccursAt(post, o, p - |Head(lines)|)
    decreases |lines|
  {
    if lines == [] {
      assert Head(lines) + post == "" + (CRLF + post);
      LineOccurs("", post, o, p);
    } else {
      var tail := Head(lines[1..]) + post;
      Regroup(CRLF, Head(lines[1..]), post);
      Regroup(lines[0], CRLF + Head(lines[1..]), post);
      assert Head(lines) + post == lines[0] + (CRLF + tail);
      LineOccurs(lines[0], tail, o, p);
      HeadOccurs(lines[1..], post, o, p - |lines[0]| - 2);
    }
  }

  // In the content with its line break, or behind both.
  lemma ContentOccurs(content: string, post: string, o: string, p: nat)
    requires IsLine(o) && OccursAt(content + (CRLF + post), o, p)
    ensures OccursAt(content + CRLF, o, p) || (p >= |content| + 2 && OccursAt(post, o, p - |content| - 2))
  {
    var s, n := content + (CRLF + post), |content|;
    var c := p + |o| - 2;
    assert s[n] == '\r' && s[n + 1] == '\n';
    CharThere(s, o, p, |o| - 2);
    if c <= n {
      assert s[p..p + |o|] == (content + CRLF)[p..p + |o|];
    } else if p >= n + 2 {
      assert s[p..p + |o|] == post[p - n - 2..p - n - 2 + |o|];
    } else {
      CharThere(s, o, p, if p <= n then n - p else 0);
    }
  }

  /* ----- The condition in terms of the items ----- */

  // The boundary is not made of dashes alone, or else the closing line ends like a boundary line.
  predicate PlainBoundary(b: string) {
    b + "--" != "--" + b
  }

  lemma FormText(items: seq<Item>, b: string)
    requires items != []
    ensures Serialize(items, b) == ("--" + b) + (CRLF + (Head(Lines(items[0])) + (items[0].content + (CRLF + Serialize(items[1..], b)))))
    ensures ItemLength(items[0], b) == |b| + 4 + |Head(Lines(items[0]))| + |items[0].content| + 2
  {
    var item, rest, fin := items[0], SerializeItems(items[1..], b), "--" + b + "--\r\n";
    ItemBeginText(item, b);
    ItemText(Opening(b), Head(Lines(item)), item.content, rest, fin);
    Regroup("--" + b, CRLF, Head(Lines(item)) + (item.content + (CRLF + (rest + fin))));
  }

  lemma MarksOfTail(items: seq<Item>, b: string, p: nat)
    requires items != []
    ensures p in Marks(items, b) <==> p == 0 || (p >= ItemLength(items[0], b) && p - ItemLength(items[0], b) in Marks(items[1..], b))
  {
    var ms, rest, n := Marks(items, b), Marks(items[1..], b), ItemLength(items[0], b);
    assert ms[0] == 0 && forall k :: 0 <= k < |rest| ==> ms[k + 1] == n + rest[k];
    if p in ms {
      var k :| 0 <= k < |ms| && ms[k] == p;
      if k > 0 {
        assert p - n == rest[k - 1];
      }
    }
    if p >= n && p - n in rest {
      var k :| 0 <= k < |rest| && rest[k] == p - n;
      assert ms[k + 1] == p;
    }
  }

  lemma ClosingLine(b: string, p: nat)
    requires IsBoundary(b) && PlainBoundary(b)
    ensures !OccursAt(Serialize([], b), Opening(b), p)
  {
    var line := "--" + b + "--";
    assert Serialize([], b) == line + (CRLF + "");
    OpeningIsLine(b);
    assert Opening(b)[..|b| + 2] == "--" + b;
    assert line[2..] == b + "--";
    if OccursAt(Serialize([], b), Opening(b), p) {
      LineOccurs(line, "", Opening(b), p);
    }
  }

  lemma LinesUnbroken(item: Item, b: string, k: nat)
    requires WellFormed(item, b) && k < |Lines(item)|
    ensures NoBreak(Lines(item)[k])
  {
    if k == 0 {
      ParametersText(item);
    }
  }

  // In a plain item the boundary line's text stands at its beginning only.
  lemma ItemOccurs(items: seq<Item>, b: string, p: nat)
    requires items != [] && IsBoundary(b) && WellFormed(items[0], b) && Plain(items[0], b)
    requires OccursAt(Serialize(items, b), Opening(b), p)
    ensures p == 0 || (p >= ItemLength(items[0], b) && OccursAt(Serialize(items[1..], b), Opening(b), p - ItemLength(items[0], b)))
  {
    var item, o, rest := items[0], Opening(b), Serialize(items[1..], b);
    var head := Head(Lines(item));
    FormText(items, b);
    OpeningIsLine(b);
    assert o[..|o| - 2] == "--" + b;
    LineOccurs("--" + b, head + (item.content + (CRLF + rest)), o, p);
    if p >= |b| + 4 {
      ItemHeadOccurs(item, b, item.content + (CRLF + rest), p - |b| - 4);
      ContentOccurs(item.content, rest, o, p - |b| - 4 - |head|);
    }
  }

  lemma ItemHeadOccurs(item: Item, b: string, post: string, p: nat)
    requires IsBoundary(b) && WellFormed(item, b) && Plain(item, b) && OccursAt(Head(Lines(item)) + post, Opening(b), p)
    ensures p >= |Head(Lines(item))| && OccursAt(post, Opening(b), p - |Head(Lines(item))|)
  {
    var lines, o := Lines(item), Opening(b);
    OpeningIsLine(b);
    assert o[..|o| - 2] == "--" + b;
    forall k | 0 <= k < |lines|
      ensures NoBreak(lines[k])
    {
      LinesUnbroken(item, b, k);
    }
    forall k, i: nat | 0 <= k < |lines| && i + |o| == |lines[k]| + 2
      ensures lines[k][i..] != o[..|o| - 2]
    {
      LineEnds(item, b, k, i);
    }
    HeadOccurs(lines, post, o, p);
  }

  lemma {:induction false} PlainOccurs(items: seq<Item>, b: string, p: nat)
    requires IsBoundary(b) && PlainBoundary(b) && forall k :: 0 <= k < |items| ==> WellFormed(items[k], b) && Plain(items[k], b)
    requires OccursAt(Serialize(items, b), Opening(b), p)
    ensures p in Marks(items, b)
    decreases |items|
  {
    if items == [] {
      ClosingLine(b, p);
    } else {
      ItemOccurs(items, b, p);
      MarksOfTail(items, b, p);
      if p > 0 {
        PlainOccurs(items[1..], b, p - ItemLength(items[0], b));
      }
    }
  }

  ghost predicate PlainForm(items: seq<Item>, b: string) {
    PlainBoundary(b) && forall k :: 0 <= k < |items| ==> Plain(items[k], b)
  }

  lemma OccursBehind(pre: string, s: string, o: string, p: nat)
    requires OccursAt(s, o, p)
    ensures OccursAt(pre + s, o, |pre| + p)
  {
    assert (pre + s)[|pre| + p..|pre| + p + |o|] == s[p..p + |o|];
  }

  lemma OccursBefore(s: string, post: string, o: string, p: nat)
    requires OccursAt(s, o, p)
    ensures OccursAt(s + post, o, p)
  {
    assert (s + post)[p..p + |o|] == s[p..p + |o|];
  }

  // In the part of the form behind the boundary line and the header lines.
  lemma OccursInContent(d: string, head: string, content: string, rest: string, o: string, i: nat)
    requires OccursAt(content + CRLF, o, i)
    ensures OccursAt(d + (CRLF + (head + (content + (CRLF + rest)))), o, |d| + 2 + |head| + i)
  {
    OccursBefore(content + CRLF, rest, o, i);
    Regroup(content, CRLF, rest);
    OccursBehind(head, content + (CRLF + rest), o, i);
    OccursBehind(CRLF, head + (content + (CRLF + rest)), o, |head| + i);
    OccursBehind(d, CRLF + (head + (content + (CRLF + rest))), o, 2 + |head| + i);
  }

  lemma OpeningInContent(items: seq<Item>, b: string, i: nat)
    requires items != [] && OccursAt(items[0].content + CRLF, Opening(b), i)
    ensures var p := |b| + 4 + |Head(Lines(items[0]))| + i;
            p < ItemLength(items[0], b) && OccursAt(Serialize(items, b), Opening(b), p)
  {
    FormText(items, b);
    OccursInContent("--" + b, Head(Lines(items[0])), items[0].content, Serialize(items[1..], b), Opening(b), i);
  }

  // At the end of the second header line.
  lemma OccursInType(first: string, t: string, post: string, mark: string)
    requires |t| >= |mark| && t[|t| - |mark|..] == mark
    ensures OccursAt((first + (CRLF + ("Content-Type:" + (" " + t) + (CRLF + CRLF)))) + post, mark + CRLF, |first| + 2 + 14 + |t| - |mark|)
  {
    var o, cut := mark + CRLF, |t| - |mark|;
    var s := t + (CRLF + CRLF);
    assert t == t[..cut] + mark;
    assert s[cut..cut + |o|] == o;
    OccursBehind(" ", s, o, cut);
    Regroup(" ", t, CRLF + CRLF);
    OccursBehind("Content-Type:", " " + t + (CRLF + CRLF), o, 1 + cut);
    Regroup("Content-Type:", " " + t, CRLF + CRLF);
    var u := "Content-Type:" + (" " + t) + (CRLF + CRLF);
    OccursBehind(CRLF, u, o, 14 + cut);
    OccursBehind(first, CRLF + u, o, 16 + cut);
    OccursBefore(first + (CRLF + u), post, o, |first| + 16 + cut);
  }

  lemma OpeningInType(items: seq<Item>, b: string, p: nat)
    requires items != [] && var t := items[0].contentType; |t| >= |b| + 2 && t[|t| - |b| - 2..] == "--" + b
    requires p == |Disposition(items[0])| + 18 + |items[0].contentType|
    ensures p < ItemLength(items[0], b) && OccursAt(Serialize(items, b), Opening(b), p)
  {
    FormText(items, b);
    TypeInItem(items[0]);
    TypedHead(items[0]);
    OccursInTyped(Serialize(items, b), Opening(b), "--" + b, Disposition(items[0]), items[0].contentType, Head(Lines(items[0])),
                  items[0].content + (CRLF + Serialize(items[1..], b)), p);
  }

  lemma TypeInItem(item: Item)
    requires item.contentType != ""
    ensures |Head(Lines(item))| == |Disposition(item)| + 2 + 14 + |item.contentType| + 4
  {
    TypedHead(item);
  }

  lemma OccursInTyped(w: string, o: string, mark: string, first: string, t: string, head: string, tail: string, p: nat)
    requires |t| >= |mark| && t[|t| - |mark|..] == mark && head == first + (CRLF + ("Content-Type:" + (" " + t) + (CRLF + CRLF)))
    requires o == mark + CRLF && w == mark + (CRLF + (head + tail)) && p == |first| + 18 + |t|
    ensures OccursAt(w, o, p)
  {
    var q := |first| + 16 + |t| - |mark|;
    OccursInType(first, t, tail, mark);
    OccursBehind(CRLF, head + tail, o, q);
    OccursBehind(mark, CRLF + (head + tail), o, 2 + q);
  }

  lemma TypedHead(item: Item)
    requires item.contentType != ""
    ensures Head(Lines(item)) == Disposition(item) + (CRLF + ("Content-Type:" + (" " + item.contentType) + (CRLF + CRLF)))
  {
    var t := "Content-Type:" + (" " + item.contentType);
    assert Lines(item)[1..] == [t] && [t][1..] == [];
    assert Head([t]) == t + (CRLF + CRLF);
  }

  // The text `o` stands in `w` at a position that is not one of `ms`.
  ghost predicate StandsElsewhere(w: string, o: string, ms: seq<nat>) {
    exists p: nat :: OccursAt(w, o, p) && p !in ms
  }

  lemma ElsewhereBefore(w: string, o: string, ms: seq<nat>, n: nat, p: nat)
    requires OccursAt(w, o, p) && 0 < p < n && forall q: nat :: q in ms ==> q == 0 || q >= n
    ensures StandsElsewhere(w, o, ms)
  {
  }

  lemma ElsewhereLater(w: string, rest: string, o: string, ms: seq<nat>, rest': seq<nat>, n: nat)
    requires 0 < n <= |w| && w[n..] == rest && StandsElsewhere(rest, o, rest')
    requires forall q: nat :: q in ms ==> q == 0 || (q >= n > 0 && q - n in rest')
    ensures StandsElsewhere(w, o, ms)
  {
    var p: nat :| OccursAt(rest, o, p) && p !in rest';
    assert w == w[..n] + w[n..];
    OccursBehind(w[..n], rest, o, p);
    assert n + p !in ms;
  }

  lemma MarksBehind(items: seq<Item>, b: string)
    requires items != []
    ensures forall q: nat :: q in Marks(items, b) ==>
              q == 0 || (q >= ItemLength(items[0], b) > 0 && q - ItemLength(items[0], b) in Marks(items[1..], b))
  {
    forall q: nat | q in Marks(items, b)
      ensures q == 0 || (q >= ItemLength(items[0], b) > 0 && q - ItemLength(items[0], b) in Marks(items[1..], b))
    {
      MarksOfTail(items, b, q);
    }
  }

  lemma ElsewhereInItem(items: seq<Item>, b: string, o: string, p: nat)
    requires items != [] && 0 < p < ItemLength(items[0], b) && OccursAt(Serialize(items, b), o, p)
    ensures StandsElsewhere(Serialize(items, b), o, Marks(items, b))
  {
    MarksBehind(items, b);
    ElsewhereBefore(Serialize(items, b), o, Marks(items, b), ItemLength(items[0], b), p);
  }

  lemma ElsewhereInContent(items: seq<Item>, b: string, i: nat)
    requires items != [] && OccursAt(items[0].content + CRLF, Opening(b), i)
    ensures StandsElsewhere(Serialize(items, b), Opening(b), Marks(items, b))
  {
    OpeningInContent(items, b, i);
    ElsewhereInItem(items, b, Opening(b), |b| + 4 + |Head(Lines(items[0]))| + i);
  }

  lemma ElsewhereInType(items: seq<Item>, b: string)
    requires items != [] && var t := items[0].contentType; |t| >= |b| + 2 && t[|t| - |b| - 2..] == "--" + b
    ensures StandsElsewhere(Serialize(items, b), Opening(b), Marks(items, b))
  {
    var p := |Disposition(items[0])| + 18 + |items[0].contentType|;
    OpeningInType(items, b, p);
    ElsewhereInItem(items, b, Opening(b), p);
  }

  lemma ElsewhereHere(items: seq<Item>, b: string)
    requires items != [] && !Plain(items[0], b)
    ensures StandsElsewhere(Serialize(items, b), Opening(b), Marks(items, b))
  {
    if i: nat :| OccursAt(items[0].content + CRLF, Opening(b), i) {
      ElsewhereInContent(items, b, i);
    } else {
      ElsewhereInType(items, b);
    }
  }

  lemma ElsewhereInRest(items: seq<Item>, b: string, o: string)
    requires items != [] && StandsElsewhere(Serialize(items[1..], b), o, Marks(items[1..], b))
    ensures StandsElsewhere(Serialize(items, b), o, Marks(items, b))
  {
    FormTail(items, b);
    MarksBehind(items, b);
    ElsewhereLater(Serialize(items, b), Serialize(items[1..], b), o, Marks(items, b), Marks(items[1..], b), ItemLength(items[0], b));
  }

  lemma ElsewhereAtEnd(b: string)
    requires !PlainBoundary(b)
    ensures StandsElsewhere(Serialize([], b), Opening(b), [])
  {
    assert Serialize([], b) == "--" + Opening(b);
    OccursBehind("--", Opening(b), Opening(b), 0);
  }

  // Otherwise its text stands somewhere else too.
  lemma {:induction false} OccursElsewhere(items: seq<Item>, b: string)
    requires !PlainForm(items, b)
    ensures StandsElsewhere(Serialize(items, b), Opening(b), Marks(items, b))
    decreases |items|
  {
    if items == [] {
      ElsewhereAtEnd(b);
    } else if Plain(items[0], b) {
      assert !PlainForm(items[1..], b);
      OccursElsewhere(items[1..], b);
      ElsewhereInRest(items, b, Opening(b));
    } else {
      ElsewhereHere(items, b);
    }
  }

  // The condition that a caller can check item by item.
  lemma OnlyAtMarksExactly(items: seq<Item>, b: string)
    requires IsBoundary(b) && forall k :: 0 <= k < |items| ==> WellFormed(items[k], b)
    ensures OnlyAtMarks(items, b) <==> PlainForm(items, b)
  {
    if PlainForm(items, b) {
      forall p: nat | OccursAt(Serialize(items, b), Opening(b), p)
        ensures p in Marks(items, b)
      {
        PlainOccurs(items, b, p);
      }
    } else {
      OccursElsewhere(items, b);
    }
  }

  /* ---------- The first item lost ---------- */

  lemma FlattenTwo(a: string, b: string)
    ensures Flatten([a, b]) == a + b
  {
    assert [a, b][1..] == [b] && [b][1..] == [];
    assert Flatten([b]) == b + "";
  }

  lemma CutAfterOne(ms: seq<nat>, n: nat, w: string)
    requires |ms| >= 2 && ms[0] == 0 && 0 < ms[1] && ms[1] + n <= |w| && n >= 2
    ensures FirstFrom(ms, n, [w[..1], w[1..]], 0, 1)
  {
    var chunks := [w[..1], w[1..]];
    assert chunks[1..] == [w[1..]];
    assert !Whole(chunks, 0, n);
    assert Whole([w[1..]], ms[1] - 1, n);
  }

  // A form of two or more items cut behind its first byte is accepted as valid, and its first item
  // is missing.
  lemma FirstItemLost(items: seq<Item>, b: string, accept: seq<Out> -> bool)
    requires Ready(items, b, accept) && |items| >= 2 && OnlyAtMarks(items, b) && |Serialize(items, b)| > 1
    ensures var w := Serialize(items, b);
            var r := FeedAll(Initial, b, accept, [w[..1], w[1..]]);
            Flatten([w[..1], w[1..]]) == w && r.1 && r.0.valid && Collect(r.0.log) == items[1..]
  {
    var w, ms := Serialize(items, b), Marks(items, b);
    FlattenTwo(w[..1], w[1..]);
    MarksStand(items, b);
    assert ms[0] == Mark(items, b, 0) && OccursAt(w, Opening(b), ms[1]);
    CutAfterOne(ms, |Opening(b)|, w);
    WhatIsLeft(items, b, accept, [w[..1], w[1..]], 1);
  }

  // Such a form: two items named by one letter, with one byte each.
  lemma CutExample() returns (items: seq<Item>, w: string)
    ensures Ready(items, "X", _ => true) && |items| == 2 && w == Serialize(items, "X") && |w| > 1
    ensures var r := FeedAll(Initial, "X", _ => true, [w[..1], w[1..]]);
            r.1 && r.0.valid && Collect(r.0.log) == [items[1]] != items
  {
    items := [Item("a", "1", "", ""), Item("b", "2", "", "")];
    w := Serialize(items, "X");
    ExampleItem(items[0]);
    ExampleItem(items[1]);
    assert forall k :: 0 <= k < |items| ==> WellFormed(items[k], "X") && Plain(items[k], "X");
    assert ("X" + "--")[0] != ("--" + "X")[0];
    OnlyAtMarksExactly(items, "X");
    FormText(items, "X");
    FirstItemLost(items, "X", _ => true);
    assert items[1..] == [items[1]];
  }

  lemma ExampleItem(item: Item)
    requires |item.name| == 1 && Query.IsAlnum(item.name[0]) && |item.content| == 1 && Query.IsAlnum(item.content[0])
    requires item.filename == "" && item.contentType == ""
    ensures WellFormed(item, "X") && Plain(item, "X")
  {
    FindFromIs(item.content, Delimiter("X"), 0, 1);
    assert |Disposition(item)| == 40;
  }
}
