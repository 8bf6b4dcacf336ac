/**
 The multipart round trip holds exactly if the opening line comes whole, whatever the contents:
 otherwise every content that the parser finds begins behind the place where it stands in the form,
 and so the last one is never there to be found.
 */
module MultipartLost {
  import opened Common
  import opened HttpText
  import opened Multipart
  import opened MultipartBody
  import opened MultipartCut

  /* ---------- Where delimiters stand in the serialized form ---------- */

  // Where the content of item `k` begins and ends.
  function ContentStart(items: seq<Item>, b: string, k: nat): nat
    requires k < |items|
  {
    Mark(items, b, k) + |ItemBegin(items[k], b)|
  }

  function ContentEnd(items: seq<Item>, b: string, k: nat): nat
    requires k < |items|
  {
    ContentStart(items, b, k) + |items[k].content|
  }

  // A line break followed by text without one.
  ghost predicate IsDelimiter(d: string) {
    |d| >= 2 && d[0] == '\r' && d[1] == '\n' && forall k :: 2 <= k < |d| ==> d[k] != '\r' && d[k] != '\n'
  }

  lemma DelimiterIs(b: string)
    requires IsBoundary(b)
    ensures IsDelimiter(Delimiter(b)) && Delimiter(b)[2..] == "--" + b && Delimiter(b)[2..4] == "--"
  {
  }

  lemma BreakThere(pre: string, post: string)
    ensures (pre + (CRLF + post))[|pre|] == '\r' && (pre + (CRLF + post))[|pre| + 1] == '\n'
  {
  }

  lemma NoBreakThere(line: string, post: string, x: nat)
    requires NoBreak(line) && x < |line|
    ensures (line + (CRLF + post))[x] != '\r'
  {
  }

  // A delimiter stands at the end of a line before text that begins like its own, or behind the line.
  lemma DelimiterAfterLine(line: string, post: string, d: string, x: nat)
    requires IsDelimiter(d) && NoBreak(line) && OccursAt(line + (CRLF + post), d, x)
    ensures (x == |line| && OccursAt(post, d[2..], 0)) || (x >= |line| + 2 && OccursAt(post, d, x - |line| - 2))
  {
    var s, n := line + (CRLF + post), |line|;
    if x < n {
      NoBreakThere(line, post, x);
    }
    CharThere(s, d, x, 0);
    BreakThere(line, post);
    if x == n {
      assert s[x..x + |d|][2..] == post[0..|d| - 2];
    } else if x >= n + 2 {
      assert s[x..x + |d|] == post[x - n - 2..x - n - 2 + |d|];
    }
  }

  // A delimiter cannot begin before a line break and reach behind its first character.
  lemma NoDelimiterAcross(pre: string, post: string, d: string, x: nat)
    requires IsDelimiter(d) && x < |pre| < x + |d|
    ensures !OccursAt(pre + (CRLF + post), d, x)
  {
    if OccursAt(pre + (CRLF + post), d, x) {
      CharThere(pre + (CRLF + post), d, x, |pre| - x);
      BreakThere(pre, post);
    }
  }

  lemma NotInContent(content: string, post: string, d: string, x: nat)
    requires d != "" && Find(content, d) == |content| && x + |d| <= |content|
    ensures !OccursAt(content + post, d, x)
  {
    FindFromLeast(content, d, 0);
    assert (content + post)[x..x + |d|] == content[x..x + |d|];
    assert !OccursAt(content, d, x);
  }

  // In content that does not hold it, a delimiter stands at the end or behind.
  lemma DelimiterAfterContent(content: string, post: string, d: string, x: nat)
    requires IsDelimiter(d) && Find(content, d) == |content| && OccursAt(content + (CRLF + post), d, x)
    ensures x == |content| || (x >= |content| + 2 && OccursAt(post, d, x - |content| - 2))
  {
    var s, n := content + (CRLF + post), |content|;
    if x + |d| <= n {
      NotInContent(content, CRLF + post, d, x);
    } else if x < n {
      NoDelimiterAcross(content, post, d, x);
    } else if x >= n + 2 {
      assert s[x..x + |d|] == post[x - n - 2..x - n - 2 + |d|];
    } else {
      CharThere(s, d, x, 0);
      BreakThere(content, post);
    }
  }

  // Text without a line break at the beginning of content and its line break is content.
  lemma BeginsContent(content: string, post: string, mark: string)
    requires NoBreak(mark) && OccursAt(content + (CRLF + post), mark, 0)
    ensures |mark| <= |content|
  {
    if |content| < |mark| {
      CharThere(content + (CRLF + post), mark, 0, |content|);
      BreakThere(content, post);
    }
  }

  lemma NotAtHead(lines: seq<string>, post: string, mark: string)
    requires mark != "" && mark[0] == '-' && forall k :: 0 <= k < |lines| ==> lines[k] != "" && lines[k][0] != '-'
    ensures !OccursAt(Head(lines) + post, mark, 0)
  {
    if OccursAt(Head(lines) + post, mark, 0) {
      CharThere(Head(lines) + post, mark, 0, 0);
    }
  }

  // Among header lines a delimiter can only stand at the blank one.
  lemma {:induction false} DelimiterInHead(lines: seq<string>, post: string, d: string, x: nat)
    requires IsDelimiter(d) && |d| > 2 && d[2] == '-' && OccursAt(Head(lines) + post, d, x)
    requires forall k :: 0 <= k < |lines| ==> NoBreak(lines[k]) && lines[k] != "" && lines[k][0] != '-'
    ensures (x + 2 == |Head(lines)| && OccursAt(post, d[2..], 0)) || (x >= |Head(lines)| && OccursAt(post, d, x - |Head(lines)|))
    decreases |lines|
  {
    if lines == [] {
      assert Head(lines) + post == "" + (CRLF + post);
      DelimiterAfterLine("", post, d, x);
    } else {
      var tail := Head(lines[1..]) + post;
      Regroup(CRLF, Head(lines[1..]), post);
      Regroup(lines[0], CRLF + Head(lines[1..]), post);
      assert Head(lines) + post == lines[0] + (CRLF + tail);
      NotAtHead(lines[1..], post, d[2..]);
      DelimiterAfterLine(lines[0], tail, d, x);
      DelimiterInHead(lines[1..], post, d, x - |lines[0]| - 2);
    }
  }

  lemma HeaderLinesAre(item: Item, b: string, k: nat)
    requires WellFormed(item, b) && k < |Lines(item)|
    ensures var line := Lines(item)[k]; NoBreak(line) && line != "" && line[0] != '-'
  {
    LinesUnbroken(item, b, k);
  }

  lemma DelimiterBehindHead(mark: string, content: string, rest: string, d: string, x: nat)
    requires IsDelimiter(d) && NoBreak(mark) && Find(content, d) == |content|
    ensures OccursAt(content + (CRLF + rest), mark, 0) ==> |mark| <= |content|
    ensures OccursAt(content + (CRLF + rest), d, x) ==>
              x == |content| || (x >= |content| + 2 && OccursAt(rest, d, x - |content| - 2))
  {
    if OccursAt(content + (CRLF + rest), mark, 0) {
      BeginsContent(content, rest, mark);
    }
    if OccursAt(content + (CRLF + rest), d, x) {
      DelimiterAfterContent(content, rest, d, x);
    }
  }

  lemma DelimiterBehindLine(mark: string, lines: seq<string>, post: string, d: string, x: nat)
    requires IsDelimiter(d) && |d| > 2 && d[2] == '-' && d[2..] == mark && NoBreak(mark)
    requires lines != [] && forall k :: 0 <= k < |lines| ==> NoBreak(lines[k]) && lines[k] != "" && lines[k][0] != '-'
    requires OccursAt(mark + (CRLF + (Head(lines) + post)), d, x)
    ensures var n := |mark| + 2 + |Head(lines)|; (x + 2 == n && OccursAt(post, mark, 0)) || (x >= n && OccursAt(post, d, x - n))
  {
    NotAtHead(lines, post, mark);
    DelimiterAfterLine(mark, Head(lines) + post, d, x);
    DelimiterInHead(lines, post, d, x - |mark| - 2);
  }

  // In the part of an item: before content that begins like a delimiter's text, at the content's end, or behind.
  lemma DelimiterInText(mark: string, lines: seq<string>, content: string, rest: string, d: string, x: nat)
    requires IsDelimiter(d) && |d| > 2 && d[2] == '-' && d[2..] == mark && NoBreak(mark)
    requires lines != [] && forall k :: 0 <= k < |lines| ==> NoBreak(lines[k]) && lines[k] != "" && lines[k][0] != '-'
    requires Find(content, d) == |content| && OccursAt(mark + (CRLF + (Head(lines) + (content + (CRLF + rest)))), d, x)
    ensures var n := |mark| + 2 + |Head(lines)|;
            || (x + 2 == n && |mark| <= |content|) || x == n + |content|
            || (x >= n + |content| + 2 && OccursAt(rest, d, x - n - |content| - 2))
  {
    var n := |mark| + 2 + |Head(lines)|;
    DelimiterBehindLine(mark, lines, content + (CRLF + rest), d, x);
    DelimiterBehindHead(mark, content, rest, d, if x >= n then x - n else 0);
  }

  lemma DelimiterInItem(items: seq<Item>, b: string, x: nat)
    requires items != [] && IsBoundary(b) && WellFormed(items[0], b) && OccursAt(Serialize(items, b), Delimiter(b), x)
    ensures var n := |ItemBegin(items[0], b)|;
            || (x + 2 == n && |b| + 2 <= |items[0].content|) || x == n + |items[0].content|
            || (x >= ItemLength(items[0], b) && OccursAt(Serialize(items[1..], b), Delimiter(b), x - ItemLength(items[0], b)))
  {
    FormText(items, b);
    DelimiterIs(b);
    forall k | 0 <= k < |Lines(items[0])|
      ensures NoBreak(Lines(items[0])[k]) && Lines(items[0])[k] != "" && Lines(items[0])[k][0] != '-'
    {
      HeaderLinesAre(items[0], b, k);
    }
    DelimiterInText("--" + b, Lines(items[0]), items[0].content, Serialize(items[1..], b), Delimiter(b), x);
  }

  /* ----- Item by item ----- */

  // A delimiter of the form stands here: at the end of item `k`, or where its content begins like one.
  ghost predicate Stands(items: seq<Item>, b: string, k: nat, x: nat) {
    k < |items| && (x == ContentEnd(items, b, k) || (x + 2 == ContentStart(items, b, k) && |b| + 2 <= |items[k].content|))
  }

  lemma StandsLater(items: seq<Item>, b: string, k: nat, x: nat, y: nat)
    requires items != [] && Stands(items[1..], b, k, x) && y == ItemLength(items[0], b) + x
    ensures Stands(items, b, k + 1, y)
  {
    assert items[1..][k] == items[k + 1];
  }

  lemma ClosingHasNone(b: string, x: nat)
    requires IsBoundary(b)
    ensures !OccursAt(Serialize([], b), Delimiter(b), x)
  {
    var line := "--" + b + "--";
    assert Serialize([], b) == line + (CRLF + "");
    DelimiterIs(b);
    if OccursAt(Serialize([], b), Delimiter(b), x) {
      DelimiterAfterLine(line, "", Delimiter(b), x);
    }
  }

  lemma StandsHere(items: seq<Item>, b: string, x: nat)
    requires items != [] && IsBoundary(b) && WellFormed(items[0], b) && OccursAt(Serialize(items, b), Delimiter(b), x)
    ensures || Stands(items, b, 0, x)
            || (x >= ItemLength(items[0], b) && OccursAt(Serialize(items[1..], b), Delimiter(b), x - ItemLength(items[0], b)))
  {
    DelimiterInItem(items, b, x);
  }

  // Every delimiter in the form is one of these.
  ghost predicate AllStand(items: seq<Item>, b: string) {
    forall x: nat :: OccursAt(Serialize(items, b), Delimiter(b), x) ==> exists k: nat :: Stands(items, b, k, x)
  }

  lemma SomeStands(items: seq<Item>, b: string, x: nat) returns (k: nat)
    requires AllStand(items, b) && OccursAt(Serialize(items, b), Delimiter(b), x)
    ensures Stands(items, b, k, x)
  {
    k :| Stands(items, b, k, x);
  }

  lemma OneStands(items: seq<Item>, b: string, x: nat)
    requires items != [] && IsBoundary(b) && WellFormed(items[0], b) && AllStand(items[1..], b)
    requires OccursAt(Serialize(items, b), Delimiter(b), x)
    ensures exists k: nat :: Stands(items, b, k, x)
  {
    StandsHere(items, b, x);
    if !Stands(items, b, 0, x) {
      var y := x - ItemLength(items[0], b);
      var k := SomeStands(items[1..], b, y);
      StandsLater(items, b, k, y, x);
    }
  }

  lemma AllStandNext(items: seq<Item>, b: string)
    requires items != [] && IsBoundary(b) && WellFormed(items[0], b) && AllStand(items[1..], b)
    ensures AllStand(items, b)
  {
    forall x: nat | OccursAt(Serialize(items, b), Delimiter(b), x)
      ensures exists k: nat :: Stands(items, b, k, x)
    {
      OneStands(items, b, x);
    }
  }

  lemma {:induction false} DelimitersStand(items: seq<Item>, b: string)
    requires IsBoundary(b) && forall k :: 0 <= k < |items| ==> WellFormed(items[k], b)
    ensures AllStand(items, b)
    decreases |items|
  {
    if items == [] {
      forall x: nat
        ensures !OccursAt(Serialize(items, b), Delimiter(b), x)
      {
        ClosingHasNone(b, x);
      }
    } else {
      DelimitersStand(items[1..], b);
      AllStandNext(items, b);
    }
  }

  lemma MarksApart(items: seq<Item>, b: string, k: nat, n: nat)
    requires 0 < k < k + 1 < |items| && Mark(items[1..], b, k) == Mark(items[1..], b, k - 1) + n
    ensures Mark(items, b, k + 1) == Mark(items, b, k) + n
  {
  }

  lemma {:induction false} MarkAfter(items: seq<Item>, b: string, k: nat)
    requires k + 1 < |items|
    ensures Mark(items, b, k + 1) == Mark(items, b, k) + ItemLength(items[k], b)
    decreases k
  {
    if k > 0 {
      MarkAfter(items[1..], b, k - 1);
      MarksApart(items, b, k, ItemLength(items[k], b));
    }
  }

  lemma ContentAfter(items: seq<Item>, b: string, k: nat)
    requires k + 1 < |items|
    ensures ContentEnd(items, b, k) + 4 < ContentStart(items, b, k + 1)
  {
    MarkAfter(items, b, k);
  }

  lemma TailOf(mark: string, head: string, tail: string)
    ensures (mark + (CRLF + (head + tail)))[|mark| + 2 + |head|..] == tail
  {
  }

  lemma LastTail(item: Item, b: string)
    ensures var w, n := Serialize([item], b), |ItemBegin(item, b)|;
            n <= |w| && w[n..] == item.content + (Delimiter(b) + "--\r\n")
  {
    assert [item][1..] == [];
    FormText([item], b);
    EndText(b);
    TailOf("--" + b, Head(Lines(item)), item.content + (CRLF + Serialize([], b)));
  }

  lemma EndText(b: string)
    ensures CRLF + Serialize([], b) == Delimiter(b) + "--\r\n"
  {
  }

  /* ---------- The layout of a form, as values ---------- */

  // A delimiter stands at the end of content `k`, or where that content begins like one.
  ghost predicate StandsIn(starts: seq<nat>, items: seq<Item>, d: string, k: nat, x: nat) {
    k < |starts| == |items| && (x == starts[k] + |items[k].content| || (x + 2 == starts[k] && |d| <= |items[k].content| + 2))
  }

  ghost predicate InOrder(starts: seq<nat>, items: seq<Item>) {
    |starts| == |items| && forall j, k :: 0 <= j < k < |starts| ==> starts[j] + |items[j].content| + 4 < starts[k]
  }

  ghost predicate OnlyStanding(w: string, d: string, starts: seq<nat>, items: seq<Item>) {
    forall x: nat :: OccursAt(w, d, x) ==> exists k: nat :: StandsIn(starts, items, d, k, x)
  }

  // From here on there is the last content with the closing line behind it.
  ghost predicate ClosedAt(w: string, d: string, start: nat, content: string) {
    start <= |w| && w[start..] == content + (d + "--\r\n")
  }

  // The contents begin at `starts`, one behind the other; every delimiter stands at one of them.
  ghost predicate Laid(w: string, d: string, starts: seq<nat>, items: seq<Item>) {
    && IsDelimiter(d) && |d| >= 4 && d[2] == '-' && d[3] == '-' && items != []
    && InOrder(starts, items) && OnlyStanding(w, d, starts, items)
    && ClosedAt(w, d, starts[|starts| - 1], items[|starts| - 1].content)
  }

  function Starts(items: seq<Item>, b: string): (s: seq<nat>)
    ensures |s| == |items|
  {
    seq(|items|, k requires 0 <= k < |items| => ContentStart(items, b, k))
  }

  lemma {:induction false} OneBehindOther(starts: seq<nat>, items: seq<Item>, j: nat, k: nat)
    requires |starts| == |items| && j < k < |starts|
    requires forall i: nat {:trigger items[i]} :: i + 1 < |starts| ==> starts[i] + |items[i].content| + 4 < starts[i + 1]
    ensures starts[j] + |items[j].content| + 4 < starts[k]
    decreases k
  {
    assert starts[k - 1] + |items[k - 1].content| + 4 < starts[k - 1 + 1];
    if j < k - 1 {
      OneBehindOther(starts, items, j, k - 1);
    }
  }

  lemma StartsInOrder(items: seq<Item>, b: string)
    ensures InOrder(Starts(items, b), items)
  {
    var starts := Starts(items, b);
    forall i: nat {:trigger items[i]} | i + 1 < |starts|
      ensures starts[i] + |items[i].content| + 4 < starts[i + 1]
    {
      ContentAfter(items, b, i);
    }
    forall j, k | 0 <= j < k < |starts|
      ensures starts[j] + |items[j].content| + 4 < starts[k]
    {
      OneBehindOther(starts, items, j, k);
    }
  }

  lemma OnlyStandingInForm(items: seq<Item>, b: string)
    requires IsBoundary(b) && forall k :: 0 <= k < |items| ==> WellFormed(items[k], b)
    ensures OnlyStanding(Serialize(items, b), Delimiter(b), Starts(items, b), items)
  {
    DelimitersStand(items, b);
    forall x: nat | OccursAt(Serialize(items, b), Delimiter(b), x)
      ensures exists k: nat :: StandsIn(Starts(items, b), items, Delimiter(b), k, x)
    {
      var k: nat :| Stands(items, b, k, x);
      assert StandsIn(Starts(items, b), items, Delimiter(b), k, x);
    }
  }

  lemma FormClosed(items: seq<Item>, b: string)
    requires items != []
    ensures var k := |items| - 1; ClosedAt(Serialize(items, b), Delimiter(b), Starts(items, b)[k], items[k].content)
  {
    var k := |items| - 1;
    MarkText(items, b, k);
    assert items[k..] == [items[k]];
    LastTail(items[k], b);
    var tail := items[k].content + (Delimiter(b) + "--\r\n");
    TextBehind(Serialize(items, b), Serialize([items[k]], b), tail, Mark(items, b, k), |ItemBegin(items[k], b)|);
  }

  lemma LaidIs(w: string, d: string, starts: seq<nat>, items: seq<Item>)
    requires IsDelimiter(d) && |d| >= 4 && d[2..4] == "--" && items != []
    requires InOrder(starts, items) && OnlyStanding(w, d, starts, items)
    requires ClosedAt(w, d, starts[|items| - 1], items[|items| - 1].content)
    ensures Laid(w, d, starts, items)
  {
    assert d[2..4][0] == d[2] && d[2..4][1] == d[3];
  }

  lemma FormLaid(items: seq<Item>, b: string)
    requires items != [] && IsBoundary(b) && forall k :: 0 <= k < |items| ==> WellFormed(items[k], b)
    ensures Laid(Serialize(items, b), Delimiter(b), Starts(items, b), items)
  {
    DelimiterIs(b);
    StartsInOrder(items, b);
    OnlyStandingInForm(items, b);
    FormClosed(items, b);
    LaidIs(Serialize(items, b), Delimiter(b), Starts(items, b), items);
  }

  // Behind the end of content `j` the next delimiter is not before the next content.
  lemma NextDelimiter(w: string, d: string, starts: seq<nat>, items: seq<Item>, j: nat, x: nat)
    requires Laid(w, d, starts, items) && j < |starts| && OccursAt(w, d, x) && starts[j] + |items[j].content| < x
    ensures j + 1 < |starts| && x + 2 >= starts[j + 1]
  {
    var k: nat :| StandsIn(starts, items, d, k, x);
    assert j < k;
  }

  /* ---------- Where the parser can enter a form behind its beginning ---------- */

  // What the parser finds there is a blank line, where an item with a content type has its own.
  ghost predicate AtBlank(w: string, starts: seq<nat>, items: seq<Item>, pos: nat) {
    && |starts| == |items| > 0 && items[0].contentType != "" && pos + 2 == starts[0]
    && OccursAt(w, CRLF, pos)
  }

  // A header line that ends in a quote does not end in a boundary line.
  lemma NotAfterQuote(line: string, post: string, o: string, p: nat)
    requires IsLine(o) && NoBreak(line) && line != "" && line[|line| - 1] == '"' && o[|o| - 3] != '"'
    requires OccursAt(line + (CRLF + post), o, p)
    ensures p >= |line| + 2 && OccursAt(post, o, p - |line| - 2)
  {
    CharThere(line + (CRLF + post), o, p, |o| - 3);
    LineOccurs(line, post, o, p);
  }

  lemma BehindOpening(first: string, types: seq<string>, tail: string, o: string, p: nat)
    requires IsLine(o) && NoBreak(first) && first != "" && first[|first| - 1] == '"' && o[|o| - 3] != '"'
    requires |types| <= 1 && (types != [] ==> NoBreak(types[0])) && OccursAt(Head([first] + types) + tail, o, p)
    ensures var n := |Head([first] + types)|; p + |o| > n || (types != [] && p + |o| + 2 == n)
  {
    HeadOf(first, types, tail);
    NotAfterQuote(first, Head(types) + tail, o, p);
    BehindTypes(types, tail, o, p - |first| - 2);
  }

  lemma HeadOf(first: string, types: seq<string>, tail: string)
    ensures Head([first] + types) + tail == first + (CRLF + (Head(types) + tail))
    ensures |Head([first] + types)| == |first| + 2 + |Head(types)|
  {
    assert ([first] + types)[1..] == types;
    Regroup(CRLF, Head(types), tail);
    Regroup(first, CRLF + Head(types), tail);
  }

  lemma BehindTypes(types: seq<string>, tail: string, o: string, p: nat)
    requires IsLine(o) && |types| <= 1 && (types != [] ==> NoBreak(types[0])) && OccursAt(Head(types) + tail, o, p)
    ensures var n := |Head(types)|; p + |o| > n || (types != [] && p + |o| + 2 == n)
  {
    if types == [] {
      BlankLineOnly(tail, o, p);
    } else {
      assert types == [types[0]];
      BehindType(types[0], tail, o, p);
    }
  }

  lemma BehindType(line: string, tail: string, o: string, p: nat)
    requires IsLine(o) && NoBreak(line) && OccursAt(Head([line]) + tail, o, p)
    ensures |Head([line])| == |line| + 4 && (p + |o| > |line| + 4 || p + |o| == |line| + 2)
  {
    assert [line][1..] == [] && Head([line]) == line + (CRLF + CRLF);
    Regroup(CRLF, CRLF, tail);
    Regroup(line, CRLF + CRLF, tail);
    LineOccurs(line, CRLF + tail, o, p);
    if p >= |line| + 2 {
      BlankLineOnly(tail, o, p - |line| - 2);
    }
  }

  lemma BlankLineOnly(tail: string, o: string, p: nat)
    requires IsLine(o) && OccursAt(CRLF + tail, o, p)
    ensures p >= 2
  {
    assert CRLF + tail == "" + (CRLF + tail);
    LineOccurs("", tail, o, p);
  }

  lemma BehindLines(mark: string, first: string, types: seq<string>, tail: string, o: string, p: nat)
    requires IsLine(o) && o[..|o| - 2] == mark && NoBreak(mark) && o[|o| - 3] != '"' && p > 0
    requires NoBreak(first) && first != "" && first[|first| - 1] == '"' && |types| <= 1 && (types != [] ==> NoBreak(types[0]))
    requires OccursAt(mark + (CRLF + (Head([first] + types) + tail)), o, p)
    ensures var n := |mark| + 2 + |Head([first] + types)|; p + |o| > n || (types != [] && p + |o| + 2 == n)
  {
    LineOccurs(mark, Head([first] + types) + tail, o, p);
    BehindOpening(first, types, tail, o, p - |mark| - 2);
  }

  lemma OpeningBehind(items: seq<Item>, b: string, p: nat)
    requires items != [] && IsBoundary(b) && WellFormed(items[0], b) && p > 0 && OccursAt(Serialize(items, b), Opening(b), p)
    ensures var pos, s := p + |Opening(b)|, ContentStart(items, b, 0);
            pos > s || (items[0].contentType != "" && pos + 2 == s)
  {
    var item := items[0];
    var first, types := Disposition(item), Lines(item)[1..];
    FormText(items, b);
    ItemBeginText(item, b);
    OpeningEnds(b);
    LinesUnbroken(item, b, 0);
    if types != [] {
      LinesUnbroken(item, b, 1);
    }
    assert [first] + types == Lines(item);
    BehindLines("--" + b, first, types, item.content + (CRLF + Serialize(items[1..], b)), Opening(b), p);
  }

  lemma OpeningEnds(b: string)
    requires IsBoundary(b)
    ensures var o := Opening(b); IsLine(o) && o[..|o| - 2] == "--" + b && NoBreak("--" + b) && o[|o| - 3] != '"'
  {
    OpeningIsLine(b);
    var o := Opening(b);
    assert o[|o| - 3] == ("--" + b)[|b| + 1];
  }

  /* ---------- Behind the beginning ---------- */

  // In a header: behind where the next content begins in the form, at the beginning of a line.
  ghost predicate HeadPast(w: string, starts: seq<nat>, c: nat, pos: nat) {
    c < |starts| && starts[c] < pos <= |w| && w[pos - 1] == '\n'
  }

  // In a body, of which `got` has been handed on: its content began behind where it begins in the form.
  ghost predicate BodyPast(w: string, d: string, starts: seq<nat>, c: nat, got: string, pos: nat) {
    && c < |starts| && starts[c] + 2 + |got| < pos <= |w|
    && var s := pos - |got|;
       && w[s..pos] == got && w[s - 1] == '\n' && w[s - 3] == '\n'
       && (forall x: nat :: s <= x && OccursAt(w, d, x) ==> pos <= x)
       && (got != "" ==> pos + |d| <= |w|)
  }

  // What has been collected in a body, or outside, agrees with the items.
  ghost predicate Agrees(inBody: bool, got: seq<Item>, items: seq<Item>) {
    |got| <= |items| &&
    if inBody then
      && got != []
      && var c := |got| - 1;
         && got[..c] == items[..c] && |got[c].content| <= |items[c].content|
         && got[c] == items[c].(content := items[c].content[..|got[c].content|])
    else got == items[..|got|]
  }

  // As long as what has been collected agrees with the items, the parser is behind the places where
  // it would be if it had not missed the beginning.
  ghost predicate Past(w: string, d: string, starts: seq<nat>, items: seq<Item>, m: Machine, pos: nat) {
    var got := Collect(m.log);
    1 <= m.state <= 4 && (m.state == 3 ==> got != []) && (Agrees(m.state == 3, got, items) ==>
      if m.state == 3 then BodyPast(w, d, starts, |got| - 1, got[|got| - 1].content, pos)
      else if m.state == 4 then |got| < |starts| && starts[|got|] < pos <= |w|
      else HeadPast(w, starts, |got|, pos) || (got == [] && (m.state == 1 || m.file == NoFile) && AtBlank(w, starts, items, pos)))
  }

  // In the closing line a line begins behind its line break, and nowhere else.
  lemma LineInClosing(d: string, k: nat)
    requires IsDelimiter(d) && |d| >= 4 && k < |d| + 4 && (d + "--\r\n")[k] == '\n'
    ensures k == 1 || k == |d| + 3
  {
    if k >= |d| {
      assert (d + "--\r\n")[k] == "--\r\n"[k - |d|];
    }
  }

  // A body that begins there does not hold the last content.
  lemma NotInClosing(w: string, d: string, start: nat, content: string, s: nat)
    requires ClosedAt(w, d, start, content) && IsDelimiter(d) && |d| >= 4 && d[2] == '-' && d[3] == '-'
    requires start + |content| < s <= |w| && start + 2 < s && w[s - 1] == '\n' && w[s - 3] == '\n'
    requires s + |content| <= |w| && (content != "" ==> s + |content| + |d| <= |w|)
    ensures w[s..s + |content|] != content
  {
    var e, tail := start + |content|, d + "--\r\n";
    var n := |content|;
    assert |w| == e + |d| + 4;
    forall k | 0 <= k < |d| + 4
      ensures w[e + k] == tail[k]
    {
      assert w[start..][n + k] == tail[k];
    }
    LineInClosing(d, s - 1 - e);
    if s == e + 2 {
      assert w[start..][n - 1] == w[s - 3] == content[n - 1];
      assert w[s..s + n][n - 1] == w[s + n - 1] == tail[n + 1] == '-';
    }
  }

  // A body cannot have handed on the whole last content.
  lemma LastNotWhole(w: string, d: string, starts: seq<nat>, items: seq<Item>, pos: nat)
    requires Laid(w, d, starts, items)
    ensures !BodyPast(w, d, starts, |items| - 1, items[|items| - 1].content, pos)
  {
    var c := |items| - 1;
    var got := items[c].content;
    if BodyPast(w, d, starts, c, got, pos) {
      var s, e := pos - |got|, starts[c] + |got|;
      DelimiterThere(w, d, starts[c], got);
      if s <= e {
        assert false;
      } else {
        NotInClosing(w, d, starts[c], got, s);
      }
    }
  }

  lemma DelimiterThere(w: string, d: string, start: nat, content: string)
    requires ClosedAt(w, d, start, content)
    ensures OccursAt(w, d, start + |content|)
  {
    var e := start + |content|;
    assert w[e..e + |d|] == w[start..][|content|..|content| + |d|] == d;
  }

  /* ---------- What every round keeps ---------- */

  // The buffered input and the input still to come are the text from here on.
  ghost predicate Located(w: string, pos: nat, rest: string, fut: string) {
    pos <= |w| && w[pos..] == rest + fut
  }

  // The machine is there, with this input still to come.
  ghost predicate Behind(w: string, d: string, starts: seq<nat>, items: seq<Item>, m: Machine, fut: string) {
    exists pos: nat :: Past(w, d, starts, items, m, pos) && Located(w, pos, m.rest, fut)
  }

  lemma Advance(w: string, pos: nat, rest: string, fut: string, n: nat)
    requires Located(w, pos, rest, fut) && n <= |rest|
    ensures Located(w, pos + n, rest[n..], fut) && w[pos..pos + n] == rest[..n]
  {
    assert |w[pos..]| == |rest| + |fut|;
    SuffixOfSuffix(w, pos, n);
    assert w[pos..pos + n] == w[pos..][..n];
  }

  lemma OccursAhead(w: string, pos: nat, rest: string, fut: string, t: string, x: nat)
    requires Located(w, pos, rest, fut)
    ensures OccursAt(rest + fut, t, x) == OccursAt(w, t, pos + x)
  {
    assert |w[pos..]| == |rest| + |fut|;
    if x + |t| <= |rest + fut| {
      SliceBehind(w, pos, x, |t|);
    }
  }

  lemma SliceBehind(w: string, pos: nat, x: nat, n: nat)
    requires pos + x + n <= |w|
    ensures w[pos..][x..x + n] == w[pos + x..pos + x + n]
  {
    SuffixOfSuffix(w, pos, x);
    assert w[pos..][x..x + n] == w[pos..][x..][..n];
  }

  lemma BreakAhead(w: string, pos: nat, rest: string, fut: string, p: nat)
    requires Located(w, pos, rest, fut) && OccursAt(rest, CRLF, p)
    ensures Located(w, pos + p + 2, rest[p + 2..], fut) && w[pos + p + 1] == '\n'
  {
    Advance(w, pos, rest, fut, p + 2);
    CharThere(rest, CRLF, p, 1);
    assert w[pos..pos + p + 2][p + 1] == rest[..p + 2][p + 1];
  }

  // What agrees after an event agreed before it.
  lemma HeaderAgrees(got: seq<Item>, item: Item, items: seq<Item>)
    requires Agrees(true, got + [item], items)
    ensures Agrees(false, got, items) && |got| < |items| && item.contentType == items[|got|].contentType
  {
    assert (got + [item])[..|got|] == got;
  }

  lemma DataAgrees(inBody: bool, done: seq<Item>, item: Item, bytes: string, items: seq<Item>)
    requires Agrees(inBody, done + [item.(content := item.content + bytes)], items)
    ensures Agrees(true, done + [item], items)
    ensures !inBody ==> item.content + bytes == items[|done|].content
  {
    var c, all := |done|, item.content + bytes;
    var got, got' := done + [item], done + [item.(content := all)];
    assert got'[..c] == done == got[..c] && got'[c].content == all;
    assert inBody || got'[c] == items[..c + 1][c];
    var whole := items[c].content;
    assert all == whole[..|all|];
    assert item.content == all[..|item.content|] == whole[..|item.content|];
    assert inBody || got'[..c] == items[..c + 1][..c] == items[..c];
  }

  lemma BlankPast(w: string, d: string, starts: seq<nat>, c: nat, pos: nat)
    requires HeadPast(w, starts, c, pos) && pos + 2 <= |w| && w[pos + 1] == '\n'
    ensures BodyPast(w, d, starts, c, "", pos + 2)
  {
  }

  lemma BlankKeeps(w: string, d: string, starts: seq<nat>, items: seq<Item>, m: Machine, pos: nat, m': Machine)
    requires m.state == 2 && Past(w, d, starts, items, m, pos) && pos + 2 <= |w| && w[pos + 1] == '\n'
    requires m' == m.(log := m.log + [Header(m.file)], rest := m'.rest, state := 3)
    ensures Past(w, d, starts, items, m', pos + 2)
  {
    var got, got' := Collect(m.log), Collect(m'.log);
    CollectHeader(m.log, m.file);
    if Agrees(true, got', items) {
      HeaderAgrees(got, Item(m.file.name, "", m.file.filename, m.file.contentType), items);
      BlankPast(w, d, starts, |got|, pos);
    }
  }

  lemma LineKeepsPast(w: string, d: string, starts: seq<nat>, items: seq<Item>, m: Machine, pos: nat, m': Machine, p: nat)
    requires m.state == 2 && Past(w, d, starts, items, m, pos) && pos + p + 2 <= |w| && w[pos + p + 1] == '\n'
    requires !OccursAt(w, CRLF, pos)
    requires m' == m.(file := m'.file, rest := m'.rest)
    ensures Past(w, d, starts, items, m', pos + p + 2)
  {
  }

  lemma BreakPast(w: string, d: string, starts: seq<nat>, items: seq<Item>, m: Machine, pos: nat, fut: string, p: nat, m': Machine)
    requires m.state == 2 && Past(w, d, starts, items, m, pos) && Located(w, pos, m.rest, fut)
    requires OccursAt(m.rest, CRLF, p) && (p > 0 ==> !OccursAt(m.rest, CRLF, 0)) && m'.rest == m.rest[p + 2..]
    requires if p == 0 then m' == m.(log := m.log + [Header(m.file)], rest := m'.rest, state := 3)
             else m' == m.(file := m'.file, rest := m'.rest)
    ensures Behind(w, d, starts, items, m', fut)
  {
    BreakAhead(w, pos, m.rest, fut, p);
    if p == 0 {
      BlankKeeps(w, d, starts, items, m, pos, m');
    } else {
      NoBreakHere(w, pos, m.rest, fut, p);
      LineKeepsPast(w, d, starts, items, m, pos, m', p);
    }
  }

  // What a header line does, as values.
  ghost predicate LineRound(m: Machine, t: Turn, p: nat) {
    if t.done.None? then
      && OccursAt(m.rest, CRLF, p) && (p > 0 ==> !OccursAt(m.rest, CRLF, 0)) && t.m.rest == m.rest[p + 2..]
      && if p == 0 then t.m == m.(log := m.log + [Header(m.file)], rest := t.m.rest, state := 3)
         else t.m == m.(file := t.m.file, rest := t.m.rest)
    else t.done.value ==> t.m == m
  }

  lemma LineRoundIs(m: Machine, accept: seq<Out> -> bool)
    requires m.state == 2
    ensures LineRound(m, HeaderStep(m, accept), Find(m.rest, CRLF))
  {
    FindFromLeast(m.rest, CRLF, 0);
  }

  lemma LineRoundPast(w: string, d: string, starts: seq<nat>, items: seq<Item>, m: Machine, fut: string, t: Turn, p: nat)
    requires m.state == 2 && Behind(w, d, starts, items, m, fut) && LineRound(m, t, p) && (t.done.None? || t.done.value)
    ensures Behind(w, d, starts, items, t.m, fut)
  {
    if t.done.None? {
      var pos: nat :| Past(w, d, starts, items, m, pos) && Located(w, pos, m.rest, fut);
      BreakPast(w, d, starts, items, m, pos, fut, p, t.m);
    }
  }

  lemma NoBreakHere(w: string, pos: nat, rest: string, fut: string, p: nat)
    requires Located(w, pos, rest, fut) && 0 < p < p + 2 <= |rest| && !OccursAt(rest, CRLF, 0)
    ensures !OccursAt(w, CRLF, pos)
  {
    Advance(w, pos, rest, fut, 2);
    assert rest[0..2] == rest[..2];
  }

  lemma {:induction false} HeadersPast(w: string, d: string, starts: seq<nat>, items: seq<Item>, m: Machine, fut: string,
                                       accept: seq<Out> -> bool)
    requires m.state == 2 && Behind(w, d, starts, items, m, fut)
    ensures var t := ReadHeaders(m, accept); (t.done.None? || t.done.value) ==> Behind(w, d, starts, items, t.m, fut)
    decreases |m.rest|
  {
    var t := HeaderStep(m, accept);
    if t.done.None? || t.done.value {
      LineRoundIs(m, accept);
      LineRoundPast(w, d, starts, items, m, fut, t, Find(m.rest, CRLF));
      if t.done.None? && t.m.state == 2 {
        HeadersPast(w, d, starts, items, t.m, fut, accept);
      }
    }
  }

  /* ----- Body ----- */

  lemma MoreBody(w: string, d: string, starts: seq<nat>, c: nat, got: string, pos: nat, rest: string, fut: string, n: nat)
    requires BodyPast(w, d, starts, c, got, pos) && Located(w, pos, rest, fut)
    requires n <= |rest| && n <= Find(rest + fut, d) && (n > 0 ==> n + |d| <= |rest|)
    ensures BodyPast(w, d, starts, c, got + rest[..n], pos + n)
  {
    var s := pos - |got|;
    Advance(w, pos, rest, fut, n);
    assert w[s..pos + n] == w[s..pos] + w[pos..pos + n];
    forall x: nat | s <= x && OccursAt(w, d, x)
      ensures pos + n <= x
    {
      OccursAhead(w, pos, rest, fut, d, x - pos);
      FindFromLeast(rest + fut, d, 0);
    }
    assert |w[pos..]| == |rest| + |fut|;
  }

  lemma LastItem(got: seq<Item>)
    requires got != []
    ensures got == got[..|got| - 1] + [got[|got| - 1]]
  {
  }

  lemma MoreKeeps(w: string, d: string, starts: seq<nat>, items: seq<Item>, m: Machine, pos: nat, fut: string, n: nat, m': Machine)
    requires m.state == 3 && Past(w, d, starts, items, m, pos) && Located(w, pos, m.rest, fut)
    requires 0 < n && n + |d| <= |m.rest| && n <= Find(m.rest + fut, d)
    requires m' == m.(log := m.log + [Data(m.rest[..n])], rest := m.rest[n..])
    ensures Past(w, d, starts, items, m', pos + n)
  {
    var got, bytes := Collect(m.log), m.rest[..n];
    var done, item := got[..|got| - 1], got[|got| - 1];
    LastItem(got);
    CollectData(m.log, bytes, done, item);
    var got' := Collect(m'.log);
    if Agrees(true, got', items) {
      DataAgrees(true, done, item, bytes, items);
      MoreBody(w, d, starts, |done|, item.content, pos, m.rest, fut, n);
    }
  }

  // The delimiter that ends the body stands behind the end of its content in the form.
  lemma EndPast(w: string, d: string, starts: seq<nat>, items: seq<Item>, c: nat, got: string, pos: nat, n: nat)
    requires Laid(w, d, starts, items) && BodyPast(w, d, starts, c, got, pos) && OccursAt(w, d, pos + n)
    requires |got| + n == |items[c].content|
    ensures c + 1 < |starts| && starts[c + 1] < pos + n + |d| <= |w|
  {
    NextDelimiter(w, d, starts, items, c, pos + n);
  }

  lemma EndKeeps(w: string, d: string, starts: seq<nat>, items: seq<Item>, m: Machine, pos: nat, n: nat, m': Machine)
    requires Laid(w, d, starts, items) && m.state == 3 && Past(w, d, starts, items, m, pos)
    requires n <= |m.rest| && OccursAt(w, d, pos + n)
    requires m' == m.(log := m.log + [Data(m.rest[..n])], rest := m'.rest, state := 4)
    ensures Past(w, d, starts, items, m', pos + n + |d|)
  {
    var got, bytes := Collect(m.log), m.rest[..n];
    var done, item := got[..|got| - 1], got[|got| - 1];
    LastItem(got);
    CollectData(m.log, bytes, done, item);
    if Agrees(false, Collect(m'.log), items) {
      DataAgrees(false, done, item, bytes, items);
      EndPast(w, d, starts, items, |done|, item.content, pos, n);
    }
  }

  lemma SettledHolds(m: Machine, b: string, accept: seq<Out> -> bool)
    requires m.state == 3
    ensures var t, n, d := ReadBody(m, b, accept), Settled(m.rest, Delimiter(b)), Delimiter(b);
            && (t.done == Some(true) && n > 0 ==> n + |d| == |m.rest|)
            && (t.done.None? ==> OccursAt(m.rest, d, n))
  {
    FindFromLeast(m.rest, Delimiter(b), 0);
  }

  lemma OccursInRest(w: string, pos: nat, rest: string, fut: string, t: string, x: nat)
    requires Located(w, pos, rest, fut) && OccursAt(rest, t, x)
    ensures OccursAt(w, t, pos + x)
  {
    OccursBefore(rest, fut, t, x);
    OccursAhead(w, pos, rest, fut, t, x);
  }

  lemma EndStepPast(w: string, d: string, starts: seq<nat>, items: seq<Item>, m: Machine, pos: nat, fut: string, n: nat, m': Machine)
    requires Laid(w, d, starts, items) && m.state == 3 && Past(w, d, starts, items, m, pos) && Located(w, pos, m.rest, fut)
    requires OccursAt(m.rest, d, n) && m' == m.(state := 4, log := m.log + [Data(m.rest[..n])], rest := m.rest[n + |d|..])
    ensures Behind(w, d, starts, items, m', fut)
  {
    OccursInRest(w, pos, m.rest, fut, d, n);
    EndKeeps(w, d, starts, items, m, pos, n, m');
    Advance(w, pos, m.rest, fut, n + |d|);
  }

  lemma MoreStepPast(w: string, d: string, starts: seq<nat>, items: seq<Item>, m: Machine, pos: nat, fut: string, n: nat, m': Machine)
    requires m.state == 3 && Past(w, d, starts, items, m, pos) && Located(w, pos, m.rest, fut)
    requires n <= |m.rest| && n <= Find(m.rest + fut, d) && (n > 0 ==> n + |d| == |m.rest|)
    requires m' == m.(log := if n == 0 then m.log else m.log + [Data(m.rest[..n])], rest := m.rest[n..])
    ensures Behind(w, d, starts, items, m', fut)
  {
    if n == 0 {
      assert m.rest[0..] == m.rest;
    } else {
      MoreKeeps(w, d, starts, items, m, pos, fut, n, m');
      Advance(w, pos, m.rest, fut, n);
    }
  }

  // What a round in the body state does, as values.
  ghost predicate BodyRound(m: Machine, t: Turn, n: nat, d: string, fut: string) {
    && n <= |m.rest| && n <= Find(m.rest + fut, d)
    && (t.done.None? ==> OccursAt(m.rest, d, n) && t.m == m.(state := 4, log := m.log + [Data(m.rest[..n])], rest := m.rest[n + |d|..]))
    && (t.done.Some? && t.done.value ==> && (n > 0 ==> n + |d| == |m.rest|)
                                         && t.m == m.(log := if n == 0 then m.log else m.log + [Data(m.rest[..n])], rest := m.rest[n..]))
  }

  lemma BodyRoundIs(m: Machine, b: string, accept: seq<Out> -> bool, fut: string)
    requires m.state == 3
    ensures BodyRound(m, ReadBody(m, b, accept), Settled(m.rest, Delimiter(b)), Delimiter(b), fut)
  {
    BodyTurn(m, b, accept, fut);
    SettledHolds(m, b, accept);
  }

  lemma BodyRoundPast(w: string, d: string, starts: seq<nat>, items: seq<Item>, m: Machine, fut: string, t: Turn, n: nat)
    requires Laid(w, d, starts, items) && m.state == 3 && Behind(w, d, starts, items, m, fut)
    requires BodyRound(m, t, n, d, fut) && (t.done.None? || t.done.value)
    ensures Behind(w, d, starts, items, t.m, fut)
  {
    var pos: nat :| Past(w, d, starts, items, m, pos) && Located(w, pos, m.rest, fut);
    if t.done.None? {
      EndStepPast(w, d, starts, items, m, pos, fut, n, t.m);
    } else {
      MoreStepPast(w, d, starts, items, m, pos, fut, n, t.m);
    }
  }

  /* ----- Between the parts, and the whole run ----- */

  lemma EdgeStepPast(w: string, d: string, starts: seq<nat>, items: seq<Item>, m: Machine, fut: string)
    requires m.state == 4 && m.rest != "" && Behind(w, d, starts, items, m, fut)
    ensures Behind(w, d, starts, items, ReadEdge(m).m, fut)
  {
    var pos: nat :| Past(w, d, starts, items, m, pos) && Located(w, pos, m.rest, fut);
    var m' := ReadEdge(m).m;
    if |m.rest| < 2 {
    } else if OccursAt(m.rest, CRLF, 0) {
      BreakAhead(w, pos, m.rest, fut, 0);
      assert Past(w, d, starts, items, m', pos + 2);
    } else if OccursAt(m.rest, "--", 0) {
      Advance(w, pos, m.rest, fut, |m.rest|);
      assert Past(w, d, starts, items, m', pos + |m.rest|);
    }
  }

  // One round of the loop.
  lemma IteratePast(w: string, b: string, starts: seq<nat>, items: seq<Item>, m: Machine, fut: string, accept: seq<Out> -> bool)
    requires Laid(w, Delimiter(b), starts, items)
    requires 1 <= m.state <= 4 && m.rest != "" && Behind(w, Delimiter(b), starts, items, m, fut)
    ensures var t := Iterate(m, b, accept);
            (t.done.None? || t.done.value) ==> Behind(w, Delimiter(b), starts, items, t.m, fut)
  {
    var d, t := Delimiter(b), Iterate(m, b, accept);
    if m.state == 1 {
      var pos: nat :| Past(w, d, starts, items, m, pos) && Located(w, pos, m.rest, fut);
      assert Past(w, d, starts, items, t.m, pos);
    } else if m.state == 2 {
      HeadersPast(w, d, starts, items, m, fut, accept);
    } else if m.state == 4 {
      EdgeStepPast(w, d, starts, items, m, fut);
    } else if t.done.None? || t.done.value {
      BodyRoundIs(m, b, accept, fut);
      BodyRoundPast(w, d, starts, items, m, fut, t, Settled(m.rest, d));
    }
  }

  lemma BehindState(w: string, d: string, starts: seq<nat>, items: seq<Item>, m: Machine, fut: string)
    requires Behind(w, d, starts, items, m, fut)
    ensures 1 <= m.state <= 4
  {
  }

  lemma {:induction false} RunPast(w: string, b: string, starts: seq<nat>, items: seq<Item>, m: Machine, fut: string,
                                   accept: seq<Out> -> bool)
    requires Laid(w, Delimiter(b), starts, items) && m.state <= 4 && Behind(w, Delimiter(b), starts, items, m, fut)
    ensures var r := Run(m, b, accept); r.1 ==> Behind(w, Delimiter(b), starts, items, r.0, fut)
    decreases |m.rest|, if m.state == 1 then 1 else 0
  {
    if m.rest != "" {
      BehindState(w, Delimiter(b), starts, items, m, fut);
      IteratePast(w, b, starts, items, m, fut, accept);
      var t := Iterate(m, b, accept);
      if t.done.None? {
        RunPast(w, b, starts, items, t.m, fut, accept);
      }
    }
  }

  // The rest of a call and the calls after it do not collect the items.
  lemma {:induction false} FinishPast(w: string, b: string, starts: seq<nat>, items: seq<Item>, m: Machine,
                                      chunks: seq<string>, accept: seq<Out> -> bool)
    requires Laid(w, Delimiter(b), starts, items) && m.state <= 4 && Behind(w, Delimiter(b), starts, items, m, Flatten(chunks))
    ensures Run(m, b, accept).1 ==>
              var r := FeedAll(Run(m, b, accept).0, b, accept, chunks); !(r.1 && Collect(r.0.log) == items)
    decreases |chunks|
  {
    var d, r := Delimiter(b), Run(m, b, accept);
    RunPast(w, b, starts, items, m, Flatten(chunks), accept);
    if r.1 {
      if chunks == [] {
        NotCollected(w, d, starts, items, r.0, "");
      } else {
        var m' := r.0.(rest := r.0.rest + chunks[0]);
        MoreInput(w, d, starts, items, r.0, chunks[0], Flatten(chunks[1..]), m');
        FinishPast(w, b, starts, items, m', chunks[1..], accept);
      }
    }
  }

  lemma PastWithInput(w: string, d: string, starts: seq<nat>, items: seq<Item>, m: Machine, pos: nat, m': Machine)
    requires Past(w, d, starts, items, m, pos) && m' == m.(rest := m'.rest)
    ensures Past(w, d, starts, items, m', pos)
  {
  }

  lemma MoreInput(w: string, d: string, starts: seq<nat>, items: seq<Item>, m: Machine, chunk: string, fut: string, m': Machine)
    requires Behind(w, d, starts, items, m, chunk + fut) && m' == m.(rest := m.rest + chunk)
    ensures Behind(w, d, starts, items, m', fut)
  {
    var pos: nat :| Past(w, d, starts, items, m, pos) && Located(w, pos, m.rest, chunk + fut);
    Regroup(m.rest, chunk, fut);
    PastWithInput(w, d, starts, items, m, pos, m');
  }

  lemma NotCollected(w: string, d: string, starts: seq<nat>, items: seq<Item>, m: Machine, fut: string)
    requires Laid(w, d, starts, items) && Behind(w, d, starts, items, m, fut)
    ensures Collect(m.log) != items
  {
    var pos: nat :| Past(w, d, starts, items, m, pos) && Located(w, pos, m.rest, fut);
    AllAgree(items);
    LastNotWhole(w, d, starts, items, pos);
  }

  lemma AllAgree(items: seq<Item>)
    requires items != []
    ensures Agrees(true, items, items) && Agrees(false, items, items)
  {
    var c := |items| - 1;
    assert items[..|items|] == items && items[c].content[..|items[c].content|] == items[c].content;
  }

  /* ---------- The opening line cut ---------- */

  ghost predicate CanEnter(w: string, starts: seq<nat>, items: seq<Item>, pos: nat) {
    HeadPast(w, starts, 0, pos) || AtBlank(w, starts, items, pos)
  }

  // Behind an opening line that is not the form's own, the parser is behind its place.
  lemma EnteredThere(items: seq<Item>, b: string, p: nat)
    requires items != [] && IsBoundary(b) && WellFormed(items[0], b) && p > 0 && OccursAt(Serialize(items, b), Opening(b), p)
    ensures var w, starts, pos := Serialize(items, b), Starts(items, b), p + |Opening(b)|;
            CanEnter(w, starts, items, pos)
  {
    var o := Opening(b);
    OpeningBehind(items, b, p);
    CharThere(Serialize(items, b), o, p, |o| - 1);
    if p + |o| + 2 == ContentStart(items, b, 0) {
      BlankBefore(items, b);
    }
  }

  lemma EnteredPast(w: string, d: string, starts: seq<nat>, items: seq<Item>, m: Machine, pos: nat, fut: string)
    requires m == Initial.(state := 1, rest := m.rest) && Located(w, pos, m.rest, fut)
    requires CanEnter(w, starts, items, pos)
    ensures Behind(w, d, starts, items, m, fut)
  {
    assert Past(w, d, starts, items, m, pos);
  }

  // The blank line before the first content.
  lemma BlankBefore(items: seq<Item>, b: string)
    requires items != []
    ensures ContentStart(items, b, 0) >= 2 && OccursAt(Serialize(items, b), CRLF, ContentStart(items, b, 0) - 2)
  {
  }

  // The calls after a piece that is forgotten or entered do not collect the items.
  lemma {:induction false} NeverWhole(items: seq<Item>, b: string, accept: seq<Out> -> bool, chunks: seq<string>, q: nat)
    requires items != [] && IsBoundary(b) && forall k :: 0 <= k < |items| ==> WellFormed(items[k], b)
    requires Ahead(Serialize(items, b), chunks, q) && (q == 0 ==> !OpeningWhole(chunks, b))
    ensures var r := FeedAll(Initial, b, accept, chunks); !(r.1 && Collect(r.0.log) == items)
    decreases |chunks|
  {
    var w, o := Serialize(items, b), Opening(b);
    if chunks != [] {
      var i := Find(chunks[0], o);
      AheadNext(w, chunks, q);
      if i == |chunks[0]| {
        PieceForgotten(b, accept, chunks[0]);
        FeedStep(Initial, b, accept, chunks, (Initial, true));
        NeverWhole(items, b, accept, chunks[1..], q + |chunks[0]|);
      } else {
        assert q + i > 0;
        LateFormEntered(items, b, accept, chunks, q, i);
      }
    }
  }

  lemma OpeningAhead(w: string, o: string, chunks: seq<string>, q: nat, i: nat)
    requires Ahead(w, chunks, q) && chunks != [] && i == Find(chunks[0], o) < |chunks[0]|
    ensures i + |o| <= |chunks[0]| && OccursAt(w, o, q + i) && Located(w, q + i + |o|, chunks[0][i + |o|..], Flatten(chunks[1..]))
  {
    AheadNext(w, chunks, q);
    FindFromLeast(chunks[0], o, 0);
    OccursInPiece(w, q, chunks[0], Flatten(chunks[1..]), o, i);
    Advance(w, q, chunks[0], Flatten(chunks[1..]), i + |o|);
  }

  lemma EnteredLater(w: string, b: string, starts: seq<nat>, items: seq<Item>, accept: seq<Out> -> bool, chunks: seq<string>,
                     q: nat, i: nat)
    requires Laid(w, Delimiter(b), starts, items) && Ahead(w, chunks, q) && CanEnter(w, starts, items, q + i + |Opening(b)|)
    requires chunks != [] && i == Find(chunks[0], Opening(b)) < |chunks[0]| && i + |Opening(b)| <= |chunks[0]|
    ensures var r := FeedAll(Initial, b, accept, chunks); !(r.1 && Collect(r.0.log) == items)
  {
    var m, fut := Initial.(state := 1, rest := chunks[0][i + |Opening(b)|..]), Flatten(chunks[1..]);
    OpeningAhead(w, Opening(b), chunks, q, i);
    EnteredPast(w, Delimiter(b), starts, items, m, q + i + |Opening(b)|, fut);
    EnteredNot(w, b, starts, items, accept, chunks, i, m);
  }

  lemma EnteredNot(w: string, b: string, starts: seq<nat>, items: seq<Item>, accept: seq<Out> -> bool, chunks: seq<string>,
                   i: nat, m: Machine)
    requires Laid(w, Delimiter(b), starts, items) && chunks != [] && i == Find(chunks[0], Opening(b)) < |chunks[0]|
    requires i + |Opening(b)| <= |chunks[0]| && m == Initial.(state := 1, rest := chunks[0][i + |Opening(b)|..])
    requires Behind(w, Delimiter(b), starts, items, m, Flatten(chunks[1..]))
    ensures var r := FeedAll(Initial, b, accept, chunks); !(r.1 && Collect(r.0.log) == items)
  {
    PieceEntered(b, accept, chunks[0], i, m);
    FinishPast(w, b, starts, items, m, chunks[1..], accept);
    FeedStep(Initial, b, accept, chunks, Feed(Initial, b, accept, chunks[0]));
  }

  // Behind every boundary line but the first, a parser may enter the form.
  ghost predicate EnterBehind(w: string, o: string, starts: seq<nat>, items: seq<Item>) {
    forall p: nat :: p > 0 && OccursAt(w, o, p) ==> CanEnter(w, starts, items, p + |o|)
  }

  lemma LateEntered(w: string, b: string, starts: seq<nat>, items: seq<Item>, accept: seq<Out> -> bool, chunks: seq<string>,
                    q: nat, i: nat)
    requires Laid(w, Delimiter(b), starts, items) && EnterBehind(w, Opening(b), starts, items)
    requires Ahead(w, chunks, q) && q + i > 0 && chunks != [] && i == Find(chunks[0], Opening(b)) < |chunks[0]|
    ensures var r := FeedAll(Initial, b, accept, chunks); !(r.1 && Collect(r.0.log) == items)
  {
    EntersThere(w, Opening(b), starts, items, chunks, q, i);
    EnteredLater(w, b, starts, items, accept, chunks, q, i);
  }

  lemma EntersThere(w: string, o: string, starts: seq<nat>, items: seq<Item>, chunks: seq<string>, q: nat, i: nat)
    requires EnterBehind(w, o, starts, items)
    requires Ahead(w, chunks, q) && q + i > 0 && chunks != [] && i == Find(chunks[0], o) < |chunks[0]|
    ensures i + |o| <= |chunks[0]| && CanEnter(w, starts, items, q + i + |o|)
  {
    OpeningAhead(w, o, chunks, q, i);
  }

  lemma FoundThere(items: seq<Item>, b: string)
    requires items != [] && IsBoundary(b) && WellFormed(items[0], b)
    ensures EnterBehind(Serialize(items, b), Opening(b), Starts(items, b), items)
  {
    forall p: nat | p > 0 && OccursAt(Serialize(items, b), Opening(b), p)
      ensures CanEnter(Serialize(items, b), Starts(items, b), items, p + |Opening(b)|)
    {
      EnteredThere(items, b, p);
    }
  }

  lemma LateFormEntered(items: seq<Item>, b: string, accept: seq<Out> -> bool, chunks: seq<string>, q: nat, i: nat)
    requires items != [] && IsBoundary(b) && forall k :: 0 <= k < |items| ==> WellFormed(items[k], b)
    requires Ahead(Serialize(items, b), chunks, q) && q + i > 0 && chunks != [] && i == Find(chunks[0], Opening(b)) < |chunks[0]|
    ensures var r := FeedAll(Initial, b, accept, chunks); !(r.1 && Collect(r.0.log) == items)
  {
    FoundThere(items, b);
    FormLaid(items, b);
    LateEntered(Serialize(items, b), b, Starts(items, b), items, accept, chunks, q, i);
  }

  /* ----- A form without items ----- */

  lemma {:induction false} NothingMore(m: Machine, b: string, accept: seq<Out> -> bool, chunks: seq<string>)
    requires m.state <= 4 && m.rest == "" && Flatten(chunks) == ""
    ensures FeedAll(m, b, accept, chunks) == (m, true)
    decreases |chunks|
  {
    if chunks != [] {
      assert |chunks[0]| + |Flatten(chunks[1..])| == 0;
      assert m.rest + chunks[0] == "";
      FeedStep(m, b, accept, chunks, (m, true));
      NothingMore(m, b, accept, chunks[1..]);
    }
  }

  // A boundary line can only be found at the end of the closing line.
  lemma OpeningInClosing(b: string, p: nat)
    requires IsBoundary(b) && OccursAt(Serialize([], b), Opening(b), p)
    ensures p + |Opening(b)| == |Serialize([], b)|
  {
    var line := "--" + b + "--";
    assert Serialize([], b) == line + (CRLF + "");
    OpeningIsLine(b);
    LineOccurs(line, "", Opening(b), p);
  }

  // A form without items never counts as valid.
  lemma {:induction false} EmptyForm(b: string, accept: seq<Out> -> bool, chunks: seq<string>, q: nat)
    requires IsBoundary(b) && Ahead(Serialize([], b), chunks, q)
    ensures !FeedAll(Initial, b, accept, chunks).0.valid
    decreases |chunks|
  {
    var w, o := Serialize([], b), Opening(b);
    if chunks != [] {
      var i := Find(chunks[0], o);
      AheadNext(w, chunks, q);
      if i == |chunks[0]| {
        PieceForgotten(b, accept, chunks[0]);
        FeedStep(Initial, b, accept, chunks, (Initial, true));
        EmptyForm(b, accept, chunks[1..], q + |chunks[0]|);
      } else {
        OpeningAhead(w, o, chunks, q, i);
        OpeningInClosing(b, q + i);
        EmptyEntered(w, b, accept, chunks, i);
      }
    }
  }

  lemma EmptyEntered(w: string, b: string, accept: seq<Out> -> bool, chunks: seq<string>, i: nat)
    requires chunks != [] && i == Find(chunks[0], Opening(b)) < |chunks[0]| && i + |Opening(b)| <= |chunks[0]|
    requires Located(w, |w|, chunks[0][i + |Opening(b)|..], Flatten(chunks[1..]))
    ensures !FeedAll(Initial, b, accept, chunks).0.valid
  {
    var m := Initial.(state := 1, rest := chunks[0][i + |Opening(b)|..]);
    assert |w[|w|..]| == |m.rest| + |Flatten(chunks[1..])| == 0;
    PieceEntered(b, accept, chunks[0], i, m);
    FeedStep(Initial, b, accept, chunks, (m, true));
    NothingMore(m, b, accept, chunks[1..]);
  }

  // The round trip holds exactly if there are items and the opening line comes whole.
  lemma RoundTripExactly(items: seq<Item>, b: string, accept: seq<Out> -> bool, chunks: seq<string>)
    requires Ready(items, b, accept) && Flatten(chunks) == Serialize(items, b)
    ensures var r := FeedAll(Initial, b, accept, chunks);
            r.1 && r.0.valid && Collect(r.0.log) == items <==> items != [] && OpeningWhole(chunks, b)
  {
    assert Serialize(items, b)[0..] == Serialize(items, b);
    if items == [] {
      EmptyForm(b, accept, chunks, 0);
    } else if OpeningWhole(chunks, b) {
      RoundTrip(items, b, chunks, accept);
    } else {
      NeverWhole(items, b, accept, chunks, 0);
    }
  }
}
