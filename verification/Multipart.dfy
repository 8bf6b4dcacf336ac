/**
 The streaming multipart/form-data parser and its serializer.
 `Machine` is the parser's state as a value; `Iterate` is one round of its loop.
 */
module Multipart {
  import opened Common
  import opened HttpText
  import Query

  const CONTENT_TYPE: string := "content-type:"
  const CONTENT_DISPOSITION: string := "content-disposition:"
  const FORM_DATA: string := "form-data;"

  datatype FileInfo = FileInfo(name: string, filename: string, contentType: string)

  const NoFile := FileInfo("", "", "")

  // What the parser hands to its callbacks.
  datatype Out = Header(info: FileInfo) | Data(bytes: string)

  // `log` is what the callbacks were given; `rest` is the buffered input not yet used.
  datatype Machine = Machine(state: nat, valid: bool, file: FileInfo, rest: string, log: seq<Out>)

  const Initial := Machine(0, false, NoFile, "", [])

  // One round of the loop; `done` is the value the call returns with, if it returns.
  datatype Turn = Turn(m: Machine, done: Option<bool>)

  function Opening(b: string): string {
    "--" + b + CRLF
  }

  function Delimiter(b: string): string {
    CRLF + "--" + b
  }

  /* ---------- Header lines ---------- */

  function ToLower(c: char): char {
    if 'A' <= c <= 'Z' then (c as int + 32) as char else c
  }

  function Lower(s: string): string {
    if s == "" then "" else [ToLower(s[0])] + Lower(s[1..])
  }

  predicate StartsIgnoreCase(a: string, b: string) {
    |a| >= |b| && Lower(a[..|b|]) == Lower(b)
  }

  // White space as the pattern understands it.
  function SkipSpace(s: string): (r: string)
    ensures |r| <= |s|
  {
    if s != "" && IsSpace(s[0]) then SkipSpace(s[1..]) else s
  }

  // Content-Disposition, form-data, then the parameters, none of them with a line break.
  function MatchDisposition(h: string): Option<string> {
    if !StartsIgnoreCase(h, CONTENT_DISPOSITION) then None else
    var a := SkipSpace(h[|CONTENT_DISPOSITION|..]);
    if !StartsIgnoreCase(a, FORM_DATA) then None else
    var params := SkipSpace(a[|FORM_DATA|..]);
    if '\r' in params || '\n' in params then None else Some(params)
  }

  // The extended notation of a file name, UTF-8 only.
  function MatchExtended(v: string): Option<string> {
    if StartsIgnoreCase(v, "utf-8''") && |v| > 7 && '\r' !in v[7..] && '\n' !in v[7..] then Some(v[7..]) else None
  }

  function TrimQuotes(s: string): string {
    if |s| >= 2 && s[0] == '"' && s[|s| - 1] == '"' then s[1..|s| - 1] else s
  }

  function Lookup(params: seq<(string, string)>, key: string): Option<string> {
    if params == [] then None else if params[0].0 == key then Some(params[0].1) else Lookup(params[1..], key)
  }

  // The file information after the parameters of a Content-Disposition, and whether they are acceptable.
  function ApplyParams(file: FileInfo, params: seq<(string, string)>): (FileInfo, bool) {
    var name := Lookup(params, "name");
    if name.None? then (file, false) else
    var filename := Lookup(params, "filename");
    var f := file.(name := name.value, filename := if filename.Some? then filename.value else file.filename);
    var extended := Lookup(params, "filename*");
    if extended.None? then (f, true) else
    var e := MatchExtended(extended.value);
    if e.None? then (f, false) else (f.(filename := Query.Decode(e.value, false)), true)
  }

  function DispositionParams(params: string): seq<(string, string)> {
    Pairs(Split(params, ';'), {}, TrimQuotes)
  }

  // The file information after one header line, and whether the line is acceptable.
  function ParseHeader(file: FileInfo, h: string): (FileInfo, bool) {
    if StartsIgnoreCase(h, CONTENT_TYPE) then (file.(contentType := Strip(h[|CONTENT_TYPE|..])), true) else
    var m := MatchDisposition(h);
    if m.None? then (file, false) else ApplyParams(file, DispositionParams(m.value))
  }

  method ParseDispositionParams(s: string) returns (params: seq<(string, string)>)
    ensures params == DispositionParams(s)
  {
    params := ParsePairs(s, ';', TrimQuotes);
  }

  /* ---------- One round of the loop ---------- */

  function FindOpening(m: Machine, b: string): Turn {
    var rest := m.rest[Find(m.rest, Opening(b))..];
    if |Opening(b)| > |rest| then Turn(m.(rest := rest), Some(true))
    else if !OccursAt(rest, Opening(b), 0) then Turn(m.(rest := rest), Some(false))
    else Turn(m.(rest := rest[|Opening(b)|..], state := 1), None)
  }

  // One header line; the blank line leads to the body state.
  function HeaderStep(m: Machine, accept: seq<Out> -> bool): (t: Turn)
    requires m.state == 2
    ensures t.m.state == 2 || t.m.state == 3
    ensures t.done.None? ==> |t.m.rest| < |m.rest|
  {
    var pos := Find(m.rest, CRLF);
    if pos == |m.rest| then Turn(m, Some(true))
    else if pos == 0 then
      var log := m.log + [Header(m.file)];
      if !accept(log) then Turn(m.(log := log, valid := false), Some(false))
      else Turn(m.(log := log, rest := m.rest[2..], state := 3), None)
    else
      var (file, ok) := ParseHeader(m.file, m.rest[..pos]);
      if !ok then Turn(m.(file := file, valid := false), Some(false))
      else Turn(m.(file := file, rest := m.rest[pos + 2..]), None)
  }

  function ReadHeaders(m: Machine, accept: seq<Out> -> bool): (t: Turn)
    requires m.state == 2
    ensures t.m.state == 2 || t.m.state == 3
    ensures t.done.None? ==> t.m.state == 3 && |t.m.rest| < |m.rest|
    decreases |m.rest|
  {
    var t := HeaderStep(m, accept);
    if t.done.Some? || t.m.state == 3 then t else ReadHeaders(t.m, accept)
  }

  function ReadHead(m: Machine, accept: seq<Out> -> bool): (t: Turn)
    requires m.state == 2
    ensures t.m.state <= 4 && (t.done.None? ==> |t.m.rest| < |m.rest|)
  {
    if Find(m.rest, CRLF) > HEADER_MAX_LENGTH then Turn(m, Some(false)) else ReadHeaders(m, accept)
  }

  function ReadBody(m: Machine, b: string, accept: seq<Out> -> bool): (t: Turn)
    ensures t.done.None? ==> |t.m.rest| < |m.rest|
  {
    var d := Delimiter(b);
    if |d| > |m.rest| then Turn(m, Some(true)) else
    var pos := Find(m.rest, d);
    if pos < |m.rest| then
      var log := m.log + [Data(m.rest[..pos])];
      if !accept(log) then Turn(m.(log := log, valid := false), Some(false))
      else Turn(m.(log := log, rest := m.rest[pos + |d|..], state := 4), None)
    else
      var len := |m.rest| - |d|;
      if len == 0 then Turn(m, Some(true)) else
      var log := m.log + [Data(m.rest[..len])];
      if !accept(log) then Turn(m.(log := log, valid := false), Some(false))
      else Turn(m.(log := log, rest := m.rest[len..]), Some(true))
  }

  function ReadEdge(m: Machine): (t: Turn)
    requires m.rest != ""
    ensures t.done.None? ==> |t.m.rest| < |m.rest|
  {
    if |m.rest| < 2 then Turn(m, Some(true))
    else if OccursAt(m.rest, CRLF, 0) then Turn(m.(rest := m.rest[2..], state := 1), None)
    else if OccursAt(m.rest, "--", 0) then Turn(m.(rest := "", valid := true), None)
    else Turn(m, Some(true))
  }

  function Iterate(m: Machine, b: string, accept: seq<Out> -> bool): (t: Turn)
    requires m.state <= 4 && m.rest != ""
    ensures t.m.state <= 4
    ensures t.done.None? ==> |t.m.rest| < |m.rest| || (m.state == 1 && t.m.state == 2 && |t.m.rest| == |m.rest|)
  {
    match m.state
    case 0 => FindOpening(m, b)
    case 1 => Turn(m.(file := NoFile, state := 2), None)
    case 2 => ReadHead(m, accept)
    case 3 => ReadBody(m, b, accept)
    case 4 => ReadEdge(m)
  }

  function Run(m: Machine, b: string, accept: seq<Out> -> bool): (r: (Machine, bool))
    requires m.state <= 4
    ensures r.0.state <= 4
    decreases |m.rest|, if m.state == 1 then 1 else 0
  {
    if m.rest == "" then (m, true) else
    var t := Iterate(m, b, accept);
    if t.done.Some? then (t.m, t.done.value) else Run(t.m, b, accept)
  }

  // One call of the parser.
  function Feed(m: Machine, b: string, accept: seq<Out> -> bool, data: string): (r: (Machine, bool))
    requires m.state <= 4
    ensures r.0.state <= 4
  {
    Run(m.(rest := m.rest + data), b, accept)
  }

  // The calls for a body that arrives in pieces; the reader gives up when a call fails.
  function FeedAll(m: Machine, b: string, accept: seq<Out> -> bool, chunks: seq<string>): (Machine, bool)
    requires m.state <= 4
    decreases |chunks|
  {
    if chunks == [] then (m, true) else
    var r := Feed(m, b, accept, chunks[0]);
    if r.1 then FeedAll(r.0, b, accept, chunks[1..]) else r
  }

  /* ---------- The serializer ---------- */

  datatype Item = Item(name: string, content: string, filename: string, contentType: string)

  function Quoted(key: string, value: string): string {
    key + "=" + ("\"" + value + "\"")
  }

  function Parameters(item: Item): string {
    Quoted("name", item.name) + if item.filename == "" then "" else ";" + (" " + Quoted("filename", item.filename))
  }

  function Disposition(item: Item): string {
    "Content-Disposition:" + (" " + ("form-data;" + (" " + Parameters(item))))
  }

  function Lines(item: Item): seq<string> {
    [Disposition(item)] + if item.contentType == "" then [] else ["Content-Type:" + (" " + item.contentType)]
  }

  function ItemBegin(item: Item, b: string): string {
    "--" + b + "\r\n" + Disposition(item) + "\r\n"
    + (if item.contentType == "" then "" else "Content-Type:" + (" " + item.contentType) + "\r\n") + "\r\n"
  }

  function SerializeItems(items: seq<Item>, b: string): string {
    if items == [] then "" else ItemBegin(items[0], b) + (items[0].content + "\r\n") + SerializeItems(items[1..], b)
  }

  function Serialize(items: seq<Item>, b: string): string {
    SerializeItems(items, b) + ("--" + b + "--\r\n")
  }

  method SerializeFormData(items: seq<Item>, b: string) returns (body: string)
    ensures body == Serialize(items, b)
  {
    body := "";
    var i := 0;
    while i < |items|
      invariant 0 <= i <= |items|
      invariant body + SerializeItems(items[i..], b) == SerializeItems(items, b)
    {
      ghost var todo := items[i..];
      assert todo[0] == items[i] && todo[1..] == items[i + 1..];
      Regroup4(body, ItemBegin(items[i], b), items[i].content + "\r\n", SerializeItems(items[i + 1..], b));
      body := body + ItemBegin(items[i], b);
      body := body + (items[i].content + "\r\n");
      i := i + 1;
    }
    body := body + ("--" + b + "--\r\n");
  }

  /* ---------- What the parser makes of the serializer's header lines ---------- */

  // Free of what delimits parameters and lines.
  predicate IsName(s: string) {
    ';' !in s && '=' !in s && '\r' !in s && '\n' !in s
  }

  predicate WellFormed(item: Item, b: string) {
    && IsName(item.name) && IsName(item.filename)
    && Trimmed(item.contentType) && '\r' !in item.contentType && '\n' !in item.contentType
    && (forall k :: 0 <= k < |Lines(item)| ==> |Lines(item)[k]| < HEADER_MAX_LENGTH)
    && Find(item.content, Delimiter(b)) == |item.content|
  }

  predicate IsBoundary(b: string) {
    forall k :: 0 <= k < |b| ==> Query.IsAlnum(b[k]) || b[k] == '-' || b[k] == '_'
  }

  lemma StartsWith(a: string, tail: string)
    ensures (a + tail)[..|a|] == a && (a + tail)[|a|..] == tail
  {
  }

  lemma QuotedText(key: string, value: string)
    requires IsName(key) && IsName(value) && key != "" && Trimmed(key)
    ensures ';' !in Quoted(key, value)
    ensures Segment(Quoted(key, value)) == [Quoted(key, value)] && Segment(" " + Quoted(key, value)) == [Quoted(key, value)]
  {
    StripTrimmed(Quoted(key, value));
  }

  lemma QuotedParts(key: string, value: string)
    requires IsName(key) && IsName(value) && key != "" && Trimmed(key)
    ensures KeyValue(Quoted(key, value)) == (key, "\"" + value + "\"")
  {
    var q := "\"" + value + "\"";
    QuotedSegment(value);
    StripTrimmed(key);
    SplitAtDelimiter(key, '=', q);
  }

  lemma QuotedSegment(value: string)
    requires IsName(value)
    ensures var q := "\"" + value + "\""; Split(q, '=') == [q]
  {
    var q := "\"" + value + "\"";
    StripTrimmed(q);
    assert '=' !in q;
    SplitWhole(q, '=');
  }

  // One pair joins the list.
  lemma QuotedPair(key: string, value: string, pieces: seq<string>, seen: set<string>)
    requires IsName(key) && IsName(value) && key != "" && Trimmed(key) && key[0] != '"'
    requires Quoted(key, value) !in seen
    ensures Pairs([Quoted(key, value)] + pieces, seen, TrimQuotes)
            == [(key, value)] + Pairs(pieces, seen + {Quoted(key, value)}, TrimQuotes)
  {
    QuotedParts(key, value);
    var all := [Quoted(key, value)] + pieces;
    assert all[1..] == pieces;
    assert TrimQuotes("\"" + value + "\"") == value;
  }

  lemma ParametersSplit(item: Item)
    requires IsName(item.name) && IsName(item.filename)
    ensures Split(Parameters(item), ';')
            == [Quoted("name", item.name)] + if item.filename == "" then [] else [Quoted("filename", item.filename)]
  {
    var a, f := Quoted("name", item.name), Quoted("filename", item.filename);
    QuotedText("name", item.name);
    QuotedText("filename", item.filename);
    if item.filename == "" {
      assert Parameters(item) == a;
      SplitWhole(a, ';');
    } else {
      SplitTwo(a, f);
    }
  }

  lemma SplitTwo(a: string, f: string)
    requires ';' !in a && ';' !in f && Segment(a) == [a] && Segment(" " + f) == [f]
    ensures Split(a + (";" + (" " + f)), ';') == [a] + [f]
  {
    Regroup(a, ";", " " + f);
    SplitAtDelimiter(a, ';', " " + f);
    SplitWhole(" " + f, ';');
  }

  lemma ParametersParsed(item: Item)
    requires IsName(item.name) && IsName(item.filename)
    ensures Pairs(Split(Parameters(item), ';'), {}, TrimQuotes)
            == [("name", item.name)] + if item.filename == "" then [] else [("filename", item.filename)]
  {
    ParametersSplit(item);
    if item.filename == "" {
      QuotedPair("name", item.name, [], {});
    } else {
      TwoPairs(item.name, item.filename);
    }
  }

  lemma TwoPairs(name: string, filename: string)
    requires IsName(name) && IsName(filename)
    ensures Pairs([Quoted("name", name)] + [Quoted("filename", filename)], {}, TrimQuotes) == [("name", name)] + [("filename", filename)]
  {
    var a, f := Quoted("name", name), Quoted("filename", filename);
    assert a[0] == 'n' && f[0] == 'f';
    QuotedPair("name", name, [f], {});
    QuotedPair("filename", filename, [], {a});
    assert [f] + [] == [f];
  }

  lemma ParametersText(item: Item)
    requires IsName(item.name) && IsName(item.filename)
    ensures '\r' !in Parameters(item) && '\n' !in Parameters(item) && Parameters(item)[0] == 'n'
  {
    QuotedOnOneLine("name", item.name);
    QuotedOnOneLine("filename", item.filename);
    assert Quoted("name", item.name)[0] == 'n';
  }

  lemma QuotedOnOneLine(key: string, value: string)
    requires IsName(key) && IsName(value)
    ensures '\r' !in Quoted(key, value) && '\n' !in Quoted(key, value)
  {
  }

  lemma SkipOne(s: string)
    requires s != "" && s[0] != ' ' && 13 < s[0] as int
    ensures SkipSpace(" " + s) == s
  {
    assert (" " + s)[1..] == s;
  }

  lemma StartsHere(p: string, b: string, tail: string)
    requires |p| == |b| && Lower(p) == Lower(b)
    ensures StartsIgnoreCase(p + tail, b) && (p + tail)[|b|..] == tail
  {
    StartsWith(p, tail);
  }

  lemma HeaderNames()
    ensures Lower("Content-Disposition:") == Lower(CONTENT_DISPOSITION)
    ensures Lower("Content-Type:") == Lower(CONTENT_TYPE)
  {
    DispositionName();
    TypeName();
  }

  lemma DispositionName()
    ensures Lower("Content-Disposition:") == Lower(CONTENT_DISPOSITION)
  {
  }

  lemma TypeName()
    ensures Lower("Content-Type:") == Lower(CONTENT_TYPE)
  {
  }

  lemma DispositionMatched(item: Item)
    requires IsName(item.name) && IsName(item.filename)
    ensures MatchDisposition(Disposition(item)) == Some(Parameters(item))
  {
    var params := Parameters(item);
    var a := "form-data;" + (" " + params);
    ParametersText(item);
    HeaderNames();
    StartsHere("Content-Disposition:", CONTENT_DISPOSITION, " " + a);
    StartsHere("form-data;", FORM_DATA, " " + params);
    SkipOne(a);
    SkipOne(params);
  }

  lemma {:induction false} LowerAt(s: string, k: nat)
    requires k < |s|
    ensures |Lower(s)| == |s| && Lower(s)[k] == ToLower(s[k])
  {
    if |s| > 1 {
      LowerAt(s[1..], if k == 0 then 0 else k - 1);
    }
  }

  lemma NotContentType(item: Item)
    ensures !StartsIgnoreCase(Disposition(item), CONTENT_TYPE)
  {
    var h := Disposition(item);
    assert h[8] == "Content-Disposition:"[8] == 'D';
    LowerAt(h[..13], 8);
    LowerAt(CONTENT_TYPE, 8);
  }

  lemma DispositionParsed(item: Item)
    requires IsName(item.name) && IsName(item.filename)
    ensures ParseHeader(NoFile, Disposition(item)) == (FileInfo(item.name, item.filename, ""), true)
  {
    NotContentType(item);
    DispositionMatched(item);
    ParametersParsed(item);
    LookupParameters(item);
  }

  lemma LookupParameters(item: Item)
    ensures var params := [("name", item.name)] + if item.filename == "" then [] else [("filename", item.filename)];
            && Lookup(params, "name") == Some(item.name)
            && Lookup(params, "filename") == (if item.filename == "" then None else Some(item.filename))
            && Lookup(params, "filename*") == None
  {
    var second := if item.filename == "" then [] else [("filename", item.filename)];
    assert ([("name", item.name)] + second)[1..] == second;
    assert second != [] ==> second[1..] == [];
    assert Lookup(second, "filename*") == None by {
      assert second != [] ==> |second[0].0| != |"filename*"|;
    }
  }

  lemma ContentTypeParsed(file: FileInfo, contentType: string)
    requires Trimmed(contentType)
    ensures ParseHeader(file, "Content-Type:" + (" " + contentType)) == (file.(contentType := contentType), true)
  {
    HeaderNames();
    StartsHere("Content-Type:", CONTENT_TYPE, " " + contentType);
    StripTrimmed(contentType);
  }

  // The file information after the first `j` header lines of an item.
  function FileAfter(item: Item, j: nat): FileInfo {
    if j == 0 then NoFile
    else if j == 1 then FileInfo(item.name, item.filename, "")
    else FileInfo(item.name, item.filename, item.contentType)
  }

  lemma LineParsed(item: Item, j: nat)
    requires IsName(item.name) && IsName(item.filename) && Trimmed(item.contentType) && j < |Lines(item)|
    ensures ParseHeader(FileAfter(item, j), Lines(item)[j]) == (FileAfter(item, j + 1), true)
  {
    if j == 0 {
      DispositionParsed(item);
    } else {
      ContentTypeParsed(FileAfter(item, 1), item.contentType);
    }
  }

  lemma LineText(item: Item, b: string, j: nat)
    requires WellFormed(item, b) && j < |Lines(item)|
    ensures var line := Lines(item)[j]; line != "" && '\r' !in line && |line| < HEADER_MAX_LENGTH
  {
    if j == 0 {
      ParametersText(item);
    }
  }

  /* ---------- The serialized body, read from the front ---------- */

  function Head(lines: seq<string>): string {
    if lines == [] then CRLF else lines[0] + (CRLF + Head(lines[1..]))
  }

  // What follows an item's delimiter.
  function After(items: seq<Item>, b: string): string
    decreases |items|, 1
  {
    if items == [] then "--" + CRLF else CRLF + Stream(items, b)
  }

  function Stream(items: seq<Item>, b: string): string
    requires items != []
    decreases |items|, 0
  {
    Head(Lines(items[0])) + (items[0].content + (Delimiter(b) + After(items[1..], b)))
  }

  lemma ItemBeginText(item: Item, b: string)
    ensures ItemBegin(item, b) == Opening(b) + Head(Lines(item))
  {
    var d, t := Disposition(item), "Content-Type:" + (" " + item.contentType);
    if item.contentType == "" {
      assert Lines(item)[1..] == [];
      assert Head(Lines(item)) == d + (CRLF + CRLF);
    } else {
      assert Lines(item)[1..] == [t] && [t][1..] == [];
      assert Head([t]) == t + (CRLF + CRLF);
      assert Head(Lines(item)) == d + (CRLF + (t + (CRLF + CRLF)));
    }
  }

  lemma NextText(b: string, s: string)
    ensures CRLF + (Opening(b) + s) == Delimiter(b) + (CRLF + s)
  {
  }

  lemma LastText(b: string)
    ensures CRLF + ("--" + b + "--\r\n") == Delimiter(b) + ("--" + CRLF)
  {
    assert "--\r\n" == "--" + CRLF;
  }

  lemma ItemText(o: string, h: string, c: string, items: string, fin: string)
    ensures o + h + (c + CRLF) + items + fin == o + (h + (c + (CRLF + (items + fin))))
  {
  }

  lemma {:induction false} SerializeText(items: seq<Item>, b: string)
    requires items != []
    ensures Serialize(items, b) == Opening(b) + Stream(items, b)
  {
    var item, rest, fin := items[0], items[1..], "--" + b + "--\r\n";
    ItemBeginText(item, b);
    ItemText(Opening(b), Head(Lines(item)), item.content, SerializeItems(rest, b), fin);
    if rest == [] {
      assert SerializeItems(rest, b) + fin == fin;
      LastText(b);
    } else {
      SerializeText(rest, b);
      NextText(b, Stream(rest, b));
    }
  }

  /* ---------- What the callbacks have received ---------- */

  function Collect(log: seq<Out>): seq<Item> {
    if log == [] then [] else
    var before := Collect(log[..|log| - 1]);
    match log[|log| - 1]
    case Header(info) => before + [Item(info.name, "", info.filename, info.contentType)]
    case Data(bytes) =>
      if before == [] then [] else
      var last := before[|before| - 1];
      before[..|before| - 1] + [last.(content := last.content + bytes)]
  }

  lemma CollectHeader(log: seq<Out>, info: FileInfo)
    ensures Collect(log + [Header(info)]) == Collect(log) + [Item(info.name, "", info.filename, info.contentType)]
  {
    assert (log + [Header(info)])[..|log|] == log;
  }

  lemma CollectData(log: seq<Out>, bytes: string, done: seq<Item>, item: Item)
    requires Collect(log) == done + [item]
    ensures Collect(log + [Data(bytes)]) == done + [item.(content := item.content + bytes)]
  {
    assert (log + [Data(bytes)])[..|log|] == log;
    assert (done + [item])[..|done|] == done;
  }

  /* ---------- Where the parser stands in the serialized body ---------- */

  datatype Place = New(k: nat) | Heads(k: nat, j: nat) | Body(k: nat, e: nat) | Edge(k: nat) | Over

  // `todo` is the buffered input followed by the input still to come.
  ghost predicate At(m: Machine, place: Place, todo: string, items: seq<Item>, b: string) {
    match place
    case New(k) =>
      k < |items| && m.state == 1 && Collect(m.log) == items[..k] && todo == Stream(items[k..], b)
    case Heads(k, j) =>
      && k < |items| && m.state == 2 && Collect(m.log) == items[..k]
      && j <= |Lines(items[k])| && m.file == FileAfter(items[k], j)
      && todo == Head(Lines(items[k])[j..]) + (items[k].content + (Delimiter(b) + After(items[k + 1..], b)))
    case Body(k, e) =>
      && k < |items| && m.state == 3 && e <= |items[k].content|
      && Collect(m.log) == items[..k] + [items[k].(content := items[k].content[..e])]
      && todo == items[k].content[e..] + (Delimiter(b) + After(items[k + 1..], b))
    case Edge(k) =>
      k <= |items| && m.state == 4 && Collect(m.log) == items[..k] && todo == After(items[k..], b)
    case Over =>
      && m.valid && Collect(m.log) == items
      && (m.state == 4 || (m.state == 1 && todo == ""))
      && (todo == CRLF || todo == "\n" || todo == "")
  }

  ghost predicate Ready(items: seq<Item>, b: string, accept: seq<Out> -> bool) {
    && IsBoundary(b)
    && (forall k :: 0 <= k < |items| ==> WellFormed(items[k], b))
    && (forall log :: accept(log))
  }

  // The position of the first line break when `line` comes first, in the part that has arrived.
  lemma FindLineEnd(line: string, rest: string, fut: string, tail: string)
    requires '\r' !in line && rest + fut == line + (CRLF + tail)
    ensures Find(rest, CRLF) == if |line| + 2 <= |rest| then |line| else |rest|
    ensures |line| + 2 <= |rest| ==> rest[..|line|] == line && rest[|line| + 2..] + fut == tail
  {
    forall j: nat | j < |line|
      ensures !OccursAt(line, CRLF, j)
    {
      assert j + 2 <= |line| ==> line[j..j + 2][0] == line[j];
    }
    FindFromIs(line, CRLF, 0, |line|);
    FindDelimiter(line, CRLF, tail);
    assert line + CRLF + tail == rest + fut;
    FindInPrefix(rest, fut, CRLF);
    if |line| + 2 <= |rest| {
      assert (rest + fut)[..|line|] == line;
      assert (rest + fut)[|line| + 2..] == tail;
    }
  }

  /* ---------- The body state, for arbitrary input ---------- */

  lemma DelimiterOnce(b: string)
    requires IsBoundary(b)
    ensures Delimiter(b)[0] !in Delimiter(b)[1..]
  {
    var d := Delimiter(b);
    assert forall k :: 1 <= k < |d| ==> d[k] != '\r';
  }

  // How many of the buffered bytes are known to belong to the body.
  function Settled(rest: string, d: string): nat {
    var pos := Find(rest, d);
    if pos < |rest| then pos else if |d| > |rest| then 0 else |rest| - |d|
  }

  lemma SettledIsBody(rest: string, fut: string, d: string)
    requires d != ""
    ensures Settled(rest, d) <= |rest| && Settled(rest, d) <= Find(rest + fut, d)
    ensures Find(rest, d) < |rest| ==> Find(rest, d) == Find(rest + fut, d) < |rest + fut|
    ensures Find(rest, d) == |rest| && Find(rest + fut, d) < |rest + fut| ==> |rest| < Find(rest + fut, d) + |d|
  {
    FindInPrefix(rest, fut, d);
  }

  // One round in the body state, whatever the bytes and the callback's answer: it hands on bytes that
  // stand before the first delimiter of everything that has come and will come, all of them once it leaves.
  lemma BodyTurn(m: Machine, b: string, accept: seq<Out> -> bool, fut: string)
    requires m.state == 3
    ensures var t, d, i := ReadBody(m, b, accept), Delimiter(b), Find(m.rest + fut, Delimiter(b));
            var n := Settled(m.rest, d);
            && n <= |m.rest| && n <= i
            && (t.done.None? ==> && t.m == m.(state := 4, log := m.log + [Data(m.rest[..n])], rest := m.rest[n + |d|..])
                                 && n == i < |m.rest + fut| && n + |d| <= |m.rest| && accept(t.m.log))
            && (t.done == Some(true) ==> && t.m == m.(log := if n == 0 then m.log else m.log + [Data(m.rest[..n])], rest := m.rest[n..])
                                         && (i < |m.rest + fut| ==> |m.rest| < i + |d|))
            && (t.done == Some(false) ==> t.m == m.(log := m.log + [Data(m.rest[..n])], valid := false) && !accept(t.m.log))
  {
    SettledIsBody(m.rest, fut, Delimiter(b));
    if |Delimiter(b)| > |m.rest| || Find(m.rest, Delimiter(b)) == |m.rest| {
      assert m.rest[0..] == m.rest;
    }
  }

  /* ---------- The round trip ---------- */

  lemma HeadText(lines: seq<string>, j: nat, tail: string)
    requires j < |lines|
    ensures Head(lines[j..]) + tail == lines[j] + (CRLF + (Head(lines[j + 1..]) + tail))
  {
    assert lines[j..][0] == lines[j] && lines[j..][1..] == lines[j + 1..];
  }

  lemma HeaderDone(item: Item)
    ensures FileAfter(item, |Lines(item)|) == FileInfo(item.name, item.filename, item.contentType)
  {
  }

  // The blank line: the header callback gets the item's own information.
  lemma BlankLineKeeps(m: Machine, fut: string, items: seq<Item>, b: string, accept: seq<Out> -> bool, k: nat)
    requires Ready(items, b, accept) && k < |items| && At(m, Heads(k, |Lines(items[k])|), m.rest + fut, items, b)
    ensures var t := ReadHeaders(m, accept);
            && (t.done.Some? ==> t == Turn(m, Some(true)) && |m.rest| < 2)
            && (t.done.None? ==> At(t.m, Body(k, 0), t.m.rest + fut, items, b))
  {
    var item, tail := items[k], items[k].content + (Delimiter(b) + After(items[k + 1..], b));
    assert Lines(item)[|Lines(item)|..] == [];
    FindLineEnd("", m.rest, fut, tail);
    if |m.rest| >= 2 {
      BlankLineRead(m, accept);
      HeaderDone(item);
      CollectHeader(m.log, m.file);
      AtBodyStart(ReadHeaders(m, accept).m, tail, items, b, k);
    } else {
      NoLineYet(m, accept);
    }
  }

  lemma AtBodyStart(m: Machine, todo: string, items: seq<Item>, b: string, k: nat)
    requires k < |items| && m.state == 3 && todo == items[k].content + (Delimiter(b) + After(items[k + 1..], b))
    requires Collect(m.log) == items[..k] + [Item(items[k].name, "", items[k].filename, items[k].contentType)]
    ensures At(m, Body(k, 0), todo, items, b)
  {
    assert items[k].content[..0] == "" && items[k].content[0..] == items[k].content;
  }

  lemma NoLineYet(m: Machine, accept: seq<Out> -> bool)
    requires m.state == 2 && Find(m.rest, CRLF) == |m.rest|
    ensures ReadHeaders(m, accept) == Turn(m, Some(true))
  {
  }

  lemma BlankLineRead(m: Machine, accept: seq<Out> -> bool)
    requires m.state == 2 && Find(m.rest, CRLF) == 0 && m.rest != "" && forall log :: accept(log)
    ensures 2 <= |m.rest|
    ensures ReadHeaders(m, accept) == Turn(m.(log := m.log + [Header(m.file)], rest := m.rest[2..], state := 3), None)
  {
  }

  lemma ReadLine(m: Machine, accept: seq<Out> -> bool, pos: nat, file: FileInfo)
    requires m.state == 2 && Find(m.rest, CRLF) == pos && 0 < pos < |m.rest|
    requires ParseHeader(m.file, m.rest[..pos]) == (file, true)
    ensures ReadHeaders(m, accept) == ReadHeaders(m.(file := file, rest := m.rest[pos + 2..]), accept)
  {
  }

  // The machine behind one header line of an item.
  function PastLine(m: Machine, item: Item, j: nat): Machine
    requires j < |Lines(item)| && |Lines(item)[j]| + 2 <= |m.rest|
  {
    m.(file := FileAfter(item, j + 1), rest := m.rest[|Lines(item)[j]| + 2..])
  }

  lemma LineKeeps(m: Machine, fut: string, items: seq<Item>, b: string, k: nat, j: nat)
    requires k < |items| && WellFormed(items[k], b) && j < |Lines(items[k])| && |Lines(items[k])[j]| + 2 <= |m.rest|
    requires At(m, Heads(k, j), m.rest + fut, items, b)
    ensures var m' := PastLine(m, items[k], j); At(m', Heads(k, j + 1), m'.rest + fut, items, b)
  {
    var item := items[k];
    var lines, tail := Lines(item), item.content + (Delimiter(b) + After(items[k + 1..], b));
    HeadText(lines, j, tail);
    LineText(item, b, j);
    FindLineEnd(lines[j], m.rest, fut, Head(lines[j + 1..]) + tail);
  }

  lemma LineFound(m: Machine, fut: string, items: seq<Item>, b: string, k: nat, j: nat)
    requires k < |items| && WellFormed(items[k], b) && j < |Lines(items[k])| && |Lines(items[k])[j]| + 2 <= |m.rest|
    requires At(m, Heads(k, j), m.rest + fut, items, b)
    ensures var line := Lines(items[k])[j];
            line != "" && Find(m.rest, CRLF) == |line| && m.rest[..|line|] == line
  {
    var item := items[k];
    var lines, tail := Lines(item), item.content + (Delimiter(b) + After(items[k + 1..], b));
    HeadText(lines, j, tail);
    LineText(item, b, j);
    FindLineEnd(lines[j], m.rest, fut, Head(lines[j + 1..]) + tail);
  }

  lemma ItemLineRead(m: Machine, accept: seq<Out> -> bool, item: Item, b: string, j: nat)
    requires WellFormed(item, b) && j < |Lines(item)| && m.state == 2 && m.file == FileAfter(item, j)
    requires var n := |Lines(item)[j]|; 0 < n && n + 2 <= |m.rest| && Find(m.rest, CRLF) == n && m.rest[..n] == Lines(item)[j]
    ensures ReadHeaders(m, accept) == ReadHeaders(PastLine(m, item, j), accept)
  {
    LineParsed(item, j);
    ReadLine(m, accept, |Lines(item)[j]|, FileAfter(item, j + 1));
  }

  lemma LineRead(m: Machine, fut: string, items: seq<Item>, b: string, accept: seq<Out> -> bool, k: nat, j: nat)
    requires k < |items| && WellFormed(items[k], b) && j < |Lines(items[k])| && |Lines(items[k])[j]| + 2 <= |m.rest|
    requires At(m, Heads(k, j), m.rest + fut, items, b)
    ensures ReadHeaders(m, accept) == ReadHeaders(PastLine(m, items[k], j), accept)
  {
    LineFound(m, fut, items, b, k, j);
    ItemLineRead(m, accept, items[k], b, j);
  }

  lemma PartLineKeeps(m: Machine, fut: string, items: seq<Item>, b: string, accept: seq<Out> -> bool, k: nat, j: nat)
    requires Ready(items, b, accept) && k < |items| && j < |Lines(items[k])| && At(m, Heads(k, j), m.rest + fut, items, b)
    requires |Lines(items[k])[j]| + 2 > |m.rest|
    ensures fut != "" && ReadHeaders(m, accept) == Turn(m, Some(true))
  {
    var item := items[k];
    var lines, tail := Lines(item), item.content + (Delimiter(b) + After(items[k + 1..], b));
    HeadText(lines, j, tail);
    LineText(item, b, j);
    FindLineEnd(lines[j], m.rest, fut, Head(lines[j + 1..]) + tail);
    WholeLine(m.rest, fut, lines[j], Head(lines[j + 1..]) + tail);
  }

  lemma {:induction false} HeadsKeep(m: Machine, fut: string, items: seq<Item>, b: string, accept: seq<Out> -> bool, k: nat, j: nat)
    returns (p: Place)
    requires Ready(items, b, accept) && At(m, Heads(k, j), m.rest + fut, items, b)
    ensures var t := ReadHeaders(m, accept);
            (t.done.Some? ==> t.done.value && fut != "") && At(t.m, p, t.m.rest + fut, items, b)
    decreases if k < |items| then |Lines(items[k])| - j else 0
  {
    if j == |Lines(items[k])| {
      BlankLineKeeps(m, fut, items, b, accept, k);
      BlankLineWhole(m, fut, items, b, k);
      p := if ReadHeaders(m, accept).done.None? then Body(k, 0) else Heads(k, j);
    } else if |Lines(items[k])[j]| + 2 <= |m.rest| {
      LineKeeps(m, fut, items, b, k, j);
      LineRead(m, fut, items, b, accept, k, j);
      p := HeadsKeep(PastLine(m, items[k], j), fut, items, b, accept, k, j + 1);
    } else {
      PartLineKeeps(m, fut, items, b, accept, k, j);
      p := Heads(k, j);
    }
  }

  lemma BlankLineWhole(m: Machine, fut: string, items: seq<Item>, b: string, k: nat)
    requires k < |items| && At(m, Heads(k, |Lines(items[k])|), m.rest + fut, items, b)
    ensures fut == "" ==> |m.rest| >= 2
  {
    var lines := Lines(items[k]);
    assert lines[|lines|..] == [];
    assert |m.rest| + |fut| == |m.rest + fut| >= |Head([])| == 2;
  }

  lemma WholeLine(rest: string, fut: string, line: string, tail: string)
    requires rest + fut == line + (CRLF + tail) && |rest| < |line| + 2
    ensures fut != ""
  {
    assert |rest| + |fut| == |line| + 2 + |tail|;
  }

  // The length limit on header lines does not bite.
  lemma HeaderLengths(m: Machine, fut: string, items: seq<Item>, b: string, accept: seq<Out> -> bool, k: nat, j: nat)
    requires Ready(items, b, accept) && At(m, Heads(k, j), m.rest + fut, items, b)
    ensures Find(m.rest, CRLF) <= HEADER_MAX_LENGTH
  {
    var item := items[k];
    var lines, tail := Lines(item), item.content + (Delimiter(b) + After(items[k + 1..], b));
    if j < |lines| {
      HeadText(lines, j, tail);
      LineText(item, b, j);
      FindLineEnd(lines[j], m.rest, fut, Head(lines[j + 1..]) + tail);
    } else {
      assert lines[j..] == [];
      FindLineEnd("", m.rest, fut, tail);
    }
  }

  /* ----- Body ----- */

  lemma ContentAhead(item: Item, b: string, e: nat, tail: string)
    requires IsBoundary(b) && WellFormed(item, b) && e <= |item.content|
    ensures Find(item.content[e..] + (Delimiter(b) + tail), Delimiter(b)) == |item.content| - e
  {
    var d, c := Delimiter(b), item.content[e..];
    DelimiterOnce(b);
    FindSuffix(item.content, d, e);
    FindDelimiter(c, d, tail);
    assert c + d + tail == c + (d + tail);
  }

  lemma BodyEnds(m: Machine, fut: string, items: seq<Item>, b: string, k: nat, e: nat, n: nat, m': Machine)
    requires At(m, Body(k, e), m.rest + fut, items, b)
    requires n == |items[k].content| - e && n + |Delimiter(b)| <= |m.rest|
    requires m' == m.(state := 4, log := m.log + [Data(m.rest[..n])], rest := m.rest[n + |Delimiter(b)|..])
    ensures At(m', Edge(k + 1), m'.rest + fut, items, b)
  {
    var item, tail := items[k], After(items[k + 1..], b);
    var c := item.content;
    BodyBytesAre(m.rest, fut, c, e, n, Delimiter(b) + tail);
    assert c[..e + n] == c;
    CollectData(m.log, m.rest[..n], items[..k], item.(content := c[..e]));
    assert items[..k] + [item] == items[..k + 1];
    AfterDelimiter(m.rest, fut, c[e..], Delimiter(b), tail);
  }

  lemma BodyContinues(m: Machine, fut: string, items: seq<Item>, b: string, k: nat, e: nat, n: nat, m': Machine)
    requires At(m, Body(k, e), m.rest + fut, items, b)
    requires n <= |items[k].content| - e && n <= |m.rest|
    requires m' == m.(log := if n == 0 then m.log else m.log + [Data(m.rest[..n])], rest := m.rest[n..])
    ensures At(m', Body(k, e + n), m'.rest + fut, items, b)
  {
    var item := items[k];
    BodyBytesAre(m.rest, fut, item.content, e, n, Delimiter(b) + After(items[k + 1..], b));
    CollectData(m.log, m.rest[..n], items[..k], item.(content := item.content[..e]));
  }

  lemma BodyKeeps(m: Machine, fut: string, items: seq<Item>, b: string, accept: seq<Out> -> bool, k: nat, e: nat) returns (p: Place)
    requires Ready(items, b, accept) && At(m, Body(k, e), m.rest + fut, items, b)
    ensures var t := ReadBody(m, b, accept);
            (t.done.Some? ==> t.done.value && fut != "") && At(t.m, p, t.m.rest + fut, items, b)
  {
    var d, tail, n, t := Delimiter(b), After(items[k + 1..], b), Settled(m.rest, Delimiter(b)), ReadBody(m, b, accept);
    ContentAhead(items[k], b, e, tail);
    BodyTurn(m, b, accept, fut);
    if t.done.None? {
      p := Edge(k + 1);
      BodyEnds(m, fut, items, b, k, e, n, t.m);
    } else {
      p := Body(k, e + n);
      BodyContinues(m, fut, items, b, k, e, n, t.m);
      assert |m.rest| + |fut| == |m.rest + fut| >= |items[k].content| - e + |d|;
    }
  }

  lemma BodyBytesAre(rest: string, fut: string, c: string, e: nat, n: nat, tail: string)
    requires e <= |c| && rest + fut == c[e..] + tail && n <= |rest| && n <= |c| - e
    ensures c[..e] + rest[..n] == c[..e + n] && rest[n..] + fut == c[e + n..] + tail
  {
    assert rest[..n] == (rest + fut)[..n] == c[e..][..n] == c[e..e + n];
    assert rest[n..] + fut == (rest + fut)[n..];
    assert (c[e..] + tail)[n..] == c[e..][n..] + tail;
  }

  lemma AfterDelimiter(rest: string, fut: string, c: string, d: string, tail: string)
    requires rest + fut == c + (d + tail) && |c| + |d| <= |rest|
    ensures rest[|c| + |d|..] + fut == tail
  {
    assert rest[|c| + |d|..] + fut == (rest + fut)[|c| + |d|..];
  }

  /* ----- Between the parts, and the whole run ----- */

  lemma EdgeKeeps(m: Machine, fut: string, items: seq<Item>, b: string, k: nat) returns (p: Place)
    requires m.rest != "" && At(m, Edge(k), m.rest + fut, items, b)
    ensures var t := ReadEdge(m);
            (t.done.Some? ==> t.done.value && fut != "") && At(t.m, p, t.m.rest + fut, items, b)
  {
    var todo, t := m.rest + fut, ReadEdge(m);
    assert |todo| >= 2;
    if |m.rest| < 2 {
      p := Edge(k);
    } else {
      assert m.rest[0] == todo[0];
      assert m.rest[..2] == todo[..2];
      if k == |items| {
        assert items[k..] == [] && items[..k] == items;
        assert m.rest[0..2] == "--" && CRLF[0] == '\r';
        p := Over;
        Epilogue(m.rest, fut);
        assert "" + fut == fut;
      } else {
        assert todo[..2] == CRLF && todo[2..] == Stream(items[k..], b);
        assert m.rest[0..2] == CRLF;
        assert m.rest[2..] + fut == todo[2..];
        p := New(k);
      }
    }
  }

  lemma Epilogue(rest: string, fut: string)
    requires rest + fut == "--" + CRLF && |rest| >= 2
    ensures fut == CRLF || fut == "\n" || fut == ""
  {
    assert fut == ("--" + CRLF)[|rest|..];
  }

  lemma OverKeeps(m: Machine, fut: string, items: seq<Item>, b: string)
    requires m.rest != "" && At(m, Over, m.rest + fut, items, b)
    ensures m.state == 4
    ensures var t := ReadEdge(m); (t.done.Some? ==> t.done.value) && At(t.m, Over, t.m.rest + fut, items, b)
  {
    var todo := m.rest + fut;
    assert |todo| == |m.rest| + |fut| > 0;
    if |m.rest| >= 2 {
      assert fut == "" && m.rest == CRLF;
    }
  }

  // One round of the loop, wherever the parser stands: it keeps its place in the body, and it
  // does not stop short when nothing more is to come.
  lemma IterateKeeps(m: Machine, fut: string, items: seq<Item>, b: string, accept: seq<Out> -> bool, p: Place) returns (p': Place)
    requires Ready(items, b, accept) && m.rest != "" && At(m, p, m.rest + fut, items, b)
    ensures m.state <= 4
    ensures var t := Iterate(m, b, accept);
            && (t.done.Some? ==> t.done.value && (fut == "" ==> p' == Over))
            && At(t.m, p', t.m.rest + fut, items, b)
  {
    match p
    case New(k) =>
      p' := Heads(k, 0);
      assert Lines(items[k])[0..] == Lines(items[k]);
      assert items[k..][0] == items[k] && items[k..][1..] == items[k + 1..];
    case Heads(k, j) =>
      HeaderLengths(m, fut, items, b, accept, k, j);
      p' := HeadsKeep(m, fut, items, b, accept, k, j);
    case Body(k, e) =>
      p' := BodyKeeps(m, fut, items, b, accept, k, e);
    case Edge(k) =>
      p' := EdgeKeeps(m, fut, items, b, k);
    case Over =>
      OverKeeps(m, fut, items, b);
      p' := Over;
  }

  lemma NothingLeft(m: Machine, items: seq<Item>, b: string, p: Place)
    requires At(m, p, "", items, b)
    ensures p == Over
  {
  }

  lemma {:induction false} RunKeeps(m: Machine, fut: string, items: seq<Item>, b: string, accept: seq<Out> -> bool, p: Place)
    returns (p': Place)
    requires Ready(items, b, accept) && m.state <= 4 && At(m, p, m.rest + fut, items, b)
    ensures var r := Run(m, b, accept);
            r.1 && At(r.0, p', r.0.rest + fut, items, b) && (fut == "" ==> p' == Over)
    decreases |m.rest|, if m.state == 1 then 1 else 0
  {
    if m.rest == "" {
      p' := p;
      if fut == "" {
        NothingLeft(m, items, b, p);
      }
    } else {
      p' := IterateKeeps(m, fut, items, b, accept, p);
      var t := Iterate(m, b, accept);
      if t.done.None? {
        p' := RunKeeps(t.m, fut, items, b, accept, p');
      }
    }
  }

  // The rest of a call and the calls after it.
  lemma {:induction false} FinishKeeps(m: Machine, chunks: seq<string>, items: seq<Item>, b: string, accept: seq<Out> -> bool, p: Place)
    requires Ready(items, b, accept) && m.state <= 4 && At(m, p, m.rest + Flatten(chunks), items, b)
    ensures Run(m, b, accept).1
    ensures var r := FeedAll(Run(m, b, accept).0, b, accept, chunks); r.1 && r.0.valid && Collect(r.0.log) == items
    decreases |chunks|
  {
    var p' := RunKeeps(m, Flatten(chunks), items, b, accept, p);
    if chunks != [] {
      var m' := Run(m, b, accept).0;
      var fed := m'.(rest := m'.rest + chunks[0]);
      Regroup(m'.rest, chunks[0], Flatten(chunks[1..]));
      FinishKeeps(fed, chunks[1..], items, b, accept, p');
    }
  }

  // Behind the boundary line of the first item.
  lemma FormKeeps(m: Machine, chunks: seq<string>, items: seq<Item>, b: string, accept: seq<Out> -> bool)
    requires Ready(items, b, accept) && items != [] && m == Initial.(state := 1, rest := m.rest)
    requires m.rest + Flatten(chunks) == Stream(items, b)
    ensures Run(m, b, accept).1
    ensures var r := FeedAll(Run(m, b, accept).0, b, accept, chunks); r.1 && r.0.valid && Collect(r.0.log) == items
  {
    assert items[0..] == items && items[..0] == [];
    FinishKeeps(m, chunks, items, b, accept, New(0));
  }

  // The first piece that is not empty holds the whole opening boundary line.
  predicate OpeningWhole(chunks: seq<string>, b: string) {
    chunks != [] && if chunks[0] == "" then OpeningWhole(chunks[1..], b) else |chunks[0]| >= |Opening(b)|
  }

  lemma OpeningRead(chunk: string, fut: string, tail: string, b: string, accept: seq<Out> -> bool)
    requires chunk + fut == Opening(b) + tail && |chunk| >= |Opening(b)|
    ensures Feed(Initial, b, accept, chunk) == Run(Initial.(state := 1, rest := chunk[|Opening(b)|..]), b, accept)
    ensures chunk[|Opening(b)|..] + fut == tail
  {
    var o := Opening(b);
    assert "" + chunk == chunk;
    assert chunk[..|o|] == (chunk + fut)[..|o|] == o;
    assert chunk[|o|..] + fut == (chunk + fut)[|o|..];
    assert OccursAt(chunk, o, 0);
    assert chunk[0..] == chunk;
  }

  lemma {:induction false} FeedFirst(chunks: seq<string>, items: seq<Item>, b: string, accept: seq<Out> -> bool)
    requires Ready(items, b, accept) && items != [] && OpeningWhole(chunks, b)
    requires Flatten(chunks) == Opening(b) + Stream(items, b)
    ensures var r := FeedAll(Initial, b, accept, chunks); r.1 && r.0.valid && Collect(r.0.log) == items
    decreases |chunks|
  {
    var fut := Flatten(chunks[1..]);
    if chunks[0] == "" {
      assert "" + "" == "" && "" + fut == fut;
      FeedFirst(chunks[1..], items, b, accept);
    } else {
      OpeningRead(chunks[0], fut, Stream(items, b), b, accept);
      FormKeeps(Initial.(state := 1, rest := chunks[0][|Opening(b)|..]), chunks[1..], items, b, accept);
    }
  }

  // However the serialized body is cut into pieces, parsing gives back the items, in order.
  lemma RoundTrip(items: seq<Item>, b: string, chunks: seq<string>, accept: seq<Out> -> bool)
    requires Ready(items, b, accept) && items != []
    requires Flatten(chunks) == Serialize(items, b) && OpeningWhole(chunks, b)
    ensures var r := FeedAll(Initial, b, accept, chunks); r.1 && r.0.valid && Collect(r.0.log) == items
  {
    SerializeText(items, b);
    FeedFirst(chunks, items, b, accept);
  }
}
