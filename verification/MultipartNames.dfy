/**
 What lies outside the round trip: the extended file name, what is refused, and the serialized form letter by letter.
 */
module MultipartNames {
  import opened Common
  import opened HttpText
  import opened Multipart
  import Query

  const EXTENDED := "UTF-8''"

  // A content disposition with these parameters.
  function Line(params: string): string {
    "Content-Disposition:" + (" " + ("form-data;" + (" " + params)))
  }

  lemma LineMatched(params: string)
    requires params != "" && params[0] as int > 32 && '\r' !in params && '\n' !in params
    ensures !StartsIgnoreCase(Line(params), CONTENT_TYPE) && MatchDisposition(Line(params)) == Some(params)
  {
    var a := "form-data;" + (" " + params);
    HeaderNames();
    StartsHere("Content-Disposition:", CONTENT_DISPOSITION, " " + a);
    StartsHere("form-data;", FORM_DATA, " " + params);
    SkipOne(a);
    SkipOne(params);
    NoType(params);
  }

  lemma NoType(params: string)
    ensures !StartsIgnoreCase(Line(params), CONTENT_TYPE)
  {
    var h := Line(params);
    assert h[8] == "Content-Disposition:"[8] == 'D';
    LowerAt(h[..13], 8);
    LowerAt(CONTENT_TYPE, 8);
  }

  // The value of the extended parameter for a file name.
  function Extended(f: string): string
    requires Query.IsBytes(f)
  {
    EXTENDED + Query.Encode(f)
  }

  function Piece(f: string): string
    requires Query.IsBytes(f)
  {
    "filename*=" + Extended(f)
  }

  predicate IsCode(c: char) {
    Query.IsPlain(c) || c == '%'
  }

  lemma CodeText(f: string)
    requires Query.IsBytes(f)
    ensures forall k :: 0 <= k < |Extended(f)| ==> IsCode(Extended(f)[k])
  {
    Query.EncodedAlphabet(f);
    var e := Extended(f);
    forall k | 0 <= k < |e|
      ensures IsCode(e[k])
    {
      if k < 7 {
        assert e[k] == EXTENDED[k];
      } else {
        assert e[k] == Query.Encode(f)[k - 7];
      }
    }
  }

  // A text without blanks at its ends and without the delimiter is one segment.
  lemma OnePart(t: string, d: char)
    requires t != "" && Trimmed(t) && d !in t
    ensures Split(t, d) == [t]
  {
    SplitWhole(t, d);
    StripTrimmed(t);
  }

  lemma KeyValueOf(key: string, value: string)
    requires key != "" && value != "" && Trimmed(key) && Trimmed(value) && '=' !in key && '=' !in value
    ensures KeyValue(key + "=" + value) == (key, value)
  {
    OnePart(value, '=');
    StripTrimmed(key);
    SplitAtDelimiter(key, '=', value);
    assert key + "=" + value == key + ['='] + value;
  }

  lemma NoEquals(f: string)
    requires Query.IsBytes(f)
    ensures var e := Extended(f); e != "" && e[0] == 'U' && Trimmed(e) && '=' !in e
  {
    CodeText(f);
    assert Extended(f)[0] == EXTENDED[0];
  }

  // The value of the piece with the extended name.
  lemma PieceValue(f: string)
    requires Query.IsBytes(f)
    ensures KeyValue(Piece(f)) == ("filename*", Extended(f)) && TrimQuotes(Extended(f)) == Extended(f)
  {
    NoEquals(f);
    KeyValueOf("filename*", Extended(f));
    assert Piece(f) == "filename*" + "=" + Extended(f);
  }

  lemma PieceSegment(f: string)
    requires Query.IsBytes(f)
    ensures ';' !in Piece(f) && '\r' !in Piece(f) && '\n' !in Piece(f) && Segment(" " + Piece(f)) == [Piece(f)]
  {
    CodeText(f);
    PieceText(f);
    StripTrimmed(Piece(f));
  }

  lemma PieceText(f: string)
    requires Query.IsBytes(f) && forall k :: 0 <= k < |Extended(f)| ==> IsCode(Extended(f)[k])
    ensures ';' !in Piece(f) && '\r' !in Piece(f) && '\n' !in Piece(f) && Trimmed(Piece(f))
  {
    var p, e := Piece(f), Extended(f);
    forall k | 0 <= k < |p|
      ensures IsCode(p[k]) || p[k] == '*' || p[k] == '='
    {
      if k >= 10 {
        assert p[k] == e[k - 10];
      } else {
        assert p[k] == "filename*="[k];
      }
    }
  }

  lemma SplitThree(a: string, b: string, c: string)
    requires ';' !in a && ';' !in b && ';' !in c && Segment(a) == [a] && Segment(" " + b) == [b] && Segment(" " + c) == [c]
    ensures Split(a + (";" + (" " + b + (";" + (" " + c)))), ';') == [a] + ([b] + [c])
  {
    var rest := " " + b + (";" + (" " + c));
    Regroup(" " + b, ";", " " + c);
    SplitAtDelimiter(" " + b, ';', " " + c);
    SplitWhole(" " + c, ';');
    Regroup(a, ";", rest);
    SplitAtDelimiter(a, ';', rest);
  }

  // The parameters with the piece behind them.
  function Params(name: string, filename: Option<string>, piece: string): string {
    var behind := ";" + (" " + piece);
    Quoted("name", name) + if filename.None? then behind else ";" + (" " + Quoted("filename", filename.value) + behind)
  }

  lemma ParamsSplit(name: string, filename: Option<string>, piece: string)
    requires IsName(name) && (filename.Some? ==> IsName(filename.value)) && ';' !in piece && Segment(" " + piece) == [piece]
    ensures Split(Params(name, filename, piece), ';') ==
            [Quoted("name", name)] + ((if filename.None? then [] else [Quoted("filename", filename.value)]) + [piece])
  {
    QuotedText("name", name);
    if filename.None? {
      SplitTwo(Quoted("name", name), piece);
    } else {
      QuotedText("filename", filename.value);
      SplitThree(Quoted("name", name), Quoted("filename", filename.value), piece);
    }
  }

  // Pieces that all differ give their pairs.
  lemma OnePair(piece: string, key: string, value: string, seen: set<string>)
    requires piece !in seen && key != "" && KeyValue(piece) == (key, value) && TrimQuotes(key) == key && TrimQuotes(value) == value
    ensures Pairs([piece], seen, TrimQuotes) == [(key, value)]
  {
    assert [piece][1..] == [];
    assert [(key, value)] + [] == [(key, value)];
  }

  // The parameters as pairs.
  function PairsOf(name: string, filename: Option<string>, value: string): seq<(string, string)> {
    [("name", name)] + ((if filename.None? then [] else [("filename", filename.value)]) + [("filename*", value)])
  }

  lemma TwoOfThem(name: string, piece: string, value: string)
    requires IsName(name) && piece != "" && piece[0] == 'f' && KeyValue(piece) == ("filename*", value) && TrimQuotes(value) == value
    ensures Pairs([Quoted("name", name)] + [piece], {}, TrimQuotes) == [("name", name)] + [("filename*", value)]
  {
    var n := Quoted("name", name);
    assert n[0] == 'n';
    QuotedPair("name", name, [piece], {});
    OnePair(piece, "filename*", value, {n});
  }

  lemma LastTwo(filename: string, piece: string, value: string, seen: set<string>)
    requires IsName(filename) && KeyValue(piece) == ("filename*", value) && TrimQuotes(value) == value
    requires piece !in seen && Quoted("filename", filename) !in seen
    ensures Pairs([Quoted("filename", filename)] + [piece], seen, TrimQuotes) == [("filename", filename)] + [("filename*", value)]
  {
    NotThePiece(filename, piece, value);
    QuotedPair("filename", filename, [piece], seen);
    OnePair(piece, "filename*", value, seen + {Quoted("filename", filename)});
  }

  lemma AllThree(name: string, filename: string, piece: string, value: string)
    requires IsName(name) && IsName(filename) && piece != "" && piece[0] == 'f'
    requires KeyValue(piece) == ("filename*", value) && TrimQuotes(value) == value
    ensures Pairs([Quoted("name", name)] + ([Quoted("filename", filename)] + [piece]), {}, TrimQuotes)
            == [("name", name)] + ([("filename", filename)] + [("filename*", value)])
  {
    var n, q := Quoted("name", name), Quoted("filename", filename);
    assert n[0] == 'n' && q[0] == 'f';
    QuotedPair("name", name, [q] + [piece], {});
    LastTwo(filename, piece, value, {n});
    assert {} + {n} == {n};
  }

  lemma ParamsPairs(name: string, filename: Option<string>, piece: string, value: string)
    requires IsName(name) && (filename.Some? ==> IsName(filename.value)) && piece != "" && piece[0] == 'f'
    requires KeyValue(piece) == ("filename*", value) && TrimQuotes(value) == value
    requires ';' !in piece && Segment(" " + piece) == [piece]
    ensures DispositionParams(Params(name, filename, piece)) == PairsOf(name, filename, value)
  {
    ParamsSplit(name, filename, piece);
    if filename.None? {
      TwoOfThem(name, piece, value);
      assert [] + [piece] == [piece] && [] + [("filename*", value)] == [("filename*", value)];
    } else {
      AllThree(name, filename.value, piece, value);
    }
  }

  // The two file name pieces are not the same.
  lemma NotThePiece(filename: string, piece: string, value: string)
    requires IsName(filename) && KeyValue(piece) == ("filename*", value)
    ensures piece != Quoted("filename", filename)
  {
    QuotedParts("filename", filename);
    assert |"filename*"| != |"filename"|;
  }

  lemma LookupFirst(key: string, value: string, rest: seq<(string, string)>, wanted: string)
    ensures Lookup([(key, value)] + rest, wanted) == if key == wanted then Some(value) else Lookup(rest, wanted)
  {
    assert ([(key, value)] + rest)[1..] == rest;
  }

  lemma KeysDiffer()
    ensures "name" != "filename" && "name" != "filename*" && "filename" != "filename*"
  {
    assert |"filename*"| == 9 && |"filename"| == 8 && |"name"| == 4;
  }

  lemma LookupLast(value: string, wanted: string)
    ensures Lookup([("filename*", value)], wanted) == if wanted == "filename*" then Some(value) else None
  {
    assert [("filename*", value)] == [("filename*", value)] + [];
    LookupFirst("filename*", value, [], wanted);
  }

  lemma LookupThree(name: string, filename: Option<string>, value: string, wanted: string)
    ensures Lookup(PairsOf(name, filename, value), wanted) ==
            if wanted == "name" then Some(name) else if wanted == "filename" && filename.Some? then filename
            else if wanted == "filename*" then Some(value) else None
  {
    var last := [("filename*", value)];
    KeysDiffer();
    LookupLast(value, wanted);
    LookupFirst("name", name, (if filename.None? then [] else [("filename", filename.value)]) + last, wanted);
    if filename.Some? {
      LookupFirst("filename", filename.value, last, wanted);
    } else {
      assert [] + last == last;
    }
  }

  lemma Looked(name: string, filename: Option<string>, value: string)
    ensures var params := PairsOf(name, filename, value);
            && Lookup(params, "name") == Some(name) && Lookup(params, "filename") == filename && Lookup(params, "filename*") == Some(value)
  {
    KeysDiffer();
    LookupThree(name, filename, value, "name");
    LookupThree(name, filename, value, "filename");
    LookupThree(name, filename, value, "filename*");
  }

  lemma ParamsText(name: string, filename: Option<string>, piece: string)
    requires IsName(name) && (filename.Some? ==> IsName(filename.value)) && '\r' !in piece && '\n' !in piece
    ensures var p := Params(name, filename, piece); p != "" && p[0] == 'n' && '\r' !in p && '\n' !in p
  {
    QuotedOnOneLine("name", name);
    if filename.Some? {
      QuotedOnOneLine("filename", filename.value);
    }
    assert Quoted("name", name)[0] == 'n';
  }

  lemma ExtendedMatched(f: string)
    requires Query.IsBytes(f) && f != ""
    ensures MatchExtended(Extended(f)) == Some(Query.Encode(f)) && Query.Decode(Query.Encode(f), false) == f
  {
    ExtendedCase();
    StartsHere(EXTENDED, "utf-8''", Query.Encode(f));
    Query.EncodedAlphabet(f);
    Query.DecodeEncode(f, false);
    assert Query.Encode(f) != "";
  }

  lemma ExtendedCase()
    ensures Lower(EXTENDED) == Lower("utf-8''")
  {
  }

  // A percent-coded file name in the extended notation takes the place of the other one, if there is one.
  lemma ExtendedName(file: FileInfo, name: string, filename: Option<string>, f: string)
    requires IsName(name) && (filename.Some? ==> IsName(filename.value)) && Query.IsBytes(f) && f != ""
    ensures ParseHeader(file, Line(Params(name, filename, Piece(f)))) == (file.(name := name, filename := f), true)
  {
    PieceSegment(f);
    PieceValue(f);
    ParamsText(name, filename, Piece(f));
    LineMatched(Params(name, filename, Piece(f)));
    assert Piece(f)[0] == "filename*="[0];
    ParamsPairs(name, filename, Piece(f), Extended(f));
    Looked(name, filename, Extended(f));
    ExtendedMatched(f);
  }

  // In any other notation it is refused.
  lemma OtherNotation(file: FileInfo, name: string, filename: Option<string>, piece: string, value: string)
    requires IsName(name) && (filename.Some? ==> IsName(filename.value)) && piece != "" && piece[0] == 'f'
    requires KeyValue(piece) == ("filename*", value) && TrimQuotes(value) == value
    requires ';' !in piece && '\r' !in piece && '\n' !in piece && Segment(" " + piece) == [piece]
    requires |value| < 7 || Lower(value[..7]) != "utf-8''"
    ensures !ParseHeader(file, Line(Params(name, filename, piece))).1
  {
    ParamsText(name, filename, piece);
    LineMatched(Params(name, filename, piece));
    ParamsPairs(name, filename, piece, value);
    Looked(name, filename, value);
    ExtendedLower();
  }

  lemma ExtendedLower()
    ensures Lower("utf-8''") == "utf-8''"
  {
  }

  lemma OnlyFilename(filename: string)
    requires IsName(filename)
    ensures DispositionParams(Quoted("filename", filename)) == [("filename", filename)]
  {
    var q := Quoted("filename", filename);
    QuotedText("filename", filename);
    SplitWhole(q, ';');
    QuotedPair("filename", filename, [], {});
    assert [q] + [] == [q] && [("filename", filename)] + [] == [("filename", filename)];
  }

  lemma NoNameIn(filename: string)
    ensures Lookup([("filename", filename)], "name") == None
  {
    KeysDiffer();
    LookupFirst("filename", filename, [], "name");
    assert [("filename", filename)] + [] == [("filename", filename)];
  }

  lemma NameNeeded(file: FileInfo, h: string, params: string)
    requires !StartsIgnoreCase(h, CONTENT_TYPE) && MatchDisposition(h) == Some(params) && Lookup(DispositionParams(params), "name") == None
    ensures !ParseHeader(file, h).1
  {
  }

  // A disposition without a name is refused.
  lemma Nameless(file: FileInfo, filename: string)
    requires IsName(filename)
    ensures !ParseHeader(file, Line(Quoted("filename", filename))).1
  {
    var q := Quoted("filename", filename);
    QuotedOnOneLine("filename", filename);
    assert q[0] == 'f';
    LineMatched(q);
    OnlyFilename(filename);
    NoNameIn(filename);
    NameNeeded(file, Line(q), q);
  }

  // So is a line that is neither a content type nor a content disposition.
  lemma OtherLine(file: FileInfo, h: string)
    requires !StartsIgnoreCase(h, "content-type:") && !StartsIgnoreCase(h, "content-disposition:")
    ensures ParseHeader(file, h) == (file, false)
  {
  }

  /* ---------- The serialized form, letter by letter ---------- */

  function DispositionWire(item: Item): string {
    "Content-Disposition: form-data; name=\"" + item.name + "\""
    + (if item.filename == "" then "" else "; filename=\"" + item.filename + "\"")
  }

  // One item, as section 4 of RFC 7578 has it.
  function ItemWire(item: Item, b: string): string {
    "--" + b + "\r\n" + DispositionWire(item) + "\r\n"
    + (if item.contentType == "" then "" else "Content-Type: " + item.contentType + "\r\n") + "\r\n"
    + (item.content + "\r\n")
  }

  lemma DispositionIs(item: Item)
    ensures Disposition(item) == DispositionWire(item)
  {
    assert "Content-Disposition:" + (" " + ("form-data;" + (" " + "name="))) == "Content-Disposition: form-data; name=";
    assert ";" + (" " + "filename=") == "; filename=";
  }

  lemma TypeIs(t: string)
    ensures "Content-Type:" + (" " + t) + "\r\n" == "Content-Type: " + t + "\r\n"
  {
  }

  lemma WireFormat(items: seq<Item>, b: string)
    ensures Serialize([], b) == "--" + b + "--\r\n"
    ensures items != [] ==> Serialize(items, b) == ItemWire(items[0], b) + Serialize(items[1..], b)
  {
    assert "" + ("--" + b + "--\r\n") == "--" + b + "--\r\n";
    if items != [] {
      DispositionIs(items[0]);
      TypeIs(items[0].contentType);
      Regroup(ItemWire(items[0], b), SerializeItems(items[1..], b), "--" + b + "--\r\n");
    }
  }

  /* ---------- What is refused ---------- */

  // Without a line break within the limit a header is refused.
  lemma LongLineRefused(m: Machine, b: string, accept: seq<Out> -> bool)
    requires m.state == 2 && m.rest != "" && Find(m.rest, CRLF) > 8192
    ensures Run(m, b, accept) == (m, false)
  {
  }

  // A header line that cannot be read ends the parse, and the form does not count as valid.
  lemma BadLineRefused(m: Machine, b: string, accept: seq<Out> -> bool, line: string, rest: string)
    requires m.state == 2 && line != "" && '\r' !in line && |line| <= 8192 && m.rest == line + (CRLF + rest)
    requires !ParseHeader(m.file, line).1
    ensures !Run(m, b, accept).1 && !Run(m, b, accept).0.valid && Run(m, b, accept).0.log == m.log
  {
    assert m.rest + "" == m.rest;
    FindLineEnd(line, m.rest, "", rest);
  }

  // So does a header that the callback refuses.
  lemma HeaderRefused(m: Machine, b: string, accept: seq<Out> -> bool, rest: string)
    requires m.state == 2 && m.rest == CRLF + rest && !accept(m.log + [Header(m.file)])
    ensures var r := Run(m, b, accept); !r.1 && !r.0.valid && r.0.log == m.log + [Header(m.file)]
  {
    assert m.rest + "" == m.rest && CRLF + rest == "" + (CRLF + rest);
    FindLineEnd("", m.rest, "", rest);
  }

  // Neither a line break nor two dashes behind a delimiter: nothing is handed on any more, and nothing changes.
  lemma {:induction false} StuckBehindDelimiter(m: Machine, b: string, accept: seq<Out> -> bool, chunks: seq<string>)
    requires m.state == 4 && |m.rest| >= 2 && m.rest[..2] != CRLF && m.rest[..2] != "--"
    ensures var r := FeedAll(m, b, accept, chunks); r.1 && r.0 == m.(rest := r.0.rest)
    decreases |chunks|
  {
    if chunks != [] {
      var fed := m.(rest := m.rest + chunks[0]);
      assert fed.rest[..2] == m.rest[..2];
      StuckHere(fed, b, accept);
      StuckBehindDelimiter(fed, b, accept, chunks[1..]);
    }
  }

  lemma StuckHere(m: Machine, b: string, accept: seq<Out> -> bool)
    requires m.state == 4 && |m.rest| >= 2 && m.rest[..2] != CRLF && m.rest[..2] != "--"
    ensures Run(m, b, accept) == (m, true)
  {
    assert m.rest[0..2] == m.rest[..2];
  }
}
