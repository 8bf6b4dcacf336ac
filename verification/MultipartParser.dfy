/**
 The parser object: a growing buffer that is compacted when input arrives, and the loop over
 its states.  `MachineOf` is the value that the specification of the protocol works on.
 */
module MultipartParser {
  import opened Common
  import opened HttpText
  import opened Multipart
  import Query

  class Parser {
    const boundary: string
    const dashBoundaryCrlf: string
    const crlfDashBoundary: string
    var state: nat
    var isValid: bool
    var file: FileInfo
    var buf: string
    var spos: nat
    var epos: nat
    // What the callbacks were given.
    var log: seq<Out>

    ghost predicate Valid()
      reads this
    {
      && spos <= epos <= |buf| && state <= 4
      && dashBoundaryCrlf == Opening(boundary) && crlfDashBoundary == Delimiter(boundary)
    }

    ghost function MachineOf(): Machine
      requires spos <= epos <= |buf|
      reads this
    {
      Machine(state, isValid, file, buf[spos..epos], log)
    }

    constructor (boundary: string)
      ensures Valid() && this.boundary == boundary && MachineOf() == Initial
    {
      this.boundary := boundary;
      dashBoundaryCrlf := "--" + boundary + "\r\n";
      crlfDashBoundary := "\r\n" + "--" + boundary;
      state, isValid, file := 0, false, NoFile;
      buf, spos, epos, log := "", 0, 0, [];
    }

    /* ----- The buffer ----- */

    // Moves what is unread to the front of the buffer.
    method Compact()
      requires Valid()
      modifies this`buf, this`spos, this`epos
      ensures Valid() && spos == 0 && buf[..epos] == old(buf[spos..epos])
    {
      var remaining := epos - spos;
      ghost var rest := buf[spos..epos];
      if remaining > 0 && spos > 0 {
        for i := 0 to remaining
          invariant |buf| == |old(buf)| && spos == old(spos) && epos == old(epos)
          invariant buf[..i] == rest[..i]
          invariant buf[spos + i..epos] == rest[i..]
        {
          assert buf[spos + i] == buf[spos + i..epos][0] == rest[i];
          ghost var before := buf;
          buf := buf[i := buf[spos + i]];
          assert buf[..i + 1] == before[..i] + [rest[i]];
          assert buf[spos + i + 1..epos] == before[spos + i..epos][1..];
        }
      }
      spos := 0;
      epos := remaining;
    }

    method BufAppend(data: string)
      requires Valid()
      modifies this`buf, this`spos, this`epos
      ensures Valid() && buf[spos..epos] == old(buf[spos..epos]) + data
    {
      Compact();
      ghost var rest := buf[..epos];
      if epos + |data| > |buf| {
        buf := buf + seq(epos + |data| - |buf|, _ => '\0');
      }
      for i := 0 to |data|
        invariant spos == 0 && epos + |data| <= |buf|
        invariant buf[..epos + i] == rest + data[..i]
      {
        ghost var before := buf;
        buf := buf[epos + i := data[i]];
        assert buf[..epos + i + 1] == before[..epos + i] + [data[i]];
      }
      epos := epos + |data|;
    }

    method StartWith(pos: nat, s: string) returns (r: bool)
      requires Valid() && spos <= pos <= epos
      ensures r == OccursAt(buf[spos..epos], s, pos - spos)
    {
      if epos - pos < |s| {
        return false;
      }
      ghost var rest := buf[spos..epos];
      for i := 0 to |s|
        invariant forall k :: 0 <= k < i ==> rest[pos - spos + k] == s[k]
      {
        assert rest[pos - spos + i] == buf[pos + i];
        if buf[i + pos] != s[i] {
          assert rest[pos - spos..pos - spos + |s|][i] != s[i];
          return false;
        }
      }
      assert rest[pos - spos..pos - spos + |s|] == s;
      return true;
    }

    // The least position at which `s` starts, or the amount of unread input.
    method BufFind(s: string) returns (r: nat)
      requires Valid() && s != ""
      ensures r == Find(buf[spos..epos], s)
    {
      ghost var rest := buf[spos..epos];
      var c := s[0];
      var off := spos;
      while off < epos
        invariant spos <= off <= epos
        invariant FindFrom(rest, s, off - spos) == Find(rest, s)
      {
        var pos := off;
        while pos != epos && buf[pos] != c
          invariant off <= pos <= epos
          invariant FindFrom(rest, s, pos - spos) == Find(rest, s)
          decreases epos - pos
        {
          NoStart(rest, s, pos - spos);
          pos := pos + 1;
        }
        if pos == epos {
          return epos - spos;
        }
        if |s| > epos - pos {
          NoRoom(rest, s, pos - spos);
          return epos - spos;
        }
        var found := StartWith(pos, s);
        if found {
          return pos - spos;
        }
        off := pos + 1;
      }
      return epos - spos;
    }

    method BufErase(size: nat)
      requires Valid() && size <= epos - spos
      modifies this`spos
      ensures Valid() && buf[spos..epos] == old(buf[spos..epos])[size..]
    {
      spos := spos + size;
    }

    /* ----- The states ----- */

    method ReadOpening() returns (done: Option<bool>)
      requires Valid() && state == 0
      modifies this`spos, this`state
      ensures Valid() && Turn(MachineOf(), done) == FindOpening(old(MachineOf()), boundary)
    {
      var pos := BufFind(dashBoundaryCrlf);
      BufErase(pos);
      if |dashBoundaryCrlf| > epos - spos {
        return Some(true);
      }
      var here := StartWith(spos, dashBoundaryCrlf);
      if !here {
        return Some(false);
      }
      BufErase(|dashBoundaryCrlf|);
      state := 1;
      return None;
    }

    method ReadParams(params: seq<(string, string)>) returns (ok: bool)
      requires Valid()
      modifies this`file, this`isValid
      ensures Valid() && (file, ok) == ApplyParams(old(file), params) && isValid == (old(isValid) && ok)
    {
      var name := Lookup(params, "name");
      if name.None? {
        isValid := false;
        return false;
      }
      file := file.(name := name.value);
      var filename := Lookup(params, "filename");
      if filename.Some? {
        file := file.(filename := filename.value);
      }
      var extended := Lookup(params, "filename*");
      if extended.Some? {
        var e := MatchExtended(extended.value);
        if e.None? {
          isValid := false;
          return false;
        }
        var decoded := Query.DecodeUrl(e.value, false);
        file := file.(filename := decoded);
      }
      return true;
    }

    // One header line without its line break.
    method ReadHeaderLine(header: string) returns (ok: bool)
      requires Valid()
      modifies this`file, this`isValid
      ensures Valid() && (file, ok) == ParseHeader(old(file), header)
      ensures isValid == (old(isValid) && ok)
    {
      if StartsIgnoreCase(header, CONTENT_TYPE) {
        file := file.(contentType := Strip(header[|CONTENT_TYPE|..]));
        return true;
      }
      var m := MatchDisposition(header);
      if m.None? {
        isValid := false;
        return false;
      }
      var params := ParseDispositionParams(m.value);
      ok := ReadParams(params);
    }

    // The blank line behind the headers.
    method BlankLine(accept: seq<Out> -> bool) returns (done: Option<bool>)
      requires Valid() && state == 2 && Find(buf[spos..epos], CRLF) == 0 && spos + 2 <= epos
      modifies this`log, this`isValid, this`spos, this`state
      ensures Valid() && Turn(MachineOf(), done) == HeaderStep(old(MachineOf()), accept)
    {
      log := log + [Header(file)];
      if !accept(log) {
        isValid := false;
        return Some(false);
      }
      BufErase(|CRLF|);
      state := 3;
      return None;
    }

    method HeaderLine(pos: nat, accept: seq<Out> -> bool) returns (done: Option<bool>)
      requires Valid() && state == 2 && 0 < pos == Find(buf[spos..epos], CRLF) < epos - spos
      modifies this`isValid, this`file, this`spos
      ensures Valid() && Turn(MachineOf(), done) == HeaderStep(old(MachineOf()), accept)
    {
      var header := buf[spos..spos + pos];
      assert header == buf[spos..epos][..pos];
      var ok := ReadHeaderLine(header);
      if !ok {
        return Some(false);
      }
      BufErase(pos + |CRLF|);
      return None;
    }

    method HeaderRound(pos: nat, accept: seq<Out> -> bool) returns (done: Option<bool>)
      requires Valid() && state == 2 && pos == Find(buf[spos..epos], CRLF) < epos - spos
      modifies this`log, this`isValid, this`file, this`spos, this`state
      ensures Valid() && Turn(MachineOf(), done) == HeaderStep(old(MachineOf()), accept)
    {
      if pos == 0 {
        done := BlankLine(accept);
      } else {
        done := HeaderLine(pos, accept);
      }
    }

    method ReadHeaderLines(accept: seq<Out> -> bool) returns (done: Option<bool>)
      requires Valid() && state == 2
      modifies this`log, this`isValid, this`file, this`spos, this`state
      ensures Valid() && Turn(MachineOf(), done) == ReadHead(old(MachineOf()), accept)
    {
      var pos := BufFind(CRLF);
      if pos > HEADER_MAX_LENGTH {
        return Some(false);
      }
      while pos < epos - spos
        invariant Valid() && state == 2 && pos == Find(buf[spos..epos], CRLF)
        invariant ReadHeaders(MachineOf(), accept) == ReadHeaders(old(MachineOf()), accept)
        decreases epos - spos
      {
        done := HeaderRound(pos, accept);
        if done.Some? || state == 3 {
          return done;
        }
        pos := BufFind(CRLF);
      }
      return Some(true);
    }

    // Hands on the first `len` bytes.
    method EmitBytes(len: nat, accept: seq<Out> -> bool) returns (ok: bool)
      requires Valid() && len <= epos - spos
      modifies this`log, this`isValid
      ensures Valid() && log == old(log) + [Data(buf[spos..epos][..len])] && ok == accept(log)
      ensures isValid == (old(isValid) && ok)
    {
      assert buf[spos..spos + len] == buf[spos..epos][..len];
      log := log + [Data(buf[spos..spos + len])];
      ok := accept(log);
      if !ok {
        isValid := false;
      }
    }

    method ReadContent(accept: seq<Out> -> bool) returns (done: Option<bool>)
      requires Valid() && state == 3
      modifies this`log, this`isValid, this`spos, this`state
      ensures Valid() && Turn(MachineOf(), done) == ReadBody(old(MachineOf()), boundary, accept)
    {
      if |crlfDashBoundary| > epos - spos {
        return Some(true);
      }
      var pos := BufFind(crlfDashBoundary);
      if pos < epos - spos {
        var ok := EmitBytes(pos, accept);
        if !ok {
          return Some(false);
        }
        BufErase(pos + |crlfDashBoundary|);
        state := 4;
        return None;
      }
      var len := epos - spos - |crlfDashBoundary|;
      if len > 0 {
        var ok := EmitBytes(len, accept);
        if !ok {
          return Some(false);
        }
        BufErase(len);
      }
      return Some(true);
    }

    // The last delimiter: the rest of the input is dropped.
    method Close()
      requires Valid() && 2 <= epos - spos
      modifies this`isValid, this`spos
      ensures Valid() && isValid && buf[spos..epos] == ""
    {
      BufErase(|"--"|);
      isValid := true;
      BufErase(epos - spos);
    }

    method ReadBoundary() returns (done: Option<bool>)
      requires Valid() && state == 4 && spos < epos
      modifies this`isValid, this`spos, this`state
      ensures Valid() && Turn(MachineOf(), done) == ReadEdge(old(MachineOf()))
    {
      if |CRLF| > epos - spos {
        return Some(true);
      }
      var next := StartWith(spos, CRLF);
      if next {
        BufErase(|CRLF|);
        state := 1;
        return None;
      }
      if |"--"| > epos - spos {
        return Some(true);
      }
      var last := StartWith(spos, "--");
      if last {
        Close();
        return None;
      }
      return Some(true);
    }

    method Round(accept: seq<Out> -> bool) returns (done: Option<bool>)
      requires Valid() && spos < epos
      modifies this`log, this`isValid, this`file, this`spos, this`state
      ensures Valid() && Turn(MachineOf(), done) == Iterate(old(MachineOf()), boundary, accept)
    {
      match state {
        case 0 => done := ReadOpening();
        case 1 =>
          file := NoFile;
          state := 2;
          done := None;
        case 2 => done := ReadHeaderLines(accept);
        case 3 => done := ReadContent(accept);
        case 4 => done := ReadBoundary();
      }
    }

    // One call with `data`, the next piece of the body.
    method Parse(data: string, accept: seq<Out> -> bool) returns (ok: bool)
      requires Valid()
      modifies this
      ensures Valid() && (MachineOf(), ok) == Feed(old(MachineOf()), boundary, accept, data)
    {
      BufAppend(data);
      while epos - spos > 0
        invariant Valid()
        invariant Run(MachineOf(), boundary, accept) == Feed(old(MachineOf()), boundary, accept, data)
        decreases epos - spos, if state == 1 then 1 else 0
      {
        var done := Round(accept);
        if done.Some? {
          return done.value;
        }
      }
      return true;
    }
  }

  lemma NoStart(rest: string, s: string, i: nat)
    requires i < |rest| && s != "" && rest[i] != s[0]
    ensures FindFrom(rest, s, i) == FindFrom(rest, s, i + 1)
  {
    assert i + |s| <= |rest| ==> rest[i..i + |s|][0] == rest[i];
  }

  lemma NoRoom(rest: string, s: string, i: nat)
    requires i <= |rest| && i + |s| > |rest|
    ensures FindFrom(rest, s, i) == |rest|
  {
    FindFromIs(rest, s, i, |rest|);
  }
}
