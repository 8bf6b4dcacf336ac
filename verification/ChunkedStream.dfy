/**
 The objects that read and write the chunked coding: the socket stream with its read-ahead
 buffer, the line reader with its fixed and growing buffers, and the loops over them.
 */
module ChunkedStream {
  import opened Common
  import opened HttpText
  import opened Chunked

  const READ_BUFF_SIZE := 4096
  const RECV_BUFSIZ := 4096

  class SocketStream {
    const readBuff: array<char>
    var off: nat
    var contentSize: nat
    // What the peer has still to deliver; a read of the socket takes any non-empty prefix.
    var pending: string

    ghost predicate Valid()
      reads this
    {
      readBuff.Length == READ_BUFF_SIZE && off <= contentSize <= readBuff.Length
    }

    // Everything the reader will still see.
    ghost function Ahead(): string
      requires Valid()
      reads this, readBuff
    {
      readBuff[off..contentSize] + pending
    }

    constructor (received: string)
      ensures Valid() && Ahead() == received && fresh(readBuff)
    {
      readBuff := new char[READ_BUFF_SIZE];
      off, contentSize, pending := 0, 0, received;
      new;
      assert readBuff[0..0] == [];
    }

    // The socket delivers between one and `n` bytes, or none at the end.
    method ReadSocket(n: nat) returns (bytes: string)
      requires n > 0
      modifies this`pending
      ensures old(pending) == bytes + pending && |bytes| <= n
      ensures bytes == "" <==> old(pending) == ""
    {
      if pending == "" {
        return "";
      }
      var most := if n < |pending| then n else |pending|;
      var k: nat :| 1 <= k <= most;
      bytes := pending[..k];
      pending := pending[k..];
    }

    // Reads at most `size` bytes; none only at the end of the stream.
    method Read(size: nat) returns (bytes: string)
      requires Valid() && size > 0
      modifies this`off, this`contentSize, this`pending, readBuff
      ensures Valid() && old(Ahead()) == bytes + Ahead() && |bytes| <= size
      ensures bytes == "" <==> old(Ahead()) == ""
    {
      if off < contentSize {
        var remaining := contentSize - off;
        var n := if size <= remaining then size else remaining;
        bytes := readBuff[off..off + n];
        off := off + n;
        return;
      }
      assert readBuff[off..contentSize] == [];
      off, contentSize := 0, 0;
      if size < READ_BUFF_SIZE {
        var got := ReadSocket(READ_BUFF_SIZE);
        forall i | 0 <= i < |got| {
          readBuff[i] := got[i];
        }
        assert readBuff[..|got|] == got;
        if |got| <= size {
          bytes := readBuff[..|got|];
          assert readBuff[0..0] == [];
        } else {
          bytes := readBuff[..size];
          off, contentSize := size, |got|;
        }
      } else {
        bytes := ReadSocket(size);
        assert readBuff[0..0] == [];
      }
    }
  }

  class LineReader {
    const fixed: array<char>
    var used: nat
    var growable: string

    ghost predicate Valid()
      reads this
    {
      used < fixed.Length && (growable != "" ==> used == fixed.Length - 1)
    }

    // The line, in whichever buffer it is.
    function Text(): string
      requires Valid()
      reads this, fixed
    {
      if growable == "" then fixed[..used] else growable
    }

    constructor (size: nat)
      requires size > 0
      ensures Valid() && fresh(fixed)
    {
      fixed := new char[size];
      used, growable := 0, "";
    }

    method Append(c: char)
      requires Valid()
      modifies this, fixed
      ensures Valid() && Text() == old(Text()) + [c]
    {
      if used < fixed.Length - 1 {
        fixed[used] := c;
        used := used + 1;
        fixed[used] := '\0';
      } else {
        if growable == "" {
          growable := fixed[..used];
        }
        growable := growable + [c];
      }
    }

    // Reads up to a line feed or the end of the stream; fails when nothing was left.
    method GetLine(strm: SocketStream) returns (ok: bool)
      requires Valid() && strm.Valid() && strm.readBuff != fixed
      modifies this, fixed, strm, strm.readBuff
      ensures Valid() && strm.Valid()
      ensures var l := Chunked.GetLine(old(strm.Ahead()));
              ok == l.Some? && (if ok then l.value == Line(Text(), strm.Ahead()) else strm.Ahead() == "" && Text() == "")
    {
      ghost var whole := strm.Ahead();
      used, growable := 0, "";
      assert Text() == "" && "" + whole == whole;
      var first := true;
      while true
        invariant Valid() && strm.Valid()
        invariant Text() + strm.Ahead() == whole && '\n' !in Text()
        invariant first <==> Text() == ""
        decreases |strm.Ahead()|
      {
        ghost var text := Text();
        var byte := strm.Read(1);
        if byte == "" {
          EndOfStream(text, whole);
          return !first;
        }
        first := false;
        ghost var ahead := strm.Ahead();
        assert byte == [byte[0]] && text + ([byte[0]] + ahead) == whole;
        Append(byte[0]);
        if byte[0] == '\n' {
          LineFeed(text, ahead);
          return true;
        }
        Regroup(text, [byte[0]], ahead);
      }
    }
  }

  lemma EndOfStream(text: string, whole: string)
    requires text == whole && '\n' !in text
    ensures Chunked.GetLine(whole) == if whole == "" then None else Some(Line(whole, ""))
  {
    IndexFromIs(whole, '\n', 0, |whole|);
  }

  lemma LineFeed(text: string, ahead: string)
    requires '\n' !in text
    ensures Chunked.GetLine(text + (['\n'] + ahead)) == Some(Line(text + ['\n'], ahead))
  {
    var s := text + (['\n'] + ahead);
    IndexFromIs(s, '\n', 0, |text|);
    assert s[..|text| + 1] == text + ['\n'] && s[|text| + 1..] == ahead;
  }

  // Hands on `len` bytes in pieces of at most the receive buffer; fails when the stream ends early.
  method ReadContentWithLength(strm: SocketStream, len: nat, body: string) returns (ok: bool, out: string)
    requires strm.Valid()
    modifies strm, strm.readBuff
    ensures strm.Valid()
    ensures ok == (|old(strm.Ahead())| >= len)
    ensures out == body + (if ok then old(strm.Ahead())[..len] else old(strm.Ahead()))
    ensures strm.Ahead() == if ok then old(strm.Ahead())[len..] else ""
  {
    ghost var whole := strm.Ahead();
    var r := 0;
    out := body;
    while r < len
      invariant strm.Valid() && 0 <= r <= len && r <= |whole|
      invariant out == body + whole[..r] && strm.Ahead() == whole[r..]
    {
      var want := if len - r < RECV_BUFSIZ then len - r else RECV_BUFSIZ;
      var bytes := strm.Read(want);
      if bytes == "" {
        assert whole[..r] == whole;
        return false, out;
      }
      ReadOn(whole, r, bytes, strm.Ahead());
      Regroup(body, whole[..r], bytes);
      out := out + bytes;
      r := r + |bytes|;
    }
    ok := true;
  }

  lemma ReadOn(whole: string, r: nat, bytes: string, ahead: string)
    requires r <= |whole| && whole[r..] == bytes + ahead
    ensures r + |bytes| <= |whole| && whole[..r] + bytes == whole[..r + |bytes|] && ahead == whole[r + |bytes|..]
  {
    assert whole == whole[..r] + (bytes + ahead);
  }

  // Trailer lines up to the blank line.
  method ReadTrailerLines(strm: SocketStream, reader: LineReader, ghost body: string) returns (ok: bool, trailers: seq<string>)
    requires strm.Valid() && reader.Valid() && reader.fixed != strm.readBuff
    modifies strm, strm.readBuff, reader, reader.fixed
    ensures strm.Valid() && reader.Valid()
    ensures Outcome(ok, body, trailers, strm.Ahead()) == ReadTrailers(old(strm.Ahead()), body, [])
  {
    ghost var s, target := strm.Ahead(), ReadTrailers(strm.Ahead(), body, []);
    trailers := [];
    var more := reader.GetLine(strm);
    while true
      invariant strm.Valid() && reader.Valid()
      invariant ReadTrailers(s, body, trailers) == target
      invariant Chunked.GetLine(s) == if more then Some(Line(reader.Text(), strm.Ahead())) else None
      invariant !more ==> strm.Ahead() == "" == s
      decreases |s|
    {
      if !more {
        return false, trailers;
      }
      if IsCrlf(reader.Text()) {
        return true, trailers;
      }
      if |reader.Text()| > HEADER_MAX_LENGTH {
        return false, trailers;
      }
      trailers := trailers + [reader.Text()];
      s := strm.Ahead();
      more := reader.GetLine(strm);
    }
  }

  // The bytes of one chunk and the line break behind them; `more` tells whether to go on.
  method ReadOneChunk(strm: SocketStream, reader: LineReader, len: nat, body: string) returns (more: bool, out: string)
    requires strm.Valid() && reader.Valid() && reader.fixed != strm.readBuff && len > 0
    modifies strm, strm.readBuff, reader, reader.fixed
    ensures strm.Valid() && reader.Valid()
    ensures var a := old(strm.Ahead());
            if |a| < len then !more && out == body + a && strm.Ahead() == ""
            else && out == body + a[..len]
                 && var e := Chunked.GetLine(a[len..]);
                    if e.None? then !more && strm.Ahead() == "" == a[len..]
                    else more == IsCrlf(e.value.text) && strm.Ahead() == e.value.rest
  {
    var ok;
    ok, out := ReadContentWithLength(strm, len, body);
    if !ok {
      return false, out;
    }
    var l := reader.GetLine(strm);
    if !l {
      return false, out;
    }
    more := IsCrlf(reader.Text());
  }

  // The reader of the source, on a stream that may split its reads in any way: what it hands
  // on and what it leaves are those of the plain byte stream.
  method ReadContentChunked(strm: SocketStream, max: nat) returns (ok: bool, body: string, trailers: seq<string>)
    requires strm.Valid()
    modifies strm, strm.readBuff
    ensures strm.Valid()
    ensures Outcome(ok, body, trailers, strm.Ahead()) == ReadChunks(old(strm.Ahead()), "", max)
  {
    var reader := new LineReader(16);
    ok, body, trailers := ReadAllChunks(strm, reader, max);
  }

  method ReadAllChunks(strm: SocketStream, reader: LineReader, max: nat) returns (ok: bool, body: string, trailers: seq<string>)
    requires strm.Valid() && reader.Valid() && reader.fixed != strm.readBuff
    modifies strm, strm.readBuff, reader, reader.fixed
    ensures strm.Valid()
    ensures Outcome(ok, body, trailers, strm.Ahead()) == ReadChunks(old(strm.Ahead()), "", max)
  {
    ghost var s, target := strm.Ahead(), ReadChunks(strm.Ahead(), "", max);
    body, trailers := "", [];
    var more := reader.GetLine(strm);
    while true
      invariant strm.Valid() && reader.Valid() && reader.fixed != strm.readBuff
      invariant ReadChunks(s, body, max) == target
      invariant Chunked.GetLine(s) == if more then Some(Line(reader.Text(), strm.Ahead())) else None
      invariant !more ==> strm.Ahead() == "" == s
      decreases |s|
    {
      if !more {
        return false, body, [];
      }
      var len := StrToUl(CString(reader.Text()), max);
      if len.None? || len.value == max {
        return false, body, [];
      }
      if len.value == 0 {
        ok, trailers := ReadTrailerLines(strm, reader, body);
        return;
      }
      var next;
      next, body := ReadOneChunk(strm, reader, len.value, body);
      if !next {
        return false, body, [];
      }
      s := strm.Ahead();
      more := reader.GetLine(strm);
    }
  }

  /* ---------- The writer ---------- */

  datatype Action = Write(data: string) | Done

  // The text one call of the content provider puts on the wire.
  function CallText(actions: seq<Action>): string {
    if actions == [] then "" else
    (match actions[0] case Write(d) => (if d == "" then "" else Chunk(d)) case Done => "0" + CRLF + CRLF) + CallText(actions[1..])
  }

  // Whether the loop of the writer asks the provider again.
  function Available(actions: seq<Action>, before: bool): bool {
    if actions == [] then before
    else match actions[|actions| - 1] case Write(d) => d != "" case Done => false
  }

  // The text of a run; the loop ends when a call says so or when the provider is not asked any more.
  function Wire(calls: seq<seq<Action>>): string {
    if calls == [] then "" else
    CallText(calls[0]) + if Available(calls[0], true) then Wire(calls[1..]) else ""
  }

  class ChunkedWriter {
    var offset: nat
    var dataAvailable: bool
    var wire: string

    constructor ()
      ensures dataAvailable && wire == ""
    {
      offset, dataAvailable, wire := 0, true, "";
    }

    method SinkWrite(d: string)
      modifies this
      ensures wire == old(wire) + (if d == "" then "" else Chunk(d)) && dataAvailable == (d != "")
      ensures offset == old(offset) + |d|
    {
      dataAvailable := |d| > 0;
      offset := offset + |d|;
      var payload := d;
      if payload != "" {
        var size := FromIToHex(|payload|);
        wire := wire + (size + CRLF + payload + CRLF);
      }
    }

    method SinkDone()
      modifies this
      ensures wire == old(wire) + ("0" + CRLF + CRLF) && !dataAvailable && offset == old(offset)
    {
      dataAvailable := false;
      wire := wire + "0\r\n";
      wire := wire + CRLF;
      assert "0\r\n" == "0" + CRLF;
    }

    // One call of the content provider, which uses the sink as `actions` says.
    method Provide(actions: seq<Action>)
      modifies this
      ensures wire == old(wire) + CallText(actions) && dataAvailable == Available(actions, old(dataAvailable))
    {
      var i := 0;
      while i < |actions|
        invariant 0 <= i <= |actions|
        invariant wire + CallText(actions[i..]) == old(wire) + CallText(actions)
        invariant dataAvailable == Available(actions[..i], old(dataAvailable))
      {
        ghost var todo := actions[i..];
        assert todo[0] == actions[i] && todo[1..] == actions[i + 1..];
        ghost var before := wire;
        match actions[i] {
          case Write(d) => SinkWrite(d);
            Regroup(before, if d == "" then "" else Chunk(d), CallText(actions[i + 1..]));
          case Done => SinkDone();
            Regroup(before, "0" + CRLF + CRLF, CallText(actions[i + 1..]));
        }
        i := i + 1;
      }
      assert actions[..i] == actions;
    }

    method WriteContentChunked(calls: seq<seq<Action>>)
      requires dataAvailable && wire == ""
      modifies this
      ensures wire == Wire(calls)
    {
      var i := 0;
      while dataAvailable && i < |calls|
        invariant 0 <= i <= |calls|
        invariant if dataAvailable then wire + Wire(calls[i..]) == Wire(calls) else wire == Wire(calls)
        decreases |calls| - i
      {
        ghost var todo := calls[i..];
        assert todo[0] == calls[i] && todo[1..] == calls[i + 1..];
        Regroup(wire, CallText(calls[i]), Wire(calls[i + 1..]));
        Provide(calls[i]);
        i := i + 1;
      }
    }
  }

  /* ---------- From the sink to the reader ---------- */

  function AllActions(calls: seq<seq<Action>>): seq<Action> {
    if calls == [] then [] else calls[0] + AllActions(calls[1..])
  }

  // Non-empty writes, then `done`.
  predicate Proper(actions: seq<Action>) {
    && actions != [] && actions[|actions| - 1].Done?
    && forall k :: 0 <= k < |actions| - 1 ==> actions[k].Write? && actions[k].data != ""
  }

  function Payloads(actions: seq<Action>): seq<string> {
    if actions == [] then [] else
    (match actions[0] case Write(d) => [d] case Done => []) + Payloads(actions[1..])
  }

  lemma {:induction false} CallTextAppend(a: seq<Action>, b: seq<Action>)
    ensures CallText(a + b) == CallText(a) + CallText(b)
  {
    if a == [] {
      assert a + b == b;
    } else {
      assert (a + b)[1..] == a[1..] + b;
      CallTextAppend(a[1..], b);
    }
  }

  lemma {:induction false} ProperText(actions: seq<Action>)
    requires Proper(actions)
    ensures CallText(actions) == Encoded(Payloads(actions))
    ensures forall k :: 0 <= k < |Payloads(actions)| ==> Payloads(actions)[k] != ""
  {
    if |actions| == 1 {
      assert actions[1..] == [];
      assert CallText(actions) == "0" + CRLF + CRLF;
      assert "" + ("0" + CRLF + CRLF) == "0" + CRLF + CRLF;
    } else {
      ProperText(actions[1..]);
      var d, rest := actions[0].data, Payloads(actions[1..]);
      assert ([d] + rest)[1..] == rest;
      Regroup(Chunk(d), Chunks(rest), "0" + CRLF + CRLF);
    }
  }

  // However the provider spreads its writes over its calls, all of them reach the wire.
  lemma {:induction false} ProperWire(calls: seq<seq<Action>>)
    requires Proper(AllActions(calls))
    ensures Wire(calls) == CallText(AllActions(calls))
  {
    var first, rest := calls[0], AllActions(calls[1..]);
    CallTextAppend(first, rest);
    if rest == [] {
      assert first + rest == first;
    } else {
      ProperTail(first, rest);
      ProperWire(calls[1..]);
    }
  }

  lemma ProperTail(first: seq<Action>, rest: seq<Action>)
    requires Proper(first + rest) && rest != []
    ensures Proper(rest) && Available(first, true)
  {
    var all := first + rest;
    assert all[|all| - 1] == rest[|rest| - 1];
    assert forall k :: 0 <= k < |rest| ==> all[|first| + k] == rest[k];
    if first != [] {
      assert all[|first| - 1] == first[|first| - 1];
    }
  }

  // Non-empty writes followed by `done`, spread over any calls, are read back as their
  // concatenation; what follows on the stream stays there.
  lemma WireRoundTrip(calls: seq<seq<Action>>, tail: string, max: nat)
    requires Proper(AllActions(calls)) && 0 < max
    requires forall k :: 0 <= k < |Payloads(AllActions(calls))| ==> |Payloads(AllActions(calls))[k]| < max
    ensures ReadChunks(Wire(calls) + tail, "", max) == Outcome(true, Flatten(Payloads(AllActions(calls))), [], tail)
  {
    ProperWire(calls);
    ProperText(AllActions(calls));
    RoundTrip(Payloads(AllActions(calls)), tail, max);
  }

  // The actions that a run performs: it stops behind a call that ends in `done` or an empty write.
  function Performed(calls: seq<seq<Action>>): seq<Action> {
    if calls == [] then [] else calls[0] + if Available(calls[0], true) then Performed(calls[1..]) else []
  }

  lemma {:induction false} WireOfPerformed(calls: seq<seq<Action>>)
    ensures Wire(calls) == CallText(Performed(calls))
  {
    if calls != [] {
      if Available(calls[0], true) {
        WireOfPerformed(calls[1..]);
        CallTextAppend(calls[0], Performed(calls[1..]));
      } else {
        assert calls[0] + [] == calls[0];
        assert CallText(calls[0]) + "" == CallText(calls[0]);
      }
    }
  }

  predicate HasDone(actions: seq<Action>) {
    actions != [] && (actions[0].Done? || HasDone(actions[1..]))
  }

  // The non-empty writes before the first `done`.
  function Before(actions: seq<Action>): seq<string> {
    if actions == [] || actions[0].Done? then []
    else (if actions[0].data == "" then [] else [actions[0].data]) + Before(actions[1..])
  }

  lemma {:induction false} TextBefore(actions: seq<Action>) returns (tail: string)
    ensures CallText(actions) == if HasDone(actions) then Encoded(Before(actions)) + tail else Chunks(Before(actions))
  {
    tail := "";
    if actions != [] {
      if actions[0].Done? {
        tail := CallText(actions[1..]);
        assert "" + ("0" + CRLF + CRLF) == "0" + CRLF + CRLF;
      } else {
        tail := TextBefore(actions[1..]);
        TextBeforeWrite(actions[0].data, Before(actions[1..]), tail);
      }
    }
  }

  lemma TextBeforeWrite(d: string, rest: seq<string>, tail: string)
    ensures d != "" ==> Chunk(d) + (Encoded(rest) + tail) == Encoded([d] + rest) + tail
    ensures d != "" ==> Chunk(d) + Chunks(rest) == Chunks([d] + rest)
    ensures [] + rest == rest
  {
    if d != "" {
      assert ([d] + rest)[1..] == rest;
      Regroup4(Chunk(d), Chunks(rest), "0" + CRLF + CRLF, tail);
    }
  }

  lemma {:induction false} NoEndMarker(writes: seq<string>, body: string, max: nat)
    requires forall k :: 0 <= k < |writes| ==> 0 < |writes[k]| < max
    ensures ReadChunks(Chunks(writes), body, max) == Outcome(false, body + Flatten(writes), [], "")
    decreases |writes|
  {
    if writes != [] {
      var p, rest := writes[0], Chunks(writes[1..]);
      assert Chunks(writes) == HexOf(|p|) + (CRLF + (p + (CRLF + rest)));
      OneChunk(p, body, rest, max);
      NoEndMarker(writes[1..], body + p, max);
      Regroup(body, p, Flatten(writes[1..]));
    }
  }

  // For every use of the sink: the reader hands on the writes before the first `done`, and
  // accepts the body exactly when a `done` is performed.  In particular a call that ends in
  // an empty write, with no `done` so far, leaves a body that the reader refuses.
  lemma ReadsBack(calls: seq<seq<Action>>, max: nat)
    requires 0 < max && forall k :: 0 <= k < |Before(Performed(calls))| ==> 0 < |Before(Performed(calls))[k]| < max
    ensures var r := ReadChunks(Wire(calls), "", max);
            r.body == Flatten(Before(Performed(calls))) && (r.ok <==> HasDone(Performed(calls)))
  {
    var actions := Performed(calls);
    WireOfPerformed(calls);
    var tail := TextBefore(actions);
    assert "" + Flatten(Before(actions)) == Flatten(Before(actions));
    if HasDone(actions) {
      RoundTrip(Before(actions), tail, max);
    } else {
      NoEndMarker(Before(actions), "", max);
    }
  }
}
