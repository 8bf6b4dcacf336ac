/**
 What the multipart parser hands on for one entry, from the body state on, for arbitrary bytes in
 arbitrary pieces and for callbacks that may refuse.
 */
module MultipartBody {
  import opened Common
  import opened HttpText
  import opened Multipart

  // The bytes of a run of content events.
  function Bytes(entry: seq<Out>): string {
    if entry == [] then "" else (match entry[0] case Header(_) => "" case Data(bytes) => bytes) + Bytes(entry[1..])
  }

  lemma {:induction false} BytesAppend(a: seq<Out>, b: seq<Out>)
    ensures Bytes(a + b) == Bytes(a) + Bytes(b)
  {
    if a == [] {
      assert a + b == b;
    } else {
      assert (a + b)[1..] == a[1..] + b;
      BytesAppend(a[1..], b);
    }
  }

  lemma BytesOne(bytes: string)
    ensures Bytes([Data(bytes)]) == bytes
  {
    assert [Data(bytes)][1..] == [];
  }

  ghost predicate AllData(entry: seq<Out>) {
    forall k :: 0 <= k < |entry| ==> entry[k].Data?
  }

  /* ---------- The log only grows ---------- */

  ghost predicate Extends(log: seq<Out>, before: seq<Out>) {
    |before| <= |log| && log[..|before|] == before
  }

  lemma ExtendsThrough(a: seq<Out>, b: seq<Out>, c: seq<Out>)
    requires Extends(b, a) && Extends(c, b)
    ensures Extends(c, a)
  {
    assert c[..|a|] == c[..|b|][..|a|];
  }

  lemma {:induction false} HeadersExtend(m: Machine, accept: seq<Out> -> bool)
    requires m.state == 2
    ensures Extends(ReadHeaders(m, accept).m.log, m.log)
    decreases |m.rest|
  {
    var t := HeaderStep(m, accept);
    assert Extends(t.m.log, m.log);
    if !(t.done.Some? || t.m.state == 3) {
      HeadersExtend(t.m, accept);
    }
  }

  lemma IterateExtends(m: Machine, b: string, accept: seq<Out> -> bool)
    requires m.state <= 4 && m.rest != ""
    ensures Extends(Iterate(m, b, accept).m.log, m.log)
  {
    if m.state == 2 {
      HeadersExtend(m, accept);
    }
  }

  lemma {:induction false} RunExtends(m: Machine, b: string, accept: seq<Out> -> bool)
    requires m.state <= 4
    ensures Extends(Run(m, b, accept).0.log, m.log)
    decreases |m.rest|, if m.state == 1 then 1 else 0
  {
    if m.rest != "" {
      IterateExtends(m, b, accept);
      var t := Iterate(m, b, accept);
      if t.done.None? {
        RunExtends(t.m, b, accept);
        ExtendsThrough(m.log, t.m.log, Run(t.m, b, accept).0.log);
      }
    }
  }

  lemma {:induction false} FeedAllExtends(m: Machine, b: string, accept: seq<Out> -> bool, chunks: seq<string>)
    requires m.state <= 4
    ensures Extends(FeedAll(m, b, accept, chunks).0.log, m.log)
    decreases |chunks|
  {
    if chunks != [] {
      var r := Feed(m, b, accept, chunks[0]);
      RunExtends(m.(rest := m.rest + chunks[0]), b, accept);
      if r.1 {
        FeedAllExtends(r.0, b, accept, chunks[1..]);
        ExtendsThrough(m.log, r.0.log, FeedAll(r.0, b, accept, chunks[1..]).0.log);
      }
    }
  }

  /* ---------- One entry ---------- */

  // How the calls `r` from the body state `m` on have treated the entry: `entry` is what was handed on
  // for it and `more` what came after.  They are still in it, with all but the last bytes handed on;
  // or they have met the delimiter, with everything before it handed on; or the callback refused.
  ghost predicate Handed(m: Machine, r: (Machine, bool), entry: seq<Out>, more: seq<Out>, whole: string, d: string, accept: seq<Out> -> bool) {
    var n := |Bytes(entry)|;
    && r.0.log == m.log + entry + more && AllData(entry)
    && n <= Find(whole, d) && Bytes(entry) == whole[..n]
    && (|| (more == [] && r.1 && r.0.state == 3 && r.0.rest == whole[n..] && |whole| <= n + |d| && Find(whole, d) == |whole|)
        || (n == Find(whole, d) < |whole| && accept(m.log + entry))
        || (more == [] && !r.1 && !r.0.valid && entry != [] && !accept(m.log + entry)))
  }

  // The call has met no delimiter and handed on `entry`.
  ghost predicate StillIn(m: Machine, r: (Machine, bool), entry: seq<Out>, rest: string, d: string) {
    var n := |Bytes(entry)|;
    r.1 && n <= |rest| <= n + |d| && r.0 == m.(log := m.log + entry, rest := rest[n..]) && Find(rest, d) == |rest|
  }

  // The same for one call: `rest` is what it has, `fut` what is still to come.
  ghost predicate CallHanded(m: Machine, r: (Machine, bool), entry: seq<Out>, rest: string, fut: string, d: string, accept: seq<Out> -> bool) {
    var n := |Bytes(entry)|;
    && AllData(entry) && n <= Find(rest + fut, d) && Bytes(entry) == (rest + fut)[..n]
    && (|| StillIn(m, r, entry, rest, d)
        || (n == Find(rest + fut, d) < |rest + fut| && accept(m.log + entry) && Extends(r.0.log, m.log + entry))
        || (!r.1 && !r.0.valid && entry != [] && r.0.log == m.log + entry && !accept(m.log + entry)))
  }

  // The events of one round.
  function RoundEvents(rest: string, n: nat, empty: bool): seq<Out>
    requires n <= |rest|
  {
    if n == 0 && empty then [] else [Data(rest[..n])]
  }

  lemma RoundBytes(rest: string, fut: string, n: nat, empty: bool)
    requires n <= |rest|
    ensures AllData(RoundEvents(rest, n, empty)) && Bytes(RoundEvents(rest, n, empty)) == (rest + fut)[..n]
  {
    BytesOne(rest[..n]);
    assert (rest + fut)[..n] == rest[..n];
  }

  lemma FeedRound(m: Machine, b: string, accept: seq<Out> -> bool)
    requires m.state == 3
    ensures var t := ReadBody(m, b, accept);
            Run(m, b, accept) == if t.done.Some? then (t.m, t.done.value) else Run(t.m, b, accept)
  {
  }

  lemma BodyCall(m: Machine, b: string, accept: seq<Out> -> bool, chunk: string, fut: string) returns (entry: seq<Out>)
    requires m.state == 3
    ensures CallHanded(m, Feed(m, b, accept, chunk), entry, m.rest + chunk, fut, Delimiter(b), accept)
  {
    var fed, d := m.(rest := m.rest + chunk), Delimiter(b);
    var t, n := ReadBody(fed, b, accept), Settled(fed.rest, d);
    BodyTurn(fed, b, accept, fut);
    FeedRound(fed, b, accept);
    entry := RoundEvents(fed.rest, n, t.done == Some(true));
    RoundBytes(fed.rest, fut, n, t.done == Some(true));
    BodyTurn(fed, b, accept, "");
    assert fed.rest + "" == fed.rest;
    if t.done == Some(true) {
      assert m.log + [] == m.log;
    } else if t.done.None? {
      RunExtends(t.m, b, accept);
    }
  }

  // The entry's events of the first call and of the later ones.
  lemma CallsJoin(m: Machine, m': Machine, r: (Machine, bool), first: seq<Out>, entry: seq<Out>, more: seq<Out>,
                  rest: string, fut: string, d: string, accept: seq<Out> -> bool)
    requires var n := |Bytes(first)|;
             && AllData(first) && n <= |rest| && n <= Find(rest + fut, d) && Bytes(first) == (rest + fut)[..n]
             && m' == m.(log := m.log + first, rest := rest[n..])
    requires Handed(m', r, entry, more, m'.rest + fut, d, accept)
    ensures Handed(m, r, first + entry, more, rest + fut, d, accept)
  {
    BytesAppend(first, entry);
    Regroup(m.log, first, entry);
    StreamJoins(rest, fut, |Bytes(first)|, |Bytes(entry)|, d);
  }

  lemma StreamJoins(rest: string, fut: string, n: nat, k: nat, d: string)
    requires n <= |rest| && n + k <= |rest + fut| && n <= Find(rest + fut, d)
    ensures var whole := rest + fut;
            && rest[n..] + fut == whole[n..] && Find(whole[n..], d) == Find(whole, d) - n
            && whole[..n] + whole[n..][..k] == whole[..n + k] && whole[n..][k..] == whole[n + k..]
  {
    FindSuffix(rest + fut, d, n);
  }

  // From the body state on, for every input in every cutting: what is handed on for the entry is a
  // prefix of the bytes before the first delimiter of the whole stream, and all of them once the
  // delimiter is met; nothing else is handed on before; only a refusal ends the calls early.
  lemma {:induction false} BodyBytes(m: Machine, b: string, accept: seq<Out> -> bool, chunks: seq<string>)
    returns (entry: seq<Out>, more: seq<Out>)
    requires m.state == 3
    requires chunks == [] ==> |m.rest| <= |Delimiter(b)| && Find(m.rest, Delimiter(b)) == |m.rest|
    ensures Handed(m, FeedAll(m, b, accept, chunks), entry, more, m.rest + Flatten(chunks), Delimiter(b), accept)
    decreases |chunks|
  {
    var d := Delimiter(b);
    if chunks == [] {
      entry, more := [], [];
      assert m.log + [] + [] == m.log && m.rest + "" == m.rest && m.rest[0..] == m.rest;
    } else {
      var fut, r := Flatten(chunks[1..]), Feed(m, b, accept, chunks[0]);
      var first := BodyCall(m, b, accept, chunks[0], fut);
      Regroup(m.rest, chunks[0], fut);
      entry, more := BodyRest(m, b, accept, chunks, first);
    }
  }

  lemma {:induction false} BodyRest(m: Machine, b: string, accept: seq<Out> -> bool, chunks: seq<string>, first: seq<Out>)
    returns (entry: seq<Out>, more: seq<Out>)
    requires m.state == 3 && chunks != []
    requires CallHanded(m, Feed(m, b, accept, chunks[0]), first, m.rest + chunks[0], Flatten(chunks[1..]), Delimiter(b), accept)
    ensures Handed(m, FeedAll(m, b, accept, chunks), entry, more, m.rest + chunks[0] + Flatten(chunks[1..]), Delimiter(b), accept)
    decreases |chunks|, 0
  {
    var d, rest, fut, r := Delimiter(b), m.rest + chunks[0], Flatten(chunks[1..]), Feed(m, b, accept, chunks[0]);
    if StillIn(m, r, first, rest, d) {
      NothingHidden(rest, d, |Bytes(first)|);
      entry, more := BodyBytes(r.0, b, accept, chunks[1..]);
      CallsJoin(m, r.0, FeedAll(r.0, b, accept, chunks[1..]), first, entry, more, rest, fut, d, accept);
      entry := first + entry;
    } else {
      entry := first;
      more := BodyOver(m, b, accept, chunks, first);
    }
  }

  lemma NothingHidden(rest: string, d: string, n: nat)
    requires Find(rest, d) == |rest| && n <= |rest| <= n + |d|
    ensures |rest[n..]| <= |d| && Find(rest[n..], d) == |rest[n..]|
  {
    FindSuffix(rest, d, n);
  }

  // After the delimiter or a refusal.
  lemma BodyOver(m: Machine, b: string, accept: seq<Out> -> bool, chunks: seq<string>, first: seq<Out>) returns (more: seq<Out>)
    requires m.state == 3 && chunks != []
    requires var r := Feed(m, b, accept, chunks[0]);
             && CallHanded(m, r, first, m.rest + chunks[0], Flatten(chunks[1..]), Delimiter(b), accept)
             && !StillIn(m, r, first, m.rest + chunks[0], Delimiter(b))
    ensures Handed(m, FeedAll(m, b, accept, chunks), first, more, m.rest + chunks[0] + Flatten(chunks[1..]), Delimiter(b), accept)
  {
    var r, all := Feed(m, b, accept, chunks[0]), FeedAll(m, b, accept, chunks);
    if r.1 {
      FeedAllExtends(r.0, b, accept, chunks[1..]);
      ExtendsThrough(m.log + first, r.0.log, all.0.log);
    }
    more := all.0.log[|m.log + first|..];
    assert all.0.log == m.log + first + more;
  }
}
