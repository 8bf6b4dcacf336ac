/**
 The narrow-character GNU-style option scanner.  `Scanner` carries the fields of
 the scanner state; `argv` is permuted in place.  The reference for a whole run is
 `Scan`, which walks the arguments in their original order and never moves anything.
 */
module Getopt {
  import opened Common

  datatype Ordering = RequireOrder | Permute | ReturnInOrder

  // `flag` is the address of the caller's variable, 0 being the null pointer.
  datatype LongOption = LongOption(name: string, hasArg: int, flag: nat, val: int)

  // `optstring` is the option string without its leading '-' or '+'.
  datatype Config = Config(ordering: Ordering, optstring: string, longopts: Option<seq<LongOption>>, longOnly: bool)

  datatype Return = End | Code(code: int)

  // What one call tells its caller.
  datatype Event = Event(code: int, optarg: Option<string>)

  datatype Argument = NoArgument | Text(text: string) | NextElement

  // What one call does with the unread text of the current element: the text left
  // unread, how many elements of argv are consumed, and what is reported.
  datatype Decision = Decision(rest: string, advance: nat, code: int, arg: Argument,
                               optopt: Option<int>, hit: Option<nat>)

  datatype Lookup = NotFound | Ambiguous | Found(index: nat)

  /* ---------- Text helpers ---------- */

  function IndexOf(s: string, c: char): (i: nat)
    ensures i <= |s| && c !in s[..i]
    ensures i < |s| ==> s[i] == c
  {
    if s == "" then 0 else if s[0] == c then 0 else 1 + IndexOf(s[1..], c)
  }

  // The character at `i`, or the terminator beyond the end.
  function At(s: string, i: nat): char {
    if i < |s| then s[i] else '\0'
  }

  predicate IsOperand(s: string) {
    |s| < 2 || s[0] != '-'
  }

  // The text scanned first in option element `e`.
  function FirstText(e: string, longs: bool): (t: string)
    requires !IsOperand(e) && e != "--"
    ensures t != "" && |t| < |e| && t == e[|e| - |t|..]
  {
    if longs && e[1] == '-' then e[2..] else e[1..]
  }

  // The "W;" form is not modelled.
  predicate NoWForm(optstring: string) {
    forall i :: 0 <= i < |optstring| && optstring[i] == 'W' ==> At(optstring, i + 1) != ';'
  }

  /* ---------- Long option lookup ---------- */

  predicate IsPrefix(name: string, p: LongOption) {
    name <= p.name
  }

  predicate Differ(p: LongOption, q: LongOption, longOnly: bool) {
    longOnly || p.hasArg != q.hasArg || p.flag != q.flag || p.val != q.val
  }

  // The least index at or after `i` whose name is exactly `name`.
  function FirstExact(ls: seq<LongOption>, name: string, i: nat): (k: nat)
    requires i <= |ls|
    ensures i <= k <= |ls|
    ensures forall j :: i <= j < k ==> ls[j].name != name
    ensures k < |ls| ==> ls[k].name == name
    decreases |ls| - i
  {
    if i == |ls| || ls[i].name == name then i else FirstExact(ls, name, i + 1)
  }

  function FirstPrefix(ls: seq<LongOption>, name: string, i: nat): (k: nat)
    requires i <= |ls|
    ensures i <= k <= |ls|
    ensures forall j :: i <= j < k ==> !IsPrefix(name, ls[j])
    ensures k < |ls| ==> IsPrefix(name, ls[k])
    decreases |ls| - i
  {
    if i == |ls| || IsPrefix(name, ls[i]) then i else FirstPrefix(ls, name, i + 1)
  }

  // An exact name wins; otherwise the first abbreviation wins unless a later one differs from it.
  function LookupLong(ls: seq<LongOption>, name: string, longOnly: bool): Lookup {
    var e, f := FirstExact(ls, name, 0), FirstPrefix(ls, name, 0);
    if e < |ls| then Found(e)
    else if f == |ls| then NotFound
    else if exists k :: f < k < |ls| && IsPrefix(name, ls[k]) && Differ(ls[f], ls[k], longOnly) then Ambiguous
    else Found(f)
  }

  // The table scan of the source: stops at an exact name, remembers the first abbreviation.
  method FindLong(ls: seq<LongOption>, name: string, longOnly: bool) returns (r: Lookup)
    ensures r == LookupLong(ls, name, longOnly)
  {
    var found: Option<nat> := None;
    var ambiguous := false;
    var i := 0;
    while i < |ls|
      invariant 0 <= i <= |ls|
      invariant forall j :: 0 <= j < i ==> ls[j].name != name
      invariant found.None? ==> !ambiguous && forall j :: 0 <= j < i ==> !IsPrefix(name, ls[j])
      invariant found.Some? ==> found.value < i && IsPrefix(name, ls[found.value])
      invariant found.Some? ==> forall j :: 0 <= j < found.value ==> !IsPrefix(name, ls[j])
      invariant found.Some? ==> (ambiguous <==> exists k :: found.value < k < i && IsPrefix(name, ls[k]) && Differ(ls[found.value], ls[k], longOnly))
    {
      if IsPrefix(name, ls[i]) {
        if |name| == |ls[i].name| {
          assert ls[i].name == name;
          return Found(i);
        } else if found.None? {
          found := Some(i);
        } else if Differ(ls[found.value], ls[i], longOnly) {
          ambiguous := true;
        }
      }
      i := i + 1;
    }
    if ambiguous {
      r := Ambiguous;
    } else if found.Some? {
      r := Found(found.value);
    } else {
      r := NotFound;
    }
  }

  /* ---------- One element ---------- */

  predicate LongEligible(e: string, cfg: Config)
    requires |e| >= 2
  {
    && cfg.longopts.Some?
    && (e[1] == '-' || (cfg.longOnly && (|e| > 2 || e[1] !in cfg.optstring)))
  }

  function MissingCode(cfg: Config): int {
    if At(cfg.optstring, 0) == ':' then ':' as int else '?' as int
  }

  // None: the element is scanned as a short option after all.
  function DecideLong(e: string, text: string, hasNext: bool, cfg: Config): (r: Option<Decision>)
    requires |e| >= 2 && text != "" && cfg.longopts.Some?
    ensures r.Some? ==> r.value.rest == "" && 1 <= r.value.advance <= (if hasNext then 2 else 1)
    ensures r.Some? ==> (r.value.arg == NextElement <==> r.value.advance == 2)
  {
    var ls := cfg.longopts.value;
    var n := IndexOf(text, '=');
    match LookupLong(ls, text[..n], cfg.longOnly)
    case Ambiguous => Some(Decision("", 1, '?' as int, NoArgument, Some(0), None))
    case Found(k) =>
      var p := ls[k];
      var code := if p.flag != 0 then 0 else p.val;
      if n < |text| then
        if p.hasArg != 0 then Some(Decision("", 1, code, Text(text[n + 1..]), None, Some(k)))
        else Some(Decision("", 1, '?' as int, NoArgument, Some(p.val), None))
      else if p.hasArg == 1 then
        if hasNext then Some(Decision("", 2, code, NextElement, None, Some(k)))
        else Some(Decision("", 1, MissingCode(cfg), NoArgument, Some(p.val), None))
      else Some(Decision("", 1, code, NoArgument, None, Some(k)))
    case NotFound =>
      if !cfg.longOnly || e[1] == '-' || text[0] !in cfg.optstring
      then Some(Decision("", 1, '?' as int, NoArgument, Some(0), None))
      else None
  }

  // An element is left only when its text is used up, and never without what it names.
  predicate Orderly(d: Decision, text: string, hasNext: bool)
    requires text != ""
  {
    && (d.rest != "" ==> d.rest == text[1..] && d.advance == 0)
    && (d.rest == "" ==> 1 <= d.advance <= (if hasNext then 2 else 1))
    && (d.arg == NextElement <==> d.advance == 2)
  }

  function DecideShort(text: string, hasNext: bool, cfg: Config): (r: Decision)
    requires text != ""
    ensures Orderly(r, text, hasNext)
  {
    var c, rest, opts := text[0], text[1..], cfg.optstring;
    var t := IndexOf(opts, c);
    var step := if rest == "" then 1 else 0;
    if t == |opts| || c == ':' || c == ';' then
      Decision(rest, step, '?' as int, NoArgument, Some(c as int), None)
    else if At(opts, t + 1) != ':' then
      Decision(rest, step, c as int, NoArgument, None, None)
    else if rest != "" then
      Decision("", 1, c as int, Text(rest), None, None)
    else if At(opts, t + 2) == ':' then
      Decision("", 1, c as int, NoArgument, None, None)
    else if hasNext then
      Decision("", 2, c as int, NextElement, None, None)
    else
      Decision("", 1, MissingCode(cfg), NoArgument, Some(c as int), None)
  }

  function Decide(e: string, text: string, hasNext: bool, cfg: Config): (r: Decision)
    requires text != ""
    ensures Orderly(r, text, hasNext)
  {
    var long := if |e| >= 2 && LongEligible(e, cfg) then DecideLong(e, text, hasNext, cfg) else None;
    if long.Some? then long.value else DecideShort(text, hasNext, cfg)
  }

  /* ---------- The reference: a whole run over unmoved arguments ---------- */

  // `marks[k]` tells whether the k-th remaining element belongs to the option part.
  datatype Outcome = Outcome(events: seq<Event>, marks: seq<bool>)

  function Repeat(b: bool, n: nat): (s: seq<bool>)
    ensures |s| == n && forall k :: 0 <= k < n ==> s[k] == b
  {
    seq(n, _ => b)
  }

  function Resolve(a: seq<string>, i: nat, arg: Argument): Option<string> {
    match arg
    case NoArgument => None
    case Text(t) => Some(t)
    case NextElement => if i + 1 < |a| then Some(a[i + 1]) else None
  }

  // The reader's position: element `i`, of which `text` is unread ("" when the element is not begun).
  predicate Position(a: seq<string>, i: nat, text: string) {
    && i <= |a|
    && (text != "" ==> i < |a| && 2 <= |a[i]| && |text| < |a[i]| && text == a[i][|a[i]| - |text|..])
  }

  // What the walk over the arguments depends on: the ordering, whether there is a table of
  // long options, and how an element is decoded.
  datatype Rules = Rules(ordering: Ordering, longs: bool, decide: (string, string, bool) -> Decision)

  ghost predicate Sound(rules: Rules) {
    forall e, text, hasNext :: text != "" ==> Orderly(rules.decide(e, text, hasNext), text, hasNext)
  }

  function Scan(a: seq<string>, i: nat, text: string, rules: Rules): (r: Outcome)
    requires Sound(rules) && Position(a, i, text)
    ensures |r.marks| == |a| - i
    decreases |a| - i, if text != "" then |text| else if i < |a| then |a[i]| else 0
  {
    if text != "" then
      var d := rules.decide(a[i], text, i + 1 < |a|);
      var r := Scan(a, i + d.advance, d.rest, rules);
      Outcome([Event(d.code, Resolve(a, i, d.arg))] + r.events, Repeat(true, d.advance) + r.marks)
    else if i == |a| then
      Outcome([], [])
    else if a[i] == "--" then
      Outcome([], [true] + Repeat(false, |a| - i - 1))
    else if IsOperand(a[i]) then
      if rules.ordering == RequireOrder then
        Outcome([], Repeat(false, |a| - i))
      else
        var r := Scan(a, i + 1, "", rules);
        if rules.ordering == Permute then Outcome(r.events, [false] + r.marks)
        else Outcome([Event(1, Some(a[i]))] + r.events, [true] + r.marks)
    else
      Scan(a, i, FirstText(a[i], rules.longs), rules)
  }

  /* ----- Which elements are marked ----- */

  // How much of the reader's element is unread.
  function UnreadHere(a: seq<string>, i: nat, text: string): nat {
    if text != "" then |text| else if i < |a| then |a[i]| else 0
  }

  // Where the reader stands next, unless it is done.
  function Follow(a: seq<string>, i: nat, text: string, rules: Rules): (r: Option<(nat, string)>)
    requires Sound(rules) && Position(a, i, text)
    ensures r.Some? ==> var (j, rest) := r.value;
              Position(a, j, rest) && (i < j || (i == j && rest != "" && UnreadHere(a, j, rest) < UnreadHere(a, i, text)))
  {
    if text != "" then
      var d := rules.decide(a[i], text, i + 1 < |a|);
      Some((i + d.advance, d.rest))
    else if i == |a| || a[i] == "--" || (IsOperand(a[i]) && rules.ordering == RequireOrder) then None
    else if IsOperand(a[i]) then Some((i + 1, ""))
    else Some((i, FirstText(a[i], rules.longs)))
  }

  // The reader comes to element `p` with `u` of it unread ("" when it is not begun).
  ghost predicate Reached(a: seq<string>, i: nat, text: string, rules: Rules, p: nat, u: string)
    requires Sound(rules) && Position(a, i, text)
    decreases |a| - i, UnreadHere(a, i, text)
  {
    (i == p && text == u) || (var n := Follow(a, i, text, rules); n.Some? && Reached(a, n.value.0, n.value.1, rules, p, u))
  }

  // The option that the reader comes to at `u` in the element before takes element `k` as its argument.
  ghost predicate Takes(a: seq<string>, i: nat, text: string, rules: Rules, k: nat, u: string)
    requires Sound(rules) && Position(a, i, text)
  {
    0 < k < |a| && u != "" && Reached(a, i, text, rules, k - 1, u) && rules.decide(a[k - 1], u, true).arg == NextElement
  }

  // Element `k` is being read; or the reader comes to it and it is an option element or `--`, or every
  // element counts as one; or an option before it takes it.
  ghost predicate InOptions(a: seq<string>, i: nat, text: string, rules: Rules, k: nat)
    requires Sound(rules) && Position(a, i, text) && k < |a|
  {
    || (k == i && text != "")
    || (Reached(a, i, text, rules, k, "") && (!IsOperand(a[k]) || rules.ordering == ReturnInOrder))
    || exists u: string :: Takes(a, i, text, rules, k, u)
  }

  // The reader comes to element `j`: a `--` before `k`, or an operand that is `k` or ends the options.
  ghost predicate Ends(a: seq<string>, i: nat, text: string, rules: Rules, j: nat, k: nat)
    requires Sound(rules) && Position(a, i, text)
  {
    && j <= k && j < |a| && Reached(a, i, text, rules, j, "")
    && if a[j] == "--" then j < k
       else IsOperand(a[j]) && (rules.ordering == RequireOrder || (rules.ordering == Permute && j == k))
  }

  ghost predicate InOperands(a: seq<string>, i: nat, text: string, rules: Rules, k: nat)
    requires Sound(rules) && Position(a, i, text)
  {
    exists j: nat :: Ends(a, i, text, rules, j, k)
  }

  lemma {:induction false} NotReachedBefore(a: seq<string>, i: nat, text: string, rules: Rules, p: nat, u: string)
    requires Sound(rules) && Position(a, i, text) && Reached(a, i, text, rules, p, u)
    ensures i <= p
    decreases |a| - i, UnreadHere(a, i, text)
  {
    if !(i == p && text == u) {
      var n := Follow(a, i, text, rules).value;
      NotReachedBefore(a, n.0, n.1, rules, p, u);
    }
  }

  // What the marks have to agree with, for element `k`.
  ghost predicate Told(a: seq<string>, i: nat, text: string, rules: Rules, k: nat, mark: bool)
    requires Sound(rules) && Position(a, i, text) && k < |a|
  {
    (mark <==> InOptions(a, i, text, rules, k)) && (!mark <==> InOperands(a, i, text, rules, k))
  }

  // The reader is done at element `i`.
  lemma ToldAtEnd(a: seq<string>, i: nat, text: string, rules: Rules, k: nat)
    requires Sound(rules) && Position(a, i, text) && i <= k < |a| && Follow(a, i, text, rules).None?
    ensures Told(a, i, text, rules, k, Scan(a, i, text, rules).marks[k - i])
  {
    var mark := Scan(a, i, text, rules).marks[k - i];
    assert mark <==> a[i] == "--" && k == i;
    assert Reached(a, i, text, rules, i, "");
    if !mark {
      assert Ends(a, i, text, rules, i, k);
    }
  }

  // Element `k` is left behind in this round.
  lemma ToldHere(a: seq<string>, i: nat, text: string, rules: Rules, k: nat)
    requires Sound(rules) && Position(a, i, text) && i <= k < |a|
    requires var n := Follow(a, i, text, rules); n.Some? && k < n.value.0
    ensures Told(a, i, text, rules, k, text != "" || rules.ordering == ReturnInOrder)
  {
    var n := Follow(a, i, text, rules).value;
    forall p: nat, u: string | Reached(a, i, text, rules, p, u)
      ensures (p == i && u == text) || p > k
    {
      if !(p == i && u == text) {
        NotReachedBefore(a, n.0, n.1, rules, p, u);
      }
    }
    if text == "" {
      assert Reached(a, i, text, rules, k, "");
      assert Ends(a, i, text, rules, k, k) <==> rules.ordering == Permute;
    } else if k > i {
      assert Takes(a, i, text, rules, k, text);
    }
  }

  // Element `k` is still ahead.
  lemma ToldLater(a: seq<string>, i: nat, text: string, rules: Rules, k: nat, mark: bool)
    requires Sound(rules) && Position(a, i, text) && i <= k < |a|
    requires var n := Follow(a, i, text, rules); n.Some? && n.value.0 <= k && Told(a, n.value.0, n.value.1, rules, k, mark)
    ensures Told(a, i, text, rules, k, mark)
  {
    var n := Follow(a, i, text, rules).value;
    forall j: nat
      ensures Ends(a, i, text, rules, j, k) <==> Ends(a, n.0, n.1, rules, j, k)
    {
    }
    forall u: string
      ensures Takes(a, i, text, rules, k, u) <==> Takes(a, n.0, n.1, rules, k, u)
    {
    }
  }

  // In every ordering an element is marked exactly if it belongs to the options, and otherwise it is one of
  // the operands, in terms of the places that the reader comes to.
  lemma {:induction false} MarksExactly(a: seq<string>, i: nat, text: string, rules: Rules, k: nat)
    requires Sound(rules) && Position(a, i, text) && i <= k < |a|
    ensures var mark := Scan(a, i, text, rules).marks[k - i];
            (mark <==> InOptions(a, i, text, rules, k)) && (!mark <==> InOperands(a, i, text, rules, k))
    decreases |a| - i, UnreadHere(a, i, text)
  {
    var n := Follow(a, i, text, rules);
    if n.None? {
      ToldAtEnd(a, i, text, rules, k);
    } else if k < n.value.0 {
      ToldHere(a, i, text, rules, k);
    } else {
      MarksExactly(a, n.value.0, n.value.1, rules, k);
      ToldLater(a, i, text, rules, k, Scan(a, n.value.0, n.value.1, rules).marks[k - n.value.0]);
    }
  }

  // The elements whose mark is `b`, in their order.
  function Keep(s: seq<string>, m: seq<bool>, b: bool): (r: seq<string>)
    requires |s| == |m|
    ensures |r| <= |s|
  {
    if s == [] then [] else (if m[0] == b then [s[0]] else []) + Keep(s[1..], m[1..], b)
  }

  lemma {:induction false} KeepAppend(s: seq<string>, m: seq<bool>, s': seq<string>, m': seq<bool>, b: bool)
    requires |s| == |m| && |s'| == |m'|
    ensures Keep(s + s', m + m', b) == Keep(s, m, b) + Keep(s', m', b)
  {
    if s == [] {
      assert s + s' == s' && m + m' == m';
    } else {
      assert (s + s')[1..] == s[1..] + s' && (m + m')[1..] == m[1..] + m';
      KeepAppend(s[1..], m[1..], s', m', b);
    }
  }

  lemma {:induction false} KeepUniform(s: seq<string>, b: bool)
    ensures Keep(s, Repeat(b, |s|), b) == s && Keep(s, Repeat(b, |s|), !b) == []
  {
    if s != [] {
      assert Repeat(b, |s|)[1..] == Repeat(b, |s| - 1);
      KeepUniform(s[1..], b);
    }
  }

  lemma KeepFirst(s: seq<string>, m: seq<bool>, b: bool)
    requires |s| == |m| > 0
    ensures Keep(s, m, b) == if m[0] == b then [s[0]] + Keep(s[1..], m[1..], b) else Keep(s[1..], m[1..], b)
  {
  }

  lemma MultisetCons(x: string, s: seq<string>)
    ensures multiset([x] + s) == multiset{x} + multiset(s)
  {
  }

  // One more element, in one of the two parts.
  lemma PartitionCons(x: string, part: seq<string>, other: seq<string>, rest: seq<string>)
    requires multiset(part) + multiset(other) == multiset(rest) && |part| + |other| == |rest|
    ensures multiset([x] + part) + multiset(other) == multiset([x] + rest) && |[x] + part| + |other| == |[x] + rest|
  {
    MultisetCons(x, part);
    MultisetCons(x, rest);
  }

  // The two parts together hold exactly the elements of the whole.
  lemma {:induction false} KeepIsPartition(s: seq<string>, m: seq<bool>)
    requires |s| == |m|
    ensures multiset(Keep(s, m, true)) + multiset(Keep(s, m, false)) == multiset(s)
    ensures |Keep(s, m, true)| + |Keep(s, m, false)| == |s|
  {
    if s != [] {
      var x, rest := s[0], s[1..];
      var yes, no := Keep(rest, m[1..], true), Keep(rest, m[1..], false);
      KeepIsPartition(rest, m[1..]);
      KeepFirst(s, m, true);
      KeepFirst(s, m, false);
      if m[0] {
        PartitionCons(x, yes, no, rest);
      } else {
        PartitionCons(x, no, yes, rest);
      }
      assert s == [x] + rest;
    }
  }

  /* ---------- The rotation ---------- */

  // Where the element at `p` comes from when [bottom, middle) and [middle, top) change places.
  function RotateIndex(bottom: nat, middle: nat, top: nat, p: nat): nat
    requires bottom <= middle <= top
  {
    if bottom <= p < bottom + (top - middle) then p + (middle - bottom)
    else if bottom + (top - middle) <= p < top then p - (top - middle)
    else p
  }

  function Rotated(s: seq<string>, bottom: nat, middle: nat, top: nat): (r: seq<string>)
    requires bottom <= middle <= top <= |s|
    ensures |r| == |s|
  {
    seq(|s|, p requires 0 <= p < |s| => s[RotateIndex(bottom, middle, top, p)])
  }

  // The same rotation, block by block.
  lemma RotatedBlocks(s: seq<string>, bottom: nat, middle: nat, top: nat)
    requires bottom <= middle <= top <= |s|
    ensures Rotated(s, bottom, middle, top) == s[..bottom] + s[middle..top] + s[bottom..middle] + s[top..]
  {
  }

  // Where the element at `p` comes from when [i, i + len) and [j, j + len) change places.
  function SwapIndex(i: nat, j: nat, len: nat, p: nat): nat {
    if i <= p < i + len then j + (p - i) else if j <= p < j + len then i + (p - j) else p
  }

  function Swapped(s: seq<string>, i: nat, j: nat, len: nat): (r: seq<string>)
    requires i + len <= j && j + len <= |s|
    ensures |r| == |s|
  {
    seq(|s|, p requires 0 <= p < |s| => s[SwapIndex(i, j, len, p)])
  }

  lemma SwapOneMore(s: seq<string>, i: nat, j: nat, k: nat)
    requires i + k < j && j + k < |s|
    ensures Swapped(s, i, j, k)[i + k := s[j + k]][j + k := s[i + k]] == Swapped(s, i, j, k + 1)
  {
  }

  method SwapBlocks(argv: array<string>, i: nat, j: nat, len: nat)
    requires i + len <= j && j + len <= argv.Length
    modifies argv
    ensures argv[..] == Swapped(old(argv[..]), i, j, len)
  {
    ghost var s := argv[..];
    for k := 0 to len
      invariant argv[..] == Swapped(s, i, j, k)
    {
      assert argv[..][i + k] == s[i + k] && argv[..][j + k] == s[j + k];
      SwapOneMore(s, i, j, k);
      argv[i + k], argv[j + k] := argv[j + k], argv[i + k];
    }
  }

  // Swapping X with the far end of Y, in X Y1 Y2, leaves Y1 and Y2 to be exchanged.
  lemma RotateFar(s: seq<string>, t: seq<string>, b: nat, m: nat, top: nat)
    requires b <= m <= top <= |s| && m - b <= top - m
    requires t == Swapped(s, b, top - (m - b), m - b)
    ensures Rotated(t, b, m, top - (m - b)) == Rotated(s, b, m, top)
  {
  }

  // Swapping Y with the near end of X, in X1 X2 Y, leaves X2 and X1 to be exchanged.
  lemma RotateNear(s: seq<string>, t: seq<string>, b: nat, m: nat, top: nat)
    requires b <= m <= top <= |s| && top - m <= m - b
    requires t == Swapped(s, b, m, top - m)
    ensures Rotated(t, b + (top - m), m, top) == Rotated(s, b, m, top)
  {
  }

  lemma RotateNothing(s: seq<string>, b: nat, m: nat, top: nat)
    requires b <= m <= top <= |s| && (b == m || m == top)
    ensures Rotated(s, b, m, top) == s
  {
  }

  // The shorter block of operands goes to the far end.
  method SwapFar(argv: array<string>, bottom: nat, middle: nat, top: nat)
    requires bottom < middle < top <= argv.Length && middle - bottom <= top - middle
    modifies argv
    ensures Rotated(argv[..], bottom, middle, top - (middle - bottom)) == Rotated(old(argv[..]), bottom, middle, top)
  {
    ghost var s := argv[..];
    var len := middle - bottom;
    SwapBlocks(argv, bottom, top - len, len);
    RotateFar(s, argv[..], bottom, middle, top);
  }

  // The shorter block of options goes to the near end.
  method SwapNear(argv: array<string>, bottom: nat, middle: nat, top: nat)
    requires bottom < middle < top <= argv.Length && top - middle <= middle - bottom
    modifies argv
    ensures Rotated(argv[..], bottom + (top - middle), middle, top) == Rotated(old(argv[..]), bottom, middle, top)
  {
    ghost var s := argv[..];
    var len := top - middle;
    SwapBlocks(argv, bottom, middle, len);
    RotateNear(s, argv[..], bottom, middle, top);
  }

  // One round of the exchange: swaps the shorter block into place and narrows the range.
  method ExchangeRound(argv: array<string>, bottom: nat, middle: nat, top: nat) returns (bottom': nat, top': nat)
    requires bottom < middle < top <= argv.Length
    modifies argv
    ensures bottom <= bottom' <= middle <= top' <= top && top' - bottom' < top - bottom
    ensures Rotated(argv[..], bottom', middle, top') == Rotated(old(argv[..]), bottom, middle, top)
  {
    if top - middle > middle - bottom {
      SwapFar(argv, bottom, middle, top);
      bottom', top' := bottom, top - (middle - bottom);
    } else {
      SwapNear(argv, bottom, middle, top);
      bottom', top' := bottom + (top - middle), top;
    }
  }

  /* ---------- The layout kept between calls ---------- */

  // The part of the scanner's state that the permutation is about.
  datatype View = View(argv: seq<string>, first: nat, last: nat, optind: nat, text: string)

  ghost predicate Layout(v: View, orig: seq<string>, start: nat)
  {
    && start <= v.first <= v.last <= v.optind <= |v.argv| == |orig|
    && v.argv[..start] == orig[..start]
    && v.argv[v.optind..] == orig[v.optind..]
  }

  // The operands met so far are the block [first, last); the option part met so far is
  // what surrounds that block between `start` and `optind`.
  ghost predicate Tracks(v: View, orig: seq<string>, start: nat, total: seq<bool>)
    requires Layout(v, orig, start) && |total| == |orig| - start
  {
    var met, marks := orig[start..v.optind], total[..v.optind - start];
    && v.argv[start..v.first] + v.argv[v.last..v.optind] == Keep(met, marks, true)
    && v.argv[v.first..v.last] == Keep(met, marks, false)
  }

  // `total` marks the elements from `start` on; the reader's part of it is what lies ahead.
  ghost predicate Inv(v: View, orig: seq<string>, start: nat, rules: Rules, total: seq<bool>)
    requires Sound(rules)
  {
    && Layout(v, orig, start)
    && |total| == |orig| - start
    && Tracks(v, orig, start, total)
    && Position(orig, v.optind, v.text)
    && (rules.ordering != Permute ==> v.first == v.last && v.argv == orig)
    && Scan(orig, v.optind, v.text, rules).marks == total[v.optind - start..]
  }

  // The layout when the scan is over: the option part, then the operands.
  ghost predicate Partitioned(argv: seq<string>, optind: nat, orig: seq<string>, start: nat, total: seq<bool>)
    requires |total| == |orig| - start
  {
    && argv == orig[..start] + Keep(orig[start..], total, true) + Keep(orig[start..], total, false)
    && optind == start + |Keep(orig[start..], total, true)|
  }

  lemma SameAhead(cur: seq<string>, orig: seq<string>, i: nat)
    requires |cur| == |orig| && i <= |orig| && cur[i..] == orig[i..]
    ensures i < |orig| ==> cur[i] == orig[i]
  {
    if i < |orig| {
      assert cur[i..][0] == orig[i..][0];
    }
  }

  lemma BlockAhead(cur: seq<string>, orig: seq<string>, i: nat, j: nat)
    requires |cur| == |orig| && i <= j <= |orig| && cur[i..] == orig[i..]
    ensures cur[i..j] == orig[i..j] && cur[j..] == orig[j..]
  {
    assert cur[i..j] == cur[i..][..j - i] && orig[i..j] == orig[i..][..j - i];
    assert cur[j..] == cur[i..][j - i..] && orig[j..] == orig[i..][j - i..];
  }

  // Elements [i, j) all carry the mark `b`.
  lemma KeepExtend(orig: seq<string>, start: nat, i: nat, j: nat, total: seq<bool>, b: bool)
    requires start <= i <= j <= |orig| && |total| == |orig| - start
    requires total[i - start..j - start] == Repeat(b, j - i)
    ensures Keep(orig[start..j], total[..j - start], b) == Keep(orig[start..i], total[..i - start], b) + orig[i..j]
    ensures Keep(orig[start..j], total[..j - start], !b) == Keep(orig[start..i], total[..i - start], !b)
  {
    assert orig[start..j] == orig[start..i] + orig[i..j];
    assert total[..j - start] == total[..i - start] + total[i - start..j - start];
    KeepUniform(orig[i..j], b);
    KeepAppend(orig[start..i], total[..i - start], orig[i..j], total[i - start..j - start], b);
    KeepAppend(orig[start..i], total[..i - start], orig[i..j], total[i - start..j - start], !b);
  }

  lemma BlocksJoin(s: seq<string>, start: nat, first: nat, last: nat, optind: nat, next: nat)
    requires start <= first <= last <= optind <= next <= |s|
    ensures s[start..first] + s[last..next] == s[start..first] + s[last..optind] + s[optind..next]
  {
    assert s[last..next] == s[last..optind] + s[optind..next];
  }

  // Elements [optind, next) join the option part.
  lemma ConsumeOptions(v: View, orig: seq<string>, start: nat, next: nat, total: seq<bool>)
    requires Layout(v, orig, start) && |total| == |orig| - start && Tracks(v, orig, start, total)
    requires v.optind <= next <= |orig| && total[v.optind - start..next - start] == Repeat(true, next - v.optind)
    ensures Layout(v.(optind := next), orig, start) && Tracks(v.(optind := next), orig, start, total)
  {
    KeepExtend(orig, start, v.optind, next, total, true);
    BlockAhead(v.argv, orig, v.optind, next);
    BlocksJoin(v.argv, start, v.first, v.last, v.optind, next);
  }

  lemma SplitMarks(total: seq<bool>, i: nat, n: nat, b: bool, rest: seq<bool>)
    requires i + n <= |total| && total[i..] == Repeat(b, n) + rest
    ensures total[i..i + n] == Repeat(b, n) && total[i + n..] == rest
  {
    assert total[i..i + n] == total[i..][..n];
    assert total[i + n..] == total[i..][n..];
  }

  // One more operand joins the block that ends at `optind`.
  lemma ConsumeOperand(v: View, orig: seq<string>, start: nat, total: seq<bool>)
    requires Layout(v, orig, start) && |total| == |orig| - start && Tracks(v, orig, start, total)
    requires v.last == v.optind < |orig| && total[v.optind - start..v.optind + 1 - start] == Repeat(false, 1)
    ensures var w := v.(last := v.optind + 1, optind := v.optind + 1);
            Layout(w, orig, start) && Tracks(w, orig, start, total)
  {
    var i := v.optind;
    KeepExtend(orig, start, i, i + 1, total, false);
    BlockAhead(v.argv, orig, i, i + 1);
    OneMoreInBlock(v.argv, v.first, i);
  }

  lemma OneMoreInBlock(s: seq<string>, first: nat, i: nat)
    requires first <= i < |s|
    ensures s[first..i + 1] == s[first..i] + s[i..i + 1] && s[i..i] == [] && s[i + 1..i + 1] == []
  {
  }

  // The operand block moves behind the options read since.
  lemma ExchangeKeeps(v: View, orig: seq<string>, start: nat, total: seq<bool>)
    requires Layout(v, orig, start) && |total| == |orig| - start && Tracks(v, orig, start, total)
    ensures var w := View(Rotated(v.argv, v.first, v.last, v.optind), v.first + (v.optind - v.last), v.optind, v.optind, v.text);
            Layout(w, orig, start) && Tracks(w, orig, start, total)
  {
    var moved := Rotated(v.argv, v.first, v.last, v.optind);
    var first' := v.first + (v.optind - v.last);
    RotatedBlocks(v.argv, v.first, v.last, v.optind);
    assert moved[..start] == v.argv[..start];
    assert moved[start..first'] == v.argv[start..v.first] + v.argv[v.last..v.optind];
    assert moved[first'..v.optind] == v.argv[v.first..v.last];
    assert moved[v.optind..] == v.argv[v.optind..];
    assert moved[start..first'] + moved[v.optind..v.optind] == moved[start..first'];
  }

  lemma FourBlocks(s: seq<string>, start: nat, first: nat, i: nat)
    requires start <= first <= i <= |s|
    ensures s == s[..start] + s[start..first] + (s[first..i] + s[i..]) && s[start..first] + s[i..i] == s[start..first]
  {
  }

  lemma KeepToEnd(orig: seq<string>, start: nat, i: nat, total: seq<bool>)
    requires start <= i <= |orig| && |total| == |orig| - start && total[i - start..] == Repeat(false, |orig| - i)
    ensures Keep(orig[start..], total, true) == Keep(orig[start..i], total[..i - start], true)
    ensures Keep(orig[start..], total, false) == Keep(orig[start..i], total[..i - start], false) + orig[i..]
  {
    assert total[i - start..|orig| - start] == total[i - start..];
    KeepExtend(orig, start, i, |orig|, total, false);
    assert orig[start..|orig|] == orig[start..] && total[..|orig| - start] == total;
    assert orig[i..|orig|] == orig[i..];
  }

  // Everything from `optind` on is an operand, and the block ends there.
  lemma FinishLayout(v: View, orig: seq<string>, start: nat, total: seq<bool>)
    requires Layout(v, orig, start) && |total| == |orig| - start && Tracks(v, orig, start, total)
    requires v.last == v.optind && total[v.optind - start..] == Repeat(false, |orig| - v.optind)
    ensures Partitioned(v.argv, v.first, orig, start, total)
  {
    KeepToEnd(orig, start, v.optind, total);
    FourBlocks(v.argv, start, v.first, v.optind);
  }

  /* ---------- One call, on values ---------- */

  predicate Bounded(v: View) {
    && v.first <= v.last <= v.optind <= |v.argv|
    && (v.text != "" ==> v.optind < |v.argv| && 2 <= |v.argv[v.optind]|)
  }

  // What a call leaves behind; `ret` is None while the call is still under way.
  datatype Answer = Answer(view: View, ret: Option<Return>, optarg: Option<string>)

  // The state in which a call begins: initialised if it was fresh, and with the operand
  // block cut back if the caller moved `optind` back between two elements.
  function Start(v: View, anew: bool): View {
    if anew then
      var i := if v.optind == 0 then 1 else v.optind;
      View(v.argv, i, i, i, "")
    else if v.text == "" then
      var last := if v.last > v.optind then v.optind else v.last;
      v.(last := last, first := if v.first > v.optind then v.optind else v.first)
    else
      v
  }

  // The operand block moves behind the options read since it was last moved.
  function Gathered(v: View): (r: View)
    requires Bounded(v)
    ensures Bounded(r.(text := ""))
  {
    View(Rotated(v.argv, v.first, v.last, v.optind), v.first + (v.optind - v.last), v.optind, v.optind, v.text)
  }

  // The block takes in the operands that follow it.
  function Skipped(v: View): (r: View)
    requires Bounded(v) && v.last == v.optind && v.text == ""
    ensures Bounded(r) && r.last == r.optind && r.text == "" && r.argv == v.argv && r.first == v.first && v.optind <= r.optind
    ensures r.optind < |r.argv| ==> !IsOperand(r.argv[r.optind])
    decreases |v.argv| - v.optind
  {
    if v.optind < |v.argv| && IsOperand(v.argv[v.optind])
    then Skipped(v.(last := v.optind + 1, optind := v.optind + 1))
    else v
  }

  // With the operands before `optind` taken in: what stands at `optind`.
  function Settled(v: View, rules: Rules): Answer
    requires Sound(rules)
    requires Bounded(v) && v.text == ""
  {
    var n := |v.argv|;
    if v.optind < n && v.argv[v.optind] == "--" then
      var g := Gathered(v.(optind := v.optind + 1));
      Answer(g.(last := n, optind := g.first), Some(End), None)
    else if v.optind == n || (IsOperand(v.argv[v.optind]) && rules.ordering == RequireOrder) then
      Answer(v.(optind := if v.optind == n && v.first != v.last then v.first else v.optind), Some(End), None)
    else if IsOperand(v.argv[v.optind]) then
      Answer(v.(optind := v.optind + 1), Some(Code(1)), Some(v.argv[v.optind]))
    else
      Answer(v.(text := FirstText(v.argv[v.optind], rules.longs)), None, None)
  }

  function Advanced(v: View, rules: Rules): Answer
    requires Sound(rules)
    requires Bounded(v) && v.text == ""
  {
    Settled(if rules.ordering == Permute then Skipped(Gathered(v)) else v, rules)
  }

  function Read(v: View, rules: Rules): Answer
    requires Sound(rules)
    requires Bounded(v) && v.text != ""
  {
    var d := rules.decide(v.argv[v.optind], v.text, v.optind + 1 < |v.argv|);
    Answer(v.(optind := v.optind + d.advance, text := d.rest), Some(Code(d.code)), Resolve(v.argv, v.optind, d.arg))
  }

  function Step(v: View, rules: Rules): Answer
    requires Sound(rules)
    requires Bounded(v)
  {
    var a := if v.text == "" then Advanced(v, rules) else Answer(v, None, None);
    if a.ret.Some? then a else Read(a.view, rules)
  }

  function Stripped(optstring: string): string {
    if optstring != "" && (optstring[0] == '-' || optstring[0] == '+') then optstring[1..] else optstring
  }

  function OrderingOf(optstring: string, posixlyCorrect: bool): Ordering {
    if At(optstring, 0) == '-' then ReturnInOrder
    else if At(optstring, 0) == '+' then RequireOrder
    else if posixlyCorrect then RequireOrder
    else Permute
  }

  // Unread characters plus unread elements.
  function Unread(a: seq<string>, i: nat, text: string): nat
    requires Position(a, i, text)
    decreases |a| - i
  {
    if i == |a| then 0
    else 1 + (if text != "" then |text| else |a[i]|) + Unread(a, i + 1, "")
  }

  /* ---------- What a call keeps ---------- */

  // What a call that started at position (i, text) has achieved with answer `a`.
  ghost predicate After(a: Answer, orig: seq<string>, start: nat, rules: Rules, total: seq<bool>, i: nat, text: string)
    requires Sound(rules)
    requires |total| == |orig| - start && Position(orig, i, text)
  {
    if a.ret == Some(End) then
      && Partitioned(a.view.argv, a.view.optind, orig, start, total)
      && (rules.ordering != Permute ==> a.view.argv == orig)
      && Scan(orig, i, text, rules).events == []
    else
      Inv(a.view, orig, start, rules, total) && Reported(a, orig, rules, i, text)
  }

  // The answer is the next event of the unmoved arguments, and brings the reader on.
  ghost predicate Reported(a: Answer, orig: seq<string>, rules: Rules, i: nat, text: string)
    requires Sound(rules)
    requires Position(orig, i, text) && Position(orig, a.view.optind, a.view.text) && a.ret != Some(End)
  {
    var todo, left := Scan(orig, i, text, rules).events, Scan(orig, a.view.optind, a.view.text, rules).events;
    && Unread(orig, a.view.optind, a.view.text) < Unread(orig, i, text)
    && if a.ret.None? then a.view.text != "" && todo == left
       else todo == [Event(a.ret.value.code, a.optarg)] + left
  }

  // The scan ends at `i`, at the end of the arguments or at an operand that stops it.
  lemma ScanEnds(a: seq<string>, i: nat, rules: Rules)
    requires Sound(rules)
    requires i <= |a| && (i == |a| || (IsOperand(a[i]) && rules.ordering == RequireOrder))
    ensures Scan(a, i, "", rules) == Outcome([], Repeat(false, |a| - i))
  {
  }

  // The scan ends with the operand block empty or last.
  lemma EndKeeps(v: View, orig: seq<string>, start: nat, rules: Rules, total: seq<bool>)
    requires Sound(rules)
    requires Inv(v, orig, start, rules, total) && v.text == "" && (rules.ordering == Permute ==> v.last == v.optind)
    requires v.optind == |orig| || (IsOperand(orig[v.optind]) && rules.ordering == RequireOrder)
    ensures Partitioned(v.argv, if v.first != v.last then v.first else v.optind, orig, start, total)
  {
    ScanEnds(orig, v.optind, rules);
    ExchangeKeeps(v, orig, start, total);
    RotateNothing(v.argv, v.first, v.last, v.optind);
    FinishLayout(v.(first := v.first + (v.optind - v.last), last := v.optind), orig, start, total);
  }

  lemma ScanAtDashes(a: seq<string>, i: nat, rules: Rules)
    requires Sound(rules)
    requires i < |a| && a[i] == "--"
    ensures Scan(a, i, "", rules) == Outcome([], Repeat(true, 1) + Repeat(false, |a| - i - 1))
  {
    assert [true] == Repeat(true, 1);
  }

  lemma DashesLayout(v: View, orig: seq<string>, start: nat, total: seq<bool>)
    requires Layout(v, orig, start) && |total| == |orig| - start && Tracks(v, orig, start, total) && Bounded(v)
    requires v.text == "" && v.optind < |orig|
    requires total[v.optind - start..] == Repeat(true, 1) + Repeat(false, |orig| - v.optind - 1)
    ensures var g := Gathered(v.(optind := v.optind + 1)); Partitioned(g.argv, g.first, orig, start, total)
  {
    var w := v.(optind := v.optind + 1);
    SplitMarks(total, v.optind - start, 1, true, Repeat(false, |orig| - w.optind));
    ConsumeOptions(v, orig, start, w.optind, total);
    GatheredFinishes(w, orig, start, total);
  }

  lemma GatheredFinishes(w: View, orig: seq<string>, start: nat, total: seq<bool>)
    requires Layout(w, orig, start) && |total| == |orig| - start && Tracks(w, orig, start, total) && Bounded(w)
    requires total[w.optind - start..] == Repeat(false, |orig| - w.optind)
    ensures Partitioned(Gathered(w).argv, Gathered(w).first, orig, start, total)
  {
    ExchangeKeeps(w, orig, start, total);
    FinishLayout(Gathered(w), orig, start, total);
  }

  lemma DashesKeep(v: View, orig: seq<string>, start: nat, rules: Rules, total: seq<bool>)
    requires Sound(rules)
    requires Inv(v, orig, start, rules, total) && v.text == "" && Bounded(v) && v.optind < |orig| && orig[v.optind] == "--"
    ensures v.argv[v.optind] == "--" && After(Settled(v, rules), orig, start, rules, total, v.optind, "")
  {
    SameAhead(v.argv, orig, v.optind);
    ScanAtDashes(orig, v.optind, rules);
    DashesLayout(v, orig, start, total);
    DashesUnmoved(v);
  }

  // Without operands in the block there is nothing to gather.
  lemma DashesUnmoved(v: View)
    requires Bounded(v) && v.text == "" && v.optind < |v.argv|
    ensures v.first == v.last ==> Gathered(v.(optind := v.optind + 1)).argv == v.argv
  {
    if v.first == v.last {
      RotateNothing(v.argv, v.first, v.last, v.optind + 1);
    }
  }

  lemma ScanReturnsOperand(a: seq<string>, i: nat, rules: Rules)
    requires Sound(rules)
    requires i < |a| && IsOperand(a[i]) && rules.ordering == ReturnInOrder
    ensures Scan(a, i, "", rules).marks == Repeat(true, 1) + Scan(a, i + 1, "", rules).marks
    ensures Reported(Answer(View(a, 0, 0, i + 1, ""), Some(Code(1)), Some(a[i])), a, rules, i, "")
  {
    assert [true] == Repeat(true, 1);
  }

  lemma TrackTo(v: View, w: View, orig: seq<string>, start: nat, total: seq<bool>, rest: seq<bool>)
    requires Layout(v, orig, start) && |total| == |orig| - start && Tracks(v, orig, start, total)
    requires w == v.(optind := w.optind, text := w.text) && v.optind <= w.optind <= |orig|
    requires total[v.optind - start..] == Repeat(true, w.optind - v.optind) + rest
    ensures Layout(w, orig, start) && Tracks(w, orig, start, total)
    ensures total[w.optind - start..] == rest
  {
    SplitMarks(total, v.optind - start, w.optind - v.optind, true, rest);
    ConsumeOptions(v, orig, start, w.optind, total);
  }

  // The elements between two positions belong to the option part.
  lemma ConsumeTo(v: View, w: View, orig: seq<string>, start: nat, rules: Rules, total: seq<bool>)
    requires Sound(rules)
    requires Inv(v, orig, start, rules, total) && Position(orig, w.optind, w.text)
    requires w == v.(optind := w.optind, text := w.text) && v.optind <= w.optind
    requires Scan(orig, v.optind, v.text, rules).marks
             == Repeat(true, w.optind - v.optind) + Scan(orig, w.optind, w.text, rules).marks
    ensures Inv(w, orig, start, rules, total)
  {
    TrackTo(v, w, orig, start, total, Scan(orig, w.optind, w.text, rules).marks);
  }

  lemma ScanReachesElement(a: seq<string>, i: nat, rules: Rules)
    requires Sound(rules)
    requires i < |a| && !IsOperand(a[i]) && a[i] != "--"
    ensures var t := FirstText(a[i], rules.longs);
            && Position(a, i, t) && Scan(a, i, "", rules) == Scan(a, i, t, rules)
            && Reported(Answer(View(a, 0, 0, i, t), None, None), a, rules, i, "")
  {
  }

  lemma SettledKeeps(v: View, orig: seq<string>, start: nat, rules: Rules, total: seq<bool>)
    requires Sound(rules)
    requires Inv(v, orig, start, rules, total) && v.text == "" && Bounded(v)
    requires rules.ordering == Permute ==> v.last == v.optind && (v.optind < |orig| ==> !IsOperand(orig[v.optind]))
    ensures After(Settled(v, rules), orig, start, rules, total, v.optind, "")
  {
    if v.optind < |orig| && orig[v.optind] == "--" {
      DashesKeep(v, orig, start, rules, total);
    } else if v.optind == |orig| || (IsOperand(orig[v.optind]) && rules.ordering == RequireOrder) {
      EndSettles(v, orig, start, rules, total);
    } else if IsOperand(orig[v.optind]) {
      OperandSettles(v, orig, start, rules, total);
    } else {
      ElementSettles(v, orig, start, rules, total);
    }
  }

  lemma EndSettles(v: View, orig: seq<string>, start: nat, rules: Rules, total: seq<bool>)
    requires Sound(rules)
    requires Inv(v, orig, start, rules, total) && v.text == "" && Bounded(v)
    requires rules.ordering == Permute ==> v.last == v.optind
    requires v.optind == |orig| || (orig[v.optind] != "--" && IsOperand(orig[v.optind]) && rules.ordering == RequireOrder)
    ensures After(Settled(v, rules), orig, start, rules, total, v.optind, "")
  {
    SameAhead(v.argv, orig, v.optind);
    ScanEnds(orig, v.optind, rules);
    EndKeeps(v, orig, start, rules, total);
  }

  lemma OperandSettles(v: View, orig: seq<string>, start: nat, rules: Rules, total: seq<bool>)
    requires Sound(rules)
    requires Inv(v, orig, start, rules, total) && v.text == "" && Bounded(v) && v.optind < |orig|
    requires orig[v.optind] != "--" && IsOperand(orig[v.optind]) && rules.ordering == ReturnInOrder
    ensures After(Settled(v, rules), orig, start, rules, total, v.optind, "")
  {
    var w := v.(optind := v.optind + 1);
    SameAhead(v.argv, orig, v.optind);
    assert Settled(v, rules) == Answer(w, Some(Code(1)), Some(orig[v.optind]));
    ScanReturnsOperand(orig, v.optind, rules);
    ConsumeTo(v, w, orig, start, rules, total);
  }

  lemma ElementSettles(v: View, orig: seq<string>, start: nat, rules: Rules, total: seq<bool>)
    requires Sound(rules)
    requires Inv(v, orig, start, rules, total) && v.text == "" && Bounded(v) && v.optind < |orig|
    requires orig[v.optind] != "--" && !IsOperand(orig[v.optind])
    ensures After(Settled(v, rules), orig, start, rules, total, v.optind, "")
  {
    SameAhead(v.argv, orig, v.optind);
    ScanReachesElement(orig, v.optind, rules);
  }

  lemma GatheredKeeps(v: View, orig: seq<string>, start: nat, rules: Rules, total: seq<bool>)
    requires Sound(rules)
    requires Inv(v, orig, start, rules, total) && v.text == "" && Bounded(v) && rules.ordering == Permute
    ensures Inv(Gathered(v), orig, start, rules, total)
  {
    ExchangeKeeps(v, orig, start, total);
  }

  lemma ScanPassesOperand(a: seq<string>, i: nat, rules: Rules)
    requires Sound(rules)
    requires i < |a| && IsOperand(a[i]) && rules.ordering == Permute
    ensures Scan(a, i, "", rules).marks == Repeat(false, 1) + Scan(a, i + 1, "", rules).marks
  {
    assert [false] == Repeat(false, 1);
  }

  lemma OneOperandKeeps(v: View, orig: seq<string>, start: nat, rules: Rules, total: seq<bool>)
    requires Sound(rules)
    requires Inv(v, orig, start, rules, total) && v.text == "" && v.last == v.optind && rules.ordering == Permute
    requires v.optind < |orig| && IsOperand(orig[v.optind])
    ensures Inv(v.(last := v.optind + 1, optind := v.optind + 1), orig, start, rules, total)
  {
    ScanPassesOperand(orig, v.optind, rules);
    OperandTracked(v, orig, start, total, Scan(orig, v.optind + 1, "", rules).marks);
  }

  lemma OperandTracked(v: View, orig: seq<string>, start: nat, total: seq<bool>, rest: seq<bool>)
    requires Layout(v, orig, start) && |total| == |orig| - start && Tracks(v, orig, start, total)
    requires v.last == v.optind < |orig| && total[v.optind - start..] == Repeat(false, 1) + rest
    ensures var w := v.(last := v.optind + 1, optind := v.optind + 1);
            Layout(w, orig, start) && Tracks(w, orig, start, total) && total[w.optind - start..] == rest
  {
    SplitMarks(total, v.optind - start, 1, false, rest);
    ConsumeOperand(v, orig, start, total);
  }

  lemma SkippedStep(v: View, orig: seq<string>)
    requires Bounded(v) && v.last == v.optind && v.text == "" && |v.argv| == |orig| && v.argv[v.optind..] == orig[v.optind..]
    ensures if v.optind < |orig| && IsOperand(orig[v.optind])
            then Bounded(v.(last := v.optind + 1, optind := v.optind + 1))
                 && Skipped(v) == Skipped(v.(last := v.optind + 1, optind := v.optind + 1))
            else Skipped(v) == v
  {
    SameAhead(v.argv, orig, v.optind);
  }

  lemma {:induction false} SkippedKeeps(v: View, orig: seq<string>, start: nat, rules: Rules, total: seq<bool>)
    requires Sound(rules)
    requires Inv(v, orig, start, rules, total) && v.text == "" && Bounded(v) && v.last == v.optind && rules.ordering == Permute
    ensures Inv(Skipped(v), orig, start, rules, total)
    decreases |orig| - v.optind
  {
    SkippedStep(v, orig);
    if v.optind < |orig| && IsOperand(orig[v.optind]) {
      var w := v.(last := v.optind + 1, optind := v.optind + 1);
      OneOperandKeeps(v, orig, start, rules, total);
      SkippedKeeps(w, orig, start, rules, total);
    }
  }

  // Passing over operands reports nothing.
  lemma {:induction false} SkippedReads(v: View, orig: seq<string>, rules: Rules)
    requires Sound(rules)
    requires Bounded(v) && v.text == "" && v.last == v.optind && rules.ordering == Permute
    requires |v.argv| == |orig| && v.argv[v.optind..] == orig[v.optind..]
    ensures Scan(orig, Skipped(v).optind, "", rules).events == Scan(orig, v.optind, "", rules).events
    ensures Unread(orig, Skipped(v).optind, "") <= Unread(orig, v.optind, "")
    decreases |orig| - v.optind
  {
    SameAhead(v.argv, orig, v.optind);
    if v.optind < |orig| && IsOperand(orig[v.optind]) {
      BlockAhead(v.argv, orig, v.optind, v.optind + 1);
      SkippedReads(v.(last := v.optind + 1, optind := v.optind + 1), orig, rules);
    }
  }

  lemma AdvancedKeeps(v: View, orig: seq<string>, start: nat, rules: Rules, total: seq<bool>)
    requires Sound(rules)
    requires Inv(v, orig, start, rules, total) && v.text == "" && Bounded(v)
    ensures After(Advanced(v, rules), orig, start, rules, total, v.optind, "")
  {
    if rules.ordering == Permute {
      var g := Gathered(v);
      GatheredKeeps(v, orig, start, rules, total);
      SkippedKeeps(g, orig, start, rules, total);
      SkippedReads(g, orig, rules);
      SameAhead(g.argv, orig, Skipped(g).optind);
      SettledKeeps(Skipped(g), orig, start, rules, total);
    } else {
      SettledKeeps(v, orig, start, rules, total);
    }
  }

  lemma ScanReads(a: seq<string>, i: nat, text: string, rules: Rules, d: Decision)
    requires Sound(rules)
    requires Position(a, i, text) && text != "" && d == rules.decide(a[i], text, i + 1 < |a|)
    ensures Orderly(d, text, i + 1 < |a|) && Position(a, i + d.advance, d.rest)
    ensures Scan(a, i, text, rules).marks == Repeat(true, d.advance) + Scan(a, i + d.advance, d.rest, rules).marks
    ensures Scan(a, i, text, rules).events == [Event(d.code, Resolve(a, i, d.arg))] + Scan(a, i + d.advance, d.rest, rules).events
  {
  }

  lemma UnreadShrinks(a: seq<string>, i: nat, text: string, d: Decision)
    requires Position(a, i, text) && text != "" && Orderly(d, text, i + 1 < |a|)
    ensures Position(a, i + d.advance, d.rest) && Unread(a, i + d.advance, d.rest) < Unread(a, i, text)
  {
  }

  lemma ReadSame(v: View, orig: seq<string>, rules: Rules, d: Decision)
    requires Sound(rules)
    requires v.text != "" && Bounded(v) && |v.argv| == |orig| && v.argv[v.optind..] == orig[v.optind..]
    requires d == rules.decide(orig[v.optind], v.text, v.optind + 1 < |orig|)
    ensures Read(v, rules) == Answer(v.(optind := v.optind + d.advance, text := d.rest), Some(Code(d.code)),
                                     Resolve(orig, v.optind, d.arg))
  {
    SameAhead(v.argv, orig, v.optind);
    if v.optind + 1 < |orig| {
      BlockAhead(v.argv, orig, v.optind, v.optind + 1);
      SameAhead(v.argv, orig, v.optind + 1);
    }
  }

  lemma ReadTo(v: View, w: View, orig: seq<string>, start: nat, rules: Rules, total: seq<bool>, d: Decision)
    requires Sound(rules)
    requires Inv(v, orig, start, rules, total) && v.text != ""
    requires d == rules.decide(orig[v.optind], v.text, v.optind + 1 < |orig|) && w == v.(optind := v.optind + d.advance, text := d.rest)
    ensures Inv(w, orig, start, rules, total)
  {
    ReadMarks(orig, v.optind, v.text, rules, d);
    ConsumeTo(v, w, orig, start, rules, total);
  }

  lemma ReadMarks(a: seq<string>, i: nat, text: string, rules: Rules, d: Decision)
    requires Sound(rules)
    requires Position(a, i, text) && text != "" && d == rules.decide(a[i], text, i + 1 < |a|)
    ensures Position(a, i + d.advance, d.rest)
    ensures Scan(a, i, text, rules).marks == Repeat(true, d.advance) + Scan(a, i + d.advance, d.rest, rules).marks
  {
    ScanReads(a, i, text, rules, d);
  }

  // Acting on the text of an option element.
  lemma ReadKeeps(v: View, orig: seq<string>, start: nat, rules: Rules, total: seq<bool>)
    requires Sound(rules)
    requires Inv(v, orig, start, rules, total) && v.text != "" && Bounded(v)
    ensures Inv(Read(v, rules).view, orig, start, rules, total)
  {
    var d := rules.decide(orig[v.optind], v.text, v.optind + 1 < |orig|);
    ReadSame(v, orig, rules, d);
    ReadTo(v, v.(optind := v.optind + d.advance, text := d.rest), orig, start, rules, total, d);
  }

  lemma ReadReports(v: View, orig: seq<string>, rules: Rules)
    requires Sound(rules)
    requires v.text != "" && Bounded(v) && |v.argv| == |orig| && v.argv[v.optind..] == orig[v.optind..]
    requires Position(orig, v.optind, v.text)
    ensures Position(orig, Read(v, rules).view.optind, Read(v, rules).view.text)
    ensures Reported(Read(v, rules), orig, rules, v.optind, v.text)
  {
    var d := rules.decide(orig[v.optind], v.text, v.optind + 1 < |orig|);
    ReadSame(v, orig, rules, d);
    ScanReads(orig, v.optind, v.text, rules, d);
    UnreadShrinks(orig, v.optind, v.text, d);
  }

  lemma InvBounded(v: View, orig: seq<string>, start: nat, rules: Rules, total: seq<bool>)
    requires Sound(rules)
    requires Inv(v, orig, start, rules, total)
    ensures Bounded(v)
  {
    SameAhead(v.argv, orig, v.optind);
  }

  // One call, on any reachable state: it keeps the layout, reports the next event of the
  // unmoved arguments and reads on, or ends with the arguments partitioned.
  lemma StepKeeps(v: View, orig: seq<string>, start: nat, rules: Rules, total: seq<bool>)
    requires Sound(rules)
    requires Inv(v, orig, start, rules, total)
    ensures Bounded(v) && After(Step(v, rules), orig, start, rules, total, v.optind, v.text)
  {
    InvBounded(v, orig, start, rules, total);
    if v.text == "" {
      AdvancedKeeps(v, orig, start, rules, total);
      var a := Advanced(v, rules);
      if a.ret.None? {
        InvBounded(a.view, orig, start, rules, total);
        ReadKeeps(a.view, orig, start, rules, total);
        ReadReports(a.view, orig, rules);
      }
    } else {
      ReadKeeps(v, orig, start, rules, total);
      ReadReports(v, orig, rules);
    }
  }

  // After some calls: the events so far, and those still ahead of the view `v`, are those of the whole.
  ghost predicate Running(v: View, events: seq<Event>, orig: seq<string>, start: nat, rules: Rules, whole: Outcome)
    requires Sound(rules)
  {
    && Inv(v, orig, start, rules, whole.marks)
    && events + Scan(orig, v.optind, v.text, rules).events == whole.events
  }

  ghost predicate Done(v: View, events: seq<Event>, orig: seq<string>, start: nat, rules: Rules, whole: Outcome)
  {
    && |whole.marks| == |orig| - start
    && Partitioned(v.argv, v.optind, orig, start, whole.marks)
    && events == whole.events
    && (rules.ordering != Permute ==> v.argv == orig)
  }

  lemma RunStep(v: View, events: seq<Event>, orig: seq<string>, start: nat, rules: Rules, whole: Outcome)
    requires Sound(rules)
    requires Running(v, events, orig, start, rules, whole)
    ensures Bounded(v) && Step(v, rules).ret.Some?
    ensures var a := Step(v, rules);
            if a.ret.value.End? then Done(a.view, events, orig, start, rules, whole)
            else && Running(a.view, events + [Event(a.ret.value.code, a.optarg)], orig, start, rules, whole)
                 && Unread(orig, a.view.optind, a.view.text) < Unread(orig, v.optind, v.text)
  {
    StepKeeps(v, orig, start, rules, whole.marks);
    var a := Step(v, rules);
    if a.ret.value.End? {
      assert events + [] == events;
    } else {
      var left := Scan(orig, a.view.optind, a.view.text, rules).events;
      assert events + ([Event(a.ret.value.code, a.optarg)] + left) == events + [Event(a.ret.value.code, a.optarg)] + left;
    }
  }

  // Before the first call nothing has been read and nothing has moved.
  lemma StartKeeps(orig: seq<string>, start: nat, rules: Rules, whole: Outcome)
    requires Sound(rules)
    requires start <= |orig| && whole == Scan(orig, start, "", rules)
    ensures Running(View(orig, start, start, start, ""), [], orig, start, rules, whole)
  {
    assert [] + whole.events == whole.events;
  }

  function RulesOf(cfg: Config): (r: Rules)
    ensures Sound(r)
  {
    Rules(cfg.ordering, cfg.longopts.Some?,
          (e, text, hasNext) => if text != "" then Decide(e, text, hasNext, cfg) else Decision("", 0, 0, NoArgument, None, None))
  }

  class Scanner {
    var optind: nat
    var optarg: Option<string>
    var optopt: int
    var longind: nat
    var flags: map<nat, int>
    var initialized: bool
    // The unread text of the element being scanned; "" when the pointer is null or at a terminator.
    var nextchar: string
    var ordering: Ordering
    var firstNonopt: nat
    var lastNonopt: nat

    constructor ()
      ensures optind == 1 && !initialized && nextchar == ""
    {
      optind, optarg, optopt, longind, flags := 1, None, '?' as int, 0, map[];
      initialized, nextchar, ordering, firstNonopt, lastNonopt := false, "", Permute, 0, 0;
    }

    predicate Fresh()
      reads this
    {
      optind == 0 || !initialized
    }

    ghost function ViewOf(argv: array<string>): View
      reads this, argv
    {
      View(argv[..], firstNonopt, lastNonopt, optind, nextchar)
    }

    method Exchange(argv: array<string>)
      requires firstNonopt <= lastNonopt <= optind <= argv.Length
      modifies this`firstNonopt, this`lastNonopt, argv
      ensures argv[..] == Rotated(old(argv[..]), old(firstNonopt), old(lastNonopt), optind)
      ensures firstNonopt == old(firstNonopt) + (optind - old(lastNonopt)) && lastNonopt == optind
    {
      var bottom: nat, middle: nat, top: nat := firstNonopt, lastNonopt, optind;
      while top > middle && middle > bottom
        invariant firstNonopt == old(firstNonopt) && lastNonopt == old(lastNonopt)
        invariant bottom <= middle <= top <= argv.Length
        invariant Rotated(argv[..], bottom, middle, top) == Rotated(old(argv[..]), firstNonopt, lastNonopt, optind)
        decreases top - bottom
      {
        bottom, top := ExchangeRound(argv, bottom, middle, top);
      }
      RotateNothing(argv[..], bottom, middle, top);
      firstNonopt := firstNonopt + (optind - lastNonopt);
      lastNonopt := optind;
    }

    method Initialize(optstring: string, posixlyCorrect: bool)
      modifies this
      ensures optind == (if old(optind) == 0 then 1 else old(optind)) && firstNonopt == lastNonopt == optind && nextchar == ""
      ensures initialized && ordering == OrderingOf(optstring, posixlyCorrect)
      ensures flags == old(flags) && longind == old(longind) && optopt == old(optopt) && optarg == old(optarg)
    {
      if optind == 0 {
        optind := 1;
      }
      firstNonopt, lastNonopt := optind, optind;
      nextchar := "";
      ordering := OrderingOf(optstring, posixlyCorrect);
      initialized := true;
    }

    // Moves the operand block behind the options read since it was last moved.
    method Gather(argv: array<string>)
      requires Bounded(ViewOf(argv)) && nextchar == ""
      modifies this`firstNonopt, this`lastNonopt, argv
      ensures ViewOf(argv) == Gathered(old(ViewOf(argv)))
    {
      if firstNonopt != lastNonopt && lastNonopt != optind {
        Exchange(argv);
      } else {
        RotateNothing(argv[..], firstNonopt, lastNonopt, optind);
        if lastNonopt != optind {
          firstNonopt := optind;
        }
        lastNonopt := optind;
      }
    }

    // Lets the block take in the operands that follow it.
    method Skip(argv: array<string>)
      requires Bounded(ViewOf(argv)) && nextchar == "" && lastNonopt == optind
      modifies this`optind, this`lastNonopt
      ensures ViewOf(argv) == Skipped(old(ViewOf(argv)))
    {
      ghost var v := ViewOf(argv);
      while optind < argv.Length && IsOperand(argv[optind])
        invariant firstNonopt <= optind <= argv.Length
        invariant Skipped(View(v.argv, v.first, optind, optind, "")) == Skipped(v)
      {
        optind := optind + 1;
      }
      lastNonopt := optind;
    }

    method Settle(argv: array<string>, cfg: Config) returns (ret: Option<Return>)
      requires Bounded(ViewOf(argv)) && nextchar == "" && optarg.None?
      modifies this`optind, this`firstNonopt, this`lastNonopt, this`nextchar, this`optarg, argv
      ensures Answer(ViewOf(argv), ret, optarg) == Settled(old(ViewOf(argv)), RulesOf(cfg))
    {
      if optind != argv.Length && argv[optind] == "--" {
        RotateNothing(argv[..], firstNonopt, firstNonopt, optind + 1);
        optind := optind + 1;
        if firstNonopt != lastNonopt && lastNonopt != optind {
          Exchange(argv);
        } else if firstNonopt == lastNonopt {
          firstNonopt := optind;
        }
        lastNonopt := argv.Length;
        optind := argv.Length;
      }
      if optind == argv.Length {
        if firstNonopt != lastNonopt {
          optind := firstNonopt;
        }
        return Some(End);
      }
      if IsOperand(argv[optind]) {
        if cfg.ordering == RequireOrder {
          return Some(End);
        }
        optarg := Some(argv[optind]);
        optind := optind + 1;
        return Some(Code(1));
      }
      nextchar := FirstText(argv[optind], cfg.longopts.Some?);
      return None;
    }

    // The state after a call that did what `d` says with the current element.
    twostate predicate Applied(argv: seq<string>, d: Decision, cfg: Config)
      reads this
    {
      && optind == old(optind) + d.advance
      && nextchar == d.rest
      && optarg == Resolve(argv, old(optind), d.arg)
      && optopt == (if d.optopt.Some? then d.optopt.value else old(optopt))
      && longind == (if d.hit.Some? then d.hit.value else old(longind))
      && flags == (if d.hit.Some? && cfg.longopts.Some? && d.hit.value < |cfg.longopts.value|
                      && cfg.longopts.value[d.hit.value].flag != 0
                   then old(flags)[cfg.longopts.value[d.hit.value].flag := cfg.longopts.value[d.hit.value].val]
                   else old(flags))
      && initialized == old(initialized) && ordering == old(ordering)
      && firstNonopt == old(firstNonopt) && lastNonopt == old(lastNonopt)
    }

    // The option at index `k` of the table was named by the text before `nameend`.
    method ReadFound(argv: array<string>, cfg: Config, nameend: nat, k: nat) returns (code: int)
      requires nextchar != "" && optind < argv.Length && |argv[optind]| >= 2 && cfg.longopts.Some? && optarg.None?
      requires nameend == IndexOf(nextchar, '=') && k < |cfg.longopts.value|
      requires LookupLong(cfg.longopts.value, nextchar[..nameend], cfg.longOnly) == Found(k)
      modifies this
      ensures var d := old(DecideLong(argv[optind], nextchar, optind + 1 < argv.Length, cfg));
              d.Some? && code == d.value.code && Applied(argv[..], d.value, cfg)
    {
      var p := cfg.longopts.value[k];
      optind := optind + 1;
      if nameend < |nextchar| {
        if p.hasArg != 0 {
          optarg := Some(nextchar[nameend + 1..]);
        } else {
          nextchar := "";
          optopt := p.val;
          return '?' as int;
        }
      } else if p.hasArg == 1 {
        if optind < argv.Length {
          optarg := Some(argv[optind]);
          optind := optind + 1;
        } else {
          nextchar := "";
          optopt := p.val;
          return MissingCode(cfg);
        }
      }
      nextchar := "";
      longind := k;
      if p.flag != 0 {
        flags := flags[p.flag := p.val];
        return 0;
      }
      return p.val;
    }

    method ReadLong(argv: array<string>, cfg: Config) returns (ret: Option<int>)
      requires nextchar != "" && optind < argv.Length && |argv[optind]| >= 2 && cfg.longopts.Some? && optarg.None?
      modifies this
      ensures var d := old(DecideLong(argv[optind], nextchar, optind + 1 < argv.Length, cfg));
              if d.None? then ret.None? && unchanged(this)
              else ret == Some(d.value.code) && Applied(argv[..], d.value, cfg)
    {
      var ls := cfg.longopts.value;
      var nameend := IndexOf(nextchar, '=');
      var found := FindLong(ls, nextchar[..nameend], cfg.longOnly);
      match found
      case Ambiguous =>
        nextchar := "";
        optind := optind + 1;
        optopt := 0;
        return Some('?' as int);
      case Found(k) =>
        var code := ReadFound(argv, cfg, nameend, k);
        return Some(code);
      case NotFound =>
        if !cfg.longOnly || argv[optind][1] == '-' || nextchar[0] !in cfg.optstring {
          nextchar := "";
          optind := optind + 1;
          optopt := 0;
          return Some('?' as int);
        }
        return None;
    }

    method ReadShort(argv: array<string>, cfg: Config) returns (ret: int)
      requires nextchar != "" && optind < argv.Length && optarg.None?
      modifies this
      ensures var d := old(DecideShort(nextchar, optind + 1 < argv.Length, cfg));
              ret == d.code && Applied(argv[..], d, cfg)
    {
      var c := nextchar[0];
      nextchar := nextchar[1..];
      var opts := cfg.optstring;
      var t := IndexOf(opts, c);
      if nextchar == "" {
        optind := optind + 1;
      }
      if t == |opts| || c == ':' || c == ';' {
        optopt := c as int;
        return '?' as int;
      }
      ret := c as int;
      if At(opts, t + 1) == ':' {
        if At(opts, t + 2) == ':' {
          if nextchar != "" {
            optarg := Some(nextchar);
            optind := optind + 1;
          } else {
            optarg := None;
          }
        } else if nextchar != "" {
          optarg := Some(nextchar);
          optind := optind + 1;
        } else if optind == argv.Length {
          optopt := c as int;
          ret := MissingCode(cfg);
        } else {
          optarg := Some(argv[optind]);
          optind := optind + 1;
        }
        nextchar := "";
      }
    }

    method ReadElement(argv: array<string>, cfg: Config) returns (ret: int)
      requires nextchar != "" && optind < argv.Length && |argv[optind]| >= 2 && optarg.None?
      modifies this
      ensures var d := old(Decide(argv[optind], nextchar, optind + 1 < argv.Length, cfg));
              ret == d.code && Applied(argv[..], d, cfg)
    {
      if LongEligible(argv[optind], cfg) {
        var long := ReadLong(argv, cfg);
        if long.Some? {
          return long.value;
        }
      }
      ret := ReadShort(argv, cfg);
    }

    method Advance(argv: array<string>, cfg: Config) returns (ret: Option<Return>)
      requires Bounded(ViewOf(argv)) && nextchar == "" && optarg.None?
      modifies this`optind, this`firstNonopt, this`lastNonopt, this`nextchar, this`optarg, argv
      ensures Answer(ViewOf(argv), ret, optarg) == Advanced(old(ViewOf(argv)), RulesOf(cfg))
    {
      if cfg.ordering == Permute {
        Gather(argv);
        Skip(argv);
      }
      ret := Settle(argv, cfg);
    }

    method Begin(optstring: string, posixlyCorrect: bool, ghost argv: array<string>)
      modifies this
      ensures initialized && ordering == (if old(Fresh()) then OrderingOf(optstring, posixlyCorrect) else old(ordering))
      ensures optarg.None? && ViewOf(argv) == Start(old(ViewOf(argv)), old(Fresh()))
    {
      optarg := None;
      if optind == 0 || !initialized {
        Initialize(optstring, posixlyCorrect);
      }
      if nextchar == "" {
        lastNonopt := if lastNonopt > optind then optind else lastNonopt;
        firstNonopt := if firstNonopt > optind then optind else firstNonopt;
      }
    }

    method Continue(argv: array<string>, cfg: Config) returns (ret: Return)
      requires Bounded(ViewOf(argv)) && optarg.None?
      modifies this, argv
      ensures initialized == old(initialized) && ordering == old(ordering)
      ensures Answer(ViewOf(argv), Some(ret), optarg) == Step(old(ViewOf(argv)), RulesOf(cfg))
    {
      if nextchar == "" {
        var r := Advance(argv, cfg);
        if r.Some? {
          return r.value;
        }
      }
      var code := ReadElement(argv, cfg);
      ret := Code(code);
    }

    method Next(argv: array<string>, optstring: string, longopts: Option<seq<LongOption>>, longOnly: bool, posixlyCorrect: bool)
      returns (ret: Return)
      requires NoWForm(optstring)
      requires Bounded(Start(ViewOf(argv), Fresh()))
      modifies this, argv
      ensures argv.Length < 1 ==> ret == End && argv[..] == old(argv[..])
      ensures argv.Length >= 1 ==>
                initialized && ordering == (if old(Fresh()) then OrderingOf(optstring, posixlyCorrect) else old(ordering))
      ensures argv.Length >= 1 ==>
                Answer(ViewOf(argv), Some(ret), optarg)
                == Step(Start(old(ViewOf(argv)), old(Fresh())), RulesOf(Config(ordering, Stripped(optstring), longopts, longOnly)))
    {
      if argv.Length < 1 {
        return End;
      }
      Begin(optstring, posixlyCorrect, argv);
      ret := Continue(argv, Config(ordering, Stripped(optstring), longopts, longOnly));
    }

    // A whole run of a fresh scanner: the arguments end up stably partitioned, `optind` stands
    // at the first operand, and the events are those of the arguments as they were given.
    method Run(argv: array<string>, optstring: string, longopts: Option<seq<LongOption>>, longOnly: bool, posixlyCorrect: bool)
      returns (events: seq<Event>)
      requires NoWForm(optstring) && argv.Length >= 1
      requires Fresh() && optind <= argv.Length
      modifies this, argv
      ensures var start := if old(optind) == 0 then 1 else old(optind);
              var rules := RulesOf(Config(OrderingOf(optstring, posixlyCorrect), Stripped(optstring), longopts, longOnly));
              Done(ViewOf(argv), events, old(argv[..]), start, rules, Scan(old(argv[..]), start, "", rules))
    {
      ghost var orig, start := argv[..], if optind == 0 then 1 else optind;
      ghost var rules := RulesOf(Config(OrderingOf(optstring, posixlyCorrect), Stripped(optstring), longopts, longOnly));
      ghost var whole := Scan(orig, start, "", rules);
      ghost var v := Start(ViewOf(argv), true);
      StartKeeps(orig, start, rules, whole);
      events := [];
      var ret := Code(0);
      while ret.Code?
        invariant if ret.Code? then Running(v, events, orig, start, rules, whole) else Done(v, events, orig, start, rules, whole)
        invariant if ret.Code? then v == Start(ViewOf(argv), Fresh()) else v == ViewOf(argv)
        invariant Fresh() || ordering == rules.ordering
        decreases if ret.Code? then 1 + Unread(orig, v.optind, v.text) else 0
      {
        RunStep(v, events, orig, start, rules, whole);
        v := Step(v, rules).view;
        ret := Next(argv, optstring, longopts, longOnly, posixlyCorrect);
        if ret.Code? {
          events := events + [Event(ret.code, optarg)];
        }
      }
    }
  }
}
