/**
 What an option string and a table of long options mean: a table of option characters written as an
 option string, and words written as arguments, are read as exactly those words.
 */
module GetoptLaws {
  import opened Common
  import opened Getopt

  /* ---------- Option strings ---------- */

  datatype Kind = Plain | Required | Optional

  datatype Spec = Spec(c: char, kind: Kind)

  // Distinct characters, none of which has a meaning of its own.
  ghost predicate IsTable(table: seq<Spec>) {
    && (forall i :: 0 <= i < |table| ==> table[i].c != ':' && table[i].c != ';' && table[i].c != '-')
    && forall i, j :: 0 <= i < j < |table| ==> table[i].c != table[j].c
  }

  function Colons(kind: Kind): string {
    match kind case Plain => "" case Required => ":" case Optional => "::"
  }

  function TableText(table: seq<Spec>): string {
    if table == [] then "" else [table[0].c] + (Colons(table[0].kind) + TableText(table[1..]))
  }

  function KindOf(table: seq<Spec>, c: char): Option<Kind> {
    if table == [] then None else if table[0].c == c then Some(table[0].kind) else KindOf(table[1..], c)
  }

  // `quiet` is the leading colon that asks for a colon when an argument is missing.
  function OptionText(table: seq<Spec>, quiet: bool): string {
    (if quiet then ":" else "") + TableText(table)
  }

  lemma {:induction false} IndexBehind(pre: string, s: string, c: char)
    requires c !in pre
    ensures IndexOf(pre + s, c) == |pre| + IndexOf(s, c)
  {
    if pre == "" {
      assert pre + s == s;
    } else {
      assert (pre + s)[1..] == pre[1..] + s;
      IndexBehind(pre[1..], s, c);
    }
  }

  // Behind position `t` of an option string stand the colons of this kind.
  predicate ColonsAt(opts: string, t: nat, kind: Kind) {
    && (At(opts, t + 1) == ':' <==> kind != Plain)
    && (kind != Plain ==> (At(opts, t + 2) == ':' <==> kind == Optional))
  }

  // Where the text has this character, and what stands behind it.
  ghost predicate KindAt(text: string, c: char, kind: Option<Kind>) {
    var t := IndexOf(text, c);
    if kind.None? then t == |text| else t < |text| && ColonsAt(text, t, kind.value)
  }

  lemma KindHere(s: Spec, rest: string)
    requires At(rest, 0) != ':'
    ensures KindAt([s.c] + (Colons(s.kind) + rest), s.c, Some(s.kind))
  {
    FirstColons(s, rest);
  }

  lemma KindBehind(pre: string, rest: string, c: char, kind: Option<Kind>)
    requires c !in pre && KindAt(rest, c, kind)
    ensures KindAt(pre + rest, c, kind)
  {
    IndexBehind(pre, rest, c);
    ColonsBehind(pre, rest, IndexOf(rest, c));
  }

  lemma KindElsewhere(s: Spec, rest: string, c: char, kind: Option<Kind>)
    requires s.c != c && c != ':' && KindAt(rest, c, kind)
    ensures KindAt([s.c] + (Colons(s.kind) + rest), c, kind)
  {
    var pre := [s.c] + Colons(s.kind);
    Regroup([s.c], Colons(s.kind), rest);
    KindBehind(pre, rest, c, kind);
  }

  lemma TextOfFirst(table: seq<Spec>)
    requires table != []
    ensures TableText(table) == [table[0].c] + (Colons(table[0].kind) + TableText(table[1..]))
  {
  }

  lemma KindOfFirst(table: seq<Spec>, c: char, rest: string)
    requires table != [] && c != ':' && rest == TableText(table[1..]) && At(rest, 0) != ':'
    requires KindAt(rest, c, KindOf(table[1..], c))
    ensures KindAt(TableText(table), c, KindOf(table, c))
  {
    TextOfFirst(table);
    if table[0].c == c {
      KindHere(table[0], rest);
    } else {
      KindElsewhere(table[0], rest, c, KindOf(table[1..], c));
    }
  }

  lemma {:induction false} KindInText(table: seq<Spec>, c: char)
    requires IsTable(table) && c != ':'
    ensures KindAt(TableText(table), c, KindOf(table, c))
    decreases |table|
  {
    if table != [] {
      KindInText(table[1..], c);
      FirstIsNoColon(table[1..]);
      KindOfFirst(table, c, TableText(table[1..]));
    }
  }

  lemma FirstIsNoColon(table: seq<Spec>)
    requires IsTable(table)
    ensures At(TableText(table), 0) != ':'
  {
  }

  lemma FirstColons(s: Spec, rest: string)
    requires At(rest, 0) != ':'
    ensures ColonsAt([s.c] + (Colons(s.kind) + rest), 0, s.kind)
  {
  }

  lemma ColonsBehind(pre: string, s: string, t: nat)
    ensures forall kind :: ColonsAt(pre + s, |pre| + t, kind) == ColonsAt(s, t, kind)
  {
  }

  lemma KindInOptions(table: seq<Spec>, quiet: bool, c: char)
    requires IsTable(table) && c != ':'
    ensures KindAt(OptionText(table, quiet), c, KindOf(table, c))
  {
    KindInText(table, c);
    KindBehind(if quiet then ":" else "", TableText(table), c, KindOf(table, c));
  }

  lemma {:induction false} NoKind(table: seq<Spec>, c: char)
    requires IsTable(table) && (c == ':' || c == ';' || c == '-')
    ensures KindOf(table, c) == None
    decreases |table|
  {
    if table != [] {
      NoKind(table[1..], c);
    }
  }

  /* ---------- One short option ---------- */

  // What a short option of this kind means: its code, its argument, and what is consumed.
  function KindMeaning(kind: Option<Kind>, quiet: bool, text: string, hasNext: bool): Decision
    requires text != ""
  {
    var c, arg := text[0], text[1..];
    match kind
    case None => Decision(arg, if arg == "" then 1 else 0, '?' as int, NoArgument, Some(c as int), None)
    case Some(Plain) => Decision(arg, if arg == "" then 1 else 0, c as int, NoArgument, None, None)
    case Some(Optional) => Decision("", 1, c as int, if arg == "" then NoArgument else Text(arg), None, None)
    case Some(Required) =>
      if arg != "" then Decision("", 1, c as int, Text(arg), None, None)
      else if hasNext then Decision("", 2, c as int, NextElement, None, None)
      else Decision("", 1, if quiet then ':' as int else '?' as int, NoArgument, Some(c as int), None)
  }

  // The option string holds this table.
  ghost predicate Holds(cfg: Config, table: seq<Spec>, quiet: bool) {
    IsTable(table) && cfg.optstring == OptionText(table, quiet)
  }

  // And long options begin with two dashes.
  ghost predicate Means(cfg: Config, table: seq<Spec>, quiet: bool) {
    Holds(cfg, table, quiet) && (cfg.longopts.Some? ==> !cfg.longOnly)
  }

  lemma QuietCode(cfg: Config, table: seq<Spec>, quiet: bool)
    requires Holds(cfg, table, quiet)
    ensures MissingCode(cfg) == if quiet then ':' as int else '?' as int
  {
    FirstIsNoColon(table);
  }

  lemma UnknownLaw(cfg: Config, quiet: bool, text: string, hasNext: bool)
    requires text != "" && (KindAt(cfg.optstring, text[0], None) || text[0] == ':' || text[0] == ';')
    ensures DecideShort(text, hasNext, cfg) == KindMeaning(None, quiet, text, hasNext)
  {
  }

  lemma KnownLaw(cfg: Config, kind: Kind, quiet: bool, text: string, hasNext: bool)
    requires text != "" && text[0] != ':' && text[0] != ';' && KindAt(cfg.optstring, text[0], Some(kind))
    requires MissingCode(cfg) == if quiet then ':' as int else '?' as int
    ensures DecideShort(text, hasNext, cfg) == KindMeaning(Some(kind), quiet, text, hasNext)
  {
  }

  lemma DecideByTable(cfg: Config, table: seq<Spec>, quiet: bool, text: string, hasNext: bool)
    requires Holds(cfg, table, quiet) && text != ""
    ensures DecideShort(text, hasNext, cfg) == KindMeaning(KindOf(table, text[0]), quiet, text, hasNext)
  {
    var c := text[0];
    QuietCode(cfg, table, quiet);
    if c == ':' || c == ';' {
      NoKind(table, c);
      UnknownLaw(cfg, quiet, text, hasNext);
    } else {
      KindInOptions(table, quiet, c);
      if KindOf(table, c).None? {
        UnknownLaw(cfg, quiet, text, hasNext);
      } else {
        KnownLaw(cfg, KindOf(table, c).value, quiet, text, hasNext);
      }
    }
  }

  // An element that is not looked up among the long options.
  predicate OnlyShort(cfg: Config, e: string) {
    cfg.longopts.None? || |e| < 2 || (e[1] != '-' && (cfg.longOnly ==> |e| == 2 && e[1] in cfg.optstring))
  }

  lemma ShortDecided(cfg: Config, e: string, text: string, hasNext: bool)
    requires OnlyShort(cfg, e) && text != ""
    ensures RulesOf(cfg).decide(e, text, hasNext) == DecideShort(text, hasNext, cfg)
  {
  }

  // Such an element is read by the table: every one with a single dash, unless long options may have one too.
  lemma ShortLaw(cfg: Config, table: seq<Spec>, quiet: bool, e: string, text: string, hasNext: bool)
    requires Holds(cfg, table, quiet) && text != "" && OnlyShort(cfg, e)
    ensures RulesOf(cfg).decide(e, text, hasNext) == KindMeaning(KindOf(table, text[0]), quiet, text, hasNext)
  {
    ShortDecided(cfg, e, text, hasNext);
    DecideByTable(cfg, table, quiet, text, hasNext);
  }

  /* ---------- One long option ---------- */

  // Two options that an abbreviation need not tell apart.
  predicate Alike(p: LongOption, q: LongOption, longOnly: bool) {
    !longOnly && p.hasArg == q.hasArg && p.flag == q.flag && p.val == q.val
  }

  // The text names option `k`: all of its name, or the beginning of its name, of no name before it and of no other
  // name that is not alike.
  ghost predicate Names(ls: seq<LongOption>, w: string, longOnly: bool, k: nat) {
    k < |ls| && w <= ls[k].name && (w == ls[k].name || IsFirst(ls, w, longOnly, k))
  }

  ghost predicate IsFirst(ls: seq<LongOption>, w: string, longOnly: bool, k: nat)
    requires k < |ls|
  {
    && (forall j :: 0 <= j < |ls| ==> w != ls[j].name) && (forall j :: 0 <= j < k ==> !(w <= ls[j].name))
    && (forall j :: k < j < |ls| && w <= ls[j].name ==> Alike(ls[k], ls[j], longOnly))
  }

  ghost predicate DistinctNames(ls: seq<LongOption>) {
    forall i, j :: 0 <= i < j < |ls| ==> ls[i].name != ls[j].name
  }

  // No name begins with the text.
  ghost predicate NamesNone(ls: seq<LongOption>, w: string) {
    forall j :: 0 <= j < |ls| ==> !(w <= ls[j].name)
  }

  // Names that are not alike begin with the text, and none is the text itself.
  ghost predicate NamesSeveral(ls: seq<LongOption>, w: string, longOnly: bool) {
    (forall j :: 0 <= j < |ls| ==> w != ls[j].name) && exists j, k :: FirstTwo(ls, w, longOnly, j, k)
  }

  ghost predicate NamesNothing(ls: seq<LongOption>, w: string, longOnly: bool) {
    NamesNone(ls, w) || NamesSeveral(ls, w, longOnly)
  }

  // The first name that begins with the text, and a later one that is not alike.
  ghost predicate FirstTwo(ls: seq<LongOption>, w: string, longOnly: bool, j: nat, k: nat) {
    && j < k < |ls| && w <= ls[j].name && w <= ls[k].name && (forall i :: 0 <= i < j ==> !(w <= ls[i].name))
    && !Alike(ls[j], ls[k], longOnly)
  }

  lemma NamesFound(ls: seq<LongOption>, w: string, k: nat, longOnly: bool)
    requires DistinctNames(ls) && Names(ls, w, longOnly, k)
    ensures LookupLong(ls, w, longOnly) == Found(k)
  {
    var e, f := FirstExact(ls, w, 0), FirstPrefix(ls, w, 0);
    assert e < |ls| ==> w <= ls[e].name;
    assert f <= k;
  }

  lemma NoneFound(ls: seq<LongOption>, w: string, longOnly: bool)
    requires NamesNone(ls, w)
    ensures LookupLong(ls, w, longOnly) == NotFound
  {
    assert forall j :: 0 <= j < |ls| && w == ls[j].name ==> w <= ls[j].name;
  }

  lemma SeveralFound(ls: seq<LongOption>, w: string, longOnly: bool)
    requires NamesSeveral(ls, w, longOnly)
    ensures LookupLong(ls, w, longOnly) == Ambiguous
  {
    var e, f := FirstExact(ls, w, 0), FirstPrefix(ls, w, 0);
    var j, k :| FirstTwo(ls, w, longOnly, j, k);
    assert f == j;
  }

  lemma NamesSome(ls: seq<LongOption>, w: string, longOnly: bool)
    ensures NamesNothing(ls, w, longOnly) || exists k :: Names(ls, w, longOnly, k)
  {
    var e, f := FirstExact(ls, w, 0), FirstPrefix(ls, w, 0);
    if e < |ls| {
      assert Names(ls, w, longOnly, e);
    } else if f < |ls| {
      if j :| f < j < |ls| && w <= ls[j].name && !Alike(ls[f], ls[j], longOnly) {
        assert FirstTwo(ls, w, longOnly, f, j);
      } else {
        assert Names(ls, w, longOnly, f);
      }
    }
  }

  // Every text names one option or nothing.
  lemma NamesOneOrNothing(ls: seq<LongOption>, w: string, longOnly: bool)
    requires DistinctNames(ls)
    ensures NamesNothing(ls, w, longOnly) <==> !exists k :: Names(ls, w, longOnly, k)
    ensures forall j, k :: Names(ls, w, longOnly, j) && Names(ls, w, longOnly, k) ==> j == k
  {
    NamesSome(ls, w, longOnly);
    forall k | Names(ls, w, longOnly, k)
      ensures LookupLong(ls, w, longOnly) == Found(k)
    {
      NamesFound(ls, w, k, longOnly);
    }
    if NamesNone(ls, w) {
      NoneFound(ls, w, longOnly);
    } else if NamesSeveral(ls, w, longOnly) {
      SeveralFound(ls, w, longOnly);
    }
  }

  // The argument written behind an equals sign.
  function Equals(w: string, arg: Option<string>): string {
    w + if arg.Some? then "=" + arg.value else ""
  }

  lemma EqualsSplit(w: string, arg: Option<string>)
    requires '=' !in w
    ensures var text := Equals(w, arg);
            var n := IndexOf(text, '=');
            n == |w| && text[..n] == w && (n < |text| <==> arg.Some?) && (arg.Some? ==> text[n + 1..] == arg.value)
  {
    IndexBehind(w, if arg.Some? then "=" + arg.value else "", '=');
  }

  // What a long option means that is named by the text, with or without an argument behind an equals sign.
  function LongMeaning(ls: seq<LongOption>, k: nat, arg: Option<string>, quiet: bool, hasNext: bool): Decision
    requires k < |ls|
  {
    var p := ls[k];
    var code := if p.flag != 0 then 0 else p.val;
    if arg.Some? && p.hasArg == 0 then Decision("", 1, '?' as int, NoArgument, Some(p.val), None)
    else if arg.Some? then Decision("", 1, code, Text(arg.value), None, Some(k))
    else if p.hasArg != 1 then Decision("", 1, code, NoArgument, None, Some(k))
    else if hasNext then Decision("", 2, code, NextElement, None, Some(k))
    else Decision("", 1, if quiet then ':' as int else '?' as int, NoArgument, Some(p.val), None)
  }

  // An element that is looked up among the long options.
  predicate MayBeLong(cfg: Config, e: string) {
    cfg.longopts.Some? && |e| >= 2 && (e[1] == '-' || (cfg.longOnly && (|e| > 2 || e[1] !in cfg.optstring)))
  }

  lemma LongLaw(cfg: Config, table: seq<Spec>, quiet: bool, e: string, w: string, k: nat, arg: Option<string>, hasNext: bool)
    requires Holds(cfg, table, quiet) && MayBeLong(cfg, e) && DistinctNames(cfg.longopts.value)
    requires Names(cfg.longopts.value, w, cfg.longOnly, k) && Equals(w, arg) != "" && '=' !in w
    ensures RulesOf(cfg).decide(e, Equals(w, arg), hasNext) == LongMeaning(cfg.longopts.value, k, arg, quiet, hasNext)
  {
    EqualsSplit(w, arg);
    NamesFound(cfg.longopts.value, w, k, cfg.longOnly);
    QuietCode(cfg, table, quiet);
  }

  // A text that names nothing is refused as a whole. With a single dash, one that begins no name is left to the
  // table if that has its first character.
  lemma LongWrong(cfg: Config, e: string, w: string, arg: Option<string>, hasNext: bool)
    requires MayBeLong(cfg, e) && NamesNothing(cfg.longopts.value, w, cfg.longOnly) && Equals(w, arg) != "" && '=' !in w
    requires cfg.longOnly && e[1] != '-' && Equals(w, arg)[0] in cfg.optstring ==> NamesSeveral(cfg.longopts.value, w, cfg.longOnly)
    ensures RulesOf(cfg).decide(e, Equals(w, arg), hasNext) == Decision("", 1, '?' as int, NoArgument, Some(0), None)
  {
    EqualsSplit(w, arg);
    if NamesSeveral(cfg.longopts.value, w, cfg.longOnly) {
      SeveralFound(cfg.longopts.value, w, cfg.longOnly);
    } else {
      NoneFound(cfg.longopts.value, w, cfg.longOnly);
    }
  }

  lemma LongOnlyShort(cfg: Config, table: seq<Spec>, quiet: bool, e: string, w: string, arg: Option<string>, hasNext: bool)
    requires Holds(cfg, table, quiet) && MayBeLong(cfg, e) && cfg.longOnly && e[1] != '-'
    requires NamesNone(cfg.longopts.value, w) && Equals(w, arg) != "" && '=' !in w && Equals(w, arg)[0] in cfg.optstring
    ensures RulesOf(cfg).decide(e, Equals(w, arg), hasNext)
            == KindMeaning(KindOf(table, Equals(w, arg)[0]), quiet, Equals(w, arg), hasNext)
  {
    EqualsSplit(w, arg);
    NoneFound(cfg.longopts.value, w, cfg.longOnly);
    DecideByTable(cfg, table, quiet, Equals(w, arg), hasNext);
  }

  /* ---------- Words ---------- */

  // How a cluster of short options ends: with a character for itself, with an argument in the same element or
  // in the next, or with a character whose argument is missing.
  datatype Last = Nothing | Alone(c: char) | Glued(c: char, arg: string) | Apart(c: char, arg: string) | Missing(c: char)

  // The words of a command line.
  datatype Word =
    | Short(flags: string, last: Last)
    | Long(w: string, k: nat, arg: Option<string>)
    | LongApart(w: string, k: nat, next: string)
    | LongMissing(w: string, k: nat)
    | LongBad(w: string, arg: Option<string>)
    | Operand(text: string)

  function LastText(last: Last): string {
    match last
    case Nothing => ""
    case Alone(c) => [c]
    case Glued(c, arg) => [c] + arg
    case Apart(c, _) => [c]
    case Missing(c) => [c]
  }

  function Written(word: Word): seq<string> {
    match word
    case Short(flags, last) => ["-" + (flags + LastText(last))] + if last.Apart? then [last.arg] else []
    case Long(w, _, arg) => ["--" + Equals(w, arg)]
    case LongApart(w, _, next) => ["--" + w, next]
    case LongMissing(w, _) => ["--" + w]
    case LongBad(w, arg) => ["--" + Equals(w, arg)]
    case Operand(text) => [text]
  }

  function FlagEvents(table: seq<Spec>, flags: string): seq<Event> {
    if flags == "" then [] else
    [Event(if KindOf(table, flags[0]).None? then '?' as int else flags[0] as int, None)] + FlagEvents(table, flags[1..])
  }

  function MissingEvent(quiet: bool): Event {
    Event(if quiet then ':' as int else '?' as int, None)
  }

  function LastEvents(last: Last, quiet: bool): seq<Event> {
    match last
    case Nothing => []
    case Alone(c) => [Event(c as int, None)]
    case Glued(c, arg) => [Event(c as int, Some(arg))]
    case Apart(c, arg) => [Event(c as int, Some(arg))]
    case Missing(_) => [MissingEvent(quiet)]
  }

  function LongEvent(cfg: Config, k: nat, arg: Option<string>): Event {
    var ls := if cfg.longopts.Some? then cfg.longopts.value else [];
    Event(if k < |ls| && ls[k].flag == 0 then ls[k].val else 0, arg)
  }

  // The grammar of words, over the two tables.
  ghost predicate IsLast(table: seq<Spec>, last: Last) {
    match last
    case Nothing => true
    case Alone(c) => KindOf(table, c) == Some(Optional)
    case Glued(c, arg) => arg != "" && (KindOf(table, c) == Some(Required) || KindOf(table, c) == Some(Optional))
    case Apart(c, _) => KindOf(table, c) == Some(Required)
    case Missing(c) => KindOf(table, c) == Some(Required)
  }

  ghost predicate AreFlags(table: seq<Spec>, flags: string) {
    forall i :: 0 <= i < |flags| ==> KindOf(table, flags[i]) == None || KindOf(table, flags[i]) == Some(Plain)
  }

  ghost predicate IsName(ls: seq<LongOption>, w: string, k: nat) {
    Names(ls, w, false, k) && w != "" && '=' !in w
  }

  ghost predicate IsWord(cfg: Config, table: seq<Spec>, word: Word) {
    var ls := if cfg.longopts.Some? then cfg.longopts.value else [];
    match word
    case Short(flags, last) =>
      && AreFlags(table, flags) && IsLast(table, last)
      && flags + LastText(last) != "" && (flags + LastText(last))[0] != '-'
    case Long(w, k, arg) => IsName(ls, w, k) && if arg.Some? then ls[k].hasArg != 0 else ls[k].hasArg != 1
    case LongApart(w, k, _) => IsName(ls, w, k) && ls[k].hasArg == 1
    case LongMissing(w, k) => IsName(ls, w, k) && ls[k].hasArg == 1
    case LongBad(w, arg) =>
      && cfg.longopts.Some? && w != "" && '=' !in w
      && (NamesNothing(ls, w, false) || exists k: nat :: Names(ls, w, false, k) && ls[k].hasArg == 0 && arg.Some?)
    case Operand(text) => IsOperand(text) && cfg.ordering != RequireOrder
  }

  // Only at the end an argument is missing.
  predicate LacksArgument(word: Word) {
    (word.Short? && word.last.Missing?) || word.LongMissing?
  }

  function EventsOf(cfg: Config, table: seq<Spec>, quiet: bool, word: Word): seq<Event> {
    match word
    case Short(flags, last) => FlagEvents(table, flags) + LastEvents(last, quiet)
    case Long(_, k, arg) => [LongEvent(cfg, k, arg)]
    case LongApart(_, k, next) => [LongEvent(cfg, k, Some(next))]
    case LongMissing(_, _) => [MissingEvent(quiet)]
    case LongBad(_, _) => [Event('?' as int, None)]
    case Operand(text) => if cfg.ordering == Permute then [] else [Event(1, Some(text))]
  }

  // An operand stays an operand in the permuting order; everything else belongs to the options.
  function MarksOf(cfg: Config, word: Word): seq<bool> {
    Repeat(IsOption(cfg, word), |Written(word)|)
  }

  /* ----- Reading one word ----- */

  // One decision of the reader.
  lemma ScanStep(a: seq<string>, i: nat, text: string, rules: Rules, d: Decision)
    requires Sound(rules) && Position(a, i, text) && text != "" && d == rules.decide(a[i], text, i + 1 < |a|)
    ensures Position(a, i + d.advance, d.rest)
    ensures var r := Scan(a, i + d.advance, d.rest, rules);
            Scan(a, i, text, rules) == Outcome([Event(d.code, Resolve(a, i, d.arg))] + r.events, Repeat(true, d.advance) + r.marks)
  {
  }

  function LastArgument(last: Last): Argument {
    match last
    case Glued(_, arg) => Text(arg)
    case Apart(_, _) => NextElement
    case _ => NoArgument
  }

  function LastLength(last: Last): nat {
    if last.Nothing? then 0 else if last.Apart? then 2 else 1
  }

  // How the end of a cluster is decided.
  lemma LastDecided(table: seq<Spec>, quiet: bool, last: Last, text: string, hasNext: bool)
    requires !last.Nothing? && IsLast(table, last) && text == LastText(last) && (last.Apart? ==> hasNext) && (last.Missing? ==> !hasNext)
    ensures var d := KindMeaning(KindOf(table, text[0]), quiet, text, hasNext);
            && d.rest == "" && d.advance == LastLength(last) && d.arg == LastArgument(last)
            && d.code == LastEvents(last, quiet)[0].code && |LastEvents(last, quiet)| == 1
  {
    if last.Glued? {
      assert text[1..] == last.arg;
    }
  }

  // From here on the reader gives these events and marks `n` elements, and then reads on behind them.
  ghost predicate Reads(a: seq<string>, i: nat, text: string, rules: Rules, n: nat, events: seq<Event>)
    requires Sound(rules) && Position(a, i, text)
  {
    i + n <= |a| && var r := Scan(a, i + n, "", rules);
    Scan(a, i, text, rules) == Outcome(events + r.events, Repeat(true, n) + r.marks)
  }

  // One decision that uses up the element.
  lemma ScanWhole(a: seq<string>, i: nat, text: string, rules: Rules, d: Decision, n: nat, events: seq<Event>)
    requires Sound(rules) && Position(a, i, text) && text != "" && d == rules.decide(a[i], text, i + 1 < |a|)
    requires d.rest == "" && n == d.advance && events == [Event(d.code, Resolve(a, i, d.arg))]
    ensures Reads(a, i, text, rules, n, events)
  {
    ScanStep(a, i, text, rules, d);
  }

  lemma LastResolved(a: seq<string>, i: nat, last: Last, quiet: bool, d: Decision)
    requires !last.Nothing? && (last.Apart? ==> i + 1 < |a| && a[i + 1] == last.arg)
    requires d.arg == LastArgument(last) && d.code == LastEvents(last, quiet)[0].code
    ensures LastEvents(last, quiet) == [Event(d.code, Resolve(a, i, d.arg))]
  {
  }

  lemma LastRead(a: seq<string>, i: nat, text: string, cfg: Config, table: seq<Spec>, quiet: bool, last: Last)
    requires Means(cfg, table, quiet) && Position(a, i, text) && text == LastText(last) && !last.Nothing? && IsLast(table, last)
    requires |a[i]| >= 2 && a[i][1] != '-' && (last.Apart? ==> i + 1 < |a| && a[i + 1] == last.arg) && (last.Missing? ==> i + 1 == |a|)
    ensures Reads(a, i, text, RulesOf(cfg), LastLength(last), LastEvents(last, quiet))
  {
    var d := KindMeaning(KindOf(table, text[0]), quiet, text, i + 1 < |a|);
    ShortLaw(cfg, table, quiet, a[i], text, i + 1 < |a|);
    LastDecided(table, quiet, last, text, i + 1 < |a|);
    LastResolved(a, i, last, quiet, d);
    ScanWhole(a, i, text, RulesOf(cfg), d, LastLength(last), LastEvents(last, quiet));
  }

  lemma FlagDecided(cfg: Config, table: seq<Spec>, quiet: bool, e: string, text: string, hasNext: bool) returns (d: Decision)
    requires Means(cfg, table, quiet) && text != "" && |e| >= 2 && e[1] != '-'
    requires KindOf(table, text[0]) == None || KindOf(table, text[0]) == Some(Plain)
    ensures d == RulesOf(cfg).decide(e, text, hasNext)
    ensures d.rest == text[1..] && d.advance == (if |text| == 1 then 1 else 0) && d.arg == NoArgument
    ensures FlagEvents(table, [text[0]]) == [Event(d.code, None)]
  {
    d := KindMeaning(KindOf(table, text[0]), quiet, text, hasNext);
    ShortLaw(cfg, table, quiet, e, text, hasNext);
    OneFlag(table, text[0]);
  }

  // The last flag of an element.
  lemma FlagLast(a: seq<string>, i: nat, text: string, rules: Rules, d: Decision, events: seq<Event>)
    requires Sound(rules) && Position(a, i, text) && |text| == 1 && d == rules.decide(a[i], text, i + 1 < |a|)
    requires d.rest == "" && d.advance == 1 && d.arg == NoArgument && events == [Event(d.code, None)]
    ensures Reads(a, i, text, rules, 1, events)
  {
    ScanWhole(a, i, text, rules, d, 1, events);
  }

  // A flag with more behind it.
  lemma FlagMore(a: seq<string>, i: nat, text: string, rules: Rules, d: Decision, n: nat, events: seq<Event>, more: seq<Event>)
    requires Sound(rules) && Position(a, i, text) && |text| > 1 && d == rules.decide(a[i], text, i + 1 < |a|)
    requires d.rest == text[1..] && d.advance == 0 && d.arg == NoArgument && events == [Event(d.code, None)]
    requires Position(a, i, text[1..]) && Reads(a, i, text[1..], rules, n, more)
    ensures Reads(a, i, text, rules, n, events + more)
  {
    ScanStep(a, i, text, rules, d);
    Regroup(events, more, Scan(a, i + n, "", rules).events);
  }

  // One flag, and what is read behind it.
  lemma FlagRead(a: seq<string>, i: nat, text: string, cfg: Config, table: seq<Spec>, quiet: bool, n: nat, more: seq<Event>)
    requires Means(cfg, table, quiet) && Position(a, i, text) && text != "" && |a[i]| >= 2 && a[i][1] != '-'
    requires KindOf(table, text[0]) == None || KindOf(table, text[0]) == Some(Plain)
    requires if |text| > 1 then Position(a, i, text[1..]) && Reads(a, i, text[1..], RulesOf(cfg), n, more) else n == 1 && more == []
    ensures Reads(a, i, text, RulesOf(cfg), n, FlagEvents(table, [text[0]]) + more)
  {
    var events := FlagEvents(table, [text[0]]);
    var d := FlagDecided(cfg, table, quiet, a[i], text, i + 1 < |a|);
    if |text| > 1 {
      FlagMore(a, i, text, RulesOf(cfg), d, n, events, more);
    } else {
      FlagLast(a, i, text, RulesOf(cfg), d, events);
      assert events + more == events;
    }
  }

  lemma OneFlag(table: seq<Spec>, c: char)
    ensures FlagEvents(table, [c]) == [Event(if KindOf(table, c).None? then '?' as int else c as int, None)]
  {
    assert [c][1..] == "";
  }

  // The text is a cluster of short options in element `i`, and its argument is there or missing at the end.
  ghost predicate ClusterAt(a: seq<string>, i: nat, text: string, cfg: Config, table: seq<Spec>, quiet: bool, flags: string, last: Last) {
    && Means(cfg, table, quiet) && Position(a, i, text) && text == flags + LastText(last) && text != ""
    && AreFlags(table, flags) && IsLast(table, last) && |a[i]| >= 2 && a[i][1] != '-'
    && (last.Apart? ==> i + 1 < |a| && a[i + 1] == last.arg) && (last.Missing? ==> i + 1 == |a|)
  }

  lemma ClusterEnd(a: seq<string>, i: nat, text: string, cfg: Config, table: seq<Spec>, quiet: bool, last: Last, n: nat, events: seq<Event>)
    requires n == (if last.Apart? then 2 else 1) && events == FlagEvents(table, "") + LastEvents(last, quiet)
    ensures ClusterAt(a, i, text, cfg, table, quiet, "", last) ==> Reads(a, i, text, RulesOf(cfg), n, events)
  {
    if ClusterAt(a, i, text, cfg, table, quiet, "", last) {
      LastRead(a, i, text, cfg, table, quiet, last);
      assert events == LastEvents(last, quiet);
    }
  }

  lemma ClusterRest(a: seq<string>, i: nat, text: string, cfg: Config, table: seq<Spec>, quiet: bool, flags: string, last: Last)
    requires ClusterAt(a, i, text, cfg, table, quiet, flags, last) && flags != "" && |text| > 1
    ensures ClusterAt(a, i, text[1..], cfg, table, quiet, flags[1..], last)
  {
    RestOfText(a, i, text);
    RestOfFlags(table, flags, text, last);
  }

  lemma RestOfFlags(table: seq<Spec>, flags: string, text: string, last: Last)
    requires flags != "" && text == flags + LastText(last) && AreFlags(table, flags)
    ensures text[1..] == flags[1..] + LastText(last) && AreFlags(table, flags[1..])
  {
  }

  // A cluster with a flag in front of it.
  lemma ClusterStep(a: seq<string>, i: nat, text: string, cfg: Config, table: seq<Spec>, quiet: bool, flags: string, last: Last, n: nat)
    requires ClusterAt(a, i, text, cfg, table, quiet, flags, last) && flags != "" && n == if last.Apart? then 2 else 1
    requires |text| > 1 ==> Position(a, i, text[1..]) && Reads(a, i, text[1..], RulesOf(cfg), n, FlagEvents(table, flags[1..]) + LastEvents(last, quiet))
    ensures Reads(a, i, text, RulesOf(cfg), n, FlagEvents(table, flags) + LastEvents(last, quiet))
  {
    var more := FlagEvents(table, flags[1..]) + LastEvents(last, quiet);
    assert text[0] == flags[0];
    if |text| == 1 {
      assert flags[1..] == "" && last.Nothing?;
    }
    FlagRead(a, i, text, cfg, table, quiet, n, more);
    FlagsSplit(table, flags, LastEvents(last, quiet));
  }

  lemma ClusterNext(a: seq<string>, i: nat, text: string, cfg: Config, table: seq<Spec>, quiet: bool, flags: string, last: Last, n: nat, events: seq<Event>)
    requires flags != "" && n == (if last.Apart? then 2 else 1) && events == FlagEvents(table, flags) + LastEvents(last, quiet)
    requires text != "" ==> (ClusterAt(a, i, text[1..], cfg, table, quiet, flags[1..], last) ==>
                             Reads(a, i, text[1..], RulesOf(cfg), n, FlagEvents(table, flags[1..]) + LastEvents(last, quiet)))
    ensures ClusterAt(a, i, text, cfg, table, quiet, flags, last) ==> Reads(a, i, text, RulesOf(cfg), n, events)
  {
    if ClusterAt(a, i, text, cfg, table, quiet, flags, last) {
      if |text| > 1 {
        ClusterRest(a, i, text, cfg, table, quiet, flags, last);
      }
      ClusterStep(a, i, text, cfg, table, quiet, flags, last, n);
    }
  }

  lemma {:induction false} ClusterRead(a: seq<string>, i: nat, text: string, cfg: Config, table: seq<Spec>, quiet: bool, flags: string, last: Last)
    ensures ClusterAt(a, i, text, cfg, table, quiet, flags, last) ==>
              Reads(a, i, text, RulesOf(cfg), if last.Apart? then 2 else 1, FlagEvents(table, flags) + LastEvents(last, quiet))
    decreases |flags|
  {
    var n, events := if last.Apart? then 2 else 1, FlagEvents(table, flags) + LastEvents(last, quiet);
    if flags == "" {
      ClusterEnd(a, i, text, cfg, table, quiet, last, n, events);
    } else {
      if text != "" {
        ClusterRead(a, i, text[1..], cfg, table, quiet, flags[1..], last);
      }
      ClusterNext(a, i, text, cfg, table, quiet, flags, last, n, events);
    }
  }

  lemma RestOfText(a: seq<string>, i: nat, text: string)
    requires Position(a, i, text) && |text| > 1
    ensures Position(a, i, text[1..])
  {
  }

  lemma FlagsSplit(table: seq<Spec>, flags: string, more: seq<Event>)
    requires flags != ""
    ensures FlagEvents(table, [flags[0]]) + (FlagEvents(table, flags[1..]) + more) == FlagEvents(table, flags) + more
  {
    OneFlag(table, flags[0]);
  }

  /* ----- Whole words ----- */

  // The next elements are those of the word; if its argument is missing, there are no more.
  ghost predicate ComesNext(a: seq<string>, i: nat, word: Word) {
    && i + |Written(word)| <= |a| && (forall k :: 0 <= k < |Written(word)| ==> a[i + k] == Written(word)[k])
    && (LacksArgument(word) ==> i + 1 == |a|)
  }

  // The word at element `i` gives these events, and its elements get this mark.
  ghost predicate ReadsWord(a: seq<string>, i: nat, rules: Rules, n: nat, mark: bool, events: seq<Event>)
    requires Sound(rules)
  {
    i + n <= |a| && var r := Scan(a, i + n, "", rules);
    Scan(a, i, "", rules) == Outcome(events + r.events, Repeat(mark, n) + r.marks)
  }

  lemma BeginElement(a: seq<string>, i: nat, rules: Rules, text: string, n: nat, events: seq<Event>)
    requires Sound(rules) && i < |a| && !IsOperand(a[i]) && a[i] != "--" && text == FirstText(a[i], rules.longs)
    requires Position(a, i, text) && Reads(a, i, text, rules, n, events)
    ensures ReadsWord(a, i, rules, n, true, events)
  {
  }

  lemma TextOfElement(a: seq<string>, i: nat, head: nat, text: string)
    requires i < |a| && 1 <= head && text != "" && |a[i]| == head + |text| && a[i][head..] == text
    ensures Position(a, i, text)
  {
  }

  lemma ShortRead(a: seq<string>, i: nat, cfg: Config, table: seq<Spec>, quiet: bool, flags: string, last: Last)
    requires Means(cfg, table, quiet) && IsWord(cfg, table, Short(flags, last)) && ComesNext(a, i, Short(flags, last))
    ensures ReadsWord(a, i, RulesOf(cfg), if last.Apart? then 2 else 1, true, FlagEvents(table, flags) + LastEvents(last, quiet))
  {
    var text := flags + LastText(last);
    assert a[i + 0] == Written(Short(flags, last))[0];
    assert a[i] == "-" + text;
    if last.Apart? {
      assert a[i + 1] == Written(Short(flags, last))[1];
    }
    TextOfElement(a, i, 1, text);
    ClusterRead(a, i, text, cfg, table, quiet, flags, last);
    assert a[i][1] == text[0];
    BeginElement(a, i, RulesOf(cfg), text, if last.Apart? then 2 else 1, FlagEvents(table, flags) + LastEvents(last, quiet));
  }

  // An element that begins with two dashes and is decided at once.
  lemma LongElement(a: seq<string>, i: nat, cfg: Config, text: string, d: Decision, n: nat, events: seq<Event>)
    requires cfg.longopts.Some? && i < |a| && text != "" && a[i] == "--" + text
    requires d == RulesOf(cfg).decide(a[i], text, i + 1 < |a|) && d.rest == "" && n == d.advance
    requires events == [Event(d.code, Resolve(a, i, d.arg))]
    ensures ReadsWord(a, i, RulesOf(cfg), n, true, events)
  {
    TextOfElement(a, i, 2, text);
    ScanWhole(a, i, text, RulesOf(cfg), d, n, events);
    BeginElement(a, i, RulesOf(cfg), text, n, events);
  }

  ghost predicate HasLongs(cfg: Config, table: seq<Spec>, quiet: bool) {
    Means(cfg, table, quiet) && cfg.longopts.Some? && DistinctNames(cfg.longopts.value)
  }

  lemma LongRead(a: seq<string>, i: nat, cfg: Config, table: seq<Spec>, quiet: bool, w: string, k: nat, arg: Option<string>)
    requires HasLongs(cfg, table, quiet) && IsName(cfg.longopts.value, w, k)
    requires var h := cfg.longopts.value[k].hasArg; if arg.Some? then h != 0 else h != 1
    requires i < |a| && a[i] == "--" + Equals(w, arg)
    ensures ReadsWord(a, i, RulesOf(cfg), 1, true, [LongEvent(cfg, k, arg)])
  {
    var d := LongMeaning(cfg.longopts.value, k, arg, quiet, i + 1 < |a|);
    LongLaw(cfg, table, quiet, a[i], w, k, arg, i + 1 < |a|);
    LongElement(a, i, cfg, Equals(w, arg), d, 1, [LongEvent(cfg, k, arg)]);
  }

  lemma LongApartRead(a: seq<string>, i: nat, cfg: Config, table: seq<Spec>, quiet: bool, w: string, k: nat, next: string)
    requires HasLongs(cfg, table, quiet) && IsName(cfg.longopts.value, w, k) && cfg.longopts.value[k].hasArg == 1
    requires i + 1 < |a| && a[i] == "--" + w && a[i + 1] == next
    ensures ReadsWord(a, i, RulesOf(cfg), 2, true, [LongEvent(cfg, k, Some(next))])
  {
    var d := LongMeaning(cfg.longopts.value, k, None, quiet, true);
    LongLaw(cfg, table, quiet, a[i], w, k, None, true);
    assert Equals(w, None) == w;
    LongElement(a, i, cfg, w, d, 2, [LongEvent(cfg, k, Some(next))]);
  }

  lemma LongMissingRead(a: seq<string>, i: nat, cfg: Config, table: seq<Spec>, quiet: bool, w: string, k: nat)
    requires HasLongs(cfg, table, quiet) && IsName(cfg.longopts.value, w, k) && cfg.longopts.value[k].hasArg == 1
    requires i + 1 == |a| && a[i] == "--" + w
    ensures ReadsWord(a, i, RulesOf(cfg), 1, true, [MissingEvent(quiet)])
  {
    var d := LongMeaning(cfg.longopts.value, k, None, quiet, false);
    LongLaw(cfg, table, quiet, a[i], w, k, None, false);
    assert Equals(w, None) == w;
    LongElement(a, i, cfg, w, d, 1, [MissingEvent(quiet)]);
  }

  lemma LongBadRead(a: seq<string>, i: nat, cfg: Config, table: seq<Spec>, quiet: bool, w: string, arg: Option<string>)
    requires HasLongs(cfg, table, quiet) && IsWord(cfg, table, LongBad(w, arg)) && i < |a| && a[i] == "--" + Equals(w, arg)
    ensures ReadsWord(a, i, RulesOf(cfg), 1, true, [Event('?' as int, None)])
  {
    var ls, hasNext := cfg.longopts.value, i + 1 < |a|;
    if NamesNothing(ls, w, false) {
      LongWrong(cfg, a[i], w, arg, hasNext);
      LongElement(a, i, cfg, Equals(w, arg), Decision("", 1, '?' as int, NoArgument, Some(0), None), 1, [Event('?' as int, None)]);
    } else {
      var k: nat :| Names(ls, w, false, k) && ls[k].hasArg == 0 && arg.Some?;
      LongLaw(cfg, table, quiet, a[i], w, k, arg, hasNext);
      LongElement(a, i, cfg, Equals(w, arg), LongMeaning(ls, k, arg, quiet, hasNext), 1, [Event('?' as int, None)]);
    }
  }

  lemma OperandRead(a: seq<string>, i: nat, cfg: Config, text: string)
    requires i < |a| && a[i] == text && IsOperand(text) && cfg.ordering != RequireOrder
    ensures ReadsWord(a, i, RulesOf(cfg), 1, cfg.ordering != Permute, if cfg.ordering == Permute then [] else [Event(1, Some(text))])
  {
    var r := Scan(a, i + 1, "", RulesOf(cfg));
    assert [] + r.events == r.events;
    assert Repeat(true, 1) == [true] && Repeat(false, 1) == [false];
  }

  // The tables, if the words use long options at all.
  ghost predicate Understands(cfg: Config, table: seq<Spec>, quiet: bool) {
    Means(cfg, table, quiet) && (cfg.longopts.Some? ==> DistinctNames(cfg.longopts.value))
  }

  predicate IsOption(cfg: Config, word: Word) {
    !(word.Operand? && cfg.ordering == Permute)
  }

  // A word is read as what it means.
  lemma WordRead(a: seq<string>, i: nat, cfg: Config, table: seq<Spec>, quiet: bool, word: Word)
    requires Understands(cfg, table, quiet) && IsWord(cfg, table, word) && ComesNext(a, i, word)
    ensures ReadsWord(a, i, RulesOf(cfg), |Written(word)|, IsOption(cfg, word), EventsOf(cfg, table, quiet, word))
  {
    assert a[i + 0] == Written(word)[0];
    match word
    case Short(flags, last) => ShortRead(a, i, cfg, table, quiet, flags, last);
    case Long(w, k, arg) => LongRead(a, i, cfg, table, quiet, w, k, arg);
    case LongApart(w, k, next) =>
      assert a[i + 1] == Written(word)[1];
      LongApartRead(a, i, cfg, table, quiet, w, k, next);
    case LongMissing(w, k) => LongMissingRead(a, i, cfg, table, quiet, w, k);
    case LongBad(w, arg) => LongBadRead(a, i, cfg, table, quiet, w, arg);
    case Operand(text) => OperandRead(a, i, cfg, text);
  }

  /* ---------- Whole command lines ---------- */

  // The elements of a word, whether they belong to the options, and its events.
  datatype Part = Part(elements: seq<string>, marks: seq<bool>, events: seq<Event>)

  function PartOf(cfg: Config, table: seq<Spec>, quiet: bool, word: Word): Part {
    Part(Written(word), MarksOf(cfg, word), EventsOf(cfg, table, quiet, word))
  }

  function PartsOf(cfg: Config, table: seq<Spec>, quiet: bool, words: seq<Word>): (parts: seq<Part>)
    ensures |parts| == |words|
  {
    seq(|words|, k requires 0 <= k < |words| => PartOf(cfg, table, quiet, words[k]))
  }

  function Cat(a: Part, b: Part): Part {
    Part(a.elements + b.elements, a.marks + b.marks, a.events + b.events)
  }

  // The first `k` parts, one behind the other.
  function JoinedTo(parts: seq<Part>, k: nat): Part
    requires k <= |parts|
  {
    if k == 0 then Part([], [], []) else Cat(JoinedTo(parts, k - 1), parts[k - 1])
  }

  function Joined(parts: seq<Part>): Part {
    JoinedTo(parts, |parts|)
  }

  // All the joined parts, from none to all.
  ghost predicate IsChain(parts: seq<Part>, sums: seq<Part>) {
    |sums| == |parts| + 1 && sums[0] == Part([], [], []) && forall k :: 0 <= k < |parts| ==> Linked(parts, sums, k)
  }

  ghost predicate Linked(parts: seq<Part>, sums: seq<Part>, k: nat)
    requires k < |parts| < |sums|
  {
    sums[k + 1] == Cat(sums[k], parts[k])
  }

  function Sums(parts: seq<Part>): (sums: seq<Part>)
    ensures |sums| == |parts| + 1
  {
    seq(|parts| + 1, k requires 0 <= k <= |parts| => JoinedTo(parts, k))
  }

  lemma SumsChain(parts: seq<Part>)
    ensures IsChain(parts, Sums(parts)) && Sums(parts)[|parts|] == Joined(parts)
  {
  }

  lemma {:induction false} SumPrefix(parts: seq<Part>, sums: seq<Part>, k: nat, m: nat)
    requires IsChain(parts, sums) && k <= m <= |parts|
    ensures |sums[k].elements| <= |sums[m].elements| && sums[m].elements[..|sums[k].elements|] == sums[k].elements
    decreases m
  {
    if k < m {
      SumPrefix(parts, sums, k, m - 1);
      assert Linked(parts, sums, m - 1);
    }
  }

  lemma SliceAt(a: seq<string>, i: nat, before: seq<string>, own: seq<string>, all: seq<string>, behind: seq<string>)
    requires i <= |a| && a[i..] == all + behind && |before + own| <= |all| && all[..|before + own|] == before + own
    ensures |a| == i + |all| + |behind| && forall k :: 0 <= k < |own| ==> a[i + |before| + k] == own[k]
  {
    forall k {:trigger own[k]} | 0 <= k < |own|
      ensures a[i + |before| + k] == own[k]
    {
      assert a[i..][|before| + k] == all[..|before + own|][|before| + k] == (before + own)[|before| + k];
    }
  }

  // Every part stands at its place.
  lemma PartAt(a: seq<string>, i: nat, parts: seq<Part>, sums: seq<Part>, k: nat, behind: seq<string>)
    requires IsChain(parts, sums) && k < |parts| && i <= |a| && a[i..] == sums[|parts|].elements + behind
    ensures var p, own := i + |sums[k].elements|, parts[k].elements;
            && p + |own| <= |a| && (forall j :: 0 <= j < |own| ==> a[p + j] == own[j])
            && (k + 1 == |parts| && behind == [] ==> p + |own| == |a|)
  {
    assert Linked(parts, sums, k);
    SumPrefix(parts, sums, k + 1, |parts|);
    SliceAt(a, i, sums[k].elements, parts[k].elements, sums[|parts|].elements, behind);
  }

  // Only the last word of all lacks its argument.
  ghost predicate AreWords(cfg: Config, table: seq<Spec>, words: seq<Word>, behind: seq<string>) {
    && (forall k :: 0 <= k < |words| ==> IsWord(cfg, table, words[k]))
    && forall k :: 0 <= k < |words| && LacksArgument(words[k]) ==> k + 1 == |words| && behind == []
  }

  // Where the scan ends: behind the last element, at two dashes, or at an operand that nothing may stand before.
  predicate EndsAt(cfg: Config, behind: seq<string>) {
    behind == [] || behind[0] == "--" || (cfg.ordering == RequireOrder && IsOperand(behind[0]))
  }

  // Only the two dashes still belong to the options.
  function MarksBehind(behind: seq<string>): seq<bool> {
    if behind == [] then [] else [behind[0] == "--"] + Repeat(false, |behind| - 1)
  }

  lemma LackingIsOne(word: Word)
    ensures LacksArgument(word) ==> |Written(word)| == 1
  {
  }

  // What the scan gives from every element on.
  ghost function Outs(a: seq<string>, rules: Rules): (outs: seq<Outcome>)
    requires Sound(rules)
    ensures |outs| == |a| + 1
  {
    seq(|a| + 1, i requires 0 <= i <= |a| => Scan(a, i, "", rules))
  }

  // From element `i` on it gives this part, and then what it gives behind it.
  ghost predicate Gives(outs: seq<Outcome>, i: nat, part: Part) {
    var n := |part.elements|;
    i + n < |outs| && outs[i] == Outcome(part.events + outs[i + n].events, part.marks + outs[i + n].marks)
  }

  lemma WordGives(a: seq<string>, i: nat, cfg: Config, table: seq<Spec>, quiet: bool, word: Word)
    requires Understands(cfg, table, quiet) && IsWord(cfg, table, word) && ComesNext(a, i, word)
    ensures Gives(Outs(a, RulesOf(cfg)), i, PartOf(cfg, table, quiet, word))
  {
    WordRead(a, i, cfg, table, quiet, word);
    ReadGives(a, i, RulesOf(cfg), PartOf(cfg, table, quiet, word), IsOption(cfg, word));
  }

  lemma ReadGives(a: seq<string>, i: nat, rules: Rules, part: Part, mark: bool)
    requires Sound(rules) && ReadsWord(a, i, rules, |part.elements|, mark, part.events) && part.marks == Repeat(mark, |part.elements|)
    ensures Gives(Outs(a, rules), i, part)
  {
  }

  lemma WordPlaced(a: seq<string>, start: nat, parts: seq<Part>, sums: seq<Part>, k: nat, word: Word, behind: seq<string>)
    requires IsChain(parts, sums) && start <= |a| && a[start..] == sums[|parts|].elements + behind && k < |parts|
    requires parts[k].elements == Written(word) && (LacksArgument(word) ==> k + 1 == |parts| && behind == [])
    ensures ComesNext(a, start + |sums[k].elements|, word)
  {
    PartAt(a, start, parts, sums, k, behind);
    LackingIsOne(word);
  }

  lemma GivesBoth(outs: seq<Outcome>, i: nat, first: Part, next: Part, both: Part)
    requires Gives(outs, i, first) && Gives(outs, i + |first.elements|, next) && both == Cat(first, next)
    ensures Gives(outs, i, both)
  {
    var behind := outs[i + |both.elements|];
    Regroup(first.events, next.events, behind.events);
    Regroup(first.marks, next.marks, behind.marks);
  }

  lemma GivesNothing(outs: seq<Outcome>, i: nat)
    requires i < |outs|
    ensures Gives(outs, i, Part([], [], []))
  {
    assert [] + outs[i].events == outs[i].events && [] + outs[i].marks == outs[i].marks;
  }

  // The first `k` parts are given, one after the other.
  lemma {:induction false} PartsGiven(outs: seq<Outcome>, i: nat, parts: seq<Part>, sums: seq<Part>, k: nat)
    requires IsChain(parts, sums) && k <= |parts| && i < |outs|
    requires forall j :: 0 <= j < |parts| ==> Gives(outs, i + |sums[j].elements|, parts[j])
    ensures Gives(outs, i, sums[k])
  {
    if k == 0 {
      GivesNothing(outs, i);
    } else {
      PartsGiven(outs, i, parts, sums, k - 1);
      assert Linked(parts, sums, k - 1);
      GivesBoth(outs, i, sums[k - 1], parts[k - 1], sums[k]);
    }
  }

  lemma EndReached(a: seq<string>, i: nat, cfg: Config, behind: seq<string>)
    requires Sound(RulesOf(cfg)) && i <= |a| && a[i..] == behind && EndsAt(cfg, behind)
    ensures Scan(a, i, "", RulesOf(cfg)) == Outcome([], MarksBehind(behind))
  {
    if behind != [] {
      assert a[i] == a[i..][0];
      assert Repeat(false, |behind|) == [false] + Repeat(false, |behind| - 1);
    }
  }

  lemma GivesToEnd(a: seq<string>, i: nat, cfg: Config, part: Part, behind: seq<string>)
    requires Sound(RulesOf(cfg)) && Gives(Outs(a, RulesOf(cfg)), i, part) && EndsAt(cfg, behind)
    requires a[i..] == part.elements + behind
    ensures Scan(a, i, "", RulesOf(cfg)) == Outcome(part.events, part.marks + MarksBehind(behind))
  {
    var n := i + |part.elements|;
    assert a[n..] == a[i..][|part.elements|..];
    EndReached(a, n, cfg, behind);
    assert part.events + [] == part.events;
  }

  lemma EachWordComes(a: seq<string>, start: nat, words: seq<Word>, parts: seq<Part>, sums: seq<Part>, behind: seq<string>)
    requires IsChain(parts, sums) && start <= |a| && a[start..] == sums[|parts|].elements + behind && |words| == |parts|
    requires forall k :: 0 <= k < |parts| ==> parts[k].elements == Written(words[k])
    requires forall k :: 0 <= k < |parts| && LacksArgument(words[k]) ==> k + 1 == |parts| && behind == []
    ensures forall k :: 0 <= k < |parts| ==> ComesNext(a, start + |sums[k].elements|, words[k])
  {
    forall k | 0 <= k < |parts|
      ensures ComesNext(a, start + |sums[k].elements|, words[k])
    {
      WordPlaced(a, start, parts, sums, k, words[k], behind);
    }
  }

  // Wherever one of the words stands, it gives its part.
  ghost predicate WordsGive(a: seq<string>, outs: seq<Outcome>, words: seq<Word>, parts: seq<Part>)
    requires |parts| == |words|
  {
    forall k: nat, i: nat :: k < |words| && ComesNext(a, i, words[k]) ==> Gives(outs, i, parts[k])
  }

  lemma EachWordGives(a: seq<string>, cfg: Config, table: seq<Spec>, quiet: bool, words: seq<Word>)
    requires Understands(cfg, table, quiet) && forall k :: 0 <= k < |words| ==> IsWord(cfg, table, words[k])
    ensures WordsGive(a, Outs(a, RulesOf(cfg)), words, PartsOf(cfg, table, quiet, words))
  {
    forall k: nat, i: nat | k < |words| && ComesNext(a, i, words[k])
      ensures Gives(Outs(a, RulesOf(cfg)), i, PartsOf(cfg, table, quiet, words)[k])
    {
      WordGives(a, i, cfg, table, quiet, words[k]);
    }
  }

  lemma AllWordsGiven(a: seq<string>, start: nat, outs: seq<Outcome>, words: seq<Word>, parts: seq<Part>, sums: seq<Part>,
                      behind: seq<string>)
    requires IsChain(parts, sums) && start <= |a| && a[start..] == sums[|parts|].elements + behind && |words| == |parts|
    requires forall k :: 0 <= k < |parts| ==> parts[k].elements == Written(words[k])
    requires forall k :: 0 <= k < |parts| && LacksArgument(words[k]) ==> k + 1 == |parts| && behind == []
    requires WordsGive(a, outs, words, parts) && start < |outs|
    ensures Gives(outs, start, sums[|parts|])
  {
    EachWordComes(a, start, words, parts, sums, behind);
    PartsGiven(outs, start, parts, sums, |parts|);
  }

  // A command line of such words gives exactly their events and nothing from behind its end, and in the permuting
  // order exactly its operands and what stands behind the end are no options.
  lemma CommandLine(a: seq<string>, start: nat, cfg: Config, table: seq<Spec>, quiet: bool, words: seq<Word>, behind: seq<string>)
    requires Understands(cfg, table, quiet) && AreWords(cfg, table, words, behind) && EndsAt(cfg, behind)
    requires start <= |a| && a[start..] == Joined(PartsOf(cfg, table, quiet, words)).elements + behind
    ensures var all := Joined(PartsOf(cfg, table, quiet, words));
            Scan(a, start, "", RulesOf(cfg)) == Outcome(all.events, all.marks + MarksBehind(behind))
  {
    var parts := PartsOf(cfg, table, quiet, words);
    var sums := Sums(parts);
    SumsChain(parts);
    EachWordGives(a, cfg, table, quiet, words);
    AllWordsGiven(a, start, Outs(a, RulesOf(cfg)), words, parts, sums, behind);
    GivesToEnd(a, start, cfg, sums[|parts|], behind);
  }

  // The option string as the caller gives it: an ordering sign, the colon, and the table.
  lemma OptionStringRead(sign: string, table: seq<Spec>, quiet: bool, posixlyCorrect: bool)
    requires IsTable(table) && (sign == "" || sign == "+" || sign == "-")
    requires sign == "" && !quiet && table != [] ==> table[0].c != '+'
    ensures var s := sign + OptionText(table, quiet);
            && Stripped(s) == OptionText(table, quiet) && NoWForm(s)
            && OrderingOf(s, posixlyCorrect) ==
                 if sign == "-" then ReturnInOrder else if sign == "+" || posixlyCorrect then RequireOrder else Permute
  {
    NoSemicolon(table);
    var s, body := sign + OptionText(table, quiet), OptionText(table, quiet);
    assert sign == "" ==> s == body;
    assert sign != "" ==> s[1..] == body;
  }

  lemma {:induction false} NoSemicolon(table: seq<Spec>)
    requires IsTable(table)
    ensures ';' !in TableText(table)
    decreases |table|
  {
    if table != [] {
      NoSemicolon(table[1..]);
    }
  }
}
