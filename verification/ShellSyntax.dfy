/** user/sh.c: the language of command lines as a grammar of its own, in which words and
    redirections may stand in any order, and that the parser accepts exactly that language
    with that meaning. */
module ShellSyntax {
  import opened ShellGrammar

  /** What a simple command is made of. */
  datatype Item<W> = Arg(w: W) | To(redirection: Redirection<W>)

  datatype Stage<W> = Simple(items: seq<Item<W>>) | Block(body: Line<W>, rs: seq<Redirection<W>>)

  datatype Pipeline<W> = Single(stage: Stage<W>) | Piped(stage: Stage<W>, more: Pipeline<W>)

  /** A pipeline, the & signs behind it, and what follows a semicolon. */
  datatype Line<W> = Last(pipeline: Pipeline<W>, amps: nat) | Then(pipeline: Pipeline<W>, amps: nat, next: Line<W>)

  // ---------- how it is written ----------

  function ItemToks<W>(items: seq<Item<W>>): seq<Tok<W>> {
    if items == [] then []
    else
      (match items[0] case Arg(w) => [Word(w)] case To(r) => [Sym(SymOf(r.mode)), Word(r.file)]) + ItemToks(items[1..])
  }

  function Amps<W>(n: nat): seq<Tok<W>> { if n == 0 then [] else [Sym('&')] + Amps(n - 1) }

  function StageToks<W>(x: Stage<W>): seq<Tok<W>> {
    match x
    case Simple(items) => ItemToks(items)
    case Block(body, rs) => [Sym('(')] + (LineToks(body) + ([Sym(')')] + RedirToks(rs)))
  }

  function PipelineToks<W>(x: Pipeline<W>): seq<Tok<W>> {
    match x
    case Single(stage) => StageToks(stage)
    case Piped(stage, more) => StageToks(stage) + ([Sym('|')] + PipelineToks(more))
  }

  function LineToks<W>(x: Line<W>): seq<Tok<W>> {
    match x
    case Last(pipeline, amps) => PipelineToks(pipeline) + Amps(amps)
    case Then(pipeline, amps, next) => PipelineToks(pipeline) + (Amps(amps) + ([Sym(';')] + LineToks(next)))
  }

  // ---------- what it means ----------

  /** The words, and the redirections, in the order in which they stand. */
  function ArgsOf<W>(items: seq<Item<W>>): seq<W> {
    if items == [] then []
    else if items[0].Arg? then [items[0].w] + ArgsOf(items[1..])
    else ArgsOf(items[1..])
  }

  function RedirsOf<W>(items: seq<Item<W>>): seq<Redirection<W>> {
    if items == [] then []
    else if items[0].To? then [items[0].redirection] + RedirsOf(items[1..])
    else RedirsOf(items[1..])
  }

  function Backs<W>(n: nat, t: Cmd<W>): Cmd<W> { if n == 0 then t else Back(Backs(n - 1, t)) }

  function StageCmd<W>(x: Stage<W>): Cmd<W> {
    match x
    case Simple(items) => Wrap(Exec(ArgsOf(items)), RedirsOf(items))
    case Block(body, rs) => Wrap(LineCmd(body), rs)
  }

  function PipelineCmd<W>(x: Pipeline<W>): Cmd<W> {
    match x
    case Single(stage) => StageCmd(stage)
    case Piped(stage, more) => Pipe(StageCmd(stage), PipelineCmd(more))
  }

  function LineCmd<W>(x: Line<W>): Cmd<W> {
    match x
    case Last(pipeline, amps) => Backs(amps, PipelineCmd(pipeline))
    case Then(pipeline, amps, next) => List(Backs(amps, PipelineCmd(pipeline)), LineCmd(next))
  }

  /** At most nine words in every simple command. */
  predicate FewInStage<W>(x: Stage<W>) {
    match x
    case Simple(items) => |ArgsOf(items)| <= 9
    case Block(body, _) => Few(body)
  }

  predicate FewInPipeline<W>(x: Pipeline<W>) {
    match x
    case Single(stage) => FewInStage(stage)
    case Piped(stage, more) => FewInStage(stage) && FewInPipeline(more)
  }

  predicate Few<W>(x: Line<W>) {
    FewInPipeline(x.pipeline) && (x.Then? ==> Few(x.next))
  }

  // ---------- simple commands ----------

  /** No further item begins here. */
  predicate NoItem<W>(ts: seq<Tok<W>>) {
    ts != [] ==> !ts[0].Word? && !(Starts(ts, "<>+") && |ts| >= 2 && ts[1].Word?)
  }

  /** How a simple command of these words and redirections ends in front of `rest`. */
  function Outcome<W>(args: seq<W>, rs: seq<Redirection<W>>, rest: seq<Tok<W>>): Out<W> {
    if |args| >= 10 then Failed(TooManyArgs)
    else if Starts(rest, "<>+") then Failed(MissingFile)
    else if EndsAt(rest, "|)&;") then Ok(Wrap(Exec(args), rs), rest)
    else Failed(Syntax)
  }

  /** The redirections in front of the first word, and the items from there on. */
  function Leading<W>(items: seq<Item<W>>): (n: nat)
    ensures n <= |items| && (n < |items| ==> items[n].Arg?)
    ensures forall i :: 0 <= i < n ==> items[i].To?
  {
    if items == [] || items[0].Arg? then 0 else 1 + Leading(items[1..])
  }

  lemma {:induction false} LeadingRedirs<W>(items: seq<Item<W>>, rest: seq<Tok<W>>)
    requires NoItem(rest)
    ensures var n := Leading(items);
      ParseRedirs(ItemToks(items) + rest) ==
        if n == |items| && Starts(rest, "<>+") then NoFile
        else Redirs(RedirsOf(items[..n]), ItemToks(items[n..]) + rest)
    decreases |items|
  {
    var n := Leading(items);
    if items == [] {
      assert ItemToks(items) + rest == rest;
    } else if items[0].Arg? {
      WordFirst(items, rest);
      assert items[..n] == [] && items[n..] == items;
    } else {
      var r, tail := items[0].redirection, items[1..];
      assert ItemToks(items) + rest == [Sym(SymOf(r.mode)), Word(r.file)] + (ItemToks(tail) + rest);
      LeadingRedirs(tail, rest);
      assert items[..n][0] == items[0] && items[..n][1..] == tail[..n - 1] && items[n..] == tail[n - 1..];
      hide ParseRedirs, ItemToks;
      FirstIs(r, ItemToks(tail) + rest);
    }
  }

  lemma WordFirst<W>(items: seq<Item<W>>, rest: seq<Tok<W>>)
    requires items != [] && items[0].Arg?
    ensures var ts := ItemToks(items) + rest;
      && ts != [] && ts[0] == Word(items[0].w) && ts[1..] == ItemToks(items[1..]) + rest
      && ParseRedirs(ts) == Redirs([], ts)
  {
  }

  /** The leading redirections are a part of all, the words are all behind them. */
  lemma {:induction false} LeadingSplits<W>(items: seq<Item<W>>)
    ensures var n := Leading(items);
      ArgsOf(items[n..]) == ArgsOf(items) && RedirsOf(items[..n]) + RedirsOf(items[n..]) == RedirsOf(items)
    decreases |items|
  {
    var n := Leading(items);
    if items == [] || items[0].Arg? {
      assert items[..n] == [] && items[n..] == items;
    } else {
      LeadingSplits(items[1..]);
      assert items[..n][0] == items[0] && items[..n][1..] == items[1..][..n - 1] && items[n..] == items[1..][n - 1..];
    }
  }

  lemma FirstIs<W>(r: Redirection<W>, tail: seq<Tok<W>>)
    ensures ParseRedirs([Sym(SymOf(r.mode)), Word(r.file)] + tail) ==
      match ParseRedirs(tail) case NoFile => NoFile case Redirs(rs, rest) => Redirs([r] + rs, rest)
  {
    var ts := [Sym(SymOf(r.mode)), Word(r.file)] + tail;
    assert ts[2..] == tail && ts[0] == Sym(SymOf(r.mode)) && ts[1] == Word(r.file);
  }

  /** One turn of the argument loop. */
  lemma NextArg<W>(done: seq<W>, rs: seq<Redirection<W>>, ts: seq<Tok<W>>)
    requires ts != [] && ts[0].Word?
    ensures var more := ParseRedirs(ts[1..]);
      ParseArgs(done, rs, ts) ==
        if |done| + 1 >= MAXARGS then Failed(TooManyArgs)
        else if more.NoFile? then Failed(MissingFile)
        else ParseArgs(done + [ts[0].w], rs + more.list, more.rest)
  {
  }

  lemma {:induction false} ArgsOn<W>(done: seq<W>, rs: seq<Redirection<W>>, items: seq<Item<W>>, rest: seq<Tok<W>>)
    requires NoItem(rest) && |done| < MAXARGS
    requires if items == [] then !Starts(rest, "<>+") else items[0].Arg?
    ensures ParseArgs(done, rs, ItemToks(items) + rest) ==
      Outcome(done + ArgsOf(items), rs + RedirsOf(items), rest)
    decreases |items|
  {
    if items == [] {
      assert ItemToks(items) + rest == rest && done + ArgsOf(items) == done && rs + RedirsOf(items) == rs;
      return;
    }
    var ts, tail := ItemToks(items) + rest, items[1..];
    WordFirst(items, rest);
    NextArg(done, rs, ts);
    LeadingRedirs(tail, rest);
    var n, w := Leading(tail), items[0].w;
    FirstArgOf(done, rs, items);
    hide ParseRedirs, ParseArgs, Wrap, ItemToks, ArgsOf, RedirsOf, NoItem;
    if |done| + 1 < MAXARGS {
      if n == |tail| && Starts(rest, "<>+") {
        NoArgs<W>();
        assert tail[n..] == [];
      } else {
        hide Outcome;
        ArgsOn(done + [w], rs + RedirsOf(tail[..n]), tail[n..], rest);
      }
    }
  }

  lemma NoArgs<W>()
    ensures ArgsOf<W>([]) == []
  {
  }

  /** What the first word and the redirections behind it add. */
  lemma FirstArgOf<W>(done: seq<W>, rs: seq<Redirection<W>>, items: seq<Item<W>>)
    requires items != [] && items[0].Arg?
    ensures var tail := items[1..]; var n := Leading(tail);
      && done + ArgsOf(items) == (done + [items[0].w]) + ArgsOf(tail[n..])
      && rs + RedirsOf(items) == (rs + RedirsOf(tail[..n])) + RedirsOf(tail[n..])
  {
    LeadingSplits(items[1..]);
    hide Leading;
  }

  /** A simple command: words and redirections in any order give the words as arguments and
      the redirections around them, each in line order, and what ends the command otherwise
      decides which panic there is. */
  lemma SimpleCommand<W>(items: seq<Item<W>>, rest: seq<Tok<W>>)
    requires NoItem(rest) && !(items == [] && Starts(rest, "("))
    ensures ParseExec(ItemToks(items) + rest) == Outcome(ArgsOf(items), RedirsOf(items), rest)
  {
    var ts, n := ItemToks(items) + rest, Leading(items);
    assert !Starts(ts, "(") by { FirstItem(items, rest); }
    LeadingRedirs(items, rest);
    LeadingSplits(items);
    hide ParseRedirs, ParseArgs, Wrap;
    if n == |items| && Starts(rest, "<>+") {
      assert items[n..] == [];
    } else {
      ArgsOn([], RedirsOf(items[..n]), items[n..], rest);
      assert [] + ArgsOf(items[n..]) == ArgsOf(items);
    }
  }

  /** Which sign opens a file how. */
  lemma RedirectionSigns<W>(file: W)
    ensures ParseRedirs([Sym('<'), Word(file)]) == Redirs([Redirection(file, Read)], [])
    ensures ParseRedirs([Sym('>'), Word(file)]) == Redirs([Redirection(file, Truncate)], [])
    ensures ParseRedirs([Sym('+'), Word(file)]) == Redirs([Redirection(file, Keep)], [])
  {
    var none: seq<Tok<W>> := [];
    assert [Sym('<'), Word(file)] == [Sym(SymOf(Read)), Word(file)] + none;
    assert [Sym('>'), Word(file)] == [Sym(SymOf(Truncate)), Word(file)] + none;
    assert [Sym('+'), Word(file)] == [Sym(SymOf(Keep)), Word(file)] + none;
    FirstIs(Redirection(file, Read), none);
    FirstIs(Redirection(file, Truncate), none);
    FirstIs(Redirection(file, Keep), none);
  }

  lemma FirstItem<W>(items: seq<Item<W>>, rest: seq<Tok<W>>)
    requires !(items == [] && Starts(rest, "("))
    ensures !Starts(ItemToks(items) + rest, "(")
  {
    if items == [] {
      assert ItemToks(items) + rest == rest;
    }
  }

  // ---------- the whole language is accepted ----------

  /** What a line comes to in front of `rest`. */
  function LineOutcome<W>(few: bool, cmd: Cmd<W>, rest: seq<Tok<W>>): Out<W> {
    if few then Ok(cmd, rest) else Failed(TooManyArgs)
  }

  lemma {:induction false} StageAccepted<W>(x: Stage<W>, rest: seq<Tok<W>>)
    requires EndsAt(rest, "|)&;")
    ensures ParseExec(StageToks(x) + rest) == LineOutcome(FewInStage(x), StageCmd(x), rest)
    decreases x
  {
    hide ParseRedirs, ParseArgs, ParseLine, Wrap, RedirToks;
    match x
    case Simple(items) =>
      SimpleCommand(items, rest);
    case Block(body, rs) =>
      var behind := [Sym(')')] + (RedirToks(rs) + rest);
      var ts := StageToks(x) + rest;
      LineAccepted(body, behind);
      assert ts[0] == Sym('(') && ts[1..] == LineToks(body) + behind;
      assert behind[1..] == RedirToks(rs) + rest;
      RedirsBack(rs, rest);
  }

  lemma {:induction false} PipelineAccepted<W>(x: Pipeline<W>, rest: seq<Tok<W>>)
    requires EndsAt(rest, ")&;")
    ensures ParsePipe(PipelineToks(x) + rest) == LineOutcome(FewInPipeline(x), PipelineCmd(x), rest)
    decreases x
  {
    hide ParseExec, StageToks, StageCmd;
    match x
    case Single(stage) =>
      StageAccepted(stage, rest);
    case Piped(stage, more) =>
      var behind := [Sym('|')] + (PipelineToks(more) + rest);
      assert PipelineToks(x) + rest == StageToks(stage) + behind;
      StageAccepted(stage, behind);
      assert behind[1..] == PipelineToks(more) + rest;
      PipelineAccepted(more, rest);
  }

  lemma {:induction false} AmpsAccepted<W>(n: nat, t: Cmd<W>, rest: seq<Tok<W>>)
    requires EndsAt(rest, ");")
    ensures ParseBacks(t, Amps(n) + rest) == Ok(Backs(n, t), rest) && EndsAt(Amps(n) + rest, ")&;")
    decreases n
  {
    if n == 0 {
      assert Amps(n) + rest == rest;
    } else {
      assert (Amps(n) + rest)[1..] == Amps(n - 1) + rest;
      AmpsAccepted(n - 1, Back(t), rest);
      BacksOut(n - 1, t);
    }
  }

  lemma {:induction false} BacksOut<W>(n: nat, t: Cmd<W>)
    ensures Backs(n, Back(t)) == Back(Backs(n, t))
  {
    if n > 0 { BacksOut(n - 1, t); }
  }

  /** Every line of the grammar parses to its meaning, in front of whatever can follow a line,
      or dies for the words of one of its commands. */
  lemma {:induction false} LineAccepted<W>(x: Line<W>, rest: seq<Tok<W>>)
    requires EndsAt(rest, ")")
    ensures ParseLine(LineToks(x) + rest) == LineOutcome(Few(x), LineCmd(x), rest)
    decreases x
  {
    hide ParsePipe, PipelineToks, PipelineCmd, ParseBacks, Amps, Backs;
    var p, n := x.pipeline, x.amps;
    var behind := if x.Last? then rest else [Sym(';')] + (LineToks(x.next) + rest);
    assert LineToks(x) + rest == PipelineToks(p) + (Amps(n) + behind);
    AmpsAccepted(n, PipelineCmd(p), behind);
    PipelineAccepted(p, Amps(n) + behind);
    if x.Then? {
      assert behind[1..] == LineToks(x.next) + rest;
      LineAccepted(x.next, rest);
    }
  }

  // ---------- and nothing else ----------

  /** The items that a sequence of tokens begins with. */
  function Split<W>(ts: seq<Tok<W>>): (r: (seq<Item<W>>, seq<Tok<W>>))
    ensures ts == ItemToks(r.0) + r.1 && NoItem(r.1)
    decreases |ts|
  {
    if ts != [] && ts[0].Word? then
      var (items, rest) := Split(ts[1..]);
      assert ItemToks([Arg(ts[0].w)] + items) == [ts[0]] + ItemToks(items) by {
        assert ([Arg(ts[0].w)] + items)[1..] == items;
      }
      ([Arg(ts[0].w)] + items, rest)
    else if Starts(ts, "<>+") && |ts| >= 2 && ts[1].Word? then
      var (items, rest) := Split(ts[2..]);
      var r := Redirection(ts[1].w, ModeOf(ts[0].c));
      assert ItemToks([To(r)] + items) == [ts[0], ts[1]] + ItemToks(items) by {
        assert ([To(r)] + items)[1..] == items;
      }
      ([To(r)] + items, rest)
    else ([], ts)
  }

  lemma {:induction false} RedirsRead<W>(ts: seq<Tok<W>>)
    ensures var r := ParseRedirs(ts); r.Redirs? ==> ts == RedirToks(r.list) + r.rest
    decreases |ts|
  {
    var r := ParseRedirs(ts);
    if r.Redirs? && Starts(ts, "<>+") {
      RedirsRead(ts[2..]);
      assert r.list[1..] == ParseRedirs(ts[2..]).list;
    } else if r.Redirs? {
      assert RedirToks(r.list) + r.rest == ts;
    }
  }

  lemma {:induction false} StageRead<W>(ts: seq<Tok<W>>) returns (x: Stage<W>)
    requires ParseExec(ts).Ok?
    ensures var r := ParseExec(ts); ts == StageToks(x) + r.rest && r.cmd == StageCmd(x) && FewInStage(x)
    decreases |ts|, 0
  {
    if Starts(ts, "(") {
      var inner := ParseLine(ts[1..]);
      var body := LineRead(ts[1..]);
      var rs := ParseRedirs(inner.rest[1..]);
      RedirsRead(inner.rest[1..]);
      x := Block(body, rs.list);
      hide ParseLine, ParseRedirs, RedirToks, LineToks, LineCmd, Few, Wrap;
      JoinBlock(ts, body, inner.rest, rs.list, rs.rest);
    } else {
      x := SimpleRead(ts);
    }
  }

  lemma JoinBlock<W>(ts: seq<Tok<W>>, body: Line<W>, close: seq<Tok<W>>, rs: seq<Redirection<W>>, rest: seq<Tok<W>>)
    requires Starts(ts, "(") && ts[1..] == LineToks(body) + close
    requires Starts(close, ")") && close[1..] == RedirToks(rs) + rest
    ensures ts == StageToks(Block(body, rs)) + rest
  {
    hide RedirToks, LineToks;
    assert close == [Sym(')')] + (RedirToks(rs) + rest);
    assert ts == [Sym('(')] + (LineToks(body) + ([Sym(')')] + (RedirToks(rs) + rest)));
  }

  lemma SimpleRead<W>(ts: seq<Tok<W>>) returns (x: Stage<W>)
    requires ParseExec(ts).Ok? && !Starts(ts, "(")
    ensures var r := ParseExec(ts); ts == StageToks(x) + r.rest && r.cmd == StageCmd(x) && FewInStage(x)
  {
    hide ParseExec, Split, Wrap;
    var (items, rest) := Split(ts);
    assert items == [] ==> ts == rest;
    SimpleCommand(items, rest);
    x := Simple(items);
  }

  lemma {:induction false} PipelineRead<W>(ts: seq<Tok<W>>) returns (x: Pipeline<W>)
    requires ParsePipe(ts).Ok?
    ensures var r := ParsePipe(ts); ts == PipelineToks(x) + r.rest && r.cmd == PipelineCmd(x) && FewInPipeline(x)
    decreases |ts|, 1
  {
    var left := ParseExec(ts);
    var stage := StageRead(ts);
    hide ParseExec, StageToks, StageCmd, FewInStage;
    if Starts(left.rest, "|") {
      var more := PipelineRead(left.rest[1..]);
      x := Piped(stage, more);
      JoinPipe(ts, stage, left.rest, more, ParsePipe(left.rest[1..]).rest);
    } else {
      x := Single(stage);
    }
  }

  lemma JoinPipe<W>(ts: seq<Tok<W>>, stage: Stage<W>, bar: seq<Tok<W>>, more: Pipeline<W>, rest: seq<Tok<W>>)
    requires ts == StageToks(stage) + bar && Starts(bar, "|") && bar[1..] == PipelineToks(more) + rest
    ensures ts == PipelineToks(Piped(stage, more)) + rest
  {
    hide StageToks;
    assert bar == [Sym('|')] + (PipelineToks(more) + rest);
  }

  lemma {:induction false} AmpsRead<W>(t: Cmd<W>, ts: seq<Tok<W>>) returns (n: nat)
    ensures var r := ParseBacks(t, ts); ts == Amps(n) + r.rest && r.cmd == Backs(n, t)
    decreases |ts|
  {
    if Starts(ts, "&") {
      var k := AmpsRead(Back(t), ts[1..]);
      BacksOut(k, t);
      n := k + 1;
      assert ts == [Sym('&')] + ts[1..];
    } else {
      n := 0;
    }
  }

  lemma {:induction false} LineRead<W>(ts: seq<Tok<W>>) returns (x: Line<W>)
    requires ParseLine(ts).Ok?
    ensures var r := ParseLine(ts); ts == LineToks(x) + r.rest && r.cmd == LineCmd(x) && Few(x)
    decreases |ts|, 2
  {
    var pipe := ParsePipe(ts);
    var p := PipelineRead(ts);
    var n := AmpsRead(pipe.cmd, pipe.rest);
    var left := ParseBacks(pipe.cmd, pipe.rest);
    hide ParsePipe, ParseBacks, PipelineToks, PipelineCmd, FewInPipeline, Amps, Backs;
    if Starts(left.rest, ";") {
      var next := LineRead(left.rest[1..]);
      x := Then(p, n, next);
      JoinLine(ts, p, n, left.rest, next, ParseLine(left.rest[1..]).rest);
    } else {
      x := Last(p, n);
    }
  }

  lemma JoinLine<W>(ts: seq<Tok<W>>, p: Pipeline<W>, n: nat, semi: seq<Tok<W>>, next: Line<W>, rest: seq<Tok<W>>)
    requires ts == PipelineToks(p) + (Amps(n) + semi) && Starts(semi, ";") && semi[1..] == LineToks(next) + rest
    ensures ts == LineToks(Then(p, n, next)) + rest
  {
    hide PipelineToks, Amps;
    assert semi == [Sym(';')] + (LineToks(next) + rest);
  }

  /** The parser accepts exactly the lines of the grammar with few words in every command, with
      the meaning they have there. */
  lemma AcceptsTheLanguage<W>(ts: seq<Tok<W>>, t: Cmd<W>)
    ensures ParseAll(ts) == Ok(t, []) <==> exists x: Line<W> :: ts == LineToks(x) && t == LineCmd(x) && Few(x)
  {
    hide LineToks, LineCmd, Few, ParseLine;
    if ParseAll(ts) == Ok(t, []) {
      var x := LineRead(ts);
      assert LineToks(x) + [] == LineToks(x);
    }
    if x: Line<W> :| ts == LineToks(x) && t == LineCmd(x) && Few(x) {
      LineAccepted(x, []);
      assert ts + [] == ts;
    }
  }

  /** A line of the grammar with ten words or more in one command dies for that. */
  lemma TooManyWords<W>(x: Line<W>)
    requires !Few(x)
    ensures ParseAll(LineToks(x)) == Failed(TooManyArgs)
  {
    LineAccepted(x, []);
    assert LineToks(x) + [] == LineToks(x);
  }

  /** A parenthesis that is not closed, and one that was not opened. */
  lemma Unbalanced<W>(x: Line<W>, more: seq<Tok<W>>)
    requires Few(x)
    ensures ParseAll([Sym('(')] + LineToks(x)) == Failed(MissingParen)
    ensures ParseAll(LineToks(x) + ([Sym(')')] + more)) == Failed(Syntax)
  {
    LineAccepted(x, []);
    assert LineToks(x) + [] == LineToks(x);
    var open := [Sym('(')] + LineToks(x);
    assert open[1..] == LineToks(x);
    assert ParsePipe(open) == ParseExec(open) == Failed(MissingParen);
    LineAccepted(x, [Sym(')')] + more);
  }
}
