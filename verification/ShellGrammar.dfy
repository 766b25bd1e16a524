/** user/sh.c: what a sequence of tokens means as a command, how a command is written, and
    that the one inverts the other. */
module ShellGrammar {

  const MAXARGS := 10

  /** The open modes of <, > and >>. */
  datatype Mode = Read | Truncate | Keep

  datatype Redirection<W> = Redirection(file: W, mode: Mode)

  /** struct cmd; the words are of type W: text, or places in the line. */
  datatype Cmd<W> =
    | Exec(argv: seq<W>)
    | Redir(cmd: Cmd<W>, redirection: Redirection<W>)
    | Pipe(left: Cmd<W>, right: Cmd<W>)
    | List(left: Cmd<W>, right: Cmd<W>)
    | Back(cmd: Cmd<W>)

  /** What gettoken returns; '+' is >>. */
  datatype Tok<W> = Sym(c: char) | Word(w: W)

  datatype Panic = MissingFile | Syntax | MissingParen | TooManyArgs

  datatype Out<W> = Ok(cmd: Cmd<W>, rest: seq<Tok<W>>) | Failed(panic: Panic)

  datatype Redirs<W> = Redirs(list: seq<Redirection<W>>, rest: seq<Tok<W>>) | NoFile

  // ---------- parsing tokens ----------

  predicate Starts<W>(ts: seq<Tok<W>>, cs: string) {
    ts != [] && ts[0].Sym? && ts[0].c in cs
  }

  function ModeOf(c: char): Mode {
    if c == '<' then Read else if c == '>' then Truncate else Keep
  }

  /** Redirections around a command, the first one innermost. */
  function Wrap<W>(cmd: Cmd<W>, rs: seq<Redirection<W>>): Cmd<W>
    decreases |rs|
  {
    if rs == [] then cmd else Wrap(Redir(cmd, rs[0]), rs[1..])
  }

  function ParseRedirs<W>(ts: seq<Tok<W>>): (r: Redirs<W>)
    ensures r.Redirs? ==> |r.rest| <= |ts|
  {
    if !Starts(ts, "<>+") then Redirs([], ts)
    else if |ts| < 2 || !ts[1].Word? then NoFile
    else
      var r := ParseRedirs(ts[2..]);
      if r.NoFile? then NoFile else Redirs([Redirection(ts[1].w, ModeOf(ts[0].c))] + r.list, r.rest)
  }

  function ParseArgs<W>(args: seq<W>, rs: seq<Redirection<W>>, ts: seq<Tok<W>>): (r: Out<W>)
    ensures r.Ok? ==> |r.rest| <= |ts|
    decreases |ts|
  {
    if ts == [] || Starts(ts, "|)&;") then Ok(Wrap(Exec(args), rs), ts)
    else if !ts[0].Word? then Failed(Syntax)
    else if |args| + 1 >= MAXARGS then Failed(TooManyArgs)
    else
      var more := ParseRedirs(ts[1..]);
      if more.NoFile? then Failed(MissingFile) else ParseArgs(args + [ts[0].w], rs + more.list, more.rest)
  }

  function ParseExec<W>(ts: seq<Tok<W>>): (r: Out<W>)
    ensures r.Ok? ==> |r.rest| <= |ts|
    decreases |ts|, 0
  {
    if Starts(ts, "(") then
      var inner := ParseLine(ts[1..]);
      if inner.Failed? then inner
      else if !Starts(inner.rest, ")") then Failed(MissingParen)
      else
        var rs := ParseRedirs(inner.rest[1..]);
        if rs.NoFile? then Failed(MissingFile) else Ok(Wrap(inner.cmd, rs.list), rs.rest)
    else
      var rs := ParseRedirs(ts);
      if rs.NoFile? then Failed(MissingFile) else ParseArgs([], rs.list, rs.rest)
  }

  function ParsePipe<W>(ts: seq<Tok<W>>): (r: Out<W>)
    ensures r.Ok? ==> |r.rest| <= |ts|
    decreases |ts|, 1
  {
    var left := ParseExec(ts);
    if left.Failed? || !Starts(left.rest, "|") then left
    else
      var right := ParsePipe(left.rest[1..]);
      if right.Failed? then right else Ok(Pipe(left.cmd, right.cmd), right.rest)
  }

  function ParseBacks<W>(cmd: Cmd<W>, ts: seq<Tok<W>>): (r: Out<W>)
    ensures r.Ok? && |r.rest| <= |ts|
    decreases |ts|
  {
    if Starts(ts, "&") then ParseBacks(Back(cmd), ts[1..]) else Ok(cmd, ts)
  }

  function ParseLine<W>(ts: seq<Tok<W>>): (r: Out<W>)
    ensures r.Ok? ==> |r.rest| <= |ts|
    decreases |ts|, 2
  {
    var pipe := ParsePipe(ts);
    if pipe.Failed? then pipe
    else
      var left := ParseBacks(pipe.cmd, pipe.rest);
      if !Starts(left.rest, ";") then left
      else
        var right := ParseLine(left.rest[1..]);
        if right.Failed? then right else Ok(List(left.cmd, right.cmd), right.rest)
  }

  /** A whole line leaves nothing over. */
  function ParseAll<W>(ts: seq<Tok<W>>): (r: Out<W>) {
    var r := ParseLine(ts);
    if r.Ok? && r.rest != [] then Failed(Syntax) else r
  }

  // ---------- writing commands ----------

  datatype Level = LineLevel | BackLevel | PipeLevel | ExecLevel

  /** Whether a command can stand at a level without parentheses. */
  predicate Fits<W>(level: Level, t: Cmd<W>) {
    match t
    case List(_, _) => level == LineLevel
    case Back(_) => level == LineLevel || level == BackLevel
    case Pipe(_, _) => level != ExecLevel
    case Exec(_) => true
    case Redir(_, _) => true
  }

  function SymOf(mode: Mode): char {
    match mode
    case Read => '<'
    case Truncate => '>'
    case Keep => '+'
  }

  function RedirToks<W>(rs: seq<Redirection<W>>): seq<Tok<W>> {
    if rs == [] then [] else [Sym(SymOf(rs[0].mode)), Word(rs[0].file)] + RedirToks(rs[1..])
  }

  function Words<W>(ws: seq<W>): seq<Tok<W>> {
    if ws == [] then [] else [Word(ws[0])] + Words(ws[1..])
  }

  /** The tokens of a command at a level, in parentheses where it does not fit. */
  function Print<W>(level: Level, t: Cmd<W>): seq<Tok<W>>
    decreases t, if Fits(level, t) then 0 else 1
  {
    if !Fits(level, t) then [Sym('(')] + Print(LineLevel, t) + [Sym(')')]
    else
      match t
      case Exec(argv) => Words(argv)
      case Redir(cmd, r) => Print(ExecLevel, cmd) + RedirToks([r])
      case Pipe(left, right) => Print(ExecLevel, left) + [Sym('|')] + Print(PipeLevel, right)
      case Back(cmd) => Print(BackLevel, cmd) + [Sym('&')]
      case List(left, right) => Print(BackLevel, left) + [Sym(';')] + Print(LineLevel, right)
  }

  /** At most nine arguments everywhere. */
  predicate FewArgs<W>(t: Cmd<W>) {
    match t
    case Exec(argv) => |argv| < MAXARGS
    case Redir(cmd, _) => FewArgs(cmd)
    case Pipe(left, right) => FewArgs(left) && FewArgs(right)
    case List(left, right) => FewArgs(left) && FewArgs(right)
    case Back(cmd) => FewArgs(cmd)
  }

  // ---------- parsing what was written ----------

  predicate EndsAt<W>(rest: seq<Tok<W>>, cs: string) {
    rest == [] || Starts(rest, cs)
  }

  lemma {:induction false} RedirsBack<W>(rs: seq<Redirection<W>>, rest: seq<Tok<W>>)
    requires EndsAt(rest, "|)&;")
    ensures ParseRedirs(RedirToks(rs) + rest) == Redirs(rs, rest)
  {
    hide ParseRedirs;
    if rs == [] {
      assert RedirToks(rs) + rest == rest;
      RedirsEnd(rest);
    } else {
      var r, tail := rs[0], RedirToks(rs[1..]) + rest;
      assert RedirToks(rs) + rest == [Sym(SymOf(r.mode)), Word(r.file)] + tail;
      RedirsBack(rs[1..], rest);
      OneRedir(r, rs[1..], tail, rest);
      assert [r] + rs[1..] == rs;
    }
  }

  lemma RedirsEnd<W>(ts: seq<Tok<W>>)
    requires !Starts(ts, "<>+")
    ensures ParseRedirs(ts) == Redirs([], ts)
  {
  }

  lemma OneRedir<W>(r: Redirection<W>, rs: seq<Redirection<W>>, tail: seq<Tok<W>>, rest: seq<Tok<W>>)
    requires ParseRedirs(tail) == Redirs(rs, rest)
    ensures ParseRedirs([Sym(SymOf(r.mode)), Word(r.file)] + tail) == Redirs([r] + rs, rest)
  {
    var ts := [Sym(SymOf(r.mode)), Word(r.file)] + tail;
    assert ts[2..] == tail && ts[0] == Sym(SymOf(r.mode)) && ts[1] == Word(r.file);
  }

  lemma {:induction false} ArgsBack<W>(done: seq<W>, args: seq<W>, rs: seq<Redirection<W>>, rest: seq<Tok<W>>)
    requires EndsAt(rest, "|)&;") && args != [] && |done| + |args| < MAXARGS
    ensures ParseArgs(done, [], Words(args) + (RedirToks(rs) + rest)) == Ok(Wrap(Exec(done + args), rs), rest)
    decreases |args|
  {
    hide ParseRedirs, ParseArgs, RedirToks, Wrap;
    var tail := RedirToks(rs) + rest;
    assert Words(args) + tail == [Word(args[0])] + (Words(args[1..]) + tail);
    if |args| == 1 {
      assert Words(args[1..]) + tail == tail;
      RedirsBack(rs, rest);
      OneArg(done, args[0], tail, rs, rest);
      assert done + [args[0]] == done + args;
      ArgsEnd(done + args, rs, rest);
    } else {
      var more := Words(args[1..]) + tail;
      assert more[0] == Word(args[1]);
      RedirsEnd(more);
      OneArg(done, args[0], more, [], more);
      assert done + [args[0]] + args[1..] == done + args;
      ArgsBack(done + [args[0]], args[1..], rs, rest);
    }
  }

  lemma OneArg<W>(done: seq<W>, w: W, tail: seq<Tok<W>>, rs: seq<Redirection<W>>, rest: seq<Tok<W>>)
    requires |done| + 1 < MAXARGS && ParseRedirs(tail) == Redirs(rs, rest)
    ensures ParseArgs(done, [], [Word(w)] + tail) == ParseArgs(done + [w], rs, rest)
  {
    var ts := [Word(w)] + tail;
    assert ts[0] == Word(w) && ts[1..] == tail;
    var none: seq<Redirection<W>> := [];
    assert none + rs == rs;
  }

  lemma ArgsEnd<W>(args: seq<W>, rs: seq<Redirection<W>>, rest: seq<Tok<W>>)
    requires EndsAt(rest, "|)&;")
    ensures ParseArgs(args, rs, rest) == Ok(Wrap(Exec(args), rs), rest)
  {
  }

  /** A command as what stands in front of its outermost redirections, and those. */
  function Base<W>(t: Cmd<W>): (r: Cmd<W>) {
    if t.Redir? then Base(t.cmd) else t
  }

  function Outer<W>(t: Cmd<W>): seq<Redirection<W>> {
    if t.Redir? then Outer(t.cmd) + [t.redirection] else []
  }

  lemma {:induction false} WrapSnoc<W>(t: Cmd<W>, rs: seq<Redirection<W>>, r: Redirection<W>)
    ensures Wrap(t, rs + [r]) == Redir(Wrap(t, rs), r)
    decreases |rs|
  {
    if rs == [] {
      assert Wrap(Redir(t, r), ([r])[1..]) == Redir(t, r);
    } else {
      assert (rs + [r])[1..] == rs[1..] + [r];
      WrapSnoc(Redir(t, rs[0]), rs[1..], r);
    }
  }

  lemma {:induction false} RedirToksSnoc<W>(rs: seq<Redirection<W>>, r: Redirection<W>)
    ensures RedirToks(rs + [r]) == RedirToks(rs) + RedirToks([r])
  {
    if rs != [] {
      assert (rs + [r])[1..] == rs[1..] + [r];
      RedirToksSnoc(rs[1..], r);
    } else {
      assert rs + [r] == [r];
    }
  }

  lemma {:induction false} Peel<W>(t: Cmd<W>)
    ensures t == Wrap(Base(t), Outer(t)) && Print(ExecLevel, t) == Print(ExecLevel, Base(t)) + RedirToks(Outer(t))
    ensures FewArgs(t) ==> FewArgs(Base(t))
  {
    if t.Redir? {
      Peel(t.cmd);
      WrapSnoc(Base(t.cmd), Outer(t.cmd), t.redirection);
      RedirToksSnoc(Outer(t.cmd), t.redirection);
    }
  }

  /** The size of a command, with one more for the levels at which it needs parentheses. */
  function Size<W>(t: Cmd<W>): nat {
    match t
    case Exec(_) => 1
    case Redir(cmd, _) => 1 + Size(cmd)
    case Pipe(left, right) => 1 + Size(left) + Size(right)
    case List(left, right) => 1 + Size(left) + Size(right)
    case Back(cmd) => 1 + Size(cmd)
  }

  /** How far a command is from being taken apart at a level. */
  function Rank<W>(level: Level, t: Cmd<W>): nat {
    var depth := match level case ExecLevel => 0 case PipeLevel => 1 case BackLevel => 2 case LineLevel => 3;
    if Fits(level, t) then depth else 4 + depth
  }

  lemma {:induction false} BaseSize<W>(t: Cmd<W>)
    ensures !Base(t).Redir? && if t.Redir? then Size(Base(t)) < Size(t) else Base(t) == t
  {
    if t.Redir? {
      BaseSize(t.cmd);
    }
  }

  lemma {:induction false} ExecBack<W>(t: Cmd<W>, rest: seq<Tok<W>>)
    requires FewArgs(t) && EndsAt(rest, "|)&;")
    ensures ParseExec(Print(ExecLevel, t) + rest) == Ok(t, rest)
    decreases Size(t), Rank(ExecLevel, t)
  {
    Peel(t);
    BaseSize(t);
    var b, rs := Base(t), Outer(t);
    hide ParseRedirs, ParseArgs, ParseExec, ParseLine, Wrap, Words, RedirToks;
    if b.Exec? {
      assert Print(ExecLevel, t) + rest == Words(b.argv) + (RedirToks(rs) + rest);
      SimpleBack(b.argv, rs, rest);
    } else {
      var behind := [Sym(')')] + (RedirToks(rs) + rest);
      LineBack(b, behind);
      assert Print(ExecLevel, t) + rest == [Sym('(')] + (Print(LineLevel, b) + behind);
      BlockBack(b, rs, rest);
    }
  }

  lemma SimpleBack<W>(argv: seq<W>, rs: seq<Redirection<W>>, rest: seq<Tok<W>>)
    requires |argv| < MAXARGS && EndsAt(rest, "|)&;")
    ensures ParseExec(Words(argv) + (RedirToks(rs) + rest)) == Ok(Wrap(Exec(argv), rs), rest)
  {
    var tail := RedirToks(rs) + rest;
    var ts := Words(argv) + tail;
    RedirsBack(rs, rest);
    hide RedirToks, Wrap;
    if argv == [] {
      assert ts == tail;
      NoParen(rs, rest);
      assert ParseArgs([], rs, rest) == Ok(Wrap(Exec([]), rs), rest);
    } else {
      assert ts[0] == Word(argv[0]);
      assert ParseRedirs(ts) == Redirs([], ts);
      ArgsBack([], argv, rs, rest);
      assert [] + argv == argv;
    }
  }

  lemma NoParen<W>(rs: seq<Redirection<W>>, rest: seq<Tok<W>>)
    requires EndsAt(rest, "|)&;")
    ensures !Starts(RedirToks(rs) + rest, "(")
  {
    if rs != [] {
      assert (RedirToks(rs) + rest)[0] == Sym(SymOf(rs[0].mode));
    } else {
      assert RedirToks(rs) + rest == rest;
    }
  }

  lemma BlockBack<W>(b: Cmd<W>, rs: seq<Redirection<W>>, rest: seq<Tok<W>>)
    requires EndsAt(rest, "|)&;")
    requires var behind := [Sym(')')] + (RedirToks(rs) + rest); ParseLine(Print(LineLevel, b) + behind) == Ok(b, behind)
    ensures ParseExec([Sym('(')] + (Print(LineLevel, b) + ([Sym(')')] + (RedirToks(rs) + rest)))) ==
      Ok(Wrap(b, rs), rest)
  {
    var tail := RedirToks(rs) + rest;
    var ts := [Sym('(')] + (Print(LineLevel, b) + ([Sym(')')] + tail));
    RedirsBack(rs, rest);
    hide RedirToks, Wrap, ParseRedirs, ParseLine, Print;
    assert ts[1..] == Print(LineLevel, b) + ([Sym(')')] + tail);
    assert ([Sym(')')] + tail)[1..] == tail;
  }

  lemma {:induction false} PipeBack<W>(t: Cmd<W>, rest: seq<Tok<W>>)
    requires FewArgs(t) && EndsAt(rest, ")&;")
    ensures ParsePipe(Print(PipeLevel, t) + rest) == Ok(t, rest)
    decreases Size(t), Rank(PipeLevel, t)
  {
    if t.Pipe? {
      var behind := [Sym('|')] + (Print(PipeLevel, t.right) + rest);
      assert Print(PipeLevel, t) + rest == Print(ExecLevel, t.left) + behind;
      ExecBack(t.left, behind);
      assert behind[1..] == Print(PipeLevel, t.right) + rest;
      PipeBack(t.right, rest);
    } else {
      assert Print(PipeLevel, t) == Print(ExecLevel, t);
      ExecBack(t, rest);
    }
  }

  /** The & signs behind a pipeline. */
  function AfterPipe<W>(ts: seq<Tok<W>>): (r: Out<W>) {
    var pipe := ParsePipe(ts);
    if pipe.Failed? then pipe else ParseBacks(pipe.cmd, pipe.rest)
  }

  lemma {:induction false} BackBack<W>(t: Cmd<W>, rest: seq<Tok<W>>)
    requires FewArgs(t) && EndsAt(rest, ")&;")
    ensures AfterPipe(Print(BackLevel, t) + rest) == ParseBacks(t, rest)
    decreases Size(t), Rank(BackLevel, t)
  {
    if t.Back? {
      var behind := [Sym('&')] + rest;
      assert Print(BackLevel, t) + rest == Print(BackLevel, t.cmd) + behind;
      BackBack(t.cmd, behind);
      assert behind[1..] == rest;
    } else {
      assert Print(BackLevel, t) == Print(PipeLevel, t);
      PipeBack(t, rest);
    }
  }

  lemma {:induction false} LineBack<W>(t: Cmd<W>, rest: seq<Tok<W>>)
    requires FewArgs(t) && EndsAt(rest, ")")
    ensures ParseLine(Print(LineLevel, t) + rest) == Ok(t, rest)
    decreases Size(t), Rank(LineLevel, t)
  {
    if t.List? {
      var behind := [Sym(';')] + (Print(LineLevel, t.right) + rest);
      assert Print(LineLevel, t) + rest == Print(BackLevel, t.left) + behind;
      BackBack(t.left, behind);
      assert behind[1..] == Print(LineLevel, t.right) + rest;
      LineBack(t.right, rest);
    } else {
      assert Print(LineLevel, t) == Print(BackLevel, t);
      BackBack(t, rest);
    }
  }

  // ---------- what any parse result is made of ----------

  ghost predicate ToksHave<W>(ok: W -> bool, ts: seq<Tok<W>>) {
    forall i :: 0 <= i < |ts| && ts[i].Word? ==> ok(ts[i].w)
  }

  ghost predicate RedirsHave<W>(ok: W -> bool, rs: seq<Redirection<W>>) {
    forall i :: 0 <= i < |rs| ==> ok(rs[i].file)
  }

  ghost predicate WordsHave<W>(ok: W -> bool, t: Cmd<W>) {
    match t
    case Exec(argv) => forall i :: 0 <= i < |argv| ==> ok(argv[i])
    case Redir(cmd, r) => WordsHave(ok, cmd) && ok(r.file)
    case Pipe(left, right) => WordsHave(ok, left) && WordsHave(ok, right)
    case List(left, right) => WordsHave(ok, left) && WordsHave(ok, right)
    case Back(cmd) => WordsHave(ok, cmd)
  }

  /** A command with few arguments whose words, like those left over, are all `ok`. */
  ghost predicate Made<W>(ok: W -> bool, r: Out<W>) {
    r.Ok? ==> FewArgs(r.cmd) && WordsHave(ok, r.cmd) && ToksHave(ok, r.rest)
  }

  lemma {:induction false} MadeWrap<W>(ok: W -> bool, t: Cmd<W>, rs: seq<Redirection<W>>)
    requires FewArgs(t) && WordsHave(ok, t) && RedirsHave(ok, rs)
    ensures FewArgs(Wrap(t, rs)) && WordsHave(ok, Wrap(t, rs))
    decreases |rs|
  {
    if rs != [] {
      MadeWrap(ok, Redir(t, rs[0]), rs[1..]);
    }
  }

  lemma {:induction false} MadeRedirs<W>(ok: W -> bool, ts: seq<Tok<W>>)
    requires ToksHave(ok, ts)
    ensures var r := ParseRedirs(ts); r.Redirs? ==> RedirsHave(ok, r.list) && ToksHave(ok, r.rest)
  {
    if Starts(ts, "<>+") && |ts| >= 2 && ts[1].Word? {
      MadeRedirs(ok, ts[2..]);
    }
  }

  lemma {:induction false} MadeArgs<W>(ok: W -> bool, args: seq<W>, rs: seq<Redirection<W>>, ts: seq<Tok<W>>)
    requires ToksHave(ok, ts) && RedirsHave(ok, rs) && |args| < MAXARGS && forall i :: 0 <= i < |args| ==> ok(args[i])
    ensures Made(ok, ParseArgs(args, rs, ts))
    decreases |ts|
  {
    if ts == [] || Starts(ts, "|)&;") {
      MadeWrap(ok, Exec(args), rs);
    } else if ts[0].Word? && |args| + 1 < MAXARGS {
      MadeRedirs(ok, ts[1..]);
      var more := ParseRedirs(ts[1..]);
      if more.Redirs? {
        MadeArgs(ok, args + [ts[0].w], rs + more.list, more.rest);
      }
    }
  }

  lemma {:induction false} MadeExec<W>(ok: W -> bool, ts: seq<Tok<W>>)
    requires ToksHave(ok, ts)
    ensures Made(ok, ParseExec(ts))
    decreases |ts|, 0
  {
    if Starts(ts, "(") {
      MadeLine(ok, ts[1..]);
      var inner := ParseLine(ts[1..]);
      if inner.Ok? && Starts(inner.rest, ")") {
        MadeRedirs(ok, inner.rest[1..]);
        var rs := ParseRedirs(inner.rest[1..]);
        if rs.Redirs? {
          MadeWrap(ok, inner.cmd, rs.list);
        }
      }
    } else {
      MadeRedirs(ok, ts);
      var rs := ParseRedirs(ts);
      if rs.Redirs? {
        MadeArgs(ok, [], rs.list, rs.rest);
      }
    }
  }

  lemma {:induction false} MadePipe<W>(ok: W -> bool, ts: seq<Tok<W>>)
    requires ToksHave(ok, ts)
    ensures Made(ok, ParsePipe(ts))
    decreases |ts|, 1
  {
    MadeExec(ok, ts);
    var left := ParseExec(ts);
    if left.Ok? && Starts(left.rest, "|") {
      MadePipe(ok, left.rest[1..]);
    }
  }

  lemma {:induction false} MadeBacks<W>(ok: W -> bool, t: Cmd<W>, ts: seq<Tok<W>>)
    requires ToksHave(ok, ts) && FewArgs(t) && WordsHave(ok, t)
    ensures Made(ok, ParseBacks(t, ts))
    decreases |ts|
  {
    if Starts(ts, "&") {
      MadeBacks(ok, Back(t), ts[1..]);
    }
  }

  lemma {:induction false} MadeLine<W>(ok: W -> bool, ts: seq<Tok<W>>)
    requires ToksHave(ok, ts)
    ensures Made(ok, ParseLine(ts))
    decreases |ts|, 2
  {
    MadePipe(ok, ts);
    var pipe := ParsePipe(ts);
    if pipe.Ok? {
      MadeBacks(ok, pipe.cmd, pipe.rest);
      var left := ParseBacks(pipe.cmd, pipe.rest);
      if Starts(left.rest, ";") {
        MadeLine(ok, left.rest[1..]);
      }
    }
  }

  /** Parsing gives a written command back, and it is accepted, exactly when no command in
      it has more than nine arguments. */
  lemma ParseInvertsPrint<W>(t: Cmd<W>)
    ensures ParseAll(Print(LineLevel, t)) == Ok(t, []) <==> FewArgs(t)
  {
    var ts := Print(LineLevel, t);
    if FewArgs(t) {
      LineBack(t, []);
      assert ts + [] == ts;
    }
    MadeLine((w: W) => true, ts);
  }

  // ---------- renaming words ----------

  function MapTok<V, W>(f: V -> W, tok: Tok<V>): Tok<W> {
    match tok
    case Sym(c) => Sym(c)
    case Word(w) => Word(f(w))
  }

  function MapToks<V, W>(f: V -> W, ts: seq<Tok<V>>): (r: seq<Tok<W>>)
    ensures |r| == |ts| && forall i :: 0 <= i < |ts| ==> r[i] == MapTok(f, ts[i])
  {
    seq(|ts|, i requires 0 <= i < |ts| => MapTok(f, ts[i]))
  }

  function MapRedirs<V, W>(f: V -> W, rs: seq<Redirection<V>>): (r: seq<Redirection<W>>)
    ensures |r| == |rs| && forall i :: 0 <= i < |rs| ==> r[i] == Redirection(f(rs[i].file), rs[i].mode)
  {
    seq(|rs|, i requires 0 <= i < |rs| => Redirection(f(rs[i].file), rs[i].mode))
  }

  function MapWords<V, W>(f: V -> W, ws: seq<V>): (r: seq<W>)
    ensures |r| == |ws| && forall i :: 0 <= i < |ws| ==> r[i] == f(ws[i])
  {
    seq(|ws|, i requires 0 <= i < |ws| => f(ws[i]))
  }

  function MapCmd<V, W>(f: V -> W, t: Cmd<V>): Cmd<W> {
    match t
    case Exec(argv) => Exec(MapWords(f, argv))
    case Redir(cmd, r) => Redir(MapCmd(f, cmd), Redirection(f(r.file), r.mode))
    case Pipe(left, right) => Pipe(MapCmd(f, left), MapCmd(f, right))
    case List(left, right) => List(MapCmd(f, left), MapCmd(f, right))
    case Back(cmd) => Back(MapCmd(f, cmd))
  }

  function MapOut<V, W>(f: V -> W, r: Out<V>): Out<W> {
    match r
    case Ok(cmd, rest) => Ok(MapCmd(f, cmd), MapToks(f, rest))
    case Failed(panic) => Failed(panic)
  }

  lemma MapTail<V, W>(f: V -> W, ts: seq<Tok<V>>, n: nat)
    requires n <= |ts|
    ensures MapToks(f, ts[n..]) == MapToks(f, ts)[n..]
  {
  }

  lemma {:induction false} MapWrap<V, W>(f: V -> W, t: Cmd<V>, rs: seq<Redirection<V>>)
    ensures MapCmd(f, Wrap(t, rs)) == Wrap(MapCmd(f, t), MapRedirs(f, rs))
    decreases |rs|
  {
    if rs != [] {
      assert MapRedirs(f, rs)[1..] == MapRedirs(f, rs[1..]);
      MapWrap(f, Redir(t, rs[0]), rs[1..]);
    }
  }

  lemma {:induction false} MapParseRedirs<V, W>(f: V -> W, ts: seq<Tok<V>>)
    ensures ParseRedirs(MapToks(f, ts)) ==
      match ParseRedirs(ts) case NoFile => NoFile case Redirs(l, rest) => Redirs(MapRedirs(f, l), MapToks(f, rest))
  {
    if Starts(ts, "<>+") && |ts| >= 2 && ts[1].Word? {
      MapTail(f, ts, 2);
      MapParseRedirs(f, ts[2..]);
      var r := ParseRedirs(ts[2..]);
      if r.Redirs? {
        var head := Redirection(ts[1].w, ModeOf(ts[0].c));
        assert MapRedirs(f, [head] + r.list) == [Redirection(f(head.file), head.mode)] + MapRedirs(f, r.list);
      }
    }
  }

  lemma {:induction false} MapParseArgs<V, W>(f: V -> W, args: seq<V>, rs: seq<Redirection<V>>, ts: seq<Tok<V>>)
    ensures ParseArgs(MapWords(f, args), MapRedirs(f, rs), MapToks(f, ts)) == MapOut(f, ParseArgs(args, rs, ts))
    decreases |ts|
  {
    if ts == [] || Starts(ts, "|)&;") {
      MapWrap(f, Exec(args), rs);
    } else if ts[0].Word? && |args| + 1 < MAXARGS {
      MapTail(f, ts, 1);
      MapParseRedirs(f, ts[1..]);
      var more := ParseRedirs(ts[1..]);
      if more.Redirs? {
        assert MapWords(f, args + [ts[0].w]) == MapWords(f, args) + [f(ts[0].w)];
        assert MapRedirs(f, rs + more.list) == MapRedirs(f, rs) + MapRedirs(f, more.list);
        MapParseArgs(f, args + [ts[0].w], rs + more.list, more.rest);
      }
    }
  }

  lemma {:induction false} MapParseExec<V, W>(f: V -> W, ts: seq<Tok<V>>)
    ensures ParseExec(MapToks(f, ts)) == MapOut(f, ParseExec(ts))
    decreases |ts|, 0
  {
    if Starts(ts, "(") {
      MapTail(f, ts, 1);
      MapParseLine(f, ts[1..]);
      var inner := ParseLine(ts[1..]);
      if inner.Ok? && Starts(inner.rest, ")") {
        MapTail(f, inner.rest, 1);
        MapParseRedirs(f, inner.rest[1..]);
        var rs := ParseRedirs(inner.rest[1..]);
        if rs.Redirs? {
          MapWrap(f, inner.cmd, rs.list);
        }
      }
    } else {
      MapParseRedirs(f, ts);
      var rs := ParseRedirs(ts);
      if rs.Redirs? {
        assert MapWords(f, []) == [];
        MapParseArgs(f, [], rs.list, rs.rest);
      }
    }
  }

  lemma {:induction false} MapParsePipe<V, W>(f: V -> W, ts: seq<Tok<V>>)
    ensures ParsePipe(MapToks(f, ts)) == MapOut(f, ParsePipe(ts))
    decreases |ts|, 1
  {
    MapParseExec(f, ts);
    var left := ParseExec(ts);
    if left.Ok? && Starts(left.rest, "|") {
      MapTail(f, left.rest, 1);
      MapParsePipe(f, left.rest[1..]);
    }
  }

  lemma {:induction false} MapParseBacks<V, W>(f: V -> W, t: Cmd<V>, ts: seq<Tok<V>>)
    ensures ParseBacks(MapCmd(f, t), MapToks(f, ts)) == MapOut(f, ParseBacks(t, ts))
    decreases |ts|
  {
    if Starts(ts, "&") {
      MapTail(f, ts, 1);
      MapParseBacks(f, Back(t), ts[1..]);
    }
  }

  /** The parser does not look into words. */
  lemma {:induction false} MapParseLine<V, W>(f: V -> W, ts: seq<Tok<V>>)
    ensures ParseLine(MapToks(f, ts)) == MapOut(f, ParseLine(ts))
    decreases |ts|, 2
  {
    MapParsePipe(f, ts);
    var pipe := ParsePipe(ts);
    if pipe.Ok? {
      MapParseBacks(f, pipe.cmd, pipe.rest);
      var left := ParseBacks(pipe.cmd, pipe.rest);
      if Starts(left.rest, ";") {
        MapTail(f, left.rest, 1);
        MapParseLine(f, left.rest[1..]);
      }
    }
  }
}
