/** The grammar of user/sh.c over tokens. A word is of any type W: its text, or where it lies in the input. */
module ShellSyntax {

  const MAXARGS := 10

  /** Sym('+') stands for ">>". */
  datatype Tok<W> = Word(w: W) | Sym(c: char)

  datatype Cmd<W> = Exec(args: seq<W>)
                  | Redir(cmd: Cmd<W>, file: W, op: char)
                  | Pipe(left: Cmd<W>, right: Cmd<W>)
                  | List(left: Cmd<W>, right: Cmd<W>)
                  | Back(cmd: Cmd<W>)

  datatype Parsed<W> = Fail | Ok(cmd: Cmd<W>, rest: seq<Tok<W>>)

  predicate Starts<W>(ts: seq<Tok<W>>, cs: set<char>) {
    ts != [] && ts[0].Sym? && ts[0].c in cs
  }

  const REDIRS: set<char> := {'<', '>', '+'}
  const ENDS: set<char> := {'|', ')', '&', ';'}

  // ---- the parser's functions, on tokens ----

  function Redirs<W>(c: Cmd<W>, ts: seq<Tok<W>>): (p: Parsed<W>)
    ensures p.Ok? ==> |p.rest| <= |ts|
    decreases |ts|
  {
    if !Starts(ts, REDIRS) then Ok(c, ts)
    else if |ts| < 2 || !ts[1].Word? then Fail
    else Redirs(Redir(c, ts[1].w, ts[0].c), ts[2..])
  }

  /** The word goes to the innermost command, which the redirections read so far enclose. */
  function AddArg<W>(c: Cmd<W>, w: W): (r: Cmd<W>) {
    match c
    case Exec(args) => Exec(args + [w])
    case Redir(cmd, file, op) => Redir(AddArg(cmd, w), file, op)
    case _ => c
  }

  function ExecLoop<W>(c: Cmd<W>, argc: nat, ts: seq<Tok<W>>): (p: Parsed<W>)
    ensures p.Ok? ==> |p.rest| <= |ts|
    decreases |ts|
  {
    if ts == [] || Starts(ts, ENDS) then Ok(c, ts)
    else if !ts[0].Word? || argc + 1 >= MAXARGS then Fail
    else
      match Redirs(AddArg(c, ts[0].w), ts[1..])
      case Fail => Fail
      case Ok(c', rest) => ExecLoop(c', argc + 1, rest)
  }

  function Simple<W>(ts: seq<Tok<W>>): (p: Parsed<W>)
    ensures p.Ok? ==> |p.rest| <= |ts|
    decreases |ts|, 1
  {
    if Starts(ts, {'('}) then Block(ts)
    else
      match Redirs(Exec([]), ts)
      case Fail => Fail
      case Ok(c, rest) => ExecLoop(c, 0, rest)
  }

  function Block<W>(ts: seq<Tok<W>>): (p: Parsed<W>)
    requires Starts(ts, {'('})
    ensures p.Ok? ==> |p.rest| < |ts|
    decreases |ts|, 0
  {
    match Line(ts[1..])
    case Fail => Fail
    case Ok(c, rest) => if Starts(rest, {')'}) then Redirs(c, rest[1..]) else Fail
  }

  function Pipeline<W>(ts: seq<Tok<W>>): (p: Parsed<W>)
    ensures p.Ok? ==> |p.rest| <= |ts|
    decreases |ts|, 2
  {
    match Simple(ts)
    case Fail => Fail
    case Ok(c, rest) =>
      if !Starts(rest, {'|'}) then Ok(c, rest)
      else
        match Pipeline(rest[1..])
        case Fail => Fail
        case Ok(c', rest') => Ok(Pipe(c, c'), rest')
  }

  function Backs<W>(c: Cmd<W>, ts: seq<Tok<W>>): (r: (Cmd<W>, seq<Tok<W>>))
    ensures |r.1| <= |ts|
    decreases |ts|
  {
    if Starts(ts, {'&'}) then Backs(Back(c), ts[1..]) else (c, ts)
  }

  function Line<W>(ts: seq<Tok<W>>): (p: Parsed<W>)
    ensures p.Ok? ==> |p.rest| <= |ts|
    decreases |ts|, 3
  {
    match Pipeline(ts)
    case Fail => Fail
    case Ok(c, rest) =>
      var (c', rest') := Backs(c, rest);
      if !Starts(rest', {';'}) then Ok(c', rest')
      else
        match Line(rest'[1..])
        case Fail => Fail
        case Ok(c'', rest'') => Ok(List(c', c''), rest'')
  }

  // ---- words of one kind for words of another ----

  function MapTok<W, V>(f: W -> V, t: Tok<W>): (u: Tok<V>) {
    match t
    case Word(w) => Word(f(w))
    case Sym(c) => Sym(c)
  }

  function MapToks<W, V>(f: W -> V, ts: seq<Tok<W>>): (us: seq<Tok<V>>)
    ensures |us| == |ts| && forall i :: 0 <= i < |ts| ==> us[i] == MapTok(f, ts[i])
  {
    seq(|ts|, i requires 0 <= i < |ts| => MapTok(f, ts[i]))
  }

  function MapArgs<W, V>(f: W -> V, args: seq<W>): (r: seq<V>)
    ensures |r| == |args| && forall i :: 0 <= i < |args| ==> r[i] == f(args[i])
  {
    seq(|args|, i requires 0 <= i < |args| => f(args[i]))
  }

  function MapCmd<W, V>(f: W -> V, c: Cmd<W>): (r: Cmd<V>) {
    match c
    case Exec(args) => Exec(MapArgs(f, args))
    case Redir(cmd, file, op) => Redir(MapCmd(f, cmd), f(file), op)
    case Pipe(l, r) => Pipe(MapCmd(f, l), MapCmd(f, r))
    case List(l, r) => List(MapCmd(f, l), MapCmd(f, r))
    case Back(cmd) => Back(MapCmd(f, cmd))
  }

  function MapParsed<W, V>(f: W -> V, p: Parsed<W>): (r: Parsed<V>) {
    match p
    case Fail => Fail
    case Ok(c, rest) => Ok(MapCmd(f, c), MapToks(f, rest))
  }

  lemma MapRest<W, V>(f: W -> V, ts: seq<Tok<W>>, n: nat)
    requires n <= |ts|
    ensures MapToks(f, ts)[n..] == MapToks(f, ts[n..])
  {
  }

  lemma {:induction false} MapRedirs<W, V>(f: W -> V, c: Cmd<W>, ts: seq<Tok<W>>)
    ensures Redirs(MapCmd(f, c), MapToks(f, ts)) == MapParsed(f, Redirs(c, ts))
    decreases |ts|
  {
    if Starts(ts, REDIRS) && |ts| >= 2 && ts[1].Word? {
      MapRest(f, ts, 2);
      MapRedirs(f, Redir(c, ts[1].w, ts[0].c), ts[2..]);
    }
  }

  lemma {:induction false} MapAddArg<W, V>(f: W -> V, c: Cmd<W>, w: W)
    ensures AddArg(MapCmd(f, c), f(w)) == MapCmd(f, AddArg(c, w))
  {
    match c
    case Exec(args) => assert MapArgs(f, args + [w]) == MapArgs(f, args) + [f(w)];
    case Redir(cmd, _, _) => MapAddArg(f, cmd, w);
    case _ =>
  }

  lemma {:induction false} MapExecLoop<W, V>(f: W -> V, c: Cmd<W>, argc: nat, ts: seq<Tok<W>>)
    ensures ExecLoop(MapCmd(f, c), argc, MapToks(f, ts)) == MapParsed(f, ExecLoop(c, argc, ts))
    decreases |ts|
  {
    hide Redirs, AddArg, MapCmd;
    if ts != [] && ts[0].Word? && argc + 1 < MAXARGS {
      MapRest(f, ts, 1);
      MapAddArg(f, c, ts[0].w);
      MapRedirs(f, AddArg(c, ts[0].w), ts[1..]);
      var p := Redirs(AddArg(c, ts[0].w), ts[1..]);
      if p.Ok? {
        MapExecLoop(f, p.cmd, argc + 1, p.rest);
      }
    }
  }

  lemma {:induction false} MapBacks<W, V>(f: W -> V, c: Cmd<W>, ts: seq<Tok<W>>)
    ensures Backs(MapCmd(f, c), MapToks(f, ts)) == (MapCmd(f, Backs(c, ts).0), MapToks(f, Backs(c, ts).1))
    decreases |ts|
  {
    if Starts(ts, {'&'}) {
      MapRest(f, ts, 1);
      MapBacks(f, Back(c), ts[1..]);
    }
  }

  lemma {:induction false} MapSimple<W, V>(f: W -> V, ts: seq<Tok<W>>)
    ensures Simple(MapToks(f, ts)) == MapParsed(f, Simple(ts))
    decreases |ts|, 1
  {
    if Starts(ts, {'('}) {
      MapRest(f, ts, 1);
      MapLine(f, ts[1..]);
      var p := Line(ts[1..]);
      if p.Ok? && Starts(p.rest, {')'}) {
        MapRest(f, p.rest, 1);
        MapRedirs(f, p.cmd, p.rest[1..]);
      }
    } else {
      assert MapCmd(f, Exec([])) == Exec([]);
      MapRedirs(f, Exec([]), ts);
      var p := Redirs(Exec([]), ts);
      if p.Ok? {
        MapExecLoop(f, p.cmd, 0, p.rest);
      }
    }
  }

  lemma {:induction false} MapPipeline<W, V>(f: W -> V, ts: seq<Tok<W>>)
    ensures Pipeline(MapToks(f, ts)) == MapParsed(f, Pipeline(ts))
    decreases |ts|, 2
  {
    MapSimple(f, ts);
    var p := Simple(ts);
    if p.Ok? && Starts(p.rest, {'|'}) {
      MapRest(f, p.rest, 1);
      MapPipeline(f, p.rest[1..]);
    }
  }

  /** The parser treats words as they come. */
  lemma {:induction false} MapLine<W, V>(f: W -> V, ts: seq<Tok<W>>)
    ensures Line(MapToks(f, ts)) == MapParsed(f, Line(ts))
    decreases |ts|, 3
  {
    MapPipeline(f, ts);
    var p := Pipeline(ts);
    if p.Ok? {
      MapBacks(f, p.cmd, p.rest);
      var (c, rest) := Backs(p.cmd, p.rest);
      if Starts(rest, {';'}) {
        MapRest(f, rest, 1);
        MapLine(f, rest[1..]);
      }
    }
  }
}
