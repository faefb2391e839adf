/** What a line of user/sh.c may look like, said without the parser: a concrete syntax with its tokens and the command it
    stands for. The parser's functions accept exactly the lines of this syntax and give exactly these commands. */
module ShellGrammar {
  import opened ShellSyntax

  /** A word, or a redirection with its file, of a simple command. */
  datatype Item<W> = Arg(w: W) | File(op: char, w: W)

  datatype Src<W> = Plain(items: seq<Item<W>>)
                  | Group(line: Src<W>, files: seq<Item<W>>)
                  | Piped(left: Src<W>, right: Src<W>)
                  | Amp(cmd: Src<W>)
                  | Then(left: Src<W>, right: Src<W>)

  // ---- the tokens ----

  function ItemTok<W>(x: Item<W>): (ts: seq<Tok<W>>) {
    if x.Arg? then [Word(x.w)] else [Sym(x.op), Word(x.w)]
  }

  function ItemToks<W>(items: seq<Item<W>>): (ts: seq<Tok<W>>) {
    if items == [] then [] else ItemTok(items[0]) + ItemToks(items[1..])
  }

  function Toks<W>(s: Src<W>): (ts: seq<Tok<W>>) {
    match s
    case Plain(items) => ItemToks(items)
    case Group(line, files) => [Sym('(')] + Toks(line) + [Sym(')')] + ItemToks(files)
    case Piped(l, r) => Toks(l) + [Sym('|')] + Toks(r)
    case Amp(c) => Toks(c) + [Sym('&')]
    case Then(l, r) => Toks(l) + [Sym(';')] + Toks(r)
  }

  // ---- the command ----

  function ArgOf<W>(x: Item<W>): (ws: seq<W>) {
    if x.Arg? then [x.w] else []
  }

  function Args<W>(items: seq<Item<W>>): (ws: seq<W>) {
    if items == [] then [] else ArgOf(items[0]) + Args(items[1..])
  }

  ghost predicate AllFiles<W>(items: seq<Item<W>>) {
    forall f :: f in items ==> f.File?
  }

  function FileOf<W>(x: Item<W>): (fs: seq<Item<W>>)
    ensures AllFiles(fs)
  {
    if x.File? then [x] else []
  }

  function Files<W>(items: seq<Item<W>>): (fs: seq<Item<W>>)
    ensures AllFiles(fs)
  {
    if items == [] then [] else FileOf(items[0]) + Files(items[1..])
  }

  /** The command with its redirections around it, the first innermost. */
  function Wrap<W>(c: Cmd<W>, fs: seq<Item<W>>): (r: Cmd<W>)
    requires AllFiles(fs)
  {
    if fs == [] then c else Redir(Wrap(c, fs[..|fs| - 1]), fs[|fs| - 1].w, fs[|fs| - 1].op)
  }

  ghost function Tree<W>(s: Src<W>): (c: Cmd<W>)
    requires Formed(s)
  {
    match s
    case Plain(items) => Wrap(Exec(Args(items)), Files(items))
    case Group(line, files) => Wrap(Tree(line), files)
    case Piped(l, r) => Pipe(Tree(l), Tree(r))
    case Amp(c) => Back(Tree(c))
    case Then(l, r) => List(Tree(l), Tree(r))
  }

  // ---- which of them are lines ----

  ghost predicate Ops<W>(items: seq<Item<W>>) {
    forall f :: f in items && f.File? ==> f.op in REDIRS
  }

  predicate IsSimple<W>(s: Src<W>) {
    s.Plain? || s.Group?
  }

  predicate IsPipe<W>(s: Src<W>) {
    IsSimple(s) || s.Piped?
  }

  predicate IsBack<W>(s: Src<W>) {
    IsPipe(s) || s.Amp?
  }

  /** Pipes stand between simple commands, ampersands after pipelines, semicolons between these; at most nine words. */
  ghost predicate Formed<W>(s: Src<W>) {
    match s
    case Plain(items) => Ops(items) && |Args(items)| < MAXARGS
    case Group(line, files) => Formed(line) && Ops(files) && AllFiles(files)
    case Piped(l, r) => Formed(l) && Formed(r) && IsSimple(l) && IsPipe(r)
    case Amp(c) => Formed(c) && IsBack(c)
    case Then(l, r) => Formed(l) && Formed(r) && IsBack(l)
  }

  ghost predicate Follows<W>(rest: seq<Tok<W>>, cs: set<char>) {
    rest == [] || Starts(rest, cs)
  }

  // ---- the parser reads every line ----

  /** Redirections, then words and redirections: what Simple does where no parenthesis opens. */
  function More<W>(c: Cmd<W>, argc: nat, ts: seq<Tok<W>>): (p: Parsed<W>) {
    match Redirs(c, ts)
    case Fail => Fail
    case Ok(c', rest) => ExecLoop(c', argc, rest)
  }

  lemma WrapMore<W>(c: Cmd<W>, fs: seq<Item<W>>, f: Item<W>)
    requires f.File? && AllFiles(fs)
    ensures Wrap(c, fs + [f]) == Redir(Wrap(c, fs), f.w, f.op)
  {
    assert (fs + [f])[..|fs|] == fs;
  }

  /** However many redirections are around it, the word goes to the command within. */
  lemma {:induction false} AddWithin<W>(args: seq<W>, fs: seq<Item<W>>, w: W)
    requires AllFiles(fs)
    ensures AddArg(Wrap(Exec(args), fs), w) == Wrap(Exec(args + [w]), fs)
  {
    if fs != [] {
      AddWithin(args, fs[..|fs| - 1], w);
    }
  }

  lemma RedirsOne<W>(c: Cmd<W>, f: Item<W>, rest: seq<Tok<W>>)
    requires f.File? && f.op in REDIRS
    ensures Redirs(c, [Sym(f.op), Word(f.w)] + rest) == Redirs(Redir(c, f.w, f.op), rest)
  {
    assert ([Sym(f.op), Word(f.w)] + rest)[2..] == rest;
  }

  lemma {:induction false} ReadFiles<W>(c: Cmd<W>, fs: seq<Item<W>>, done: seq<Item<W>>, rest: seq<Tok<W>>)
    requires Ops(fs) && !Starts(rest, REDIRS) && AllFiles(done) && AllFiles(fs)
    ensures AllFiles(done + fs) && Redirs(Wrap(c, done), ItemToks(fs) + rest) == Ok(Wrap(c, done + fs), rest)
    decreases |fs|
  {
    hide ItemToks, Redirs, Wrap, AllFiles, Ops, Args, Files;
    if fs == [] {
      NoItems(rest);
      assert done + fs == done;
      NoRedirs(Wrap(c, done), rest);
    } else {
      FirstFile(fs);
      UnfoldItems([], [], fs, rest);
      RedirsOne(Wrap(c, done), fs[0], ItemToks(fs[1..]) + rest);
      FilesAfter(done, fs[0]);
      WrapMore(c, done, fs[0]);
      Assoc(done, [fs[0]], fs[1..]);
      ReadFiles(c, fs[1..], done + [fs[0]], rest);
    }
  }

  lemma FirstFile<W>(fs: seq<Item<W>>)
    requires Ops(fs) && AllFiles(fs) && fs != []
    ensures fs[0].File? && fs[0].op in REDIRS && Ops(fs[1..]) && AllFiles(fs[1..]) && fs == [fs[0]] + fs[1..]
  {
    assert fs[0] in fs && forall x :: x in fs[1..] ==> x in fs;
  }

  lemma FilesAfter<W>(done: seq<Item<W>>, f: Item<W>)
    requires AllFiles(done) && f.File?
    ensures AllFiles(done + [f])
  {
  }

  lemma NoRedirs<W>(c: Cmd<W>, ts: seq<Tok<W>>)
    requires !Starts(ts, REDIRS)
    ensures Redirs(c, ts) == Ok(c, ts)
  {
  }

  lemma Assoc<T>(a: seq<T>, b: seq<T>, c: seq<T>)
    ensures a + b + c == a + (b + c)
  {
  }

  lemma UnfoldItems<W>(args: seq<W>, fs: seq<Item<W>>, items: seq<Item<W>>, rest: seq<Tok<W>>)
    requires items != []
    ensures ItemToks(items) + rest == ItemTok(items[0]) + (ItemToks(items[1..]) + rest)
    ensures args + Args(items) == args + ArgOf(items[0]) + Args(items[1..])
    ensures fs + Files(items) == fs + FileOf(items[0]) + Files(items[1..])
  {
    hide ItemTok, ArgOf, FileOf;
    var x, more := items[0], items[1..];
    Assoc(ItemTok(x), ItemToks(more), rest);
    Assoc(args, ArgOf(x), Args(more));
    Assoc(fs, FileOf(x), Files(more));
  }

  lemma MoreFile<W>(c: Cmd<W>, argc: nat, f: Item<W>, rest: seq<Tok<W>>)
    requires f.File? && f.op in REDIRS
    ensures More(c, argc, [Sym(f.op), Word(f.w)] + rest) == More(Redir(c, f.w, f.op), argc, rest)
  {
    RedirsOne(c, f, rest);
  }

  lemma MoreArg<W>(c: Cmd<W>, argc: nat, w: W, rest: seq<Tok<W>>)
    requires argc + 1 < MAXARGS
    ensures More(c, argc, [Word(w)] + rest) == More(AddArg(c, w), argc + 1, rest)
  {
    assert ([Word(w)] + rest)[1..] == rest;
  }

  /** Words and redirections in any order: the words in order, the redirections in order around them. */
  lemma {:induction false} ReadItems<W>(args: seq<W>, fs: seq<Item<W>>, items: seq<Item<W>>, rest: seq<Tok<W>>)
    requires Ops(items) && AllFiles(fs) && |args| + |Args(items)| < MAXARGS && Follows(rest, ENDS)
    ensures AllFiles(fs + Files(items))
    ensures More(Wrap(Exec(args), fs), |args|, ItemToks(items) + rest) ==
            Ok(Wrap(Exec(args + Args(items)), fs + Files(items)), rest)
    decreases |items|
  {
    if items == [] {
      assert ItemToks(items) + rest == rest && args + Args(items) == args && fs + Files(items) == fs;
    } else {
      ReadItem(args, fs, items, rest);
      ReadItems(args + ArgOf(items[0]), fs + FileOf(items[0]), items[1..], rest);
    }
  }

  lemma ReadItem<W>(args: seq<W>, fs: seq<Item<W>>, items: seq<Item<W>>, rest: seq<Tok<W>>)
    requires Ops(items) && AllFiles(fs) && |args| + |Args(items)| < MAXARGS && items != []
    ensures var args', fs' := args + ArgOf(items[0]), fs + FileOf(items[0]);
            && AllFiles(fs') && args + Args(items) == args' + Args(items[1..]) && fs + Files(items) == fs' + Files(items[1..])
            && More(Wrap(Exec(args), fs), |args|, ItemToks(items) + rest) ==
               More(Wrap(Exec(args'), fs'), |args'|, ItemToks(items[1..]) + rest)
  {
    hide More, ItemToks, Args, Files, Wrap, AddArg;
    var c, x, more := Wrap(Exec(args), fs), items[0], ItemToks(items[1..]) + rest;
    UnfoldItems(args, fs, items, rest);
    assert args + [] == args && fs + [] == fs;
    if x.File? {
      MoreFile(c, |args|, x, more);
      WrapMore(Exec(args), fs, x);
    } else {
      MoreArg(c, |args|, x.w, more);
      AddWithin(args, fs, x.w);
    }
  }

  lemma ItemsFirst<W>(items: seq<Item<W>>, rest: seq<Tok<W>>)
    requires Ops(items) && Follows(rest, ENDS)
    ensures !Starts(ItemToks(items) + rest, {'('})
  {
  }

  lemma ReadPlainSrc<W>(items: seq<Item<W>>, rest: seq<Tok<W>>)
    requires Formed(Plain(items)) && Follows(rest, ENDS)
    ensures Simple(ItemToks(items) + rest) == Ok(Tree(Plain(items)), rest)
  {
    hide ItemToks, Args, Files, ExecLoop, Redirs;
    ItemsFirst(items, rest);
    ReadItems([], [], items, rest);
    assert Wrap<W>(Exec([]), []) == Exec([]);
    assert [] + Args(items) == Args(items) && [] + Files(items) == Files(items);
  }

  lemma GroupToks<W>(line: seq<Tok<W>>, files: seq<Tok<W>>, rest: seq<Tok<W>>)
    ensures var more := [Sym(')')] + (files + rest);
            && [Sym('(')] + line + [Sym(')')] + files + rest == [Sym('(')] + (line + more)
            && ([Sym('(')] + (line + more))[1..] == line + more
            && more[1..] == files + rest
  {
  }

  lemma {:induction false} ReadSimpleSrc<W>(s: Src<W>, rest: seq<Tok<W>>)
    requires Formed(s) && IsSimple(s) && Follows(rest, ENDS)
    ensures Simple(Toks(s) + rest) == Ok(Tree(s), rest)
    decreases s, 0
  {
    hide ItemToks, Wrap, Redirs, ExecLoop, Line;
    match s
    case Plain(items) => ReadPlainSrc(items, rest);
    case Group(line, files) =>
      var fs := ItemToks(files);
      GroupToks(Toks(line), fs, rest);
      ReadLineSrc(line, [Sym(')')] + (fs + rest));
      ReadGroupFiles(Tree(line), files, rest);
  }

  lemma ReadGroupFiles<W>(c: Cmd<W>, files: seq<Item<W>>, rest: seq<Tok<W>>)
    requires Ops(files) && AllFiles(files) && !Starts(rest, REDIRS)
    ensures Redirs(c, ItemToks(files) + rest) == Ok(Wrap(c, files), rest)
  {
    hide ItemToks, Redirs;
    ReadFiles(c, files, [], rest);
    assert [] + files == files;
  }

  lemma {:induction false} ReadPipeSrc<W>(s: Src<W>, rest: seq<Tok<W>>)
    requires Formed(s) && IsPipe(s) && Follows(rest, {')', '&', ';'})
    ensures Pipeline(Toks(s) + rest) == Ok(Tree(s), rest)
    decreases s, 1
  {
    if s.Piped? {
      var more := [Sym('|')] + (Toks(s.right) + rest);
      assert Toks(s) + rest == Toks(s.left) + more;
      ReadSimpleSrc(s.left, more);
      assert more[1..] == Toks(s.right) + rest;
      ReadPipeSrc(s.right, rest);
    } else {
      ReadSimpleSrc(s, rest);
    }
  }

  lemma {:induction false} ReadBackSrc<W>(s: Src<W>, rest: seq<Tok<W>>)
    requires Formed(s) && IsBack(s) && Follows(rest, {')', '&', ';'})
    ensures var p := Pipeline(Toks(s) + rest);
            p.Ok? && Backs(p.cmd, p.rest) == Backs(Tree(s), rest)
    decreases s, 2
  {
    if s.Amp? {
      var more := [Sym('&')] + rest;
      assert Toks(s) + rest == Toks(s.cmd) + more;
      ReadBackSrc(s.cmd, more);
      assert more[1..] == rest;
    } else {
      ReadPipeSrc(s, rest);
    }
  }

  lemma {:induction false} ReadLineSrc<W>(s: Src<W>, rest: seq<Tok<W>>)
    requires Formed(s) && Follows(rest, {')'})
    ensures Line(Toks(s) + rest) == Ok(Tree(s), rest)
    decreases s, 3
  {
    if s.Then? {
      var more := [Sym(';')] + (Toks(s.right) + rest);
      assert Toks(s) + rest == Toks(s.left) + more;
      ReadBackSrc(s.left, more);
      assert more[1..] == Toks(s.right) + rest;
      ReadLineSrc(s.right, rest);
    } else {
      ReadBackSrc(s, rest);
    }
  }

  // ---- and nothing else ----

  lemma {:induction false} FindFiles<W>(c: Cmd<W>, ts: seq<Tok<W>>) returns (fs: seq<Item<W>>)
    requires Redirs(c, ts).Ok?
    ensures Ops(fs) && AllFiles(fs)
    ensures ts == ItemToks(fs) + Redirs(c, ts).rest && !Starts(Redirs(c, ts).rest, REDIRS)
    decreases |ts|
  {
    hide ItemToks;
    if Starts(ts, REDIRS) {
      var more := FindFiles(Redir(c, ts[1].w, ts[0].c), ts[2..]);
      fs := [File(ts[0].c, ts[1].w)] + more;
      assert fs[1..] == more && ts == [ts[0], ts[1]] + ts[2..];
      UnfoldItems([], [], fs, Redirs(c, ts).rest);
    } else {
      fs := [];
      NoItems(ts);
    }
  }

  lemma NoItems<W>(ts: seq<Tok<W>>)
    ensures ItemToks([]) + ts == ts
  {
  }

  lemma {:induction false} ItemToksAdd<W>(xs: seq<Item<W>>, ys: seq<Item<W>>)
    ensures ItemToks(xs + ys) == ItemToks(xs) + ItemToks(ys) && Args(xs + ys) == Args(xs) + Args(ys)
    decreases |xs|
  {
    hide ItemTok, ArgOf;
    if xs == [] {
      assert xs + ys == ys;
    } else {
      assert (xs + ys)[1..] == xs[1..] + ys && (xs + ys)[0] == xs[0];
      ItemToksAdd(xs[1..], ys);
      Assoc(ItemTok(xs[0]), ItemToks(xs[1..]), ItemToks(ys));
      Assoc(ArgOf(xs[0]), Args(xs[1..]), Args(ys));
    }
  }

  lemma {:induction false} NoArgs<W>(fs: seq<Item<W>>)
    requires AllFiles(fs)
    ensures Args(fs) == []
  {
    if fs != [] {
      assert fs[0] in fs && forall f :: f in fs[1..] ==> f in fs;
      NoArgs(fs[1..]);
    }
  }

  /** After the redirections the simple command is over, or the next token is a word of it. */
  lemma MoreSplit<W>(c: Cmd<W>, argc: nat, ts: seq<Tok<W>>)
    requires More(c, argc, ts).Ok?
    ensures Redirs(c, ts).Ok?
    ensures var p := Redirs(c, ts);
            if Follows(p.rest, ENDS) then More(c, argc, ts) == p
            else
              && p.rest[0].Word? && argc + 1 < MAXARGS
              && More(c, argc, ts) == More(AddArg(p.cmd, p.rest[0].w), argc + 1, p.rest[1..])
  {
  }

  lemma ItemsWord<W>(fs: seq<Item<W>>, w: W, items: seq<Item<W>>, rest: seq<Tok<W>>)
    requires AllFiles(fs) && Ops(fs) && Ops(items)
    ensures var more := [Arg(w)] + items;
            && Ops(fs + more) && |Args(fs + more)| == 1 + |Args(items)|
            && ItemToks(fs + more) + rest == ItemToks(fs) + ([Word(w)] + (ItemToks(items) + rest))
  {
    hide ItemToks, Args, Files;
    NoArgs(fs);
    var more := [Arg(w)] + items;
    ItemToksAdd(fs, more);
    UnfoldItems([], [], more, rest);
    assert more[1..] == items && [] + Args(more) == Args(more);
    Assoc(ItemToks(fs), ItemToks(more), rest);
  }

  lemma {:induction false} FindItems<W>(c: Cmd<W>, argc: nat, ts: seq<Tok<W>>) returns (items: seq<Item<W>>)
    requires More(c, argc, ts).Ok? && argc < MAXARGS
    ensures Ops(items) && argc + |Args(items)| < MAXARGS
    ensures ts == ItemToks(items) + More(c, argc, ts).rest && Follows(More(c, argc, ts).rest, ENDS)
    decreases |ts|
  {
    hide More, ItemToks, Args, AddArg;
    MoreSplit(c, argc, ts);
    var fs := FindFiles(c, ts);
    NoArgs(fs);
    var p := Redirs(c, ts);
    if Follows(p.rest, ENDS) {
      items := fs;
    } else {
      var w := p.rest[0].w;
      var more := FindItems(AddArg(p.cmd, w), argc + 1, p.rest[1..]);
      items := fs + ([Arg(w)] + more);
      ItemsWord(fs, w, more, More(c, argc, ts).rest);
      assert p.rest == [Word(w)] + p.rest[1..];
    }
  }

  lemma Joined<T>(ts: seq<T>, xs: seq<T>, rest: seq<T>, x: T, ys: seq<T>, zs: seq<T>)
    requires ts == xs + rest && rest != [] && rest[0] == x && rest[1..] == ys + zs
    ensures ts == xs + [x] + ys + zs
  {
  }

  lemma FindPlain<W>(ts: seq<Tok<W>>) returns (s: Src<W>)
    requires Simple(ts).Ok? && !Starts(ts, {'('})
    ensures Formed(s) && IsSimple(s) && ts == Toks(s) + Simple(ts).rest && Simple(ts).cmd == Tree(s)
  {
    hide ItemToks, Args, Files, Redirs, ExecLoop;
    var items := FindItems(Exec([]), 0, ts);
    s := Plain(items);
    ReadPlainSrc(items, Simple(ts).rest);
  }

  lemma {:induction false} FindSimple<W>(ts: seq<Tok<W>>) returns (s: Src<W>)
    requires Simple(ts).Ok?
    ensures Formed(s) && IsSimple(s) && ts == Toks(s) + Simple(ts).rest && Simple(ts).cmd == Tree(s)
    decreases |ts|, 1
  {
    hide ItemToks, Redirs, ExecLoop, Wrap, Line;
    if Starts(ts, {'('}) {
      var line := FindLine(ts[1..]);
      var p := Line(ts[1..]);
      var files := FindFiles(p.cmd, p.rest[1..]);
      var rest := Redirs(p.cmd, p.rest[1..]).rest;
      s := Group(line, files);
      ReadGroupFiles(p.cmd, files, rest);
      assert ts == [Sym('(')] + ts[1..];
      Joined(ts, [Sym('(')] + Toks(line), p.rest, Sym(')'), ItemToks(files), rest);
    } else {
      s := FindPlain(ts);
    }
  }

  lemma {:induction false} FindPipe<W>(ts: seq<Tok<W>>) returns (s: Src<W>)
    requires Pipeline(ts).Ok?
    ensures Formed(s) && IsPipe(s) && ts == Toks(s) + Pipeline(ts).rest && Pipeline(ts).cmd == Tree(s)
    decreases |ts|, 2
  {
    hide Simple;
    var left := FindSimple(ts);
    var rest := Simple(ts).rest;
    if Starts(rest, {'|'}) {
      var right := FindPipe(rest[1..]);
      Joined(ts, Toks(left), rest, Sym('|'), Toks(right), Pipeline(ts).rest);
      s := Piped(left, right);
    } else {
      s := left;
    }
  }

  lemma {:induction false} FindBacks<W>(s: Src<W>, ts: seq<Tok<W>>) returns (r: Src<W>)
    requires Formed(s) && IsBack(s)
    ensures Formed(r) && IsBack(r) && Toks(s) + ts == Toks(r) + Backs(Tree(s), ts).1 && Backs(Tree(s), ts).0 == Tree(r)
    decreases |ts|
  {
    r := s;
    if Starts(ts, {'&'}) {
      r := FindBacks(Amp(s), ts[1..]);
      assert ts == [Sym('&')] + ts[1..];
      assert Toks(s) + ts == Toks(Amp(s)) + ts[1..];
    }
  }

  /** What the parser reads off the front of the input is a line. */
  lemma {:induction false} FindLine<W>(ts: seq<Tok<W>>) returns (s: Src<W>)
    requires Line(ts).Ok?
    ensures Formed(s) && ts == Toks(s) + Line(ts).rest && Line(ts).cmd == Tree(s)
    decreases |ts|, 3
  {
    hide Pipeline, Backs;
    var first := FindPipe(ts);
    var p := Pipeline(ts);
    var left := FindBacks(first, p.rest);
    var rest := Backs(p.cmd, p.rest).1;
    if Starts(rest, {';'}) {
      var right := FindLine(rest[1..]);
      Joined(ts, Toks(left), rest, Sym(';'), Toks(right), Line(ts).rest);
      s := Then(left, right);
    } else {
      s := left;
    }
  }

  /** These tokens are a line that stands for c. */
  ghost predicate Means<W(!new)>(ts: seq<Tok<W>>, c: Cmd<W>) {
    exists s :: Formed(s) && Toks(s) == ts && Tree(s) == c
  }

  /** The parser uses the tokens up and gives c exactly if they are a line that stands for c. */
  lemma LineIff<W(!new)>(ts: seq<Tok<W>>, c: Cmd<W>)
    ensures Line(ts) == Ok(c, []) <==> Means(ts, c)
  {
    if Line(ts) == Ok(c, []) {
      var s := FindLine(ts);
      assert Toks(s) + [] == Toks(s);
    }
    forall s: Src<W> | Formed(s) && Toks(s) == ts ensures Line(ts) == Ok(Tree(s), []) {
      ReadLineSrc(s, []);
      assert Toks(s) + [] == Toks(s);
    }
  }

  // ---- every command can be written ----

  /** The commands with few enough words, and redirections of the three kinds. */
  predicate Writable<W>(t: Cmd<W>) {
    match t
    case Exec(args) => |args| < MAXARGS
    case Redir(cmd, _, op) => op in REDIRS && Writable(cmd)
    case Pipe(l, r) => Writable(l) && Writable(r)
    case List(l, r) => Writable(l) && Writable(r)
    case Back(cmd) => Writable(cmd)
  }

  function ArgItems<W>(args: seq<W>): (items: seq<Item<W>>)
    ensures |items| == |args| && forall i :: 0 <= i < |args| ==> items[i] == Arg(args[i])
  {
    seq(|args|, i requires 0 <= i < |args| => Arg(args[i]))
  }

  /** One way to write a command: with all the parentheses there can be. */
  function Write<W>(t: Cmd<W>): (s: Src<W>) {
    match t
    case Exec(args) => Plain(ArgItems(args))
    case Redir(cmd, file, op) => Group(Write(cmd), [File(op, file)])
    case Pipe(l, r) => Piped(Group(Write(l), []), Group(Write(r), []))
    case List(l, r) => Then(Group(Write(l), []), Group(Write(r), []))
    case Back(cmd) => Amp(Group(Write(cmd), []))
  }

  lemma {:induction false} ArgItemsAre<W>(args: seq<W>)
    ensures Args(ArgItems(args)) == args && Files(ArgItems(args)) == []
    decreases |args|
  {
    if args != [] {
      assert ArgItems(args)[1..] == ArgItems(args[1..]);
      ArgItemsAre(args[1..]);
    }
  }

  lemma {:induction false} Written<W>(t: Cmd<W>)
    requires Writable(t)
    ensures Formed(Write(t)) && Tree(Write(t)) == t
  {
    match t
    case Exec(args) => ArgItemsAre(args);
    case Redir(cmd, file, op) =>
      Written(cmd);
      WrapMore(cmd, [], File(op, file));
      assert [] + [File(op, file)] == [File(op, file)];
    case Pipe(l, r) => Written(l); Written(r);
    case List(l, r) => Written(l); Written(r);
    case Back(cmd) => Written(cmd);
  }

  /** The commands that lines stand for are the writable ones. */
  lemma {:induction false} Meant<W>(s: Src<W>)
    requires Formed(s)
    ensures Writable(Tree(s))
  {
    match s
    case Plain(items) =>
      FilesAmong(items);
      WrapWritable(Exec(Args(items)), Files(items), items);
    case Group(line, files) =>
      Meant(line);
      WrapWritable(Tree(line), files, files);
    case Piped(l, r) => Meant(l); Meant(r);
    case Amp(c) => Meant(c);
    case Then(l, r) => Meant(l); Meant(r);
  }

  lemma {:induction false} FilesAmong<W>(items: seq<Item<W>>)
    ensures forall f :: f in Files(items) ==> f in items
  {
    if items != [] {
      FilesAmong(items[1..]);
      assert forall f :: f in items[1..] ==> f in items;
    }
  }

  lemma {:induction false} WrapWritable<W>(c: Cmd<W>, fs: seq<Item<W>>, items: seq<Item<W>>)
    requires Writable(c) && AllFiles(fs) && Ops(items) && forall f :: f in fs ==> f in items
    ensures Writable(Wrap(c, fs))
    decreases |fs|
  {
    if fs != [] {
      assert fs[|fs| - 1] in fs && forall f :: f in fs[..|fs| - 1] ==> f in fs;
      WrapWritable(c, fs[..|fs| - 1], items);
    }
  }

  /** There is a line that the parser uses up and reads as t exactly if t is writable. */
  lemma MeansSome<W(!new)>(t: Cmd<W>)
    ensures (exists ts :: Line(ts) == Ok(t, [])) <==> Writable(t)
  {
    if Writable(t) {
      Written(t);
      LineIff(Toks(Write(t)), t);
    }
    forall ts: seq<Tok<W>> | Line(ts) == Ok(t, []) ensures Writable(t) {
      LineIff(ts, t);
      var s :| Formed(s) && Toks(s) == ts && Tree(s) == t;
      Meant(s);
    }
  }
}
