/** The tokens of user/sh.c: where they lie in the input. */
module ShellTokens {
  import opened ShellSyntax
  import opened ShellGrammar

  const NUL := '\0'
  const BLANKS: set<char> := {' ', '\t', '\r', '\n', '\U{0B}'}
  const SYMBOLS: set<char> := {'<', '|', '>', '&', ';', '(', ')'}

  /** The word from q up to eq. */
  datatype Span = Span(q: nat, eq: nat)

  predicate Ordinary(c: char) {
    c != NUL && c !in BLANKS && c !in SYMBOLS
  }

  function Skip(s: string, i: nat): (j: nat)
    requires i <= |s|
    ensures i <= j <= |s| && (j < |s| ==> s[j] !in BLANKS) && forall k :: i <= k < j ==> s[k] in BLANKS
    decreases |s| - i
  {
    if i < |s| && s[i] in BLANKS then Skip(s, i + 1) else i
  }

  function WordEnd(s: string, i: nat): (j: nat)
    requires i <= |s|
    ensures i <= j <= |s| && (j < |s| ==> s[j] in BLANKS || s[j] in SYMBOLS)
    ensures forall k :: i <= k < j ==> s[k] !in BLANKS && s[k] !in SYMBOLS
    decreases |s| - i
  {
    if i < |s| && s[i] !in BLANKS && s[i] !in SYMBOLS then WordEnd(s, i + 1) else i
  }

  /** A maximal run of plain characters. */
  predicate WordAt(s: string, w: Span) {
    && w.q < w.eq <= |s| && (forall k :: w.q <= k < w.eq ==> Ordinary(s[k]))
    && (w.eq < |s| ==> s[w.eq] in BLANKS || s[w.eq] in SYMBOLS)
  }

  function TokenAt(s: string, j: nat): (t: Tok<Span>)
    requires j < |s|
  {
    if s[j] == '>' then Sym(if j + 1 < |s| && s[j + 1] == '>' then '+' else '>')
    else if s[j] in SYMBOLS then Sym(s[j])
    else Word(Span(j, WordEnd(s, j)))
  }

  function TokenEnd(s: string, j: nat): (e: nat)
    requires j < |s| && s[j] !in BLANKS
    ensures j < e <= |s|
  {
    if s[j] == '>' && j + 1 < |s| && s[j + 1] == '>' then j + 2
    else if s[j] in SYMBOLS then j + 1
    else WordEnd(s, j)
  }

  function Tokens(s: string, i: nat): (ts: seq<Tok<Span>>)
    requires i <= |s|
    decreases |s| - i
  {
    var j := Skip(s, i);
    if j == |s| then [] else [TokenAt(s, j)] + Tokens(s, TokenEnd(s, j))
  }

  lemma SkipAgain(s: string, i: nat)
    requires i <= |s|
    ensures Skip(s, Skip(s, i)) == Skip(s, i) && Tokens(s, Skip(s, i)) == Tokens(s, i)
  {
  }

  /** The character that begins a symbol. */
  function First(c: char): (d: char) {
    if c == '+' then '>' else c
  }

  ghost predicate AllWords(s: string, c: Cmd<Span>) {
    match c
    case Exec(args) => forall k :: 0 <= k < |args| ==> WordAt(s, args[k])
    case Redir(cmd, file, _) => AllWords(s, cmd) && WordAt(s, file)
    case Pipe(l, r) => AllWords(s, l) && AllWords(s, r)
    case List(l, r) => AllWords(s, l) && AllWords(s, r)
    case Back(cmd) => AllWords(s, cmd)
  }

  // ---- spelling tokens out ----

  function Spelling(t: Tok<string>): (w: string) {
    match t
    case Word(w) => w
    case Sym(c) => if c == '+' then ">>" else [c]
  }

  predicate Proper(t: Tok<string>) {
    match t
    case Word(w) => w != "" && forall k :: 0 <= k < |w| ==> Ordinary(w[k])
    case Sym(c) => c in SYMBOLS + {'+'}
  }

  predicate Blank(gap: string) {
    forall k :: 0 <= k < |gap| ==> gap[k] in BLANKS
  }

  /** Two tokens that would be taken for others if nothing stood between them. */
  predicate Clash(t: Tok<string>, u: Tok<string>) {
    (t.Word? && u.Word?) || (t == Sym('>') && (u == Sym('>') || u == Sym('+')))
  }

  /** Tokens, each followed by a gap. */
  function Laid(ts: seq<Tok<string>>, gaps: seq<string>): (s: string)
    requires |gaps| == |ts|
  {
    if ts == [] then "" else Spelling(ts[0]) + gaps[0] + Laid(ts[1..], gaps[1..])
  }

  /** The gaps are blank, and there where they must be. */
  ghost predicate Spaced(ts: seq<Tok<string>>, gaps: seq<string>)
    ensures Spaced(ts, gaps) ==> |gaps| == |ts|
  {
    && |gaps| == |ts|
    && (forall k :: 0 <= k < |ts| ==> Proper(ts[k]) && Blank(gaps[k]))
    && (forall k :: 0 <= k < |ts| - 1 && gaps[k] == "" ==> !Clash(ts[k], ts[k + 1]))
  }

  lemma SpacedRest(ts: seq<Tok<string>>, gaps: seq<string>)
    requires Spaced(ts, gaps) && ts != []
    ensures Spaced(ts[1..], gaps[1..]) && Proper(ts[0]) && Blank(gaps[0])
    ensures |ts| > 1 && gaps[0] == "" ==> Proper(ts[1]) && !Clash(ts[0], ts[1])
  {
  }

  lemma {:induction false} LaidNoNul(ts: seq<Tok<string>>, gaps: seq<string>)
    requires Spaced(ts, gaps)
    ensures NUL !in Laid(ts, gaps)
  {
    hide Proper, Spelling, Spaced;
    if ts != [] {
      SpacedRest(ts, gaps);
      SpellingNoNul(ts[0]);
      LaidNoNul(ts[1..], gaps[1..]);
    }
  }

  lemma SpellingNoNul(t: Tok<string>)
    requires Proper(t)
    ensures NUL !in Spelling(t)
  {
  }

  function Text(s: string): (f: Span -> string) {
    (w: Span) => if w.q <= w.eq <= |s| then s[w.q..w.eq] else ""
  }

  /** The tokens of a line, as they read. */
  function Texts(s: string): (ts: seq<Tok<string>>) {
    MapToks(Text(s), Tokens(s, 0))
  }

  /** What may come right after a token. */
  predicate Ended(t: Tok<string>, after: string) {
    after != "" ==> if t.Word? then after[0] in BLANKS || after[0] in SYMBOLS else t == Sym('>') ==> after[0] != '>'
  }

  lemma LaidEnded(ts: seq<Tok<string>>, gaps: seq<string>)
    requires Spaced(ts, gaps) && ts != []
    ensures Ended(ts[0], gaps[0] + Laid(ts[1..], gaps[1..]))
  {
    hide Spaced;
    SpacedRest(ts, gaps);
    if gaps[0] == "" && |ts| > 1 {
      assert Laid(ts[1..], gaps[1..])[0] == Spelling(ts[1])[0];
    }
  }

  /** Tokens laid out on a line, with blanks where there must be some and wherever else there may, are found again. */
  lemma {:induction false} Lexes(s: string, i: nat, ts: seq<Tok<string>>, gaps: seq<string>)
    requires Spaced(ts, gaps) && i <= |s| && s[i..] == Laid(ts, gaps)
    ensures MapToks(Text(s), Tokens(s, i)) == ts
    decreases |ts|
  {
    hide Tokens, Text, MapToks, Spelling, TokenAt, Proper, Spaced;
    if ts == [] {
      NoTokens(s, i);
    } else {
      var w, g, rest := Spelling(ts[0]), gaps[0], Laid(ts[1..], gaps[1..]);
      SpacedRest(ts, gaps);
      LaidEnded(ts, gaps);
      assert w + g + rest == w + (g + rest);
      LexesOne(s, i, ts[0], g + rest);
      AfterGap(s, i, w, g, rest);
      Lexes(s, i + |w| + |g|, ts[1..], gaps[1..]);
      SkipGap(s, i + |w|, |g|);
      TokensStep(s, i);
      assert ts == [ts[0]] + ts[1..];
    }
  }

  lemma NoTokens(s: string, i: nat)
    requires i <= |s| && s[i..] == ""
    ensures Tokens(s, i) == []
  {
    assert i == |s|;
  }

  lemma AfterGap(s: string, i: nat, w: string, g: string, rest: string)
    requires i <= |s| && s[i..] == w + g + rest && Blank(g)
    ensures i + |w| + |g| <= |s| && s[i + |w| + |g|..] == rest && forall k :: i + |w| <= k < i + |w| + |g| ==> s[k] in BLANKS
  {
    assert s[i + |w| + |g|..] == s[i..][|w| + |g|..];
    assert forall k :: i + |w| <= k < i + |w| + |g| ==> s[k] == s[i..][k - i] == g[k - i - |w|];
  }

  lemma TokensStep(s: string, i: nat)
    requires i < |s| && s[i] !in BLANKS
    ensures MapToks(Text(s), Tokens(s, i)) == [MapTok(Text(s), TokenAt(s, i))] + MapToks(Text(s), Tokens(s, TokenEnd(s, i)))
  {
    assert Skip(s, i) == i;
  }

  lemma {:induction false} SkipGap(s: string, i: nat, n: nat)
    requires i + n <= |s| && forall k :: i <= k < i + n ==> s[k] in BLANKS
    ensures Tokens(s, i) == Tokens(s, i + n)
    decreases n
  {
    if n > 0 {
      SkipGap(s, i + 1, n - 1);
    }
  }

  lemma LexesOne(s: string, i: nat, t: Tok<string>, after: string)
    requires i <= |s| && Proper(t) && s[i..] == Spelling(t) + after && Ended(t, after)
    ensures var n := |Spelling(t)|;
            && 0 < n && i + n <= |s| && s[i] !in BLANKS
            && MapTok(Text(s), TokenAt(s, i)) == t && TokenEnd(s, i) == i + n
  {
    var n, w := |Spelling(t)|, Spelling(t);
    assert i + n < |s| ==> s[i + n] == s[i..][n] == after[0];
    assert forall k :: 0 <= k < n ==> s[i + k] == s[i..][k] == w[k];
    if t.Word? {
      WordEndIs(s, i, i + n);
      assert s[i..i + n] == w;
    }
  }

  lemma WordEndIs(s: string, i: nat, j: nat)
    requires i <= j <= |s| && (j < |s| ==> s[j] in BLANKS || s[j] in SYMBOLS)
    requires forall k :: i <= k < j ==> s[k] !in BLANKS && s[k] !in SYMBOLS
    ensures WordEnd(s, i) == j
  {
  }

  /** Every line is laid out in this way, so the lemma above speaks of all of them. */
  lemma {:induction false} Lays(s: string, i: nat) returns (gaps: seq<string>)
    requires i <= |s| && NUL !in s && Skip(s, i) == i
    ensures var ts := MapToks(Text(s), Tokens(s, i)); Spaced(ts, gaps) && s[i..] == Laid(ts, gaps)
    decreases |s| - i
  {
    hide MapToks, TokenAt, Text, Proper, Spaced, Clash;
    if i == |s| {
      gaps := [];
      NothingLaid(s);
    } else {
      var e := TokenEnd(s, i);
      var j := Skip(s, e);
      SkipAgain(s, e);
      var more := Lays(s, j);
      gaps := [s[e..j]] + more;
      TokensStep(s, i);
      LaysOne(s, i, e, j, more);
    }
  }

  lemma NothingLaid(s: string)
    ensures var ts := MapToks(Text(s), Tokens(s, |s|)); Spaced(ts, []) && s[|s|..] == Laid(ts, [])
  {
  }

  lemma SpacedMore(t: Tok<string>, gap: string, us: seq<Tok<string>>, more: seq<string>)
    requires Spaced(us, more) && Proper(t) && Blank(gap) && (us != [] && gap == "" ==> !Clash(t, us[0]))
    ensures Spaced([t] + us, [gap] + more) && Laid([t] + us, [gap] + more) == Spelling(t) + gap + Laid(us, more)
  {
    hide Proper, Clash, Spelling;
    var ts, gaps := [t] + us, [gap] + more;
    assert ts[1..] == us && gaps[1..] == more;
    forall k | 0 <= k < |ts| ensures Proper(ts[k]) && Blank(gaps[k]) {
      assert k > 0 ==> ts[k] == us[k - 1] && gaps[k] == more[k - 1];
    }
    forall k | 0 <= k < |ts| - 1 && gaps[k] == "" ensures !Clash(ts[k], ts[k + 1]) {
      assert k > 0 ==> ts[k] == us[k - 1] && gaps[k] == more[k - 1] && ts[k + 1] == us[k];
    }
  }

  lemma LaysOne(s: string, i: nat, e: nat, j: nat, more: seq<string>)
    requires i < |s| && NUL !in s && s[i] !in BLANKS && e == TokenEnd(s, i) && j == Skip(s, e)
    requires var ts := MapToks(Text(s), Tokens(s, j)); Spaced(ts, more) && s[j..] == Laid(ts, more)
    ensures var ts := [MapTok(Text(s), TokenAt(s, i))] + MapToks(Text(s), Tokens(s, j));
            Spaced(ts, [s[e..j]] + more) && s[i..] == Laid(ts, [s[e..j]] + more)
  {
    hide Tokens, Spaced, Laid, Proper, Spelling, Clash, TokenAt, TokenEnd, Text, MapToks, MapTok, Skip;
    var t, us := MapTok(Text(s), TokenAt(s, i)), MapToks(Text(s), Tokens(s, j));
    SpellsAt(s, i);
    Cut(s, i, e, j);
    if us != [] && e == j {
      NoClash(s, i, e);
    }
    SpacedMore(t, s[e..j], us, more);
  }

  lemma Cut(s: string, i: nat, e: nat, j: nat)
    requires i <= e <= j <= |s|
    ensures s[i..] == s[i..e] + s[e..j] + s[j..]
  {
  }

  /** Where no blank stands between two tokens, none is needed. */
  lemma NoClash(s: string, i: nat, e: nat)
    requires i < |s| && s[i] !in BLANKS && e == TokenEnd(s, i) && Skip(s, e) == e && Tokens(s, e) != []
    ensures var us := MapToks(Text(s), Tokens(s, e));
            us != [] && !Clash(MapTok(Text(s), TokenAt(s, i)), us[0])
  {
    hide Tokens;
    if e == |s| {
      NoTokens(s, e);
    }
    NextToken(s, e);
  }

  /** A token is spelled as it stands there. */
  lemma SpellsAt(s: string, i: nat)
    requires i < |s| && s[i] !in BLANKS && NUL !in s
    ensures Proper(MapTok(Text(s), TokenAt(s, i))) && Spelling(MapTok(Text(s), TokenAt(s, i))) == s[i..TokenEnd(s, i)]
  {
    assert TokenAt(s, i).Sym? && TokenAt(s, i).c == '+' ==> s[i..i + 2] == ">>";
  }

  lemma NextToken(s: string, i: nat)
    requires i < |s| && s[i] !in BLANKS
    ensures Tokens(s, i) != [] && Tokens(s, i)[0] == TokenAt(s, i)
  {
    assert Skip(s, i) == i;
  }

  // ---- the round trip ----

  /** However a command is written and laid out, parsing the line uses it up and gives the command, with each word where
      it lies. */
  lemma RoundTrip(src: Src<string>, lead: string, gaps: seq<string>)
    requires Formed(src) && Spaced(Toks(src), gaps) && Blank(lead)
    ensures var s := lead + Laid(Toks(src), gaps);
            var p := Line(Tokens(s, 0));
            p.Ok? && p.rest == [] && MapCmd(Text(s), p.cmd) == Tree(src)
  {
    hide Tokens, Laid, Spaced, Toks, Line, Tree, MapCmd;
    var ts := Toks(src);
    var s := lead + Laid(ts, gaps);
    assert s[|lead|..] == Laid(ts, gaps) && forall k :: 0 <= k < |lead| ==> s[k] == lead[k];
    Lexes(s, |lead|, ts, gaps);
    SkipGap(s, 0, |lead|);
    ReadLineSrc(src, []);
    assert ts + [] == ts;
    MapLine(Text(s), Tokens(s, 0));
  }
}

/** The recursive-descent parser of user/sh.c, and the NULs it writes into its input. */
module Shell {
  import opened ShellSyntax
  import opened ShellGrammar
  import opened ShellTokens

  type Command = Cmd<Span>

  /** The input, and how far it has been read. A method that returns false has panicked. */
  class Parser {
    const s: string
    var ps: nat

    ghost predicate Valid()
      reads this
    {
      ps <= |s| && NUL !in s
    }

    ghost function Left(): (ts: seq<Tok<Span>>)
      requires Valid()
      reads this
    {
      Tokens(s, ps)
    }

    constructor (s: string)
      requires NUL !in s
      ensures Valid() && this.s == s && ps == 0
    {
      this.s, ps := s, 0;
    }

    method SkipBlanks()
      requires Valid()
      modifies this
      ensures Valid() && ps == Skip(s, old(ps)) && Left() == old(Left())
    {
      SkipAgain(s, ps);
      while ps < |s| && s[ps] in BLANKS
        invariant Valid() && Skip(s, ps) == Skip(s, old(ps))
      {
        ps := ps + 1;
      }
    }

    /** The next token: 'a' for a word, '+' for ">>", NUL at the end, and otherwise the symbol itself. */
    method Gettoken() returns (ret: char, q: nat, eq: nat)
      requires Valid()
      modifies this
      ensures Valid()
      ensures old(Left()) == [] ==> ret == NUL && Left() == []
      ensures old(Left()) != [] ==> Left() == old(Left())[1..]
      ensures old(Left()) != [] && old(Left())[0].Sym? ==> ret == old(Left())[0].c && ret !in {NUL, 'a'}
      ensures old(Left()) != [] && old(Left())[0].Word? ==>
                ret == 'a' && old(Left())[0].w == Span(q, eq) && WordAt(s, Span(q, eq))
    {
      hide Tokens;
      SkipBlanks();
      q := ps;
      Unfold(s, ps);
      if ps == |s| {
        return NUL, q, q;
      }
      ret := s[ps];
      if ret == '>' {
        ps := ps + 1;
        if ps < |s| && s[ps] == '>' {
          ret := '+';
          ps := ps + 1;
        }
      } else if ret in SYMBOLS {
        ps := ps + 1;
      } else {
        ret := 'a';
        while ps < |s| && s[ps] !in BLANKS && s[ps] !in SYMBOLS
          invariant Valid() && WordEnd(s, ps) == WordEnd(s, q)
        {
          ps := ps + 1;
        }
      }
      eq := ps;
      assert ps == TokenEnd(s, q);
      SkipBlanks();
    }

    method Peek(toks: set<char>) returns (b: bool)
      requires Valid() && toks <= SYMBOLS
      modifies this
      ensures Valid() && ps == Skip(s, ps) && Left() == old(Left())
      ensures b <==> Left() != [] && Left()[0].Sym? && First(Left()[0].c) in toks
    {
      hide Tokens;
      SkipBlanks();
      SkipAgain(s, old(ps));
      Unfold(s, ps);
      b := ps < |s| && s[ps] in toks;
    }

    method Parseredirs(cmd: Command) returns (ok: bool, c: Command)
      requires Valid() && AllWords(s, cmd)
      modifies this
      ensures Valid() && Follow(s, Redirs(cmd, old(Left())), ok, c, Left())
    {
      hide Tokens, WordAt;
      c := cmd;
      while true
        invariant Valid() && AllWords(s, c) && Redirs(c, Left()) == Redirs(cmd, old(Left()))
        decreases |Left()|
      {
        var more := Peek({'<', '>'});
        if !more {
          return true, c;
        }
        var tok, _, _ := Gettoken();
        var a, q, eq := Gettoken();
        if a != 'a' {
          return false, c;
        }
        c := Redir(c, Span(q, eq), tok);
      }
    }

    method Parseblock() returns (ok: bool, c: Command)
      requires Valid()
      // parseblock panics if it is not called at a parenthesis.
      requires Starts(Left(), {'('})
      modifies this
      ensures Valid() && Follow(s, Block(old(Left())), ok, c, Left())
      decreases |Left()|, 0
    {
      hide Tokens, AllWords;
      var open := Peek({'('});
      var _, _, _ := Gettoken();
      ok, c := Parseline();
      if !ok {
        return;
      }
      var close := Peek({')'});
      if !close {
        return false, c;
      }
      var _, _, _ := Gettoken();
      ok, c := Parseredirs(c);
    }

    method Parseexec() returns (ok: bool, c: Command)
      requires Valid()
      modifies this
      ensures Valid() && Follow(s, Simple(old(Left())), ok, c, Left())
      decreases |Left()|, 1
    {
      hide Tokens, WordAt;
      var open := Peek({'('});
      if open {
        ok, c := Parseblock();
        return;
      }
      ok, c := Parseredirs(Exec([]));
      if !ok {
        return;
      }
      ok, c := Parsewords(c);
    }

    /** The loop of parseexec(), which also takes the redirections between and after the words. */
    method Parsewords(cmd: Command) returns (ok: bool, c: Command)
      requires Valid() && AllWords(s, cmd)
      modifies this
      ensures Valid() && Follow(s, ExecLoop(cmd, 0, old(Left())), ok, c, Left())
    {
      hide Tokens, WordAt, AllWords;
      c := cmd;
      var argc := 0;
      while true
        invariant Valid() && AllWords(s, c)
        invariant ExecLoop(c, argc, Left()) == ExecLoop(cmd, 0, old(Left()))
        decreases |Left()|
      {
        var stop := Peek({'|', ')', '&', ';'});
        if stop {
          break;
        }
        var tok, q, eq := Gettoken();
        if tok == NUL {
          break;
        }
        if tok != 'a' {
          return false, c;
        }
        AddWord(s, c, Span(q, eq));
        c := AddArg(c, Span(q, eq));
        argc := argc + 1;
        if argc >= MAXARGS {
          return false, c;
        }
        ok, c := Parseredirs(c);
        if !ok {
          return;
        }
      }
      ok := true;
    }

    method Parsepipe() returns (ok: bool, c: Command)
      requires Valid()
      modifies this
      ensures Valid() && Follow(s, Pipeline(old(Left())), ok, c, Left())
      decreases |Left()|, 2
    {
      hide Tokens, WordAt;
      ok, c := Parseexec();
      if !ok {
        return;
      }
      var bar := Peek({'|'});
      if bar {
        var _, _, _ := Gettoken();
        var right;
        ok, right := Parsepipe();
        if !ok {
          return;
        }
        c := Pipe(c, right);
      }
    }

    method Parseline() returns (ok: bool, c: Command)
      requires Valid()
      modifies this
      ensures Valid() && Follow(s, Line(old(Left())), ok, c, Left())
      decreases |Left()|, 3
    {
      hide Tokens, WordAt;
      ok, c := Parsepipe();
      if !ok {
        return;
      }
      ghost var b := Backs(c, Left());
      while true
        invariant Valid() && AllWords(s, c) && Backs(c, Left()) == b && |Left()| <= |old(Left())|
        decreases |Left()|
      {
        var amp := Peek({'&'});
        if !amp {
          break;
        }
        var _, _, _ := Gettoken();
        c := Back(c);
      }
      var semi := Peek({';'});
      if semi {
        var _, _, _ := Gettoken();
        var right;
        ok, right := Parseline();
        if !ok {
          return;
        }
        c := List(c, right);
      }
    }
  }

  lemma AddWord(s: string, c: Command, w: Span)
    requires AllWords(s, c) && WordAt(s, w)
    ensures AllWords(s, AddArg(c, w))
  {
  }

  // ---- NULs ----

  /** The positions after the words of a command. */
  function Ends(c: Command): (es: set<nat>) {
    match c
    case Exec(args) => set k | 0 <= k < |args| :: args[k].eq
    case Redir(cmd, file, _) => Ends(cmd) + {file.eq}
    case Pipe(l, r) => Ends(l) + Ends(r)
    case List(l, r) => Ends(l) + Ends(r)
    case Back(cmd) => Ends(cmd)
  }

  /** nulterminate(): a NUL after each word, and nothing else. */
  method Nulterminate(buf: array<char>, c: Command)
    requires forall e :: e in Ends(c) ==> e < buf.Length
    modifies buf
    ensures forall i :: 0 <= i < buf.Length ==> buf[i] == if i in Ends(c) then NUL else old(buf[i])
  {
    match c
    case Exec(args) =>
      for i := 0 to |args|
        invariant forall j :: 0 <= j < buf.Length ==>
                    buf[j] == if exists k :: 0 <= k < i && args[k].eq == j then NUL else old(buf[j])
      {
        assert args[i].eq in Ends(c);
        buf[args[i].eq] := NUL;
      }
    case Redir(cmd, file, _) =>
      assert Ends(c) == Ends(cmd) + {file.eq};
      Nulterminate(buf, cmd);
      buf[file.eq] := NUL;
    case Pipe(l, r) =>
      assert Ends(c) == Ends(l) + Ends(r);
      Nulterminate(buf, l);
      Nulterminate(buf, r);
    case List(l, r) =>
      assert Ends(c) == Ends(l) + Ends(r);
      Nulterminate(buf, l);
      Nulterminate(buf, r);
    case Back(cmd) =>
      assert Ends(c) == Ends(cmd);
      Nulterminate(buf, cmd);
  }

  /** The C string that starts at q. */
  function CString(b: seq<char>, q: nat): (t: string)
    decreases |b| - q
  {
    if q >= |b| || b[q] == NUL then "" else [b[q]] + CString(b, q + 1)
  }

  /** A word as its pointer reads. */
  function ReadFrom(b: seq<char>): (f: Span -> string) {
    (w: Span) => CString(b, w.q)
  }

  lemma CStringIs(b: seq<char>, q: nat, e: nat)
    requires q <= e < |b| && b[e] == NUL && NUL !in b[q..e]
    ensures CString(b, q) == b[q..e]
    decreases e - q
  {
    if q < e {
      assert b[q] == b[q..e][0] && b[q..e][1..] == b[q + 1..e];
      CStringIs(b, q + 1, e);
    }
  }

  lemma EndsAre(s: string, c: Command, e: nat)
    requires AllWords(s, c) && e in Ends(c)
    ensures e <= |s| && (e < |s| ==> !Ordinary(s[e]))
  {
  }

  /** In the buffer with the NULs written, a word's pointer reads as its text. */
  lemma WordReads(s: string, c: Command, b: seq<char>, w: Span)
    requires AllWords(s, c) && WordAt(s, w) && w.eq in Ends(c) && |s| < |b|
    requires forall i :: 0 <= i < |s| ==> b[i] == if i in Ends(c) then NUL else s[i]
    requires |s| in Ends(c) ==> b[|s|] == NUL
    ensures CString(b, w.q) == s[w.q..w.eq]
  {
    forall i | w.q <= i < w.eq ensures b[i] == s[i] != NUL {
      if i in Ends(c) {
        EndsAre(s, c, i);
      }
    }
    assert b[w.q..w.eq] == s[w.q..w.eq];
    CStringIs(b, w.q, w.eq);
  }

  /** So the command read through its pointers is the command read off the line before. */
  lemma {:induction false} CommandReads(s: string, whole: Command, b: seq<char>, c: Command)
    requires AllWords(s, whole) && AllWords(s, c) && Ends(c) <= Ends(whole) && |s| < |b|
    requires forall i :: 0 <= i < |s| ==> b[i] == if i in Ends(whole) then NUL else s[i]
    requires |s| in Ends(whole) ==> b[|s|] == NUL
    ensures MapCmd(ReadFrom(b), c) == MapCmd(Text(s), c)
    decreases c
  {
    match c
    case Exec(args) =>
      forall k | 0 <= k < |args| ensures CString(b, args[k].q) == Text(s)(args[k]) {
        assert args[k].eq in Ends(c);
        WordReads(s, whole, b, args[k]);
      }
    case Redir(cmd, file, _) =>
      assert file.eq in Ends(c);
      WordReads(s, whole, b, file);
      CommandReads(s, whole, b, cmd);
    case Pipe(l, r) =>
      CommandReads(s, whole, b, l);
      CommandReads(s, whole, b, r);
    case List(l, r) =>
      CommandReads(s, whole, b, l);
      CommandReads(s, whole, b, r);
    case Back(cmd) =>
      CommandReads(s, whole, b, cmd);
  }

  /** parsecmd() of the line in the first n characters of the buffer. */
  method Parsecmd(buf: array<char>, n: nat) returns (ok: bool, c: Command)
    requires n < buf.Length && buf[n] == NUL && NUL !in buf[..n]
    modifies buf
    ensures var p := Line(Tokens(old(buf[..n]), 0));
            && (ok <==> p.Ok? && p.rest == [])
            && (ok ==> c == p.cmd && MapCmd(ReadFrom(buf[..]), c) == MapCmd(Text(old(buf[..n])), c))
    ensures ok <==> exists t :: Means(Texts(old(buf[..n])), t)
    ensures ok ==> Means(Texts(old(buf[..n])), MapCmd(ReadFrom(buf[..]), c))
  {
    hide Tokens, MapCmd, Means;
    var s := buf[..n];
    TextsMean(s);
    var parser := new Parser(s);
    ok, c := parser.Parseline();
    if !ok {
      return;
    }
    var _ := parser.Peek({});
    Unfold(s, parser.ps);
    if parser.ps != |s| {
      return false, c;
    }
    forall e | e in Ends(c) ensures e <= |s| {
      EndsAre(s, c, e);
    }
    Nulterminate(buf, c);
    CommandReads(s, c, buf[..], c);
  }

  /** What a line stands for can be read off its texts or off its spans. */
  lemma TextsMean(s: string)
    ensures var p := Line(Tokens(s, 0));
            && ((p.Ok? && p.rest == []) <==> exists t :: Means(Texts(s), t))
            && (p.Ok? && p.rest == [] ==> Means(Texts(s), MapCmd(Text(s), p.cmd)))
  {
    hide Tokens, MapCmd, Means, Line;
    var p := Line(Tokens(s, 0));
    MapLine(Text(s), Tokens(s, 0));
    if p.Ok? && p.rest == [] {
      LineIff(Texts(s), MapCmd(Text(s), p.cmd));
    }
    forall t | Means(Texts(s), t) ensures p.Ok? && p.rest == [] {
      LineIff(Texts(s), t);
    }
  }

  /** A command, however written and laid out, is read through its pointers as itself. */
  method ParseWritten(src: Src<string>, lead: string, gaps: seq<string>, buf: array<char>) returns (c: Command)
    requires Formed(src) && Spaced(Toks(src), gaps) && Blank(lead)
    requires var s := lead + Laid(Toks(src), gaps);
             |s| < buf.Length && buf[|s|] == NUL && buf[..|s|] == s
    modifies buf
    ensures MapCmd(ReadFrom(buf[..]), c) == Tree(src)
  {
    hide Tokens, MapCmd, Line, Laid, Toks, Tree, Means, Spaced;
    RoundTrip(src, lead, gaps);
    LaidNoNul(Toks(src), gaps);
    var ok;
    ok, c := Parsecmd(buf, |lead| + |Laid(Toks(src), gaps)|);
  }

  /** The method's result is that of the grammar's function, and its words are words of the input. */
  ghost predicate Follow(s: string, p: Parsed<Span>, ok: bool, c: Command, left: seq<Tok<Span>>) {
    (ok <==> p.Ok?) && (ok ==> p == Ok(c, left) && AllWords(s, c))
  }

  /** What is at the front, when blanks have been skipped. */
  lemma Unfold(s: string, i: nat)
    requires i <= |s| && Skip(s, i) == i && NUL !in s
    ensures i == |s| ==> Tokens(s, i) == []
    ensures i < |s| ==> s[i] !in BLANKS && Tokens(s, i) == [TokenAt(s, i)] + Tokens(s, TokenEnd(s, i))
    ensures i < |s| && TokenAt(s, i).Word? ==> WordAt(s, TokenAt(s, i).w)
  {
  }
}
