/** The regular expressions of user/grep.c: what they mean, and that the matcher decides it. A C string is the
    sequence of its characters before the NUL, and a pointer into a text is an index. */
module Regex {

  datatype Atom = Char(c: char) | Dot

  datatype Item = One(a: Atom) | Star(a: Atom) | End

  /** A pattern is a list of items, to be found at the start of the text or anywhere in it. */
  datatype Pattern = Pattern(anchored: bool, items: seq<Item>)

  function AtomOf(c: char): (a: Atom) {
    if c == '.' then Dot else Char(c)
  }

  function Items(re: string): (items: seq<Item>)
    ensures |items| <= |re|
  {
    if re == [] then []
    else if |re| >= 2 && re[1] == '*' then [Star(AtomOf(re[0]))] + Items(re[2..])
    else if re == "$" then [End]
    else [One(AtomOf(re[0]))] + Items(re[1..])
  }

  function Parse(re: string): (p: Pattern) {
    if re != [] && re[0] == '^' then Pattern(true, Items(re[1..])) else Pattern(false, Items(re))
  }

  // ---- how patterns are written ----

  function Letter(a: Atom): (c: char) {
    if a.Dot? then '.' else a.c
  }

  function Written(items: seq<Item>): (re: string) {
    if items == [] then ""
    else (match items[0] case One(a) => [Letter(a)] case Star(a) => [Letter(a), '*'] case End => "$") + Written(items[1..])
  }

  function WrittenPattern(p: Pattern): (re: string) {
    if p.anchored then "^" + Written(p.items) else Written(p.items)
  }

  /** A full stop is always the dot. */
  predicate Sayable(a: Atom) {
    a != Char('.')
  }

  /** The items that can be written: the end comes last, no plain character comes right before an asterisk, and the last
      one is no plain dollar. */
  ghost predicate Writable(items: seq<Item>) {
    items != [] ==>
      && Writable(items[1..])
      && match items[0]
         case One(a) => Sayable(a) && (if |items| == 1 then a != Char('$') else Written(items[1..])[0] != '*')
         case Star(a) => Sayable(a)
         case End => |items| == 1
  }

  ghost predicate WritablePattern(p: Pattern) {
    Writable(p.items) && (p.anchored || p.items == [] || Written(p.items)[0] != '^')
  }

  lemma WrittenSome(items: seq<Item>)
    requires items != []
    ensures Written(items) != ""
  {
  }

  /** What is written is read back. */
  lemma {:induction false} ItemsWritten(items: seq<Item>)
    requires Writable(items)
    ensures Items(Written(items)) == items
  {
    if items != [] {
      var re, rest := Written(items), Written(items[1..]);
      ItemsWritten(items[1..]);
      match items[0]
      case One(a) => assert re[1..] == rest && AtomOf(re[0]) == a;
      case Star(a) => assert re[2..] == rest && AtomOf(re[0]) == a;
      case End => assert re == "$";
    }
  }

  /** And every string is what some pattern is written as. */
  lemma {:induction false} WrittenItems(re: string)
    ensures Writable(Items(re)) && Written(Items(re)) == re
    decreases |re|
  {
    if re != [] {
      var items := Items(re);
      if |re| >= 2 && re[1] == '*' {
        WrittenItems(re[2..]);
        assert items[1..] == Items(re[2..]) && re == [re[0], '*'] + re[2..];
      } else if re == "$" {
        assert items[1..] == [];
      } else {
        WrittenItems(re[1..]);
        assert items[1..] == Items(re[1..]) && re == [re[0]] + re[1..];
      }
    }
  }

  /** Reading a pattern undoes writing it, and the other way round. */
  lemma ParseIff(re: string, p: Pattern)
    ensures Parse(re) == p <==> WritablePattern(p) && WrittenPattern(p) == re
  {
    hide Items, Written, Writable;
    if WritablePattern(p) && WrittenPattern(p) == re {
      ItemsWritten(p.items);
      assert p.anchored ==> re[1..] == Written(p.items);
      if !p.anchored && p.items == [] {
        NothingWritten();
      }
    }
    if re != [] && re[0] == '^' {
      WrittenItems(re[1..]);
      assert re == "^" + re[1..];
    } else {
      WrittenItems(re);
      if Items(re) != [] {
        WrittenSome(Items(re));
      }
    }
  }

  lemma NothingWritten()
    ensures Written([]) == ""
  {
  }

  // ---- what patterns mean ----

  predicate Accepts(a: Atom, ch: char) {
    a == Dot || a == Char(ch)
  }

  /** The item matches exactly the characters from i up to j. */
  predicate Spans(item: Item, text: string, i: nat, j: nat) {
    && i <= j <= |text|
    && match item
       case One(a) => j == i + 1 && Accepts(a, text[i])
       case Star(a) => forall k :: i <= k < j ==> Accepts(a, text[k])
       case End => i == j == |text|
  }

  /** A placement cuts the text into consecutive pieces, one for each item. */
  ghost predicate Placement(items: seq<Item>, text: string, cuts: seq<nat>) {
    && |cuts| == |items| + 1 && cuts[0] <= |text|
    && forall k :: 0 <= k < |items| ==> Spans(items[k], text, cuts[k], cuts[k + 1])
  }

  ghost predicate MatchesAt(items: seq<Item>, text: string, i: nat) {
    exists cuts: seq<nat> :: Placement(items, text, cuts) && cuts[0] == i
  }

  /** The items match at the start, or, if the pattern is not anchored, anywhere. */
  ghost predicate Fits(p: Pattern, text: string) {
    exists i: nat :: i <= |text| && (p.anchored ==> i == 0) && MatchesAt(p.items, text, i)
  }

  ghost predicate Matches(re: string, text: string) {
    Fits(Parse(re), text)
  }

  lemma NoItems(text: string, i: nat)
    ensures MatchesAt([], text, i) <==> i <= |text|
  {
    if i <= |text| {
      var cuts := [i];
      assert Placement([], text, cuts);
    }
  }

  /** The first item takes a piece, and the others match from there. */
  lemma FirstItem(item: Item, items: seq<Item>, text: string, i: nat)
    ensures MatchesAt([item] + items, text, i) <==> exists j: nat :: Spans(item, text, i, j) && MatchesAt(items, text, j)
  {
    if MatchesAt([item] + items, text, i) {
      var cuts :| Placement([item] + items, text, cuts) && cuts[0] == i;
      Split(item, items, text, cuts);
    }
    if j: nat :| Spans(item, text, i, j) && MatchesAt(items, text, j) {
      var cuts :| Placement(items, text, cuts) && cuts[0] == j;
      Join(item, items, text, i, cuts);
    }
  }

  lemma Split(item: Item, items: seq<Item>, text: string, cuts: seq<nat>)
    requires Placement([item] + items, text, cuts)
    ensures Spans(item, text, cuts[0], cuts[1]) && MatchesAt(items, text, cuts[1])
  {
    var all, rest := [item] + items, cuts[1..];
    assert Spans(all[0], text, cuts[0], cuts[1]);
    forall k | 0 <= k < |items| ensures Spans(items[k], text, rest[k], rest[k + 1]) {
      assert Spans(all[k + 1], text, cuts[k + 1], cuts[k + 2]);
    }
    assert Placement(items, text, rest);
  }

  lemma Join(item: Item, items: seq<Item>, text: string, i: nat, cuts: seq<nat>)
    requires Placement(items, text, cuts) && Spans(item, text, i, cuts[0])
    ensures MatchesAt([item] + items, text, i)
  {
    var all, more := [item] + items, [i] + cuts;
    forall k | 0 <= k < |all| ensures Spans(all[k], text, more[k], more[k + 1]) {
      if k > 0 {
        assert Spans(items[k - 1], text, cuts[k - 1], cuts[k]);
      }
    }
    assert Placement(all, text, more);
  }

  method Match(re: string, text: string) returns (b: bool)
    ensures b <==> Matches(re, text)
    ensures forall p :: WritablePattern(p) && WrittenPattern(p) == re ==> (b <==> Fits(p, text))
  {
    forall p | WritablePattern(p) && WrittenPattern(p) == re ensures Parse(re) == p {
      ParseIff(re, p);
    }
    if re != [] && re[0] == '^' {
      b := MatchHere(re[1..], text, 0);
      return;
    }
    var t := 0;
    while true
      invariant t <= |text| && forall i: nat :: i < t ==> !MatchesAt(Items(re), text, i)
      decreases |text| - t
    {
      b := MatchHere(re, text, t);
      if b {
        return;
      }
      if t == |text| {
        break;
      }
      t := t + 1;
    }
    return false;
  }

  /** Does the pattern match the text at t? */
  method MatchHere(re: string, text: string, t: nat) returns (b: bool)
    requires t <= |text|
    ensures b <==> MatchesAt(Items(re), text, t)
    decreases |re|, 1
  {
    hide MatchesAt, Spans;
    if re == [] {
      NoItems(text, t);
      return true;
    }
    if |re| >= 2 && re[1] == '*' {
      FirstItem(Star(AtomOf(re[0])), Items(re[2..]), text, t);
      b := MatchStar(re[0], re[2..], text, t);
      return;
    }
    if re == "$" {
      AtEnd(text, t);
      return t == |text|;
    }
    FirstItem(One(AtomOf(re[0])), Items(re[1..]), text, t);
    OneSpan(AtomOf(re[0]), text, t);
    AcceptsChar(re[0], text, t);
    if t < |text| && (re[0] == '.' || re[0] == text[t]) {
      b := MatchHere(re[1..], text, t + 1);
      return;
    }
    return false;
  }

  lemma AtEnd(text: string, t: nat)
    requires t <= |text|
    ensures MatchesAt([End], text, t) <==> t == |text|
  {
    FirstItem(End, [], text, t);
    assert [End] == [End] + [];
    NoItems(text, t);
    if t == |text| {
      assert Spans(End, text, t, t);
    }
  }

  lemma OneSpan(a: Atom, text: string, t: nat)
    ensures forall j: nat :: Spans(One(a), text, t, j) <==> t < |text| && j == t + 1 && Accepts(a, text[t])
  {
  }

  lemma AcceptsChar(c: char, text: string, t: nat)
    ensures t < |text| ==> (Accepts(AtomOf(c), text[t]) <==> c == '.' || c == text[t])
  {
  }

  /** Does a piece of characters that c accepts, followed by the pattern, match the text at t? */
  method MatchStar(c: char, re: string, text: string, t: nat) returns (b: bool)
    requires t <= |text|
    ensures b <==> exists j: nat :: Spans(Star(AtomOf(c)), text, t, j) && MatchesAt(Items(re), text, j)
    decreases |re|, 2
  {
    var u := t;
    while true
      invariant t <= u <= |text| && Spans(Star(AtomOf(c)), text, t, u)
      invariant forall j: nat :: t <= j < u ==> !MatchesAt(Items(re), text, j)
      decreases |text| - u
    {
      b := MatchHere(re, text, u);
      if b {
        return;
      }
      if u == |text| || !(text[u] == c || c == '.') {
        break;
      }
      u := u + 1;
    }
    b := false;
    assert u < |text| ==> !Accepts(AtomOf(c), text[u]);
    forall j: nat | Spans(Star(AtomOf(c)), text, t, j) ensures !MatchesAt(Items(re), text, j) {
      assert j <= u;
    }
  }
}

/** The line buffer of user/grep.c. */
module GrepLines {
  import opened Regex

  const BUFSIZE := 1024
  const NUL := '\0'

  ghost predicate NoNewline(s: string) {
    '\n' !in s
  }

  /** The index of the first newline, or the length. */
  function FirstNewline(s: string): (k: nat)
    ensures k <= |s| && '\n' !in s[..k] && (k < |s| ==> s[k] == '\n')
  {
    if s == [] || s[0] == '\n' then 0
    else
      var k := FirstNewline(s[1..]) + 1;
      assert s[..k] == [s[0]] + s[1..][..k - 1];
      k
  }

  /** What grep is to print: the newline-ended lines that match, in order. */
  ghost function Selected(re: string, s: string): (out: string)
    decreases |s|
  {
    var k := FirstNewline(s);
    if k == |s| then ""
    else (if Matches(re, s[..k]) then s[..k + 1] else "") + Selected(re, s[k + 1..])
  }

  /** Where the first line that does not fit in the buffer with its newline starts; the length, if all fit. */
  function Reach(s: string): (n: nat)
    ensures n <= |s|
    decreases |s|
  {
    var k := FirstNewline(s);
    if k == |s| then |s| else if BUFSIZE <= k + 1 then 0 else k + 1 + Reach(s[k + 1..])
  }

  /** What grep prints: the lines to print up to the first that does not fit. */
  ghost function Printed(re: string, s: string): (out: string) {
    Selected(re, s[..Reach(s)])
  }

  // ---- the same, line by line ----

  function Text(lines: seq<string>): (s: string) {
    if lines == [] then "" else lines[0] + "\n" + Text(lines[1..])
  }

  ghost function Kept(re: string, lines: seq<string>): (out: seq<string>) {
    if lines == [] then [] else (if Matches(re, lines[0]) then [lines[0]] else []) + Kept(re, lines[1..])
  }

  ghost predicate Lined(s: string, lines: seq<string>, tail: string) {
    s == Text(lines) + tail && NoNewline(tail) && forall k :: 0 <= k < |lines| ==> NoNewline(lines[k])
  }

  /** The first n lines fit in the buffer, and the next, if there is one, does not. */
  predicate FirstLong(lines: seq<string>, n: nat) {
    n <= |lines| && (forall k :: 0 <= k < n ==> |lines[k]| + 1 < BUFSIZE) && (n < |lines| ==> BUFSIZE <= |lines[n]| + 1)
  }

  /** grep is to print the matching ones of the lines, each with its newline; it prints those among the lines before the
      first that is too long. A last line without a newline is not printed. */
  lemma {:induction false} PrintedLines(re: string, s: string, lines: seq<string>, tail: string, n: nat)
    requires Lined(s, lines, tail) && FirstLong(lines, n)
    ensures Selected(re, s) == Text(Kept(re, lines)) && Printed(re, s) == Text(Kept(re, lines[..n]))
    decreases |lines|
  {
    hide Selected, Matches, Printed;
    if lines == [] {
      assert s == tail && s[..|s|] == s;
      SelectTail(re, s);
      PrintNothing(re, s, |s|);
    } else {
      var line, rest := lines[0], Text(lines[1..]) + tail;
      assert s == line + "\n" + rest;
      assert s[..|line|] == line && s[|line| + 1..] == rest && s[..|line| + 1] == line + "\n";
      SelectLine(re, s, |line|);
      if n == 0 {
        PrintedLines(re, rest, lines[1..], tail, LongAt(lines[1..]));
        PrintNothing(re, s, |line|);
        assert lines[..0] == [];
      } else {
        PrintedLines(re, rest, lines[1..], tail, n - 1);
        PrintLine(re, s, |line|);
        assert lines[..n][1..] == lines[1..][..n - 1];
      }
      KeptText(re, lines);
      if n > 0 {
        KeptText(re, lines[..n]);
      }
    }
  }

  function LongAt(lines: seq<string>): (n: nat)
    ensures FirstLong(lines, n)
  {
    if lines == [] || BUFSIZE <= |lines[0]| + 1 then 0
    else
      var n := LongAt(lines[1..]) + 1;
      assert forall k :: 0 < k < n ==> lines[k] == lines[1..][k - 1];
      n
  }

  lemma KeptText(re: string, lines: seq<string>)
    requires lines != []
    ensures Text(Kept(re, lines)) == (if Matches(re, lines[0]) then lines[0] + "\n" else "") + Text(Kept(re, lines[1..]))
  {
    hide Matches;
    var more := Kept(re, lines[1..]);
    assert ([lines[0]] + more)[1..] == more && [] + more == more;
  }

  lemma SelectTail(re: string, s: string)
    requires NoNewline(s)
    ensures Selected(re, s) == ""
  {
    FirstNewlineIs(s, |s|);
  }

  /** Every text is such lines and a tail. */
  lemma {:induction false} SplitsInto(s: string) returns (lines: seq<string>, tail: string)
    ensures Lined(s, lines, tail)
    decreases |s|
  {
    var k := FirstNewline(s);
    if k == |s| {
      lines, tail := [], s;
      assert s[..k] == s;
    } else {
      var more;
      more, tail := SplitsInto(s[k + 1..]);
      lines := [s[..k]] + more;
      assert lines[1..] == more && s == s[..k] + "\n" + s[k + 1..];
    }
  }

  lemma Empty()
    ensures NoNewline("")
  {
  }

  lemma FirstNewlineIs(s: string, k: nat)
    requires k <= |s| && '\n' !in s[..k] && (k < |s| ==> s[k] == '\n')
    ensures FirstNewline(s) == k
  {
    var j := FirstNewline(s);
    assert forall i :: 0 <= i < k ==> s[i] == s[..k][i];
    assert forall i :: 0 <= i < j ==> s[i] == s[..j][i];
  }

  /** What is to be printed of the first k characters, which make a line. */
  ghost function Line(re: string, s: string, k: nat): (out: string)
    requires k < |s|
  {
    if Matches(re, s[..k]) then s[..k + 1] else ""
  }

  /** One line off the front. */
  lemma SelectLine(re: string, s: string, k: nat)
    requires k < |s| && '\n' !in s[..k] && s[k] == '\n'
    ensures Selected(re, s) == Line(re, s, k) + Selected(re, s[k + 1..])
  {
    FirstNewlineIs(s, k);
  }

  lemma ReachLine(s: string, k: nat)
    requires k < |s| && '\n' !in s[..k] && s[k] == '\n' && k + 1 < BUFSIZE
    ensures Reach(s) == k + 1 + Reach(s[k + 1..])
  {
    hide FirstNewline;
    FirstNewlineIs(s, k);
  }

  /** The same for what grep prints, if the line fits. */
  lemma PrintLine(re: string, s: string, k: nat)
    requires k < |s| && '\n' !in s[..k] && s[k] == '\n' && k + 1 < BUFSIZE
    ensures Printed(re, s) == Line(re, s, k) + Printed(re, s[k + 1..])
  {
    hide Selected, Reach, Matches;
    ReachLine(s, k);
    var head := s[..Reach(s)];
    assert head[..k] == s[..k] && head[..k + 1] == s[..k + 1];
    SelectLine(re, head, k);
    assert head[k + 1..] == s[k + 1..][..Reach(s[k + 1..])];
  }

  /** Nothing is printed of what starts without a newline, if it is all there is or fills the buffer. */
  lemma PrintNothing(re: string, s: string, n: nat)
    requires n <= |s| && NoNewline(s[..n]) && (n == |s| || BUFSIZE - 1 <= n)
    ensures Printed(re, s) == ""
  {
    var k := FirstNewline(s);
    assert forall i :: 0 <= i < n ==> s[i] == s[..n][i];
    if k == |s| {
      assert s[..|s|] == s;
    } else {
      assert Reach(s) == 0;
    }
  }

  lemma SelectNone(re: string)
    ensures Selected(re, "") == ""
  {
  }

  /** grep prints every matching newline-ended line exactly if none is at or after a line that does not fit. */
  lemma {:induction false} PrintsAllIff(re: string, s: string)
    ensures Selected(re, s) == Printed(re, s) + Selected(re, s[Reach(s)..])
    ensures Printed(re, s) == Selected(re, s) <==> Selected(re, s[Reach(s)..]) == ""
    decreases |s|
  {
    hide Selected, Line;
    var k := FirstNewline(s);
    if k == |s| || BUFSIZE <= k + 1 {
      assert s[..|s|] == s && s[|s|..] == "" && s[..0] == "" && s[0..] == s;
      SelectNone(re);
    } else {
      var rest := s[k + 1..];
      PrintsAllIff(re, rest);
      PrintLine(re, s, k);
      SelectLine(re, s, k);
      assert s[Reach(s)..] == rest[Reach(rest)..];
    }
  }

  /** A line too long for the buffer, and after it one that matches: nothing is printed. */
  lemma Missed(re: string, long: string, line: string)
    requires NoNewline(long) && NoNewline(line) && BUFSIZE - 1 <= |long| && Matches(re, line)
    ensures var s := long + "\n" + line + "\n"; Printed(re, s) == "" && Selected(re, s) != ""
  {
    hide Selected, Matches;
    var s, rest := long + "\n" + line + "\n", line + "\n";
    assert s[..|long|] == long && s[|long| + 1..] == rest && rest[..|line|] == line;
    PrintNothing(re, s, |long|);
    SelectLine(re, s, |long|);
    SelectLine(re, rest, |line|);
  }

  /** One such input. */
  lemma MissedLine()
    ensures var s := seq(BUFSIZE - 1, _ => 'b') + "\n" + "a" + "\n"; Printed("a", s) != Selected("a", s)
  {
    assert Items("a"[1..]) == [] && Items("a") == [One(Char('a'))] + [];
    NoItems("a", 1);
    assert Spans(One(Char('a')), "a", 0, 1);
    FirstItem(One(Char('a')), [], "a", 0);
    assert Matches("a", "a");
    Missed("a", seq(BUFSIZE - 1, _ => 'b'), "a");
  }

  /** strchr(p, '\n') in a buffer that holds a NUL at or after p. */
  method Strchr(buf: array<char>, p: nat, end: nat) returns (q: int)
    requires p <= end < buf.Length && buf[end] == NUL && NUL !in buf[p..end]
    ensures q == -1 ==> NoNewline(buf[p..end])
    ensures q != -1 ==> p <= q < end && buf[q] == '\n' && NoNewline(buf[p..q])
  {
    q := p;
    while buf[q] != NUL
      invariant p <= q <= end && NoNewline(buf[p..q])
      decreases end - q
    {
      if buf[q] == '\n' {
        return q;
      }
      q := q + 1;
    }
    return -1;
  }

  /** The bytes that read() puts at buf + m, and the NUL that grep puts after them. */
  method Fill(buf: array<char>, m: nat, bytes: string)
    requires m + |bytes| < buf.Length
    modifies buf
    ensures buf[..m + |bytes|] == old(buf[..m]) + bytes && buf[m + |bytes|] == NUL
  {
    forall i | 0 <= i < |bytes| {
      buf[m + i] := bytes[i];
    }
    buf[m + |bytes|] := NUL;
  }

  /** grep(): chunk says how many bytes each read is ready to return; a read returns at least one byte unless the
      input is used up or it is asked for none. */
  method Grep(re: string, input: string, chunk: nat -> nat, buf: array<char>) returns (out: string)
    requires buf.Length == BUFSIZE && NUL !in input
    modifies buf
    ensures out == Printed(re, input)
  {
    hide Printed, NoNewline;
    var m, pos, calls := 0, 0, 0;
    out := "";
    assert buf[..0] + input[0..] == input;
    assert NoNewline(buf[..0]) by { Empty(); }
    while true
      invariant 0 <= m < BUFSIZE && 0 <= pos <= |input| && 0 <= calls && NoNewline(buf[..m]) && NUL !in buf[..m]
      invariant Printed(re, input) == out + Printed(re, buf[..m] + input[pos..])
      decreases |input| - pos
    {
      var n := Read(|input| - pos, BUFSIZE - m - 1, chunk(calls));
      if n <= 0 {
        break;
      }
      ghost var before := buf[..m];
      Fill(buf, m, input[pos..pos + n]);
      assert buf[..m + n] + input[pos + n..] == before + input[pos..];
      m, pos, calls := m + n, pos + n, calls + 1;
      out, m := Lines(re, input[pos..], m, buf, out);
    }
    ghost var rest := buf[..m] + input[pos..];
    assert rest[..m] == buf[..m];
    PrintNothing(re, rest, m);
  }

  /** read(): the number of bytes it returns of those left, when asked for at most room. */
  function Read(left: nat, room: nat, ready: nat): (n: nat)
    ensures n <= left && n <= room && (n == 0 <==> left == 0 || room == 0)
  {
    var want := if ready == 0 then 1 else ready;
    var most := if left < room then left else room;
    if want < most then want else most
  }

  lemma Parts(s: string, more: string, k: nat)
    requires k < |s|
    ensures (s + more)[..k] == s[..k] && (s + more)[k] == s[k] && (s + more)[..k + 1] == s[..k] + [s[k]]
    ensures (s + more)[k + 1..] == s[k + 1..] + more
  {
  }

  /** With the first line of `here` dealt with, the rest is still to be printed. */
  lemma LineStep(re: string, here: string, more: string, k: nat, out: string, target: string)
    requires k < |here| && NoNewline(here[..k]) && here[k] == '\n' && k + 1 < BUFSIZE
    requires target == out + Printed(re, here + more)
    ensures target == out + (if Matches(re, here[..k]) then here[..k] + ['\n'] else "") + Printed(re, here[k + 1..] + more)
    ensures NUL !in here ==> NUL !in here[k + 1..]
  {
    hide Printed, Matches;
    Parts(here, more, k);
    PrintLine(re, here + more, k);
  }

  /** The newline at q gives way to a NUL for the match, and comes back to be printed. */
  method PrintIfMatch(re: string, buf: array<char>, p: nat, q: nat) returns (printed: string)
    requires p <= q < buf.Length && buf[q] == '\n'
    modifies buf
    ensures forall i :: q < i < buf.Length ==> buf[i] == old(buf[i])
    ensures printed == if Matches(re, old(buf[p..q])) then old(buf[p..q]) + ['\n'] else ""
  {
    hide Matches;
    printed := "";
    ghost var line := buf[p..q];
    buf[q] := NUL;
    assert buf[p..q] == line;
    var b := Match(re, buf[p..q]);
    if b {
      buf[q] := '\n';
      printed := buf[p..q + 1];
    }
  }

  /** The lines complete in the buffer are dealt with, and the rest moved to its start. */
  method Lines(re: string, ghost more: string, m0: nat, buf: array<char>, out0: string) returns (out: string, m: nat)
    requires buf.Length == BUFSIZE && m0 < BUFSIZE && buf[m0] == NUL && NUL !in buf[..m0]
    modifies buf
    ensures m <= m0 && NoNewline(buf[..m]) && NUL !in buf[..m]
    ensures out0 + Printed(re, old(buf[..m0]) + more) == out + Printed(re, buf[..m] + more)
  {
    hide Printed, Matches, NoNewline;
    out, m := out0, m0;
    ghost var target := out0 + Printed(re, buf[..m0] + more);
    var p := 0;
    assert buf[0..m] == buf[..m];
    while true
      invariant p <= m && buf[m] == NUL && NUL !in buf[p..m]
      invariant target == out + Printed(re, buf[p..m] + more)
      decreases m - p
    {
      var q := Strchr(buf, p, m);
      if q == -1 {
        break;
      }
      ghost var here, line, after := buf[p..m], buf[p..q], buf[q + 1..m];
      assert here[..q - p] == line && here[q - p] == '\n' && here[q - p + 1..] == after;
      LineStep(re, here, more, q - p, out, target);
      var printed := PrintIfMatch(re, buf, p, q);
      out := out + printed;
      assert buf[q + 1..m] == after;
      p := q + 1;
    }
    m := m - p;
    Memmove(buf, p, m);
  }

  /** memmove(buf, buf + p, m). */
  method Memmove(buf: array<char>, p: nat, m: nat)
    requires p + m <= buf.Length
    modifies buf
    ensures buf[..m] == old(buf[p..p + m])
  {
    forall i | 0 <= i < m {
      buf[i] := buf[p + i];
    }
  }
}
