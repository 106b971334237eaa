/** Extraction of Obsidian wiki-links from a Markdown body.
 *
 * The byte scanner is specified by a lexer that cuts a line into plain bytes, code spans and links.
 * Lexing and printing are inverse bijections between lines and well-formed token lists, so the links
 * a line holds are those of its one well-formed reading.
 */
module WikiLinks {
  import opened Wrappers
  import opened Text
  import opened Utf8

  const LF: Byte := 10
  const CR: Byte := 13
  const TICK: Byte := 0x60
  const TILDE: Byte := 0x7E
  const OPEN: Byte := 0x5B
  const CLOSE: Byte := 0x5D
  const PIPE: Byte := 0x7C

  const OPENER: Bytes := [OPEN, OPEN]
  const CLOSER: Bytes := [CLOSE, CLOSE]

  datatype WikiLink = WikiLink(target: Bytes, alias: Option<Bytes>, raw: Bytes)

  // ---- Tokens of a line ----

  datatype Token =
    | Plain(b: Byte)
    | Code(text: Bytes, closed: bool)   // a backtick span, running to the end of the line when not closed
    | Link(content: Bytes)
    | Unclosed(rest: Bytes)             // an opening `[[` that is never closed
  {
    function Show(): Bytes {
      match this
      case Plain(b) => [b]
      case Code(text, closed) => [TICK] + text + if closed then [TICK] else []
      case Link(content) => OPENER + content + CLOSER
      case Unclosed(rest) => OPENER + rest
    }
  }

  function Lex(s: Bytes): seq<Token>
    decreases |s|
  {
    if s == [] then []
    else if s[0] == TICK then
      match Find(s, [TICK], 1)
      case Some(j) => [Code(s[1..j], true)] + Lex(s[j + 1..])
      case None => [Code(s[1..], false)]
    else if StartsWith(s, OPENER) then
      match Find(s, CLOSER, 2)
      case Some(j) => [Link(s[2..j])] + Lex(s[j + 2..])
      case None => [Unclosed(s[2..])]
    else [Plain(s[0])] + Lex(s[1..])
  }

  function Print(ts: seq<Token>): Bytes {
    if ts == [] then [] else ts[0].Show() + Print(ts[1..])
  }

  /** `content` followed by a closer is closed there and no sooner. */
  ghost predicate ClosesAtEnd(content: Bytes) {
    forall i :: 0 <= i < |content| ==> !HasAt(content + CLOSER, CLOSER, i)
  }

  /** `t` can stand in front of `rest` without being read as anything else. */
  ghost predicate Heads(t: Token, rest: seq<Token>) {
    match t
    case Plain(b) => b != TICK && (b == OPEN ==> !StartsWith(Print(rest), [OPEN]))
    case Code(text, closed) => TICK !in text && (closed || rest == [])
    case Link(content) => ClosesAtEnd(content)
    case Unclosed(tail) => rest == [] && !Occurs(tail, CLOSER)
  }

  ghost predicate WellFormed(ts: seq<Token>) {
    ts == [] || (Heads(ts[0], ts[1..]) && WellFormed(ts[1..]))
  }

  // ---- One token at a time ----

  lemma CodeSlice(s: Bytes, j: nat)
    requires 1 <= j < |s| && s[0] == TICK && s[j] == TICK
    ensures s == Code(s[1..j], true).Show() + s[j + 1..]
  {}

  lemma LinkSlice(s: Bytes, j: nat)
    requires 2 <= j <= |s| - 2 && s[..2] == OPENER && s[j..j + 2] == CLOSER
    ensures s == Link(s[2..j]).Show() + s[j + 2..]
  {
    assert s[0] == s[..2][0] && s[1] == s[..2][1];
    assert s[j] == s[j..j + 2][0] && s[j + 1] == s[j..j + 2][1];
  }

  lemma TickAt(s: Bytes, j: nat)
    ensures HasAt(s, [TICK], j) <==> j < |s| && s[j] == TICK
  {
    assert j < |s| ==> s[j..j + 1] == [s[j]];
  }

  /** No backtick occurs from 1 up to `end`. */
  lemma NoTick(s: Bytes, end: nat)
    requires 1 <= end <= |s| && forall i :: 1 <= i < end ==> !HasAt(s, [TICK], i)
    ensures TICK !in s[1..end]
  {
    forall i | 1 <= i < end ensures s[i] != TICK {
      assert s[i..i + 1] == [s[i]] && !HasAt(s, [TICK], i);
    }
  }

  lemma ReadCode(s: Bytes)
    requires s != [] && s[0] == TICK
    ensures match Find(s, [TICK], 1)
            case Some(j) => 1 <= j < |s| && TICK !in s[1..j] && s == Code(s[1..j], true).Show() + s[j + 1..]
            case None => TICK !in s[1..] && s == Code(s[1..], false).Show()
  {
    hide HasAt;
    match Find(s, [TICK], 1)
    case Some(j) =>
      TickAt(s, j);
      NoTick(s, j);
      CodeSlice(s, j);
    case None =>
      NoTick(s, |s|);
      assert s[1..|s|] == s[1..];
      assert s == [TICK] + s[1..];
  }

  lemma ReadLink(s: Bytes)
    requires StartsWith(s, OPENER)
    ensures match Find(s, CLOSER, 2)
            case Some(j) => 2 <= j <= |s| - 2 && ClosesAtEnd(s[2..j]) && s == Link(s[2..j]).Show() + s[j + 2..]
            case None => !Occurs(s[2..], CLOSER) && s == Unclosed(s[2..]).Show()
  {
    assert s[..2] == OPENER;
    match Find(s, CLOSER, 2)
    case Some(j) =>
      assert s[j..j + 2] == CLOSER;
      LinkSlice(s, j);
      FirstCloser(s, j);
    case None =>
      assert s == OPENER + s[2..];
      forall i: nat ensures !HasAt(s[2..], CLOSER, i) {
        FindInTail(s, CLOSER, 2, i);
      }
  }

  lemma FirstCloser(s: Bytes, j: nat)
    requires 2 <= j <= |s| - 2 && HasAt(s, CLOSER, j) && forall i :: 2 <= i < j ==> !HasAt(s, CLOSER, i)
    ensures ClosesAtEnd(s[2..j])
  {
    assert s[2..j] + CLOSER == s[2..][..j];
    forall i | 0 <= i < j - 2 ensures !HasAt(s[2..j] + CLOSER, CLOSER, i) {
      FindInPrefix(s[2..], CLOSER, j, i);
      FindInTail(s, CLOSER, 2, i);
      assert !HasAt(s, CLOSER, 2 + i);
    }
  }

  /** Reading loses nothing: a line is the print of its well-formed reading. */
  lemma {:induction false} LexPrints(s: Bytes)
    ensures Print(Lex(s)) == s && WellFormed(Lex(s))
    decreases |s|
  {
    hide HasAt, ClosesAtEnd, Occurs;
    if s == [] {
    } else if s[0] == TICK {
      ReadCode(s);
      match Find(s, [TICK], 1)
      case Some(j) =>
        LexPrints(s[j + 1..]);
        Cons(Code(s[1..j], true), Lex(s[j + 1..]));
      case None =>
        Cons(Code(s[1..], false), []);
    } else if StartsWith(s, OPENER) {
      ReadLink(s);
      match Find(s, CLOSER, 2)
      case Some(j) =>
        LexPrints(s[j + 2..]);
        Cons(Link(s[2..j]), Lex(s[j + 2..]));
      case None =>
        Cons(Unclosed(s[2..]), []);
    } else {
      LexPrints(s[1..]);
      Cons(Plain(s[0]), Lex(s[1..]));
      NoOpener(s);
      assert s == [s[0]] + s[1..];
    }
  }

  lemma NoOpener(s: Bytes)
    requires s != []
    ensures StartsWith(s, OPENER) <==> s[0] == OPEN && StartsWith(s[1..], [OPEN])
  {
    assert |s| >= 2 ==> s[0..2] == [s[0], s[1]] && s[1..][0..1] == [s[1]];
  }

  lemma Cons(t: Token, rest: seq<Token>)
    ensures Print([t] + rest) == t.Show() + Print(rest)
    ensures WellFormed([t] + rest) <==> Heads(t, rest) && WellFormed(rest)
    ensures Print([]) == [] && WellFormed([])
  {
    assert ([t] + rest)[1..] == rest;
  }

  lemma CodeReads(text: Bytes, closed: bool, rest: Bytes)
    requires TICK !in text && (closed || rest == [])
    ensures var s := Code(text, closed).Show() + rest;
            && Find(s, [TICK], 1) == (if closed then Some(1 + |text|) else None)
            && s[0] == TICK && s[1..1 + |text|] == text && (if closed then s[|text| + 2..] == rest else s[1..] == text)
  {
    var s := Code(text, closed).Show() + rest;
    forall i | 1 <= i < 1 + |text| ensures !HasAt(s, [TICK], i) {
      assert s[i] == text[i - 1] && s[i..i + 1] == [s[i]];
    }
    if closed {
      assert s[1 + |text|..2 + |text|] == [TICK];
      FoundIs(s, [TICK], 1, 1 + |text|);
    } else {
      assert s[1..] == text;
    }
  }

  lemma LinkReads(content: Bytes, rest: Bytes)
    requires ClosesAtEnd(content)
    ensures var s := Link(content).Show() + rest;
            && s[0] == OPEN && StartsWith(s, OPENER) && Find(s, CLOSER, 2) == Some(2 + |content|)
            && s[2..2 + |content|] == content && s[|content| + 4..] == rest
  {
    var s := Link(content).Show() + rest;
    assert s[..2] == OPENER && s[2 + |content|..4 + |content|] == CLOSER;
    assert s[2..][..|content| + 2] == content + CLOSER;
    forall i | 2 <= i < 2 + |content| ensures !HasAt(s, CLOSER, i) {
      FindInTail(s, CLOSER, 2, i - 2);
      FindInPrefix(s[2..], CLOSER, |content| + 2, i - 2);
    }
    FoundIs(s, CLOSER, 2, 2 + |content|);
  }

  lemma UnclosedReads(tail: Bytes)
    requires !Occurs(tail, CLOSER)
    ensures var s := Unclosed(tail).Show();
            s[0] == OPEN && StartsWith(s, OPENER) && Find(s, CLOSER, 2) == None && s[2..] == tail
  {
    var s := Unclosed(tail).Show();
    assert s[..2] == OPENER && s[2..] == tail;
    forall i | 2 <= i ensures !HasAt(s, CLOSER, i) {
      FindInTail(s, CLOSER, 2, i - 2);
    }
  }

  /** Printing is read back: a well-formed token list is the reading of its print. */
  lemma {:induction false} PrintLexes(ts: seq<Token>)
    requires WellFormed(ts)
    ensures Lex(Print(ts)) == ts
  {
    hide HasAt, ClosesAtEnd, Occurs, StartsWith;
    if ts != [] {
      PrintLexes(ts[1..]);
      var rest := Print(ts[1..]);
      assert ts == [ts[0]] + ts[1..];
      match ts[0]
      case Plain(b) =>
        assert ([b] + rest)[1..] == rest;
        NoOpener([b] + rest);
      case Code(text, closed) => CodeReads(text, closed, rest);
      case Link(content) => LinkReads(content, rest);
      case Unclosed(tail) =>
        UnclosedReads(tail);
        assert Print(ts) == Unclosed(tail).Show();
    }
  }

  /** One well-formed reading per line. */
  lemma ReadingUnique(s: Bytes, ts: seq<Token>)
    ensures ts == Lex(s) <==> WellFormed(ts) && Print(ts) == s
  {
    LexPrints(s);
    if WellFormed(ts) && Print(ts) == s {
      PrintLexes(ts);
    }
  }
}
