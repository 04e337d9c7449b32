/** The input lexer as the state machine it is, proved against `Lexing.Lex`. */
module InputLexer {
  import opened Lexing

  datatype State = LexOutside | LexQuote | LexEscape | Stop

  datatype Status = Fine | Bad(error: Error)

  function ModeOf(state: State, terminal: char): Mode {
    if state.LexQuote? then Quote(terminal) else Outside
  }

  /** What is still to come from a state of the lexer; `prev` is the state that
      an escape returns to. */
  function Resume(state: State, prev: State, s: string, terminal: char, content: string, emit: bool): Result {
    match state
    case LexEscape =>
      if s == "" then Failed(ExpectedEscape)
      else if Escaped(s[0]) == [] then Failed(UnexpectedEscape(s[0]))
      else Lex(s[1..], ModeOf(prev, terminal), content + Escaped(s[0]), emit)
    case Stop => Items([])
    case _ => Lex(s, ModeOf(state, terminal), content, emit)
  }

  lemma PrependTwice(a: seq<string>, b: seq<string>, r: Result)
    ensures Prepend(a, Prepend(b, r)) == Prepend(a + b, r)
  {
    if r.Items? { assert a + (b + r.items) == a + b + r.items; }
  }

  lemma PrependNone(r: Result)
    ensures Prepend([], r) == r
  {
    if r.Items? { assert [] + r.items == r.items; }
  }

  class Lexer {
    var rest: string
    var items: seq<string>
    var terminal: char
    var content: string
    var emit: bool
    var prevState: State

    constructor (input: string)
      ensures rest == input && items == [] && content == "" && !emit && prevState == Stop
    {
      rest, items, terminal, content, emit, prevState := input, [], '"', "", false, Stop;
    }

    /** The result of the whole run, as it stands in `state`. */
    ghost function Outcome(state: State, prev: State): Result
      reads this
    {
      Prepend(items, Resume(state, prev, rest, terminal, content, emit))
    }

    /** src/minicli/input.go:90-97 */
    method EmitContent()
      modifies this`items, this`content, this`emit
      ensures items == old(items) + Emitted(old(content), old(emit)) && content == "" && !emit
    {
      if |content| > 0 || emit {
        items, content, emit := items + [content], "", false;
      }
    }

    /** src/minicli/input.go:85-123 */
    method RunOutside() returns (next: State)
      modifies this`rest, this`items, this`terminal, this`content, this`emit
      ensures Outcome(next, LexOutside) == old(Outcome(LexOutside, LexOutside))
      ensures |rest| < |old(rest)| || (next.Stop? && |rest| <= |old(rest)|)
    {
      while rest != ""
        invariant Outcome(LexOutside, LexOutside) == old(Outcome(LexOutside, LexOutside))
        invariant |rest| <= |old(rest)| && items == old(items)
        decreases |rest|
      {
        var token := rest[0];
        if token == COMMENT {
          break;
        }
        rest := rest[1..];
        if token == '\\' {
          return LexEscape;
        } else if token == '"' || token == '\'' {
          terminal := token;
          return LexQuote;
        } else if IsSpace(token) {
          PrependTwice(items, Emitted(content, emit), Lex(rest, Outside, "", false));
          EmitContent();
          return LexOutside;
        }
        content := content + [token];
      }
      PrependTwice(items, Emitted(content, emit), Items([]));
      EmitContent();
      return Stop;
    }

    /** src/minicli/input.go:125-143 */
    method RunQuote() returns (next: State, status: Status)
      modifies this`rest, this`content, this`emit
      ensures status.Fine? ==> Outcome(next, LexQuote) == old(Outcome(LexQuote, LexQuote))
      ensures status.Bad? ==> old(Outcome(LexQuote, LexQuote)) == Failed(status.error)
      ensures |rest| < |old(rest)| || (status.Bad? && |rest| <= |old(rest)|)
      ensures status.Bad? ==> next.Stop?
    {
      while rest != ""
        invariant Outcome(LexQuote, LexQuote) == old(Outcome(LexQuote, LexQuote)) && |rest| <= |old(rest)|
        decreases |rest|
      {
        var token := rest[0];
        rest := rest[1..];
        if token == '\\' {
          return LexEscape, Fine;
        } else if token == terminal {
          emit := true;
          return LexOutside, Fine;
        }
        content := content + [token];
      }
      return Stop, Bad(MissingTerminal(terminal));
    }

    /** src/minicli/input.go:145-158 */
    method RunEscape() returns (next: State, status: Status)
      requires prevState.LexOutside? || prevState.LexQuote?
      modifies this`rest, this`content
      ensures status.Fine? ==> next == prevState && Outcome(next, LexEscape) == old(Outcome(LexEscape, prevState))
      ensures status.Bad? ==> old(Outcome(LexEscape, prevState)) == Failed(status.error)
      ensures |rest| < |old(rest)| || (status.Bad? && |rest| <= |old(rest)|)
      ensures status.Bad? ==> next.Stop?
    {
      if rest == "" {
        return Stop, Bad(ExpectedEscape);
      }
      var token := rest[0];
      rest := rest[1..];
      if Escaped(token) == [] {
        return Stop, Bad(UnexpectedEscape(token));
      }
      content := content + Escaped(token);
      return prevState, Fine;
    }

    /** Run the machine to its end (src/minicli/input.go:63-85). */
    method Run() returns (status: Status)
      requires items == [] && content == "" && !emit
      modifies this
      ensures LexInput(old(rest)) == if status.Fine? then Items(items) else Failed(status.error)
    {
      hide Lex;
      ghost var goal := LexInput(rest);
      PrependNone(goal);
      var state := LexOutside;
      status := Fine;
      while !state.Stop? && status.Fine?
        invariant goal == if status.Fine? then Outcome(state, prevState) else Failed(status.error)
        invariant state.LexEscape? ==> prevState.LexOutside? || prevState.LexQuote?
        decreases |rest|, !state.Stop? && status.Fine?
      {
        var curr := state;
        match curr {
          case LexOutside => state := RunOutside();
          case LexQuote => state, status := RunQuote();
          case LexEscape => state, status := RunEscape();
        }
        prevState := curr;
      }
    }
  }

  lemma {:induction false} TailAppend(items: seq<string>, v: string, wide: char -> bool)
    ensures Tail(items + [v], wide) == Tail(items, wide) + " " + PrintItem(v, wide)
    decreases |items|
  {
    hide PrintItem;
    var all := items + [v];
    if items != [] {
      assert all[1..] == items[1..] + [v];
      TailAppend(items[1..], v, wide);
      var h, t := " " + PrintItem(items[0], wide), Tail(items[1..], wide);
      assert h + (t + " " + PrintItem(v, wide)) == h + t + " " + PrintItem(v, wide);
    }
  }

  lemma PrintAppend(items: seq<string>, v: string, wide: char -> bool)
    ensures Print(items + [v], wide) ==
      if items == [] then PrintItem(v, wide) else Print(items, wide) + " " + PrintItem(v, wide)
  {
    hide PrintItem;
    var all := items + [v];
    if items != [] {
      assert all[1..] == items[1..] + [v];
      TailAppend(items[1..], v, wide);
      var h, t := PrintItem(items[0], wide), Tail(items[1..], wide);
      assert h + (t + " " + PrintItem(v, wide)) == h + t + " " + PrintItem(v, wide);
    }
  }

  /** Print the items one by one, then join them with spaces
      (src/minicli/input.go:49-61). */
  method Show(items: seq<string>, wide: char -> bool) returns (s: string)
    ensures s == Print(items, wide)
  {
    hide PrintItem;
    var shown: seq<string> := [];
    for i := 0 to |items|
      invariant |shown| == i && forall j :: 0 <= j < i ==> shown[j] == PrintItem(items[j], wide)
    {
      shown := shown + [PrintItem(items[i], wide)];
    }
    s := "";
    for i := 0 to |shown|
      invariant s == Print(items[..i], wide)
    {
      PrintAppend(items[..i], items[i], wide);
      assert items[..i] + [items[i]] == items[..i + 1];
      s := if i == 0 then shown[i] else s + " " + shown[i];
    }
    assert items[..|items|] == items;
  }
}
