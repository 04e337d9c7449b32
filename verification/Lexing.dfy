/** Splitting an input line into items and printing items back. */
module Lexing {

  datatype Error = MissingTerminal(c: char) | ExpectedEscape | UnexpectedEscape(c: char)

  datatype Result = Items(items: seq<string>) | Failed(error: Error)

  datatype Mode = Outside | Quote(terminal: char)

  const COMMENT: char := '#'

  /** Characters that Unicode calls white space. */
  predicate IsSpace(c: char) {
    '\t' <= c <= '\r' || c == ' ' || c == '\U{85}' || c == '\U{A0}' || c == '\U{1680}' ||
    '\U{2000}' <= c <= '\U{200A}' || c == '\U{2028}' || c == '\U{2029}' || c == '\U{202F}' ||
    c == '\U{205F}' || c == '\U{3000}'
  }

  predicate HasSpace(v: string) {
    exists i :: 0 <= i < |v| && IsSpace(v[i])
  }

  predicate IsSpecial(c: char) {
    c == '\\' || c == '"' || c == '\'' || c == COMMENT
  }

  /** src/minicli/input.go:39-47 */
  function Escaped(c: char): seq<char> {
    if c == 'r' then "\r" else if c == 'n' then "\n" else if c == 't' then "\t"
    else if IsSpecial(c) then [c] else []
  }

  function Emitted(content: string, emit: bool): seq<string> {
    if content != "" || emit then [content] else []
  }

  function Prepend(items: seq<string>, r: Result): Result {
    if r.Items? then Items(items + r.items) else r
  }

  /** The items of `s`, read in the given mode with `content` already collected
      (src/minicli/input.go:87-158). */
  function Lex(s: string, mode: Mode, content: string, emit: bool): Result {
    if s == "" then
      if mode.Outside? then Items(Emitted(content, emit)) else Failed(MissingTerminal(mode.terminal))
    else if s[0] == '\\' then
      if |s| == 1 then Failed(ExpectedEscape)
      else if Escaped(s[1]) == [] then Failed(UnexpectedEscape(s[1]))
      else Lex(s[2..], mode, content + Escaped(s[1]), emit)
    else if mode.Quote? then
      if s[0] == mode.terminal then Lex(s[1..], Outside, content, true)
      else Lex(s[1..], mode, content + [s[0]], emit)
    else if s[0] == '"' || s[0] == '\'' then Lex(s[1..], Quote(s[0]), content, emit)
    else if s[0] == COMMENT then Items(Emitted(content, emit))
    else if IsSpace(s[0]) then Prepend(Emitted(content, emit), Lex(s[1..], Outside, "", false))
    else Lex(s[1..], Outside, content + [s[0]], emit)
  }

  function LexInput(input: string): Result {
    Lex(input, Outside, "", false)
  }

  // Printing

  function HexDigit(n: nat): char
    requires n < 16
  {
    "0123456789abcdef"[n]
  }

  function Hex(n: nat, width: nat): string {
    if width == 0 then "" else Hex(n / 16, width - 1) + [HexDigit(n % 16)]
  }

  /** How a quoted string shows a character. Which characters beyond ASCII are
      printable is the table `wide`. */
  function QuotedChar(c: char, wide: char -> bool): string {
    if c == '"' || c == '\\' then ['\\', c]
    else if Printable(c, wide) then [c]
    else if c == '\n' then "\\n" else if c == '\r' then "\\r" else if c == '\t' then "\\t"
    else if c == '\U{07}' then "\\a" else if c == '\U{08}' then "\\b"
    else if c == '\U{0C}' then "\\f" else if c == '\U{0B}' then "\\v"
    else if c < ' ' then "\\x" + Hex(c as int, 2)
    else if (c as int) < 0x10000 then "\\u" + Hex(c as int, 4)
    else "\\U" + Hex(c as int, 8)
  }

  predicate Printable(c: char, wide: char -> bool) {
    ' ' <= c <= '~' || ('\U{80}' <= c && wide(c))
  }

  function QuotedChars(v: string, wide: char -> bool): string {
    if v == "" then "" else QuotedChar(v[0], wide) + QuotedChars(v[1..], wide)
  }

  /** An item is quoted only if it holds white space (src/minicli/input.go:49-61). */
  function PrintItem(v: string, wide: char -> bool): string {
    if HasSpace(v) then "\"" + QuotedChars(v, wide) + "\"" else v
  }

  function Tail(items: seq<string>, wide: char -> bool): string {
    if items == [] then "" else " " + PrintItem(items[0], wide) + Tail(items[1..], wide)
  }

  function Print(items: seq<string>, wide: char -> bool): string {
    if items == [] then "" else PrintItem(items[0], wide) + Tail(items[1..], wide)
  }

  // The round trip

  ghost predicate Readable(c: char, wide: char -> bool) {
    Printable(c, wide) || c == '\t' || c == '\n' || c == '\r'
  }

  ghost predicate AllReadable(v: string, wide: char -> bool) {
    forall i :: 0 <= i < |v| ==> Readable(v[i], wide)
  }

  ghost predicate NoneSpecial(v: string) {
    forall i :: 0 <= i < |v| ==> !IsSpecial(v[i])
  }

  /** The items that survive being printed. */
  ghost predicate Good(v: string, wide: char -> bool) {
    if HasSpace(v) then AllReadable(v, wide) else v != "" && NoneSpecial(v)
  }

  lemma LexOneQuoted(c: char, rest: string, content: string, emit: bool, wide: char -> bool)
    requires Readable(c, wide)
    ensures Lex(QuotedChar(c, wide) + rest, Quote('"'), content, emit) == Lex(rest, Quote('"'), content + [c], emit)
  {
    var q := QuotedChar(c, wide);
    assert (q + rest)[|q|..] == rest;
    if |q| == 2 { assert (q + rest)[1] == q[1] && Escaped(q[1]) == [c]; }
  }

  lemma {:induction false} LexQuoted(v: string, rest: string, content: string, emit: bool, wide: char -> bool)
    requires AllReadable(v, wide)
    ensures Lex(QuotedChars(v, wide) + rest, Quote('"'), content, emit) == Lex(rest, Quote('"'), content + v, emit)
    decreases |v|
  {
    hide QuotedChar, Readable, Lex;
    if v == "" {
      assert QuotedChars(v, wide) + rest == rest && content + v == content;
    } else {
      assert forall i :: 0 <= i < |v[1..]| ==> v[1..][i] == v[i + 1];
      LexOneQuoted(v[0], QuotedChars(v[1..], wide) + rest, content, emit, wide);
      assert QuotedChars(v, wide) + rest == QuotedChar(v[0], wide) + (QuotedChars(v[1..], wide) + rest);
      LexQuoted(v[1..], rest, content + [v[0]], emit, wide);
      assert content + [v[0]] + v[1..] == content + v;
    }
  }

  lemma {:induction false} LexRaw(v: string, rest: string, content: string)
    requires NoneSpecial(v) && !HasSpace(v)
    ensures Lex(v + rest, Outside, content, false) == Lex(rest, Outside, content + v, false)
    decreases |v|
  {
    if v == "" {
      assert v + rest == rest && content + v == content;
    } else {
      assert !IsSpace(v[0]) && !IsSpecial(v[0]);
      assert forall i :: 0 <= i < |v[1..]| ==> v[1..][i] == v[i + 1];
      assert (v + rest)[1..] == v[1..] + rest;
      LexRaw(v[1..], rest, content + [v[0]]);
      assert content + [v[0]] + v[1..] == content + v;
    }
  }

  /** The items of what follows an item. */
  ghost function Following(rest: string): Result {
    if rest == "" then Items([]) else Lex(rest[1..], Outside, "", false)
  }

  ghost predicate Ends(rest: string) {
    rest == "" || IsSpace(rest[0])
  }

  lemma LexEnd(v: string, rest: string, emit: bool)
    requires Ends(rest) && (v != "" || emit)
    ensures Lex(rest, Outside, v, emit) == Prepend([v], Following(rest))
  {
  }

  lemma LexQuotedItem(v: string, rest: string, wide: char -> bool)
    requires AllReadable(v, wide)
    ensures Lex("\"" + QuotedChars(v, wide) + "\"" + rest, Outside, "", false) == Lex(rest, Outside, v, true)
  {
    hide IsSpace, AllReadable, QuotedChars;
    var s := "\"" + QuotedChars(v, wide) + "\"" + rest;
    assert s[0] == '"' && s[1..] == QuotedChars(v, wide) + ("\"" + rest);
    LexQuoted(v, "\"" + rest, "", false, wide);
    assert "" + v == v && ("\"" + rest)[1..] == rest;
  }

  /** A printed good item is read back, whatever follows it after a space. */
  lemma LexItem(v: string, rest: string, wide: char -> bool)
    requires Good(v, wide) && Ends(rest)
    ensures Lex(PrintItem(v, wide) + rest, Outside, "", false) == Prepend([v], Following(rest))
  {
    hide Lex, Following, Ends, HasSpace, AllReadable, NoneSpecial, QuotedChars;
    if HasSpace(v) {
      LexQuotedItem(v, rest, wide);
      LexEnd(v, rest, true);
    } else {
      LexRaw(v, rest, "");
      assert "" + v == v;
      LexEnd(v, rest, false);
    }
  }

  lemma {:induction false} TailEnds(items: seq<string>, wide: char -> bool)
    ensures Ends(Tail(items, wide))
    ensures items != [] ==> Tail(items, wide) != "" && Tail(items, wide)[1..] == Print(items, wide)
  {
    hide PrintItem;
    if items != [] {
      var a, b := PrintItem(items[0], wide), Tail(items[1..], wide);
      assert (" " + a + b)[1..] == a + b && (" " + a + b)[0] == ' ';
    }
  }

  lemma {:induction false} LexTail(items: seq<string>, wide: char -> bool)
    requires forall v :: v in items ==> Good(v, wide)
    ensures Following(Tail(items, wide)) == Items(items)
    decreases |items|
  {
    hide Lex, Ends, Good, PrintItem;
    if items != [] {
      TailEnds(items, wide);
      TailEnds(items[1..], wide);
      LexItem(items[0], Tail(items[1..], wide), wide);
      LexTail(items[1..], wide);
      assert [items[0]] + items[1..] == items;
    }
  }

  /** Good items are read back as they were printed. */
  lemma RoundTrip(items: seq<string>, wide: char -> bool)
    requires forall v :: v in items ==> Good(v, wide)
    ensures LexInput(Print(items, wide)) == Items(items)
  {
    if items != [] {
      hide Lex, Good, Print, Tail;
      LexTail(items, wide);
      TailEnds(items, wide);
    }
  }

  // Items that do not survive

  ghost predicate Differs(r: Result, v: string) {
    r.Failed? || r.items == [] || r.items[0] != v
  }

  lemma {:induction false} LexQuotedBad(v: string, rest: string, content: string, emit: bool, wide: char -> bool)
    requires !AllReadable(v, wide)
    ensures Lex(QuotedChars(v, wide) + rest, Quote('"'), content, emit).Failed?
    decreases |v|
  {
    var q, s := QuotedChar(v[0], wide), QuotedChars(v, wide) + rest;
    hide QuotedChar, Readable, Lex;
    assert s == q + (QuotedChars(v[1..], wide) + rest);
    if Readable(v[0], wide) {
      LexOneQuoted(v[0], QuotedChars(v[1..], wide) + rest, content, emit, wide);
      assert forall i :: 0 <= i < |v[1..]| ==> v[1..][i] == v[i + 1];
      LexQuotedBad(v[1..], rest, content + [v[0]], emit, wide);
    } else {
      UnreadableEscape(v[0], wide);
      assert s[0] == q[0] && s[1] == q[1];
      BadEscapeFails(s, content, emit);
    }
  }

  lemma BadEscapeFails(s: string, content: string, emit: bool)
    requires |s| > 1 && s[0] == '\\' && Escaped(s[1]) == []
    ensures Lex(s, Quote('"'), content, emit).Failed?
  {
  }

  lemma UnreadableEscape(c: char, wide: char -> bool)
    requires !Readable(c, wide)
    ensures var q := QuotedChar(c, wide); |q| >= 2 && q[0] == '\\' && Escaped(q[1]) == []
  {
  }

  /** Once white space has been collected, the next item holds it. */
  lemma {:induction false} SpacedLex(s: string, mode: Mode, content: string, emit: bool)
    requires HasSpace(content)
    ensures var r := Lex(s, mode, content, emit); r.Failed? || (r.items != [] && HasSpace(r.items[0]))
    decreases |s|
  {
    if s != "" {
      if s[0] == '\\' {
        if |s| > 1 { SpacedMore(content, Escaped(s[1])); SpacedLex(s[2..], mode, content + Escaped(s[1]), emit); }
      } else if mode.Quote? && s[0] == mode.terminal {
        SpacedLex(s[1..], Outside, content, true);
      } else if mode.Outside? && (s[0] == '"' || s[0] == '\'') {
        SpacedLex(s[1..], Quote(s[0]), content, emit);
      } else {
        SpacedMore(content, [s[0]]);
        SpacedLex(s[1..], mode, content + [s[0]], emit);
      }
    }
  }

  lemma SpacedMore(content: string, more: string)
    requires HasSpace(content)
    ensures HasSpace(content + more)
  {
    var i :| 0 <= i < |content| && IsSpace(content[i]);
    assert (content + more)[i] == content[i];
  }

  lemma Unspaced(w: string, k: nat)
    requires !HasSpace(w) && k <= |w|
    ensures !HasSpace(w[k..])
  {
    assert forall i :: 0 <= i < |w[k..]| ==> w[k..][i] == w[k + i];
  }

  /** What comes of a word without white space: a failure, an item that took in
      white space, nothing more, or one item of at most `n` characters and then
      what follows the word. */
  ghost predicate OfWord(r: Result, rest: string, n: nat) {
    || r.Failed? || r.items == [] || HasSpace(r.items[0])
    || (|r.items[0]| <= n && (|r.items| == 1 || r == Prepend([r.items[0]], Following(rest))))
  }

  /** Reading the rest `w` of a word without white space. */
  lemma {:induction false} WordLex(w: string, rest: string, mode: Mode, content: string, emit: bool)
    requires !HasSpace(w) && Ends(rest)
    requires if mode.Outside? then content != "" || emit || w != "" else IsSpecial(mode.terminal)
    ensures OfWord(Lex(w + rest, mode, content, emit), rest, |content| + |w|)
    decreases |w|
  {
    if w == "" {
      WordEnd(rest, mode, content, emit);
      assert w + rest == rest;
    } else if w[0] == '\\' {
      if |w| > 1 {
        Unspaced(w, 2);
        assert (w + rest)[2..] == w[2..] + rest;
        if Escaped(w[1]) != [] { WordLex(w[2..], rest, mode, content + Escaped(w[1]), emit); }
      } else {
        SpaceIsNoEscape(rest);
      }
    } else {
      assert (w + rest)[1..] == w[1..] + rest && !IsSpace(w[0]);
      Unspaced(w, 1);
      if mode.Quote? && w[0] == mode.terminal {
        WordLex(w[1..], rest, Outside, content, true);
      } else if mode.Outside? && (w[0] == '"' || w[0] == '\'') {
        WordLex(w[1..], rest, Quote(w[0]), content, emit);
      } else if mode.Quote? || w[0] != COMMENT {
        WordLex(w[1..], rest, mode, content + [w[0]], emit);
      }
    }
  }

  lemma SpaceIsNoEscape(rest: string)
    requires Ends(rest)
    ensures rest != "" ==> Escaped(rest[0]) == []
  {
  }

  lemma WordEnd(rest: string, mode: Mode, content: string, emit: bool)
    requires Ends(rest)
    requires if mode.Outside? then content != "" || emit else IsSpecial(mode.terminal)
    ensures OfWord(Lex(rest, mode, content, emit), rest, |content|)
  {
    if mode.Outside? {
      LexEnd(content, rest, emit);
    } else if rest != "" && rest[0] != mode.terminal {
      assert (content + [rest[0]])[|content|] == rest[0];
      SpacedLex(rest[1..], mode, content + [rest[0]], emit);
    }
  }

  /** A word with a special character is mangled. */
  lemma {:induction false} RawBad(w: string, rest: string, content: string, v: string)
    requires !HasSpace(w) && !HasSpace(v) && !NoneSpecial(w) && Ends(rest) && |content| + |w| == |v|
    ensures Differs(Lex(w + rest, Outside, content, false), v)
    decreases |w|
  {
    assert (w + rest)[1..] == w[1..] + rest && !IsSpace(w[0]);
    Unspaced(w, 1);
    if !IsSpecial(w[0]) {
      assert forall i :: 0 <= i < |w[1..]| ==> w[1..][i] == w[i + 1];
      assert exists i :: 0 <= i < |w[1..]| && IsSpecial(w[1..][i]) by {
        var i :| 0 <= i < |w| && IsSpecial(w[i]);
        assert w[1..][i - 1] == w[i];
      }
      RawBad(w[1..], rest, content + [w[0]], v);
    } else if w[0] == '\\' {
      SpaceIsNoEscape(rest);
      if |w| > 1 && Escaped(w[1]) != [] {
        Unspaced(w, 2);
        assert (w + rest)[2..] == w[2..] + rest;
        WordLex(w[2..], rest, Outside, content + Escaped(w[1]), false);
      }
    } else if w[0] != COMMENT {
      WordLex(w[1..], rest, Quote(w[0]), content, false);
    }
  }

  lemma QuotedFails(v: string, rest: string, wide: char -> bool)
    requires HasSpace(v) && !AllReadable(v, wide)
    ensures Lex(PrintItem(v, wide) + rest, Outside, "", false).Failed?
  {
    hide AllReadable, QuotedChars, HasSpace, IsSpace;
    var s := PrintItem(v, wide) + rest;
    assert s[0] == '"' && s[1..] == QuotedChars(v, wide) + ("\"" + rest);
    LexQuotedBad(v, "\"" + rest, "", false, wide);
  }

  lemma BadItem(v: string, rest: string, wide: char -> bool)
    requires !Good(v, wide) && v != "" && Ends(rest)
    ensures Differs(Lex(PrintItem(v, wide) + rest, Outside, "", false), v)
  {
    hide AllReadable, NoneSpecial, QuotedChars, HasSpace, IsSpace, Ends;
    if HasSpace(v) {
      QuotedFails(v, rest, wide);
    } else {
      RawBad(v, rest, "", v);
    }
  }

  ghost predicate NoneSpaced(vs: seq<string>) {
    forall v :: v in vs ==> !HasSpace(v)
  }

  /** A quoted item comes back first, or reading it fails. */
  lemma SpacedItem(v: string, rest: string, wide: char -> bool)
    requires HasSpace(v) && Ends(rest)
    ensures var r := Lex(PrintItem(v, wide) + rest, Outside, "", false); r.Failed? || (r.items != [] && r.items[0] == v)
  {
    hide Lex, AllReadable, HasSpace, Ends, PrintItem, Following;
    if AllReadable(v, wide) {
      LexItem(v, rest, wide);
    } else {
      QuotedFails(v, rest, wide);
    }
  }

  lemma WordItem(v: string, rest: string, wide: char -> bool)
    requires !HasSpace(v) && v != "" && Ends(rest)
    ensures OfWord(Lex(PrintItem(v, wide) + rest, Outside, "", false), rest, |v|)
  {
    hide Lex, HasSpace, Ends, OfWord;
    WordLex(v, rest, Outside, "", false);
  }

  /** A word yields at most one item, so a list that is already behind by the
      items `pre` never catches up. */
  lemma {:induction false} NoCatchUp(pre: seq<string>, xs: seq<string>, wide: char -> bool)
    requires pre != [] && NoneSpaced(pre)
    ensures Following(Tail(xs, wide)) != Items(pre + xs)
    decreases |xs|
  {
    hide Lex, HasSpace, Ends, PrintItem, Print;
    if xs != [] {
      var v, rest := xs[0], Tail(xs[1..], wide);
      TailEnds(xs, wide);
      TailEnds(xs[1..], wide);
      assert pre[0] in pre && (pre + xs)[0] == pre[0];
      assert Following(Tail(xs, wide)) == Lex(PrintItem(v, wide) + rest, Outside, "", false) by { PrintStarts(xs, wide); }
      if v == "" {
        NothingThere(rest, wide);
        EmptyIsUnspaced();
        NoCatchUp(pre + [v], xs[1..], wide);
        assert pre + [v] + xs[1..] == pre + xs;
      } else if HasSpace(v) {
        SpacedItem(v, rest, wide);
      } else {
        WordItem(v, rest, wide);
        NoCatchUp(pre[1..] + [v], xs[1..], wide);
        NextBehind(pre, xs, Following(rest));
      }
    }
  }

  lemma PrintStarts(xs: seq<string>, wide: char -> bool)
    requires xs != []
    ensures Print(xs, wide) == PrintItem(xs[0], wide) + Tail(xs[1..], wide)
  {
  }

  lemma EmptyIsUnspaced()
    ensures !HasSpace("")
  {
  }

  lemma NextBehind(pre: seq<string>, xs: seq<string>, r: Result)
    requires pre != [] && xs != [] && r != Items(pre[1..] + [xs[0]] + xs[1..])
    ensures Prepend([pre[0]], r) != Items(pre + xs)
  {
    assert pre[1..] + [xs[0]] + xs[1..] == (pre + xs)[1..];
    assert r.Items? ==> ([pre[0]] + r.items)[1..] == r.items;
  }

  /** A list fails to come back because of its first item that is not good. */
  lemma {:induction false} FailsAt(items: seq<string>, i: nat, wide: char -> bool)
    requires i < |items| && (forall j :: 0 <= j < i ==> Good(items[j], wide)) && !Good(items[i], wide)
    ensures Following(Tail(items, wide)) != Items(items)
    decreases i
  {
    hide Lex, Ends, Good, PrintItem;
    TailEnds(items, wide);
    TailEnds(items[1..], wide);
    if i > 0 {
      LexItem(items[0], Tail(items[1..], wide), wide);
      FailsAt(items[1..], i - 1, wide);
      assert [items[0]] + items[1..] == items;
    } else if items[0] == "" {
      NothingThere(Tail(items[1..], wide), wide);
      EmptyIsUnspaced();
      NoCatchUp([""], items[1..], wide);
      assert [""] + items[1..] == items;
    } else {
      BadItem(items[0], Tail(items[1..], wide), wide);
    }
  }

  lemma {:induction false} FirstBad(items: seq<string>, wide: char -> bool) returns (i: nat)
    requires exists v :: v in items && !Good(v, wide)
    ensures i < |items| && !Good(items[i], wide) && forall j :: 0 <= j < i ==> Good(items[j], wide)
  {
    if Good(items[0], wide) {
      i := FirstBad(items[1..], wide);
      i := i + 1;
    } else {
      i := 0;
    }
  }

  /** A list is read back exactly when all its items are good. */
  lemma RoundTripIff(items: seq<string>, wide: char -> bool)
    ensures LexInput(Print(items, wide)) == Items(items) <==> forall v :: v in items ==> Good(v, wide)
  {
    hide Lex, Good, Print, Tail;
    if forall v :: v in items ==> Good(v, wide) {
      RoundTrip(items, wide);
    } else {
      var i := FirstBad(items, wide);
      FailsAt(items, i, wide);
      TailEnds(items, wide);
    }
  }

  ghost function NonEmpty(items: seq<string>): seq<string> {
    if items == [] then [] else (if items[0] == "" then [] else [items[0]]) + NonEmpty(items[1..])
  }

  lemma {:induction false} LexTailDropping(items: seq<string>, wide: char -> bool)
    requires forall v :: v in items ==> v == "" || Good(v, wide)
    ensures Following(Tail(items, wide)) == Items(NonEmpty(items))
    decreases |items|
  {
    hide Ends, Good, IsSpace, QuotedChars;
    if items != [] {
      TailEnds(items, wide);
      TailEnds(items[1..], wide);
      LexTailDropping(items[1..], wide);
      if items[0] == "" {
        NothingThere(Tail(items[1..], wide), wide);
      } else {
        LexItem(items[0], Tail(items[1..], wide), wide);
      }
    }
  }

  lemma NothingThere(rest: string, wide: char -> bool)
    requires Ends(rest)
    ensures Lex(PrintItem("", wide) + rest, Outside, "", false) == Following(rest)
  {
    assert PrintItem("", wide) + rest == rest;
  }

  /** Empty items are lost in printing; the others come back. */
  lemma EmptiesDrop(items: seq<string>, wide: char -> bool)
    requires forall v :: v in items ==> v == "" || Good(v, wide)
    ensures LexInput(Print(items, wide)) == Items(NonEmpty(items))
  {
    if items != [] {
      hide Lex, Good, Print, Tail, NonEmpty;
      LexTailDropping(items, wide);
      TailEnds(items, wide);
    }
  }

  // Lines that read as given strings

  /** A backslash before each backslash, quote and comment character. */
  function Backslashed(v: string): string {
    if v == "" then ""
    else (if v[0] in {'\\', '"', '\'', '#'} then ['\\', v[0]] else [v[0]]) + Backslashed(v[1..])
  }

  predicate IsQuote(q: char) {
    q == '"' || q == '\''
  }

  lemma LexOneBackslashed(c: char, rest: string, mode: Mode, content: string, emit: bool)
    requires if mode.Quote? then IsQuote(mode.terminal) else !IsSpace(c)
    ensures Lex(Backslashed([c]) + rest, mode, content, emit) == Lex(rest, mode, content + [c], emit)
  {
    var q := Backslashed([c]);
    assert [c][1..] == "" && (q + rest)[|q|..] == rest;
  }

  lemma {:induction false} LexBackslashed(v: string, rest: string, mode: Mode, content: string, emit: bool)
    requires if mode.Quote? then IsQuote(mode.terminal) else !HasSpace(v)
    ensures Lex(Backslashed(v) + rest, mode, content, emit) == Lex(rest, mode, content + v, emit)
    decreases |v|
  {
    hide Lex;
    if v == "" {
      assert Backslashed(v) + rest == rest && content + v == content;
    } else {
      assert Backslashed(v) + rest == Backslashed([v[0]]) + (Backslashed(v[1..]) + rest) by { assert [v[0]][1..] == ""; }
      LexOneBackslashed(v[0], Backslashed(v[1..]) + rest, mode, content, emit);
      assert forall i :: 0 <= i < |v[1..]| ==> v[1..][i] == v[i + 1];
      LexBackslashed(v[1..], rest, mode, content + [v[0]], emit);
      assert content + [v[0]] + v[1..] == content + v;
    }
  }

  /** A word with backslashes put in reads as the word. */
  lemma BackslashedWord(w: string)
    requires w != "" && !HasSpace(w)
    ensures LexInput(Backslashed(w)) == Items([w])
  {
    LexBackslashed(w, "", Outside, "", false);
    assert Backslashed(w) + "" == Backslashed(w) && "" + w == w;
  }

  function Quoted(v: string, q: char): string {
    [q] + Backslashed(v) + [q]
  }

  lemma LexQuotedString(v: string, q: char, rest: string)
    requires IsQuote(q)
    ensures Lex(Quoted(v, q) + rest, Outside, "", false) == Lex(rest, Outside, v, true)
  {
    var s := Quoted(v, q) + rest;
    assert s[0] == q && s[1..] == Backslashed(v) + ([q] + rest);
    LexBackslashed(v, [q] + rest, Quote(q), "", false);
    assert "" + v == v && ([q] + rest)[1..] == rest;
  }

  /** Strings between quotes, with white space in between. */
  function QuotedLine(vs: seq<string>, q: char, space: char): string {
    if vs == [] then "" else Quoted(vs[0], q) + [space] + QuotedLine(vs[1..], q, space)
  }

  /** Every list of strings, empty ones included, is read from its line of quoted
      strings, with either quote and any white space. */
  lemma {:induction false} QuotedLineReads(vs: seq<string>, q: char, space: char)
    requires IsQuote(q) && IsSpace(space)
    ensures LexInput(QuotedLine(vs, q, space)) == Items(vs)
  {
    if vs != [] {
      var rest := [space] + QuotedLine(vs[1..], q, space);
      assert QuotedLine(vs, q, space) == Quoted(vs[0], q) + rest;
      LexQuotedString(vs[0], q, rest);
      LexEnd(vs[0], rest, true);
      assert rest[1..] == QuotedLine(vs[1..], q, space);
      QuotedLineReads(vs[1..], q, space);
      assert [vs[0]] + vs[1..] == vs;
    }
  }

  /** What a backslash makes of the next character (src/minicli/input.go:39-47). */
  lemma EscapeReads(c: char, rest: string, mode: Mode, content: string, emit: bool)
    ensures Lex(['\\', c] + rest, mode, content, emit) ==
      if c == 'r' then Lex(rest, mode, content + "\r", emit)
      else if c == 'n' then Lex(rest, mode, content + "\n", emit)
      else if c == 't' then Lex(rest, mode, content + "\t", emit)
      else if c in {'\\', '"', '\'', '#'} then Lex(rest, mode, content + [c], emit)
      else Failed(UnexpectedEscape(c))
  {
    assert (['\\', c] + rest)[2..] == rest;
  }

  /** A quote that is not closed, and a backslash at the very end. */
  lemma OpenEndsFail(v: string, q: char)
    requires IsQuote(q)
    ensures LexInput([q] + Backslashed(v)) == Failed(MissingTerminal(q))
    ensures !HasSpace(v) ==> LexInput(Backslashed(v) + "\\") == Failed(ExpectedEscape)
  {
    var s := [q] + Backslashed(v);
    assert s[1..] == Backslashed(v) + "";
    LexBackslashed(v, "", Quote(q), "", false);
    if !HasSpace(v) { LexBackslashed(v, "\\", Outside, "", false); }
  }

  /** What follows a comment character is not read. */
  lemma CommentEnds(w: string, comment: string)
    requires w != "" && !HasSpace(w)
    ensures LexInput(Backslashed(w) + "#" + comment) == Items([w])
  {
    LexBackslashed(w, "#" + comment, Outside, "", false);
    assert Backslashed(w) + ("#" + comment) == Backslashed(w) + "#" + comment && "" + w == w;
  }

  /** White space of any kind separates words (src/minicli/input.go:104-112). */
  lemma SpacesSeparate(a: string, b: string, c: char)
    requires a != "" && b != "" && NoneSpecial(a) && NoneSpecial(b) && !HasSpace(a) && !HasSpace(b)
    requires c as int in {9, 10, 11, 12, 13, 32, 0x85, 0xA0, 0x1680, 0x2028, 0x2029, 0x202F, 0x205F, 0x3000} ||
             0x2000 <= c as int <= 0x200A
    ensures LexInput(a + [c] + b) == Items([a, b])
  {
    assert IsSpace(c);
    LexRaw(a, [c] + b, "");
    assert a + ([c] + b) == a + [c] + b && "" + a == a;
    LexEnd(a, [c] + b, false);
    assert ([c] + b)[1..] == b;
    LexRaw(b, "", "");
    assert b + "" == b && "" + b == b;
  }

  /** No other character of ASCII does. */
  lemma OthersJoin(a: string, b: string, c: char)
    requires NoneSpecial(a) && NoneSpecial(b) && !HasSpace(a) && !HasSpace(b)
    requires '!' <= c <= '~' && c !in {'\\', '"', '\'', '#'}
    ensures LexInput(a + [c] + b) == Items([a + [c] + b])
  {
    var w := a + [c] + b;
    assert forall i :: 0 <= i < |w| ==> w[i] == if i < |a| then a[i] else if i == |a| then c else b[i - |a| - 1];
    LexRaw(w, "", "");
    assert w + "" == w && "" + w == w;
  }
}
