/** What a compiled command holds, in terms of the items of its pattern and of the
    input. */
module Arguments {
  import opened Patterns
  import opened Compilation

  /** Items that take one word of the input; the others take all that is left. */
  predicate OneWord(it: Item) {
    it.kind == Literal || it.kind == StringArg || it.kind == Choice
  }

  /** The word `x` is read for the item; `v` is the literal or the option that it
      is a prefix of, or the name of the argument. */
  predicate ReadAs(it: Item, v: string, x: string) {
    match it.kind
    case Literal => v == it.text && x <= v
    case Choice => v in it.options && x <= v
    case _ => v == it.key
  }

  /** The first items of the pattern, up to its end or to an optional item, are
      read one by one; only the last may take more than one word. */
  ghost predicate ShapeOk(p: Pattern, vals: seq<string>, input: seq<string>) {
    && |vals| <= |p| && |vals| <= |input| && (|vals| < |p| ==> p[|vals|].optional)
    && (|vals| < |input| ==> vals != [] && !OneWord(p[|vals| - 1]))
    && (forall n :: 0 <= n < |vals| - 1 ==> OneWord(p[n]))
    && (forall n :: 0 <= n < |vals| ==> ReadAs(p[n], vals[n], input[n]))
  }

  /** Item `n` is the string argument of that name. */
  ghost predicate Names(p: Pattern, n: int, key: string) {
    0 <= n < |p| && p[n].kind == StringArg && p[n].key == key
  }

  /** The first of that name. */
  ghost predicate FirstNamed(p: Pattern, n: int, key: string) {
    Names(p, n, key) && forall m :: Names(p, m, key) ==> n <= m
  }

  /** String arguments: the word read for the item of that name. */
  ghost predicate StringsOk(p: Pattern, input: seq<string>, strings: map<string, string>)
    requires |p| <= |input|
  {
    && (forall n, key :: FirstNamed(p, n, key) ==> key in strings && strings[key] == input[n])
    && (forall key :: key in strings ==> exists n :: Names(p, n, key))
  }

  ghost predicate Picks(p: Pattern, vals: seq<string>, n: int, v: string)
    requires |vals| == |p|
  {
    0 <= n < |p| && p[n].kind == Choice && vals[n] == v
  }

  /** Choices: the options that were matched. */
  ghost predicate BoolsOk(p: Pattern, vals: seq<string>, bools: set<string>)
    requires |vals| == |p|
  {
    forall v :: v in bools <==> exists n :: Picks(p, vals, n, v)
  }

  /** Literals and choices are written in full. */
  ghost predicate Full(p: Pattern, vals: seq<string>, input: seq<string>)
    requires |vals| == |p| <= |input|
  {
    forall n :: 0 <= n < |p| && (p[n].kind == Literal || p[n].kind == Choice) ==> input[n] == vals[n]
  }

  /** The list and the nested command take the rest of the input. */
  ghost predicate RestOk(root: Trie, p: Pattern, input: seq<string>, c: Command)
    requires NoTopCommand(root) && |p| <= |input|
  {
    && c.lists == (if p != [] && p[|p| - 1].kind == ListArg then map[p[|p| - 1].key := input[|p| - 1..]] else map[])
    && c.sub == (if p != [] && p[|p| - 1].kind == Nested then Compiled(root, root, input[|p| - 1..], false) else None)
  }

  /** The command is what the handler `h` gets when the items of `p` are read from
      the input as `vals` say. */
  ghost predicate Describes(root: Trie, p: Pattern, vals: seq<string>, input: seq<string>, h: nat, c: Command)
    requires NoTopCommand(root)
  {
    && ShapeOk(p, vals, input)
    && var q := p[..|vals|];
       && c.call == h && StringsOk(q, input, c.strings) && BoolsOk(q, vals, c.bools)
       && RestOk(root, q, input, c) && (c.exact <==> Full(q, vals, input))
  }

  function ValuesOf(e: seq<Key>): seq<string> {
    seq(|e|, i requires 0 <= i < |e| => e[i].value)
  }

  // From the rest of a pattern to the whole

  lemma ShapeStep(p: Pattern, vals: seq<string>, input: seq<string>, v: string)
    requires p != [] && input != [] && ShapeOk(p[1..], vals, input[1..]) && OneWord(p[0]) && ReadAs(p[0], v, input[0])
    ensures ShapeOk(p, [v] + vals, input)
  {
    var all := [v] + vals;
    forall n | 0 <= n < |all|
      ensures ReadAs(p[n], all[n], input[n]) && (n < |all| - 1 ==> OneWord(p[n]))
    {
      if n > 0 { assert all[n] == vals[n - 1] && p[n] == p[1..][n - 1] && input[n] == input[1..][n - 1]; }
    }
  }

  lemma NamesStep(p: Pattern, n: int, key: string)
    requires p != [] && n > 0
    ensures Names(p, n, key) <==> Names(p[1..], n - 1, key)
  {
  }

  lemma StringsStep(p: Pattern, input: seq<string>, strings: map<string, string>)
    requires p != [] && |p| <= |input| && StringsOk(p[1..], input[1..], strings)
    ensures StringsOk(p, input, if p[0].kind == StringArg then strings[p[0].key := input[0]] else strings)
  {
    var after := if p[0].kind == StringArg then strings[p[0].key := input[0]] else strings;
    forall n, key | FirstNamed(p, n, key)
      ensures key in after && after[key] == input[n]
    {
      if n > 0 {
        assert !Names(p, 0, key);
        assert FirstNamed(p[1..], n - 1, key) by { FirstStep(p, n, key); }
      }
    }
    forall key | key in after
      ensures exists n :: Names(p, n, key)
    {
      if p[0].kind == StringArg && key == p[0].key {
        assert Names(p, 0, key);
      } else {
        var n :| Names(p[1..], n, key);
        NamesStep(p, n + 1, key);
      }
    }
  }

  lemma FirstStep(p: Pattern, n: int, key: string)
    requires p != [] && n > 0 && FirstNamed(p, n, key)
    ensures FirstNamed(p[1..], n - 1, key)
  {
    forall m | Names(p[1..], m, key)
      ensures n - 1 <= m
    {
      NamesStep(p, m + 1, key);
    }
  }

  lemma BoolsStep(p: Pattern, vals: seq<string>, bools: set<string>, v: string)
    requires p != [] && |p| == |vals| + 1 && BoolsOk(p[1..], vals, bools)
    ensures BoolsOk(p, [v] + vals, if p[0].kind == Choice then bools + {v} else bools)
  {
    var all, after := [v] + vals, if p[0].kind == Choice then bools + {v} else bools;
    forall x
      ensures x in after <==> exists n :: Picks(p, all, n, x)
    {
      if x in bools {
        var n :| Picks(p[1..], vals, n, x);
        assert Picks(p, all, n + 1, x);
      }
      if p[0].kind == Choice && x == v { assert Picks(p, all, 0, x); }
      forall n | Picks(p, all, n, x)
        ensures x in after
      {
        if n > 0 { assert Picks(p[1..], vals, n - 1, x); }
      }
    }
  }

  lemma FullStep(p: Pattern, vals: seq<string>, input: seq<string>, v: string)
    requires p != [] && |p| == |vals| + 1 <= |input|
    ensures Full(p, [v] + vals, input) <==>
      Full(p[1..], vals, input[1..]) && (p[0].kind == Literal || p[0].kind == Choice ==> input[0] == v)
  {
    var all := [v] + vals;
    if Full(p, all, input) {
      forall n | 0 <= n < |p| - 1 && (p[1..][n].kind == Literal || p[1..][n].kind == Choice)
        ensures input[1..][n] == vals[n]
      {
        assert input[n + 1] == all[n + 1];
      }
    }
    if Full(p[1..], vals, input[1..]) && (p[0].kind == Literal || p[0].kind == Choice ==> input[0] == v) {
      forall n | 0 <= n < |p| && (p[n].kind == Literal || p[n].kind == Choice)
        ensures input[n] == all[n]
      {
        if n > 0 { assert p[1..][n - 1] == p[n] && input[1..][n - 1] == vals[n - 1]; }
      }
    }
  }

  lemma RestStep(root: Trie, p: Pattern, input: seq<string>, c: Command, c': Command)
    requires NoTopCommand(root) && p != [] && |p| <= |input| && OneWord(p[0])
    requires RestOk(root, p[1..], input[1..], c') && c.lists == c'.lists && c.sub == c'.sub
    ensures RestOk(root, p, input, c)
  {
    if |p| > 1 { assert input[1..][|p| - 2..] == input[|p| - 1..]; }
  }

  lemma KeyReads(it: Item, k: Key, x: string)
    requires k in KeysOf(it) && (Single(k) ==> Accepts(k, x))
    ensures k.kind == it.kind && ReadAs(it, k.value, x) && (Single(k) <==> OneWord(it))
  {
  }

  /** One word more. */
  lemma DescribesStep(root: Trie, p: Pattern, vals: seq<string>, input: seq<string>, h: nat, k: Key, c': Command)
    requires NoTopCommand(root) && p != [] && input != [] && k in KeysOf(p[0]) && Single(k) && Accepts(k, input[0])
    requires Describes(root, p[1..], vals, input[1..], h, c')
    ensures Describes(root, p, [k.value] + vals, input, h, Consumed(k, input[0], c'))
  {
    hide StringsOk, BoolsOk, RestOk, Full, ShapeOk, ReadAs;
    ShapeLength(p[1..], vals, input[1..]);
    var all, q, c := [k.value] + vals, p[..|vals| + 1], Consumed(k, input[0], c');
    KeyReads(p[0], k, input[0]);
    assert q[1..] == p[1..][..|vals|] && q[0] == p[0] && p[..|all|] == q;
    ShapeStep(p, vals, input, k.value);
    StringsStep(q, input, c'.strings);
    BoolsStep(q, vals, c'.bools, k.value);
    FullStep(q, vals, input, k.value);
    RestStep(root, q, input, c, c');
    assert ReadAs(p[0], k.value, input[0]);
    ExactWord(p[0], k, input[0], c');
  }

  lemma ShapeLength(p: Pattern, vals: seq<string>, input: seq<string>)
    requires ShapeOk(p, vals, input)
    ensures |vals| <= |p| && |vals| <= |input|
  {
  }

  lemma ExactWord(it: Item, k: Key, x: string, m: Command)
    requires k in KeysOf(it) && Single(k) && Accepts(k, x)
    ensures Consumed(k, x, m).exact <==> m.exact && (it.kind == Literal || it.kind == Choice ==> x == k.value)
    ensures Consumed(k, x, m).strings == if it.kind == StringArg then m.strings[it.key := x] else m.strings
    ensures Consumed(k, x, m).bools == if it.kind == Choice then m.bools + {k.value} else m.bools
  {
  }

  lemma DescribesEnd(root: Trie, p: Pattern, h: nat)
    requires NoTopCommand(root) && (p == [] || p[0].optional)
    ensures Describes(root, p, [], [], h, NewCommand(h))
  {
  }

  lemma DescribesRest(root: Trie, p: Pattern, k: Key, h: nat, input: seq<string>)
    requires NoTopCommand(root) && p != [] && input != [] && k in KeysOf(p[0]) && !Single(k)
    requires |p| == 1 || p[1].optional
    requires Reads(root, [k], input)
    ensures Describes(root, p, [k.value], input, h, CommandOf(root, [k], h, input))
  {
    var q := p[..1];
    assert q[0] == p[0] && input[0..] == input;
    assert forall v :: !Picks(q, [k.value], 0, v);
  }

  lemma EmptySpelling(p: Pattern)
    ensures [] in Expansions(p) <==> p == [] || p[0].optional
  {
    if p != [] { ExpansionMember(p, []); }
  }

  /** The command of a spelling of a pattern, item by item. */
  lemma {:induction false} SpellingDescribes(root: Trie, p: Pattern, e: seq<Key>, h: nat, input: seq<string>)
    requires NoTopCommand(root) && e in Expansions(p) && Reads(root, e, input)
    ensures Describes(root, p, ValuesOf(e), input, h, CommandOf(root, e, h, input))
    decreases |e|
  {
    hide Describes, Expansions, Compiled;
    if p != [] { ExpansionMember(p, e); }
    if e != [] { EmptyPatternSpells(p, e); }
    if e == [] {
      EmptySpelling(p);
      DescribesEnd(root, p, h);
      assert ValuesOf(e) == [];
    } else if Single(e[0]) {
      SpellingDescribes(root, p[1..], e[1..], h, input[1..]);
      DescribesStep(root, p, ValuesOf(e[1..]), input, h, e[0], CommandOf(root, e[1..], h, input[1..]));
      assert ValuesOf(e) == [e[0].value] + ValuesOf(e[1..]);
    } else {
      assert e == [e[0]] && e[1..] == [];
      EmptySpelling(p[1..]);
      DescribesRest(root, p, e[0], h, input);
      assert ValuesOf(e) == [e[0].value];
    }
  }

  /** Every compiled command is what one of the registered patterns makes of the
      input: the handler registered for it, and the arguments its items name. */
  lemma CompiledArguments(ps: seq<Entry>, input: seq<string>, c: Command) returns (i: int, vals: seq<string>)
    requires Build(ps).1 && NoTopCommand(Build(ps).0) && Compiled(Build(ps).0, Build(ps).0, input, false) == Some(c)
    ensures 0 <= i < |ps| && Describes(Build(ps).0, ps[i].items, vals, input, ps[i].handler, c)
  {
    var e;
    i, e := CompiledIsRegistered(ps, input);
    SpellingDescribes(Build(ps).0, ps[i].items, e, ps[i].handler, input);
    vals := ValuesOf(e);
  }

  /** With names that differ, every string argument is the word at its place. */
  lemma StringArguments(root: Trie, p: Pattern, vals: seq<string>, input: seq<string>, h: nat, c: Command, n: nat)
    requires NoTopCommand(root) && Describes(root, p, vals, input, h, c) && n < |vals| && p[n].kind == StringArg
    requires forall m :: 0 <= m < n && p[m].kind == StringArg ==> p[m].key != p[n].key
    ensures p[n].key in c.strings && c.strings[p[n].key] == input[n]
  {
    assert FirstNamed(p[..|vals|], n, p[n].key);
  }

  // The other way around: what can be read is compiled

  /** The items of the pattern can be read from the input as `vals` say. */
  ghost predicate Readable(root: Trie, p: Pattern, vals: seq<string>, input: seq<string>)
    requires NoTopCommand(root)
  {
    && ShapeOk(p, vals, input)
    && (vals != [] && p[|vals| - 1].kind == Nested ==> Compiled(root, root, input[|vals| - 1..], false).Some?)
  }

  lemma KeyFor(it: Item, v: string, x: string) returns (k: Key)
    requires ReadAs(it, v, x)
    ensures k in KeysOf(it) && k.value == v && k.kind == it.kind && (OneWord(it) ==> Accepts(k, x))
  {
    if it.kind == Choice {
      var i :| 0 <= i < |it.options| && it.options[i] == v;
      k := KeysOf(it)[i];
    } else {
      k := KeysOf(it)[0];
    }
  }

  lemma ReadableTail(root: Trie, p: Pattern, vals: seq<string>, input: seq<string>)
    requires NoTopCommand(root) && Readable(root, p, vals, input) && vals != [] && OneWord(p[0])
    ensures Readable(root, p[1..], vals[1..], input[1..])
  {
    assert forall n :: 0 <= n < |vals| - 1 ==>
      p[1..][n] == p[n + 1] && vals[1..][n] == vals[n + 1] && input[1..][n] == input[n + 1];
    if |vals| > 1 { assert input[1..][|vals| - 2..] == input[|vals| - 1..]; }
  }

  lemma {:induction false} SpellOne(root: Trie, p: Pattern, k: Key, rest: seq<Key>, input: seq<string>)
    requires NoTopCommand(root) && p != [] && input != [] && k in KeysOf(p[0]) && Single(k) && Accepts(k, input[0])
    requires rest in Expansions(p[1..]) && Reads(root, rest, input[1..])
    ensures var e := [k] + rest; e in Expansions(p) && Reads(root, e, input) && ValuesOf(e) == [k.value] + ValuesOf(rest)
  {
    hide Expansions, Compiled;
    var e := [k] + rest;
    assert e[1..] == rest;
    ExpansionMember(p, e);
  }

  lemma SpellLast(root: Trie, p: Pattern, k: Key, input: seq<string>)
    requires NoTopCommand(root) && p != [] && input != [] && k in KeysOf(p[0]) && !Single(k)
    requires |p| == 1 || p[1].optional
    requires k.kind == Nested ==> Compiled(root, root, input, false).Some?
    ensures [k] in Expansions(p) && Reads(root, [k], input) && ValuesOf([k]) == [k.value]
  {
    assert [k][1..] == [];
    if |p| > 1 { ExpansionMember(p[1..], []); }
    ExpansionMember(p, [k]);
  }

  /** A reading of a pattern is one of its spellings. */
  lemma {:induction false} ReadingSpells(root: Trie, p: Pattern, vals: seq<string>, input: seq<string>) returns (e: seq<Key>)
    requires NoTopCommand(root) && Readable(root, p, vals, input)
    ensures e in Expansions(p) && Reads(root, e, input) && ValuesOf(e) == vals
    decreases |vals|
  {
    hide Expansions, Reads, Compiled;
    if vals == [] {
      e := [];
      EmptySpells(root, p);
    } else {
      var k := KeyFor(p[0], vals[0], input[0]);
      if OneWord(p[0]) {
        ReadableTail(root, p, vals, input);
        var rest := ReadingSpells(root, p[1..], vals[1..], input[1..]);
        e := [k] + rest;
        SpellOne(root, p, k, rest, input);
        assert [vals[0]] + vals[1..] == vals;
      } else {
        assert |vals| == 1 && input[0..] == input;
        e := [k];
        SpellLast(root, p, k, input);
        assert [vals[0]] == vals;
      }
    }
  }

  lemma EmptySpells(root: Trie, p: Pattern)
    requires NoTopCommand(root) && (p == [] || p[0].optional)
    ensures [] in Expansions(p) && Reads(root, [], []) && ValuesOf([]) == []
  {
    if p != [] { ExpansionMember(p, []); }
  }

  lemma SpellingReads(root: Trie, p: Pattern, e: seq<Key>, input: seq<string>)
    requires NoTopCommand(root) && e in Expansions(p) && Reads(root, e, input)
    ensures Readable(root, p, ValuesOf(e), input)
  {
    SpellingDescribes(root, p, e, 0, input);
    NestedCompiles(root, p, e, input);
  }

  lemma SpellingShape(root: Trie, p: Pattern, e: seq<Key>, input: seq<string>)
    requires NoTopCommand(root) && e in Expansions(p) && Reads(root, e, input)
    ensures ShapeOk(p, ValuesOf(e), input)
  {
    SpellingDescribes(root, p, e, 0, input);
  }

  lemma {:induction false} NestedCompiles(root: Trie, p: Pattern, e: seq<Key>, input: seq<string>)
    requires NoTopCommand(root) && e in Expansions(p) && Reads(root, e, input) && ShapeOk(p, ValuesOf(e), input)
    ensures e != [] && p[|e| - 1].kind == Nested ==> Compiled(root, root, input[|e| - 1..], false).Some?
    decreases |e|
  {
    hide Expansions, Describes, ReadAs;
    if e != [] {
      EmptyPatternSpells(p, e);
      ExpansionMember(p, e);
      KeyReads(p[0], e[0], input[0]);
      if |e| == 1 {
        assert input[0..] == input;
      } else {
        SpellingShape(root, p[1..], e[1..], input[1..]);
        NestedCompiles(root, p[1..], e[1..], input[1..]);
        assert input[1..][|e| - 2..] == input[|e| - 1..];
      }
    }
  }

  lemma EmptyPatternSpells(p: Pattern, e: seq<Key>)
    requires e in Expansions(p) && e != []
    ensures p != []
  {
  }

  lemma KeyOfValue(it: Item, j: Key, k: Key)
    requires j in KeysOf(it) && k in KeysOf(it)
    ensures j.value == k.value ==> j == k
  {
  }

  /** The values of a spelling determine it. */
  lemma {:induction false} SameValues(p: Pattern, e: seq<Key>, f: seq<Key>)
    requires e in Expansions(p) && f in Expansions(p) && ValuesOf(e) == ValuesOf(f)
    ensures e == f
    decreases |e|
  {
    hide Expansions;
    assert |e| == |ValuesOf(e)| == |f|;
    if e != [] {
      EmptyPatternSpells(p, e);
      ExpansionMember(p, e);
      ExpansionMember(p, f);
      KeyOfValue(p[0], e[0], f[0]);
      assert ValuesOf(e)[0] == e[0].value && ValuesOf(f)[0] == f[0].value;
      assert ValuesOf(e)[1..] == ValuesOf(e[1..]) && ValuesOf(f)[1..] == ValuesOf(f[1..]);
      SameValues(p[1..], e[1..], f[1..]);
      assert e == [e[0]] + e[1..] && f == [f[0]] + f[1..];
    }
  }

  /** An input that the registered patterns can be read from in one way only, be it
      by prefixes, compiles, to that pattern and those values. */
  lemma OnlyReadingCompiles(ps: seq<Entry>, i: int, vals: seq<string>, input: seq<string>) returns (c: Command)
    requires Build(ps).1 && NoTopCommand(Build(ps).0) && 0 <= i < |ps|
    requires Readable(Build(ps).0, ps[i].items, vals, input)
    requires forall j, w :: 0 <= j < |ps| && Readable(Build(ps).0, ps[j].items, w, input) ==> j == i && w == vals
    ensures var t := Build(ps).0;
      Compiled(t, t, input, false) == Some(c) && Describes(t, ps[i].items, vals, input, ps[i].handler, c)
  {
    var t := Build(ps).0;
    var e := ReadingSpells(t, ps[i].items, vals, input);
    assert Spells(ps, i, e);
    forall j, f | Spells(ps, j, f) && Reads(t, f, input)
      ensures f == e
    {
      SpellingReads(t, ps[j].items, f, input);
      SameValues(ps[i].items, e, f);
    }
    OnlySpellingCompiles(ps, i, e, input);
    SpellingDescribes(t, ps[i].items, e, ps[i].handler, input);
    c := CommandOf(t, e, ps[i].handler, input);
  }
}
