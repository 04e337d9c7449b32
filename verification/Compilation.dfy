/** Compiling input items into a command against the trie, and what the result
    says about the registered patterns. */
module Compilation {
  import opened Patterns

  datatype Command = Command(call: nat, strings: map<string, string>, bools: set<string>,
                             lists: map<string, seq<string>>, sub: Option<Command>, exact: bool)

  function NewCommand(h: nat): Command {
    Command(h, map[], {}, map[], None, true)
  }

  /** Without this, compiling a nested command would not consume any input. */
  ghost predicate NoTopCommand(t: Trie) {
    forall k :: k in t.children ==> k.kind != Nested
  }

  /** Keys that stand for a single input item. */
  predicate Single(k: Key) {
    k.kind != ListArg && k.kind != Nested
  }

  predicate Accepts(k: Key, x: string) {
    k.kind == StringArg || x <= k.value
  }

  predicate Spelled(k: Key, x: string) {
    k.kind == StringArg || x == k.value
  }

  /** The command after an item has been read for a key
      (src/minicli/trie.go:116-145). */
  function Consumed(k: Key, x: string, m: Command): Command {
    match k.kind
    case StringArg => m.(strings := m.strings[k.value := x])
    case Choice => m.(bools := m.bools + {k.value}, exact := m.exact && |k.value| == |x|)
    case _ => m.(exact := m.exact && |k.value| == |x|)
  }

  /** What `compile` returns; `deep` is false at the root of the trie
      (src/minicli/trie.go:97-209). */
  ghost function Compiled(root: Trie, t: Trie, input: seq<string>, deep: bool): Option<Command>
    requires NoTopCommand(root) && (deep || NoTopCommand(t))
    decreases |input|, deep, 2
  {
    if input == [] then
      if t.handler.Some? then Some(NewCommand(t.handler.value)) else None
    else Choose(Candidates(root, t, input, deep))
  }

  ghost function Candidates(root: Trie, t: Trie, input: seq<string>, deep: bool): map<Key, Command>
    requires NoTopCommand(root) && (deep || NoTopCommand(t)) && input != []
    decreases |input|, deep, 1
  {
    map k | k in t.children && Try(root, t.children[k], k, input, deep).Some? ::
      Try(root, t.children[k], k, input, deep).value
  }

  /** Compile through the child `c` at key `k`. */
  ghost function Try(root: Trie, c: Trie, k: Key, input: seq<string>, deep: bool): Option<Command>
    requires NoTopCommand(root) && (deep || k.kind != Nested) && input != []
    decreases |input|, deep, 0
  {
    if Single(k) then
      if !Accepts(k, input[0]) then None
      else
        var m := Compiled(root, c, input[1..], true);
        if m.None? then None else Some(Consumed(k, input[0], m.value))
    else if c.handler.None? then None
    else if k.kind == ListArg then Some(NewCommand(c.handler.value).(lists := map[k.value := input]))
    else
      var m := Compiled(root, root, input, false);
      if m.None? then None else Some(NewCommand(c.handler.value).(sub := m))
  }

  ghost predicate Only(cs: map<Key, Command>, k: Key) {
    k in cs && forall j :: j in cs ==> j == k
  }

  ghost predicate OnlyExact(cs: map<Key, Command>, k: Key) {
    k in cs && cs[k].exact && forall j :: j in cs && cs[j].exact ==> j == k
  }

  /** The single candidate, or the single exact one. */
  ghost function Choose(cs: map<Key, Command>): Option<Command> {
    if exists k :: Only(cs, k) then
      var k :| Only(cs, k); Some(cs[k])
    else if exists k :: OnlyExact(cs, k) then
      var k :| OnlyExact(cs, k); Some(cs[k])
    else None
  }

  // Reading an input along a path of keys

  ghost predicate Reads(root: Trie, e: seq<Key>, input: seq<string>)
    requires NoTopCommand(root)
    decreases |e|
  {
    if e == [] then input == []
    else if input == [] then false
    else if Single(e[0]) then Accepts(e[0], input[0]) && Reads(root, e[1..], input[1..])
    else |e| == 1 && (e[0].kind == Nested ==> Compiled(root, root, input, false).Some?)
  }

  /** Every literal and choice is written out in full. */
  ghost predicate Exact(e: seq<Key>, input: seq<string>)
    decreases |e|
  {
    if e == [] || input == [] || !Single(e[0]) then true
    else Spelled(e[0], input[0]) && Exact(e[1..], input[1..])
  }

  /** The command that a path and an input determine. */
  ghost function CommandOf(root: Trie, e: seq<Key>, h: nat, input: seq<string>): Command
    requires NoTopCommand(root) && Reads(root, e, input)
    decreases |e|
  {
    if e == [] then NewCommand(h)
    else if Single(e[0]) then Consumed(e[0], input[0], CommandOf(root, e[1..], h, input[1..]))
    else if e[0].kind == ListArg then NewCommand(h).(lists := map[e[0].value := input])
    else NewCommand(h).(sub := Compiled(root, root, input, false))
  }

  lemma {:induction false} ExactCommand(root: Trie, e: seq<Key>, h: nat, input: seq<string>)
    requires NoTopCommand(root) && Reads(root, e, input)
    ensures CommandOf(root, e, h, input).exact <==> Exact(e, input)
    decreases |e|
  {
    if e != [] && Single(e[0]) {
      ExactCommand(root, e[1..], h, input[1..]);
    }
  }

  /** The path has a handler and reads the input. */
  ghost predicate Matches(root: Trie, t: Trie, e: seq<Key>, input: seq<string>)
    requires NoTopCommand(root)
  {
    Lookup(t, e).Some? && Reads(root, e, input)
  }

  ghost function Made(root: Trie, t: Trie, e: seq<Key>, input: seq<string>): Command
    requires NoTopCommand(root) && Matches(root, t, e, input)
  {
    CommandOf(root, e, Lookup(t, e).value, input)
  }

  lemma MatchesBelow(root: Trie, t: Trie, k: Key, e: seq<Key>, input: seq<string>)
    requires NoTopCommand(root) && input != [] && Single(k) && Accepts(k, input[0])
    ensures Matches(root, t, [k] + e, input) <==> Matches(root, Child(t, k), e, input[1..])
    ensures Matches(root, t, [k] + e, input) ==>
      Made(root, t, [k] + e, input) == Consumed(k, input[0], Made(root, Child(t, k), e, input[1..]))
    ensures Exact([k] + e, input) <==> Spelled(k, input[0]) && Exact(e, input[1..])
  {
    assert ([k] + e)[1..] == e;
  }

  lemma ChooseOnly(cs: map<Key, Command>, k: Key)
    ensures Only(cs, k) || OnlyExact(cs, k) ==> Choose(cs) == Some(cs[k])
  {
  }

  lemma OneElement<T>(s: set<T>, x: T, y: T)
    requires |s| == 1 && x in s && y in s
    ensures x == y
  {
    assert |s - {x}| == 0;
    assert s == {x} + (s - {x});
  }

  lemma OnlyOne<T>(s: set<T>, x: T)
    requires x in s && forall y :: y in s ==> y == x
    ensures |s| == 1
  {
    assert s == {x};
  }

  /** The choice by counting candidates and exact ones: a single candidate is
      chosen; among several, a single exact one; otherwise none
      (src/minicli/trie.go:175-199). */
  lemma ChooseCounts(cs: map<Key, Command>)
    ensures |cs| == 0 ==> Choose(cs) == None
    ensures |cs| == 1 ==> forall k :: k in cs ==> Choose(cs) == Some(cs[k])
    ensures var exact := set k | k in cs && cs[k].exact;
      |cs| > 1 ==> if |exact| == 1 then forall k :: k in exact ==> Choose(cs) == Some(cs[k]) else Choose(cs) == None
  {
    var exact := set k | k in cs && cs[k].exact;
    assert |cs| == |cs.Keys|;
    if |cs| == 1 {
      forall k | k in cs
        ensures Choose(cs) == Some(cs[k])
      {
        forall j | j in cs
          ensures j == k
        {
          OneElement(cs.Keys, j, k);
        }
        ChooseOnly(cs, k);
      }
    }
    forall k | Only(cs, k)
      ensures |cs| == 1
    {
      OnlyOne(cs.Keys, k);
    }
    forall k | OnlyExact(cs, k)
      ensures |exact| == 1
    {
      OnlyOne(exact, k);
    }
    if |exact| == 1 {
      forall k | k in exact
        ensures Choose(cs) == Some(cs[k])
      {
        forall j | j in exact
          ensures j == k
        {
          OneElement(exact, j, k);
        }
        assert OnlyExact(cs, k) by {
          forall j | j in cs && cs[j].exact
            ensures j == k
          {
            assert j in exact;
          }
        }
        ChooseOnly(cs, k);
      }
    }
  }

  lemma ChosenFrom(cs: map<Key, Command>) returns (k: Key)
    requires Choose(cs).Some?
    ensures k in cs && cs[k] == Choose(cs).value
  {
    if exists k :: Only(cs, k) {
      k :| Only(cs, k);
    } else {
      k :| OnlyExact(cs, k);
    }
  }

  /** A compiled command comes from a path that matches the input, with exactly
      the arguments of that path. */
  lemma {:induction false} CompileSound(root: Trie, t: Trie, input: seq<string>, deep: bool) returns (e: seq<Key>)
    requires NoTopCommand(root) && (deep || NoTopCommand(t))
    requires Compiled(root, t, input, deep).Some?
    ensures Matches(root, t, e, input) && Compiled(root, t, input, deep).value == Made(root, t, e, input)
    decreases |input|, 1
  {
    if input == [] {
      e := [];
    } else {
      var k := ChosenFrom(Candidates(root, t, input, deep));
      e := TrySound(root, t, k, input, deep);
    }
  }

  lemma {:induction false} TrySound(root: Trie, t: Trie, k: Key, input: seq<string>, deep: bool) returns (e: seq<Key>)
    requires NoTopCommand(root) && (deep || NoTopCommand(t)) && input != []
    requires k in t.children && Try(root, t.children[k], k, input, deep).Some?
    ensures e != [] && e[0] == k && Matches(root, t, e, input)
    ensures Try(root, t.children[k], k, input, deep).value == Made(root, t, e, input)
    decreases |input|, 0
  {
    if Single(k) {
      var e' := CompileSound(root, t.children[k], input[1..], true);
      e := [k] + e';
      MatchesBelow(root, t, k, e', input);
    } else {
      e := [k];
      assert e[1..] == [];
    }
  }

  /** Matching paths of interest: all of them, or only the exact ones. */
  ghost predicate Good(strict: bool, root: Trie, t: Trie, e: seq<Key>, input: seq<string>)
    requires NoTopCommand(root)
  {
    Matches(root, t, e, input) && (strict ==> Exact(e, input))
  }

  ghost predicate Sole(strict: bool, root: Trie, t: Trie, e: seq<Key>, input: seq<string>)
    requires NoTopCommand(root)
  {
    Good(strict, root, t, e, input) && forall e' :: Good(strict, root, t, e', input) ==> e' == e
  }

  lemma SoleBelow(strict: bool, root: Trie, t: Trie, e: seq<Key>, input: seq<string>)
    requires NoTopCommand(root) && Sole(strict, root, t, e, input) && input != [] && e != [] && Single(e[0])
    ensures Sole(strict, root, Child(t, e[0]), e[1..], input[1..])
  {
    var k := e[0];
    assert [k] + e[1..] == e;
    MatchesBelow(root, t, k, e[1..], input);
    forall e' | Good(strict, root, Child(t, k), e', input[1..])
      ensures e' == e[1..]
    {
      MatchesBelow(root, t, k, e', input);
      assert Good(strict, root, t, [k] + e', input);
    }
  }

  lemma TryMakes(root: Trie, t: Trie, e: seq<Key>, input: seq<string>, deep: bool)
    requires NoTopCommand(root) && (deep || NoTopCommand(t)) && input != []
    requires Matches(root, t, e, input) && e[0] in t.children
    requires Single(e[0]) ==>
      Matches(root, t.children[e[0]], e[1..], input[1..]) &&
      Compiled(root, t.children[e[0]], input[1..], true) == Some(Made(root, t.children[e[0]], e[1..], input[1..]))
    ensures Try(root, t.children[e[0]], e[0], input, deep) == Some(Made(root, t, e, input))
  {
    if !Single(e[0]) {
      assert e == [e[0]] && e[1..] == [];
      assert Lookup(t, e) == t.children[e[0]].handler;
    }
  }

  /** If one path alone matches the input, or one alone matches it exactly, that
      path is what the input compiles to. */
  lemma {:induction false} SoleCompiles(strict: bool, root: Trie, t: Trie, e: seq<Key>, input: seq<string>, deep: bool)
    requires NoTopCommand(root) && (deep || NoTopCommand(t))
    requires Sole(strict, root, t, e, input)
    ensures Compiled(root, t, input, deep) == Some(Made(root, t, e, input))
    decreases |input|
  {
    if input != [] {
      var k := e[0];
      ChildIsThere(root, t, e, input);
      if Single(k) {
        SoleBelow(strict, root, t, e, input);
        SoleCompiles(strict, root, t.children[k], e[1..], input[1..], true);
      }
      TryMakes(root, t, e, input, deep);
      var cs := Candidates(root, t, input, deep);
      forall j | j in cs && (strict ==> cs[j].exact)
        ensures j == k
      {
        var e' := TrySound(root, t, j, input, deep);
        ExactCommand(root, e', Lookup(t, e').value, input);
        assert Good(strict, root, t, e', input);
      }
      ExactCommand(root, e, Lookup(t, e).value, input);
      ChooseOnly(cs, k);
    }
  }

  lemma ChildIsThere(root: Trie, t: Trie, e: seq<Key>, input: seq<string>)
    requires NoTopCommand(root) && Matches(root, t, e, input) && e != []
    ensures e[0] in t.children
  {
    if e[0] !in t.children { EmptyLookup(e[1..]); }
  }

  /** An input that only one path matches compiles to it. */
  lemma UniqueCompiles(root: Trie, e: seq<Key>, input: seq<string>)
    requires NoTopCommand(root) && Matches(root, root, e, input)
    requires forall e' :: Matches(root, root, e', input) ==> e' == e
    ensures Compiled(root, root, input, false) == Some(Made(root, root, e, input))
  {
    SoleCompiles(false, root, root, e, input, false);
  }

  /** An exact match wins over any number of abbreviated ones. */
  lemma ExactWins(root: Trie, e: seq<Key>, input: seq<string>)
    requires NoTopCommand(root) && Matches(root, root, e, input) && Exact(e, input)
    requires forall e' :: Matches(root, root, e', input) && Exact(e', input) ==> e' == e
    ensures Compiled(root, root, input, false) == Some(Made(root, root, e, input))
  {
    SoleCompiles(true, root, root, e, input, false);
  }

  // Against the flat list of registered patterns

  lemma MatchesIsSpelled(ps: seq<Entry>, i: int, e: seq<Key>, input: seq<string>)
    requires Build(ps).1 && NoTopCommand(Build(ps).0) && Spells(ps, i, e)
    ensures var t := Build(ps).0;
      Lookup(t, e) == Some(ps[i].handler) && (Matches(t, t, e, input) <==> Reads(t, e, input))
  {
    BuildIndexes(ps);
  }

  /** A compiled command comes from a registered pattern: some spelling of it
      reads the input, and its handler and the arguments of that spelling make
      the command. */
  lemma CompiledIsRegistered(ps: seq<Entry>, input: seq<string>) returns (i: int, e: seq<Key>)
    requires Build(ps).1 && NoTopCommand(Build(ps).0) && Compiled(Build(ps).0, Build(ps).0, input, false).Some?
    ensures var t := Build(ps).0;
      Spells(ps, i, e) && Reads(t, e, input) && Compiled(t, t, input, false) == Some(CommandOf(t, e, ps[i].handler, input))
  {
    var t := Build(ps).0;
    BuildIndexes(ps);
    e := CompileSound(t, t, input, false);
    i :| Spells(ps, i, e);
  }

  /** An input that only one registered spelling reads compiles to it. */
  lemma OnlySpellingCompiles(ps: seq<Entry>, i: int, e: seq<Key>, input: seq<string>)
    requires Build(ps).1 && NoTopCommand(Build(ps).0) && Spells(ps, i, e) && Reads(Build(ps).0, e, input)
    requires forall j, f :: Spells(ps, j, f) && Reads(Build(ps).0, f, input) ==> f == e
    ensures var t := Build(ps).0; Compiled(t, t, input, false) == Some(CommandOf(t, e, ps[i].handler, input))
  {
    var t := Build(ps).0;
    BuildIndexes(ps);
    forall f | Matches(t, t, f, input)
      ensures f == e
    {
      var j :| Spells(ps, j, f);
    }
    MatchesIsSpelled(ps, i, e, input);
    UniqueCompiles(t, e, input);
  }
}
