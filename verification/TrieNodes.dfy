/** The trie as it is kept in memory: linked nodes that are extended in place and
    walked by `compile`, each standing for a value of `Patterns.Trie`. */
module TrieNodes {
  import opened Patterns
  import opened Compilation
  import opened Arguments

  /** `cmds` holds the candidates `cs`, one for each of the keys `ks`. */
  ghost predicate Lists(cs: map<Key, Command>, ks: seq<Key>, cmds: seq<Command>) {
    && |ks| == |cmds|
    && (forall i :: 0 <= i < |ks| ==> ks[i] in cs && cs[ks[i]] == cmds[i])
    && (forall i, j :: 0 <= i < j < |ks| ==> ks[i] != ks[j])
    && (forall k :: k in cs ==> k in ks)
  }

  /** Choose among the candidates (src/minicli/trie.go:175-199). */
  method Pick(cmds: seq<Command>, ghost cs: map<Key, Command>, ghost ks: seq<Key>) returns (r: Option<Command>)
    requires Lists(cs, ks, cmds)
    ensures r == Choose(cs)
  {
    r := None;
    var exact := 0;
    ghost var a, b := -1, -1;
    for i := 0 to |cmds|
      invariant 0 <= exact
      invariant exact == 0 ==> forall j :: 0 <= j < i ==> !cmds[j].exact
      invariant exact > 0 ==> 0 <= a < i && cmds[a].exact && r == Some(cmds[a])
      invariant exact == 1 ==> forall j :: 0 <= j < i && cmds[j].exact ==> j == a
      invariant exact > 1 ==> 0 <= b < a && cmds[b].exact
    {
      if cmds[i].exact {
        exact, a, b, r := exact + 1, i, a, Some(cmds[i]);
      }
    }
    if |cmds| == 0 {
      NoneListed(cs, ks, cmds);
      return None;
    } else if |cmds| == 1 {
      assert Only(cs, ks[0]);
      ChooseOnly(cs, ks[0]);
      return Some(cmds[0]);
    }
    assert ks[0] != ks[1] && ks[0] in cs && ks[1] in cs;
    if exact == 1 {
      OneExact(cs, ks, cmds, a);
    } else {
      r := None;
      assert exact > 1 ==> ks[a] != ks[b];
      NotOneExact(cs, ks, cmds, exact > 1, a, b);
    }
  }

  lemma NoneListed(cs: map<Key, Command>, ks: seq<Key>, cmds: seq<Command>)
    requires Lists(cs, ks, cmds) && cmds == []
    ensures Choose(cs) == None
  {
  }

  lemma OneExact(cs: map<Key, Command>, ks: seq<Key>, cmds: seq<Command>, a: int)
    requires Lists(cs, ks, cmds) && 0 <= a < |cmds| && cmds[a].exact
    requires forall j :: 0 <= j < |cmds| && cmds[j].exact ==> j == a
    ensures Choose(cs) == Some(cmds[a])
  {
    assert OnlyExact(cs, ks[a]);
    ChooseOnly(cs, ks[a]);
  }

  lemma NotOneExact(cs: map<Key, Command>, ks: seq<Key>, cmds: seq<Command>, several: bool, a: int, b: int)
    requires Lists(cs, ks, cmds) && |cmds| > 1
    requires if several then 0 <= b < a < |cmds| && cmds[a].exact && cmds[b].exact
             else forall j :: 0 <= j < |cmds| ==> !cmds[j].exact
    ensures Choose(cs) == None
  {
    assert ks[0] != ks[1];
    forall k
      ensures !Only(cs, k) && !OnlyExact(cs, k)
    {
      assert several ==> ks[a] != ks[b];
    }
  }

  class PatternTrie {
    var children: map<Key, PatternTrie>
    var handler: Option<nat>
    ghost var repr: set<PatternTrie>
    ghost var model: Trie

    /** The nodes below form a tree, and `model` is its value. */
    ghost predicate Valid()
      reads this, repr
      decreases repr
    {
      && this in repr
      && (forall k :: k in children ==>
            children[k] in repr && children[k].repr < repr && this !in children[k].repr && children[k].Valid())
      && (forall j, k :: j in children && k in children && j != k ==> children[j].repr !! children[k].repr)
      && model.children.Keys == children.Keys && model.handler == handler
      && (forall k :: k in children ==> model.children[k] == children[k].model)
    }

    constructor ()
      ensures Valid() && fresh(repr) && model == EMPTY
    {
      children, handler, repr, model := map[], None, {this}, EMPTY;
    }

    /** src/minicli/trie.go:87-94 */
    method SetHandler(h: nat) returns (ok: bool)
      requires Valid()
      modifies this
      ensures Valid() && repr == old(repr)
      ensures (model, ok) == Patterns.SetHandler(old(model), h)
    {
      if handler.Some? {
        return false;
      }
      handler, model := Some(h), model.(handler := Some(h));
      return true;
    }

    /** Make sure there is a child at `k`. */
    method Grow(k: Key)
      requires Valid()
      modifies this
      ensures Valid() && fresh(repr - old(repr)) && old(repr) <= repr && k in children
      ensures children[k].model == Child(old(model), k)
      ensures model == old(model).(children := old(model).children[k := children[k].model])
    {
      if k !in children {
        var n := new PatternTrie();
        children := children[k := n];
        repr := repr + n.repr;
        model := model.(children := model.children[k := n.model]);
      }
    }

    /** Everything but the child at `k`, whose nodes are `mine`, is in order. */
    ghost predicate ValidBut(k: Key, mine: set<PatternTrie>)
      reads this, repr - mine
    {
      && this in repr && this !in mine
      && (forall j :: j in children && j != k ==>
            && children[j] in repr - mine && children[j].repr <= repr - mine
            && this !in children[j].repr && children[j].Valid())
      && (forall i, j :: i in children && j in children && i != k && j != k && i != j ==>
            children[i].repr !! children[j].repr)
      && model.children.Keys == children.Keys && model.handler == handler
      && (forall j :: j in children && j != k ==> model.children[j] == children[j].model)
    }

    lemma Here()
      requires Valid()
      ensures this in repr
    {
    }

    lemma Apart(k: Key)
      requires Valid() && k in children
      ensures children[k].Valid() && children[k].repr <= repr && this !in children[k].repr
      ensures ValidBut(k, children[k].repr)
    {
    }

    /** Account for what was added below the child at `k`. */
    ghost method Absorb(k: Key, mine: set<PatternTrie>)
      requires k in children && ValidBut(k, mine) && children[k].Valid() && mine <= children[k].repr
      requires children[k].repr !! repr - mine
      modifies this`repr, this`model
      ensures Valid() && repr == old(repr) + children[k].repr
      ensures model == old(model).(children := old(model).children[k := children[k].model])
    {
      ghost var others := repr - mine;
      repr := repr + children[k].repr;
      model := model.(children := model.children[k := children[k].model]);
      forall j | j in children && j != k
        ensures children[j].repr <= others && children[j].repr < repr && children[j].repr !! children[k].repr
      {
        assert this in repr && this !in children[j].repr;
      }
    }

    /** Add the rest of a pattern below the child at `k` (src/minicli/trie.go:66-82). */
    method AddBelow(k: Key, rest: Pattern, h: nat) returns (ok: bool)
      requires Valid()
      modifies repr
      ensures Valid() && fresh(repr - old(repr)) && old(repr) <= repr
      ensures var (c, b) := Patterns.Add(Child(old(model), k), rest, h);
        ok == b && model == old(model).(children := old(model).children[k := c])
      decreases |rest|, 1
    {
      hide Valid, ValidBut, Patterns.Add;
      Here();
      Grow(k);
      var c := children[k];
      ghost var mine := c.repr;
      Apart(k);
      ok := c.Add(rest, h);
      Absorb(k, mine);
    }

    /** Add a pattern (src/minicli/trie.go:39-85). */
    method Add(p: Pattern, h: nat) returns (ok: bool)
      requires Valid()
      modifies repr
      ensures Valid() && fresh(repr - old(repr)) && old(repr) <= repr
      ensures (model, ok) == Patterns.Add(old(model), p, h)
      decreases |p|, 0
    {
      if p == [] {
        ok := SetHandler(h);
        return;
      }
      if p[0].optional {
        ok := SetHandler(h);
        if !ok {
          return;
        }
      }
      var keys := KeysOf(p[0]);
      ghost var goal := AddKeys(model, keys, p[1..], h);
      for i := 0 to |keys|
        invariant Valid() && fresh(repr - old(repr)) && old(repr) <= repr
        invariant AddKeys(model, keys[i..], p[1..], h) == goal
      {
        assert keys[i..][1..] == keys[i + 1..];
        ok := AddBelow(keys[i], p[1..], h);
        if !ok {
          return;
        }
      }
      return true;
    }

    /** Compile through the child at `k` (src/minicli/trie.go:111-172). */
    method TryChild(root: PatternTrie, k: Key, input: seq<string>, deep: bool) returns (r: Option<Command>)
      requires Valid() && root.Valid() && NoTopCommand(root.model) && (deep || NoTopCommand(model))
      requires input != [] && k in children
      ensures r == Try(root.model, model.children[k], k, input, deep)
      decreases |input|, deep, 0
    {
      var c := children[k];
      assert k in model.children && c.model.handler == c.handler;
      if Single(k) {
        if !Accepts(k, input[0]) {
          return None;
        }
        r := c.Compile(root, input[1..], true);
        if r.Some? {
          r := Some(Consumed(k, input[0], r.value));
        }
      } else if c.handler.None? {
        r := None;
      } else if k.kind == ListArg {
        r := Some(NewCommand(c.handler.value).(lists := map[k.value := input]));
      } else {
        var m := root.Compile(root, input, false);
        r := if m.None? then None else Some(NewCommand(c.handler.value).(sub := m));
      }
    }

    /** Compile an input. The children are tried in any order, and the result
        does not depend on it (src/minicli/trie.go:97-209). */
    method Compile(root: PatternTrie, input: seq<string>, deep: bool) returns (r: Option<Command>)
      requires Valid() && root.Valid() && NoTopCommand(root.model) && (deep || NoTopCommand(model))
      ensures r == Compiled(root.model, model, input, deep)
      decreases |input|, deep, 1
    {
      hide Lists, Tried, Choose, Try;
      if input == [] {
        return if handler.Some? then Some(NewCommand(handler.value)) else None;
      }
      ghost var cs, ks := Candidates(root.model, model, input, deep), [];
      var cmds := [];
      var todo := children.Keys;
      NoneTried(cs, todo);
      while todo != {}
        invariant todo <= children.Keys
        invariant Lists(Tried(cs, todo), ks, cmds)
      {
        var k :| k in todo;
        var c := TryChild(root, k, input, deep);
        assert c.Some? <==> k in cs;
        assert c.Some? ==> cs[k] == c.value;
        OneTried(cs, todo, k, ks, cmds);
        todo := todo - {k};
        if c.Some? {
          cmds, ks := cmds + [c.value], ks + [k];
        }
      }
      AllTried(cs);
      r := Pick(cmds, cs, ks);
    }
  }

  /** The candidates found so far. */
  ghost function Tried(cs: map<Key, Command>, todo: set<Key>): map<Key, Command> {
    map k | k in cs && k !in todo :: cs[k]
  }

  lemma NoneTried(cs: map<Key, Command>, todo: set<Key>)
    ensures cs.Keys <= todo ==> Lists(Tried(cs, todo), [], [])
  {
  }

  lemma AllTried(cs: map<Key, Command>)
    ensures Tried(cs, {}) == cs
  {
  }

  lemma OneTried(cs: map<Key, Command>, todo: set<Key>, k: Key, ks: seq<Key>, cmds: seq<Command>)
    requires k in todo && Lists(Tried(cs, todo), ks, cmds)
    ensures k in cs ==> Lists(Tried(cs, todo - {k}), ks + [k], cmds + [cs[k]])
    ensures k !in cs ==> Lists(Tried(cs, todo - {k}), ks, cmds)
  {
    if k in cs {
      ListedNext(Tried(cs, todo), ks, cmds, k, cs[k]);
      assert Tried(cs, todo - {k}) == Tried(cs, todo)[k := cs[k]];
    } else {
      assert Tried(cs, todo - {k}) == Tried(cs, todo);
    }
  }

  lemma ListedNext(cs: map<Key, Command>, ks: seq<Key>, cmds: seq<Command>, k: Key, c: Command)
    requires Lists(cs, ks, cmds) && k !in cs
    ensures Lists(cs[k := c], ks + [k], cmds + [c])
  {
  }

  lemma {:induction false} BuildStops(ps: seq<Entry>, i: nat)
    requires i <= |ps| && !Build(ps[..i]).1
    ensures Build(ps) == Build(ps[..i])
    decreases |ps|
  {
    if i == |ps| {
      assert ps[..i] == ps;
    } else {
      assert ps[..|ps| - 1][..i] == ps[..i];
      BuildStops(ps[..|ps| - 1], i);
    }
  }

  /** Register the entries one after the other, until a conflict
      (src/minicli/minicli.go:113-125, src/minicli/trie.go:26-36). */
  method Register(ps: seq<Entry>) returns (t: PatternTrie, ok: bool)
    ensures t.Valid() && fresh(t.repr) && (t.model, ok) == Build(ps)
  {
    t := new PatternTrie();
    ok := true;
    for i := 0 to |ps|
      invariant t.Valid() && fresh(t.repr) && ok && (t.model, true) == Build(ps[..i])
    {
      assert ps[..i + 1][..i] == ps[..i];
      ok := t.Add(ps[i].items, ps[i].handler);
      if !ok {
        BuildStops(ps, i + 1);
        return;
      }
    }
    assert ps[..|ps|] == ps;
  }

  /** Compile an input against the registered patterns: what comes out is what one
      of them makes of the input (src/minicli/minicli.go:212-236). */
  method CompileInput(t: PatternTrie, input: seq<string>, ghost ps: seq<Entry>) returns (r: Option<Command>)
    requires t.Valid() && (t.model, true) == Build(ps) && NoTopCommand(t.model)
    ensures r == Compiled(t.model, t.model, input, false)
    ensures r.Some? ==> exists i, vals :: 0 <= i < |ps| && Describes(t.model, ps[i].items, vals, input, ps[i].handler, r.value)
  {
    r := t.Compile(t, input, false);
    if r.Some? {
      ghost var i, vals := CompiledArguments(ps, input, r.value);
      assert Describes(t.model, ps[i].items, vals, input, ps[i].handler, r.value);
    }
  }
}
