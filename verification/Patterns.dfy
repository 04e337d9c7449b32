/** Command patterns, the flat list of ways to spell each, and the trie that
    indexes them. */
module Patterns {
  import opened Sequences

  datatype Option<T> = None | Some(value: T)

  datatype Kind = Literal | StringArg | Choice | ListArg | Nested

  /** One item of a pattern. `text` is the text of a literal, `key` the name of
      an argument, `options` the alternatives of a choice. */
  datatype Item = Item(kind: Kind, optional: bool, key: string, text: string, options: seq<string>)

  type Pattern = seq<Item>

  datatype Key = Key(kind: Kind, optional: bool, value: string)

  /** The trie keys of an item: a choice becomes one key per option
      (src/minicli/trie.go:53-72). */
  function KeysOf(it: Item): seq<Key> {
    match it.kind
    case Literal => [Key(it.kind, it.optional, it.text)]
    case Choice => seq(|it.options|, i requires 0 <= i < |it.options| => Key(it.kind, it.optional, it.options[i]))
    case _ => [Key(it.kind, it.optional, it.key)]
  }

  function PrefixAll(k: Key, es: seq<seq<Key>>): seq<seq<Key>> {
    seq(|es|, i requires 0 <= i < |es| => [k] + es[i])
  }

  function Under(keys: seq<Key>, es: seq<seq<Key>>): seq<seq<Key>> {
    if keys == [] then [] else PrefixAll(keys[0], es) + Under(keys[1..], es)
  }

  /** Every path of keys that spells the pattern. A pattern may also end before
      an optional item. */
  function Expansions(p: Pattern): seq<seq<Key>> {
    if p == [] then [[]]
    else (if p[0].optional then [[]] else []) + Under(KeysOf(p[0]), Expansions(p[1..]))
  }

  lemma {:induction false} UnderMember(keys: seq<Key>, es: seq<seq<Key>>, e: seq<Key>)
    ensures e in Under(keys, es) <==> e != [] && e[0] in keys && e[1..] in es
  {
    if keys != [] {
      UnderMember(keys[1..], es, e);
      PrefixMember(keys[0], es, e);
    }
  }

  lemma PrefixMember(k: Key, es: seq<seq<Key>>, e: seq<Key>)
    ensures e in PrefixAll(k, es) <==> e != [] && e[0] == k && e[1..] in es
  {
    if e != [] && e[0] == k && e[1..] in es {
      var i :| 0 <= i < |es| && es[i] == e[1..];
      assert PrefixAll(k, es)[i] == e;
    }
  }

  lemma ExpansionMember(p: Pattern, e: seq<Key>)
    requires p != []
    ensures e in Expansions(p) <==>
      (e == [] && p[0].optional) || (e != [] && e[0] in KeysOf(p[0]) && e[1..] in Expansions(p[1..]))
  {
    UnderMember(KeysOf(p[0]), Expansions(p[1..]), e);
  }

  // The trie

  datatype Trie = Trie(children: map<Key, Trie>, handler: Option<nat>)

  const EMPTY: Trie := Trie(map[], None)

  function Child(t: Trie, k: Key): Trie {
    if k in t.children then t.children[k] else EMPTY
  }

  function Lookup(t: Trie, e: seq<Key>): Option<nat>
    decreases |e|
  {
    if e == [] then t.handler else Lookup(Child(t, e[0]), e[1..])
  }

  /** src/minicli/trie.go:87-94 */
  function SetHandler(t: Trie, h: nat): (Trie, bool) {
    if t.handler.Some? then (t, false) else (t.(handler := Some(h)), true)
  }

  /** Add a pattern; `false` reports a conflict, and the trie keeps what was
      added before it (src/minicli/trie.go:39-85). */
  function Add(t: Trie, p: Pattern, h: nat): (Trie, bool)
    decreases |p|, 0, 0
  {
    if p == [] then SetHandler(t, h)
    else
      var (t1, ok) := if p[0].optional then SetHandler(t, h) else (t, true);
      if !ok then (t1, false) else AddKeys(t1, KeysOf(p[0]), p[1..], h)
  }

  function AddKeys(t: Trie, keys: seq<Key>, rest: Pattern, h: nat): (Trie, bool)
    decreases |rest|, 1, |keys|
  {
    if keys == [] then (t, true)
    else
      var (c, ok) := Add(Child(t, keys[0]), rest, h);
      var t1 := t.(children := t.children[keys[0] := c]);
      if !ok then (t1, false) else AddKeys(t1, keys[1..], rest, h)
  }

  /** The paths differ from each other and none has a handler yet. */
  ghost predicate Fits(t: Trie, es: seq<seq<Key>>) {
    && (forall e :: e in es ==> Lookup(t, e) == None)
    && Distinct(es)
  }

  /** `t'` is `t` with handler `h` at exactly the paths `es`. */
  ghost predicate Inserted(t: Trie, t': Trie, es: seq<seq<Key>>, h: nat) {
    forall e :: Lookup(t', e) == if e in es then Some(h) else Lookup(t, e)
  }

  lemma InsertedConcat(t0: Trie, t1: Trie, t2: Trie, a: seq<seq<Key>>, b: seq<seq<Key>>, h: nat)
    requires Inserted(t0, t1, a, h) && Inserted(t1, t2, b, h)
    ensures Inserted(t0, t2, a + b, h)
  {
  }

  lemma FitsConcat(t0: Trie, t1: Trie, a: seq<seq<Key>>, b: seq<seq<Key>>, h: nat)
    requires Inserted(t0, t1, a, h)
    ensures Fits(t0, a + b) <==> Fits(t0, a) && Fits(t1, b)
  {
    var es := a + b;
    if Fits(t0, es) {
      assert forall i :: 0 <= i < |a| ==> es[i] == a[i];
      assert forall i :: 0 <= i < |b| ==> es[|a| + i] == b[i];
      forall e | e in b
        ensures Lookup(t1, e) == None
      {
        var j :| 0 <= j < |b| && b[j] == e;
        assert forall i :: 0 <= i < |a| ==> es[i] != es[|a| + j];
      }
    }
    if Fits(t0, a) && Fits(t1, b) {
      forall i, j | 0 <= i < j < |es|
        ensures es[i] != es[j]
      {
        if i < |a| <= j {
          assert es[i] in a && es[j] in b;
          assert Lookup(t1, es[i]) == Some(h);
        }
      }
    }
  }

  lemma FitsBelow(t: Trie, k: Key, es: seq<seq<Key>>)
    ensures Fits(t, PrefixAll(k, es)) <==> Fits(Child(t, k), es)
  {
    var ps := PrefixAll(k, es);
    assert forall i :: 0 <= i < |es| ==> ps[i] == [k] + es[i] && ps[i][1..] == es[i];
    assert forall i :: 0 <= i < |es| ==> Lookup(t, ps[i]) == Lookup(Child(t, k), es[i]);
    if Fits(t, ps) {
      forall i, j | 0 <= i < j < |es|
        ensures es[i] != es[j]
      {
        assert ps[i] != ps[j];
      }
      forall e | e in es
        ensures Lookup(Child(t, k), e) == None
      {
        var i :| 0 <= i < |es| && es[i] == e;
        assert ps[i] in ps;
      }
    }
    if Fits(Child(t, k), es) {
      forall e | e in ps
        ensures Lookup(t, e) == None
      {
        var i :| 0 <= i < |ps| && ps[i] == e;
        assert es[i] in es;
      }
    }
  }

  lemma InsertedBelow(t: Trie, k: Key, c: Trie, es: seq<seq<Key>>, h: nat)
    requires Inserted(Child(t, k), c, es, h)
    ensures Inserted(t, t.(children := t.children[k := c]), PrefixAll(k, es), h)
  {
    var t' := t.(children := t.children[k := c]);
    forall e
      ensures Lookup(t', e) == if e in PrefixAll(k, es) then Some(h) else Lookup(t, e)
    {
      PrefixMember(k, es, e);
    }
  }

  lemma SetHandlerInserts(t: Trie, h: nat)
    ensures var (t', ok) := SetHandler(t, h);
      (ok <==> Fits(t, [[]])) && (ok ==> Inserted(t, t', [[]], h))
  {
    var (t', ok) := SetHandler(t, h);
    var here: seq<seq<Key>> := [[]];
    assert here[0] in here;
    assert ok <==> Lookup(t, []) == None;
    forall e | ok
      ensures Lookup(t', e) == if e in [[]] then Some(h) else Lookup(t, e)
    {
      if e != [] { assert Child(t', e[0]) == Child(t, e[0]); }
    }
  }

  /** Adding a pattern succeeds exactly when its spellings are new and differ
      from each other, and then adds exactly those. */
  lemma {:induction false} AddInserts(t: Trie, p: Pattern, h: nat)
    ensures var (t', ok) := Add(t, p, h);
      (ok <==> Fits(t, Expansions(p))) && (ok ==> Inserted(t, t', Expansions(p), h))
    decreases |p|, 0, 0
  {
    if p == [] {
      SetHandlerInserts(t, h);
    } else {
      var (t1, ok) := if p[0].optional then SetHandler(t, h) else (t, true);
      var first: seq<seq<Key>> := if p[0].optional then [[]] else [];
      SetHandlerInserts(t, h);
      assert ok <==> Fits(t, first);
      var below := Under(KeysOf(p[0]), Expansions(p[1..]));
      if ok {
        assert Inserted(t, t1, first, h);
        AddKeysInserts(t1, KeysOf(p[0]), p[1..], h);
        FitsConcat(t, t1, first, below, h);
        var (t2, ok2) := AddKeys(t1, KeysOf(p[0]), p[1..], h);
        if ok2 { InsertedConcat(t, t1, t2, first, below, h); }
      } else {
        assert [] in first + below;
      }
    }
  }

  lemma {:induction false} AddKeysInserts(t: Trie, keys: seq<Key>, rest: Pattern, h: nat)
    ensures var (t', ok) := AddKeys(t, keys, rest, h);
      var es := Under(keys, Expansions(rest));
      (ok <==> Fits(t, es)) && (ok ==> Inserted(t, t', es, h))
    decreases |rest|, 1, |keys|
  {
    if keys != [] {
      var es := Expansions(rest);
      var (c, ok) := Add(Child(t, keys[0]), rest, h);
      AddInserts(Child(t, keys[0]), rest, h);
      FitsBelow(t, keys[0], es);
      var t1 := t.(children := t.children[keys[0] := c]);
      var a, b := PrefixAll(keys[0], es), Under(keys[1..], es);
      if ok {
        InsertedBelow(t, keys[0], c, es, h);
        AddKeysInserts(t1, keys[1..], rest, h);
        FitsConcat(t, t1, a, b, h);
        var (t2, ok2) := AddKeys(t1, keys[1..], rest, h);
        if ok2 { InsertedConcat(t, t1, t2, a, b, h); }
      } else {
        FitsPrefix(t, a, b);
      }
    }
  }

  lemma FitsPrefix(t: Trie, a: seq<seq<Key>>, b: seq<seq<Key>>)
    ensures Fits(t, a + b) ==> Fits(t, a)
  {
    var es := a + b;
    assert forall i :: 0 <= i < |a| ==> es[i] == a[i];
  }

  // Registration

  datatype Entry = Entry(text: string, items: Pattern, handler: nat)

  /** The trie after registering the entries in order; registration stops at the
      first conflict (src/minicli/minicli.go:113-125, src/minicli/trie.go:28-36). */
  function Build(ps: seq<Entry>): (Trie, bool) {
    if ps == [] then (EMPTY, true)
    else
      var last := ps[|ps| - 1];
      var (t, ok) := Build(ps[..|ps| - 1]);
      if !ok then (t, false) else Add(t, last.items, last.handler)
  }

  /** Entry `i` spells `e`. */
  ghost predicate Spells(ps: seq<Entry>, i: int, e: seq<Key>) {
    0 <= i < |ps| && e in Expansions(ps[i].items)
  }

  /** No path is spelled twice, neither by two entries nor by one. */
  ghost predicate Separate(ps: seq<Entry>) {
    && (forall i, j, e :: Spells(ps, i, e) && Spells(ps, j, e) ==> i == j)
    && (forall i :: 0 <= i < |ps| ==> Distinct(Expansions(ps[i].items)))
  }

  /** The trie has the handlers of the entries at their spellings, and no others. */
  ghost predicate Indexes(t: Trie, ps: seq<Entry>) {
    && (forall i, e :: Spells(ps, i, e) ==> Lookup(t, e) == Some(ps[i].handler))
    && (forall e :: Lookup(t, e).Some? ==> exists i :: Spells(ps, i, e))
  }

  /** Registration succeeds exactly when no path is spelled twice, and the trie
      then indexes exactly the spellings of the registered patterns. */
  lemma {:induction false} BuildIndexes(ps: seq<Entry>)
    ensures var (t, ok) := Build(ps);
      (ok <==> Separate(ps)) && (ok ==> Indexes(t, ps))
  {
    if ps != [] {
      var n := |ps| - 1;
      var front, last := ps[..n], ps[n];
      BuildIndexes(front);
      var (t, ok) := Build(front);
      assert forall i, e :: i < n ==> (Spells(ps, i, e) <==> Spells(front, i, e));
      if ok {
        AddInserts(t, last.items, last.handler);
        SeparateLast(t, ps);
        var (t', ok') := Add(t, last.items, last.handler);
        if ok' { IndexesLast(t, t', ps); }
      } else {
        SeparateFront(ps);
      }
    } else {
      forall e
        ensures Lookup(EMPTY, e) == None
      {
        EmptyLookup(e);
      }
    }
  }

  lemma {:induction false} EmptyLookup(e: seq<Key>)
    ensures Lookup(EMPTY, e) == None
  {
    if e != [] { EmptyLookup(e[1..]); }
  }

  lemma SeparateFront(ps: seq<Entry>)
    requires ps != []
    ensures Separate(ps) ==> Separate(ps[..|ps| - 1])
  {
    var front := ps[..|ps| - 1];
    assert forall i, e :: i < |front| ==> (Spells(ps, i, e) <==> Spells(front, i, e));
    if Separate(ps) {
      forall i | 0 <= i < |front|
        ensures Distinct(Expansions(front[i].items))
      {
        assert ps[i] == front[i];
      }
    }
  }

  lemma FrontSpells(ps: seq<Entry>, i: int, e: seq<Key>)
    requires ps != [] && i < |ps| - 1
    ensures Spells(ps, i, e) <==> Spells(ps[..|ps| - 1], i, e)
  {
  }

  lemma SeparateFits(t: Trie, ps: seq<Entry>)
    requires ps != [] && Indexes(t, ps[..|ps| - 1]) && Separate(ps)
    ensures Fits(t, Expansions(ps[|ps| - 1].items))
  {
    hide Expansions;
    var n := |ps| - 1;
    var es := Expansions(ps[n].items);
    assert Distinct(es);
    forall e | e in es
      ensures Lookup(t, e) == None
    {
      assert Spells(ps, n, e);
      forall i
        ensures !Spells(ps[..n], i, e)
      {
        if i < n { FrontSpells(ps, i, e); }
      }
    }
  }

  lemma FitsSeparate(t: Trie, ps: seq<Entry>)
    requires ps != [] && Separate(ps[..|ps| - 1]) && Indexes(t, ps[..|ps| - 1])
    requires Fits(t, Expansions(ps[|ps| - 1].items))
    ensures Separate(ps)
  {
    hide Expansions, Lookup;
    var n := |ps| - 1;
    var front := ps[..n];
    forall i, j, e | Spells(ps, i, e) && Spells(ps, j, e)
      ensures i == j
    {
      if i < n { FrontSpells(ps, i, e); }
      if j < n { FrontSpells(ps, j, e); }
      assert i < n ==> Lookup(t, e).Some?;
      assert j < n ==> Lookup(t, e).Some?;
    }
    forall i | 0 <= i < |ps|
      ensures Distinct(Expansions(ps[i].items))
    {
      if i < n { assert front[i] == ps[i]; }
    }
  }

  lemma SeparateLast(t: Trie, ps: seq<Entry>)
    requires ps != [] && Separate(ps[..|ps| - 1]) && Indexes(t, ps[..|ps| - 1])
    ensures Separate(ps) <==> Fits(t, Expansions(ps[|ps| - 1].items))
  {
    hide Separate, Fits, Indexes;
    if Separate(ps) {
      SeparateFits(t, ps);
    }
    if Fits(t, Expansions(ps[|ps| - 1].items)) {
      FitsSeparate(t, ps);
    }
  }

  lemma IndexesLast(t: Trie, t': Trie, ps: seq<Entry>)
    requires ps != [] && Indexes(t, ps[..|ps| - 1])
    requires var last := ps[|ps| - 1]; Inserted(t, t', Expansions(last.items), last.handler) && Fits(t, Expansions(last.items))
    ensures Indexes(t', ps)
  {
    var n := |ps| - 1;
    var front := ps[..n];
    assert forall i, e :: i < n ==> (Spells(ps, i, e) <==> Spells(front, i, e));
    forall i, e | Spells(ps, i, e)
      ensures Lookup(t', e) == Some(ps[i].handler)
    {
      if i < n {
        assert Spells(front, i, e) && Lookup(t, e) == Some(front[i].handler);
      }
    }
    forall e | Lookup(t', e).Some?
      ensures exists i :: Spells(ps, i, e)
    {
      if e in Expansions(ps[n].items) {
        assert Spells(ps, n, e);
      } else {
        var i :| Spells(front, i, e);
        assert Spells(ps, i, e);
      }
    }
  }
}
