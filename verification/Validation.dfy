/** The static ambiguity check over the registered patterns, and what it rules
    out when commands are compiled. */
module Validation {
  import opened Patterns
  import opened Sequences
  import opened Compilation

  const ANY: string := "*"

  /** src/minicli/validate.go:80-105 */
  function AllowedValues(it: Item): seq<string> {
    (match it.kind
     case Literal => if it.optional then [] else [it.text]
     case Choice => it.options
     case Nested => if it.optional then [] else [ANY]
     case _ => [ANY])
    + if it.optional then [""] else []
  }

  predicate Clash(v: string, w: string) {
    v == w || v == ANY || w == ANY
  }

  predicate Overlap(a: seq<string>, b: seq<string>) {
    exists v, w :: v in a && w in b && Clash(v, w)
  }

  /** src/minicli/validate.go:40-78 */
  predicate Ambiguous(p: Pattern, q: Pattern)
    decreases |p|
  {
    if p == [] then q == [] || q[0].optional
    else if q == [] then p[0].optional
    else if p[0].optional && q[0].optional then true
    else if p[0].kind == ListArg || q[0].kind == ListArg then true
    else Overlap(AllowedValues(p[0]), AllowedValues(q[0])) && Ambiguous(p[1..], q[1..])
  }

  /** The recursion with the loop that looks for a common value. */
  method CheckPair(p: Pattern, q: Pattern) returns (b: bool)
    ensures b == Ambiguous(p, q)
    decreases |p|
  {
    if p == [] && q == [] {
      return true;
    } else if p == [] {
      return q[0].optional;
    } else if q == [] {
      return p[0].optional;
    }
    if p[0].optional && q[0].optional {
      return true;
    }
    if p[0].kind == ListArg || q[0].kind == ListArg {
      return true;
    }
    var a, c := AllowedValues(p[0]), AllowedValues(q[0]);
    var found := false;
    for i := 0 to |a|
      invariant found <==> Overlap(a[..i], c)
    {
      assert a[..i + 1] == a[..i] + [a[i]];
      for j := 0 to |c|
        invariant found <==> Overlap(a[..i], c) || Overlap([a[i]], c[..j])
      {
        assert c[..j + 1] == c[..j] + [c[j]];
        OverlapOne(a[i], c, j);
        found := found || Clash(a[i], c[j]);
      }
      assert c[..|c|] == c;
      OverlapSplit(a[..i], a[i], c);
    }
    assert a[..|a|] == a;
    if !found {
      return false;
    }
    b := CheckPair(p[1..], q[1..]);
  }

  lemma OverlapOne(v: string, c: seq<string>, j: nat)
    requires j < |c|
    ensures Overlap([v], c[..j + 1]) <==> Overlap([v], c[..j]) || Clash(v, c[j])
  {
    assert c[..j + 1] == c[..j] + [c[j]];
    assert v in [v];
  }

  lemma OverlapSplit(a: seq<string>, v: string, c: seq<string>)
    ensures Overlap(a + [v], c) <==> Overlap(a, c) || Overlap([v], c)
  {
    assert v in [v];
    if Overlap(a, c) {
      var x, y :| x in a && y in c && Clash(x, y);
      assert x in a + [v];
    }
    if Overlap([v], c) {
      var x, y :| x in [v] && y in c && Clash(x, y);
      assert x in a + [v];
    }
  }

  /** The order in which the validator looks at two patterns does not matter. */
  lemma {:induction false} AmbiguousSymmetric(p: Pattern, q: Pattern)
    ensures Ambiguous(p, q) == Ambiguous(q, p)
    decreases |p|
  {
    if p != [] && q != [] {
      AmbiguousSymmetric(p[1..], q[1..]);
      OverlapSymmetric(AllowedValues(p[0]), AllowedValues(q[0]));
      OverlapSymmetric(AllowedValues(q[0]), AllowedValues(p[0]));
    }
  }

  lemma OverlapSymmetric(a: seq<string>, b: seq<string>)
    ensures Overlap(a, b) ==> Overlap(b, a)
  {
    if Overlap(a, b) {
      var v, w :| v in a && w in b && Clash(v, w);
      assert Clash(w, v);
    }
  }

  // Inputs that spell a pattern out in full

  predicate ItemTakes(it: Item, x: string) {
    match it.kind
    case Literal => x == it.text
    case Choice => x in it.options
    case StringArg => true
    case _ => false
  }

  /** The input writes out the pattern `p`; nested commands are not covered. */
  predicate Takes(p: Pattern, input: seq<string>)
    decreases |p|
  {
    if input == [] then p == [] || p[0].optional
    else if p == [] then false
    else if p[0].kind == ListArg then |p| == 1 || p[1].optional
    else ItemTakes(p[0], input[0]) && Takes(p[1..], input[1..])
  }

  ghost predicate BothTake(p: Pattern, q: Pattern, input: seq<string>) {
    Takes(p, input) && Takes(q, input)
  }

  ghost predicate CommandFree(p: Pattern) {
    forall it :: it in p ==> it.kind != Nested
  }

  /** Literals are never optional (src/minicli/pattern.go:141-146). */
  ghost predicate Lexed(p: Pattern) {
    forall it :: it in p && it.kind == Literal ==> !it.optional
  }

  lemma KeyTakes(it: Item, k: Key, x: string)
    requires k in KeysOf(it) && Spelled(k, x) && Single(k)
    ensures ItemTakes(it, x)
  {
  }

  /** A spelling that reads an input exactly shows that the input writes the
      pattern out. */
  lemma {:induction false} ExactTakes(root: Trie, p: Pattern, e: seq<Key>, input: seq<string>)
    requires NoTopCommand(root) && CommandFree(p) && e in Expansions(p)
    requires Reads(root, e, input) && Exact(e, input)
    ensures Takes(p, input)
    decreases |p|
  {
    if p != [] {
      ExpansionMember(p, e);
    }
    if p != [] && input != [] {
      if p[0].kind != ListArg {
        KeyTakes(p[0], e[0], input[0]);
        ExactTakes(root, p[1..], e[1..], input[1..]);
      } else {
        assert e[1..] == [] && [] in Expansions(p[1..]);
        if p[1..] != [] { ExpansionMember(p[1..], []); }
      }
    }
  }

  /** A pattern that is written out has a spelling that reads the input exactly. */
  lemma {:induction false} TakesExact(root: Trie, p: Pattern, input: seq<string>) returns (e: seq<Key>)
    requires NoTopCommand(root) && Takes(p, input)
    ensures e in Expansions(p) && Reads(root, e, input) && Exact(e, input)
    decreases |p|
  {
    if input == [] {
      e := [];
      if p != [] { ExpansionMember(p, []); }
    } else if p[0].kind == ListArg {
      e := KeysOf(p[0]);
      if |p| > 1 { ExpansionMember(p[1..], []); }
      assert e[1..] == [];
      ExpansionMember(p, e);
    } else {
      var e' := TakesExact(root, p[1..], input[1..]);
      var k := TakenKey(p[0], input[0]);
      e := [k] + e';
      assert e[1..] == e';
      ExpansionMember(p, e);
    }
  }

  lemma TakenKey(it: Item, x: string) returns (k: Key)
    requires ItemTakes(it, x)
    ensures k in KeysOf(it) && Single(k) && Accepts(k, x) && Spelled(k, x)
  {
    if it.kind == Choice {
      var i :| 0 <= i < |it.options| && it.options[i] == x;
      k := KeysOf(it)[i];
    } else {
      k := KeysOf(it)[0];
    }
  }

  lemma BothTakeOverlaps(a: Item, b: Item, x: string)
    requires ItemTakes(a, x) && ItemTakes(b, x)
    requires a.kind == Literal ==> !a.optional
    requires b.kind == Literal ==> !b.optional
    ensures Overlap(AllowedValues(a), AllowedValues(b))
  {
    var v := if a.kind == StringArg then ANY else x;
    var w := if b.kind == StringArg then ANY else x;
    assert v in AllowedValues(a) && w in AllowedValues(b) && Clash(v, w);
  }

  /** Two patterns that one input writes out are reported as ambiguous. */
  lemma {:induction false} BothTakeAmbiguous(p: Pattern, q: Pattern, input: seq<string>)
    requires Lexed(p) && Lexed(q) && Takes(p, input) && Takes(q, input)
    ensures Ambiguous(p, q)
    decreases |p|
  {
    if input != [] && p[0].kind != ListArg && q[0].kind != ListArg {
      assert p[0] in p && q[0] in q;
      BothTakeOverlaps(p[0], q[0], input[0]);
      BothTakeAmbiguous(p[1..], q[1..], input[1..]);
    }
  }

  // When the validator is exact

  /** `x` is the literal, or one of the options. */
  ghost predicate HasValue(it: Item, x: string) {
    (it.kind == Literal && x == it.text) || (it.kind == Choice && x in it.options)
  }

  ghost predicate ShapedItem(it: Item) {
    (it.kind == Literal ==> !it.optional) && (it.kind == Choice ==> it.options != []) && it.kind != Nested
  }

  /** Optional items and lists come last, choices have options, and there is no
      nested command. */
  ghost predicate Shaped(p: Pattern) {
    && (forall i :: 0 <= i < |p| ==> ShapedItem(p[i]))
    && (forall i :: 0 <= i < |p| - 1 ==> !p[i].optional && p[i].kind != ListArg)
  }

  /** No literal or option is empty or an asterisk. */
  ghost predicate Proper(p: Pattern) {
    Shaped(p) && forall i :: 0 <= i < |p| ==> !HasValue(p[i], "") && !HasValue(p[i], ANY)
  }

  /** A required item after which the pattern may end. */
  ghost predicate MayEnd(p: Pattern, i: int)
    requires 0 <= i < |p|
  {
    !p[i].optional && (i == |p| - 1 || p[i + 1].optional)
  }

  ghost predicate CleanAt(p: Pattern, i: int)
    requires 0 <= i < |p|
  {
    !HasValue(p[i], ANY) && (MayEnd(p, i) ==> !HasValue(p[i], ""))
  }

  /** No literal or option is an asterisk, and none is empty where the pattern may
      end. */
  ghost predicate Clean(p: Pattern) {
    forall i :: 0 <= i < |p| ==> CleanAt(p, i)
  }

  lemma CleanTail(p: Pattern)
    requires p != [] && Shaped(p) && Clean(p)
    ensures Shaped(p[1..]) && Clean(p[1..])
  {
    forall i | 0 <= i < |p| - 1
      ensures CleanAt(p[1..], i)
    {
      assert CleanAt(p, i + 1);
    }
  }

  function SampleValue(it: Item): string {
    if it.kind == Literal then it.text
    else if it.kind == Choice && it.options != [] then it.options[0]
    else ANY
  }

  function Sample(p: Pattern): seq<string> {
    if p == [] then [] else [SampleValue(p[0])] + Sample(p[1..])
  }

  lemma {:induction false} SampleTakes(p: Pattern)
    requires Shaped(p)
    ensures Takes(p, Sample(p))
  {
    if p != [] {
      SampleTakes(p[1..]);
      assert ShapedItem(p[0]);
      assert Sample(p)[1..] == Sample(p[1..]);
    }
  }

  /** Items that overlap share a value, unless the empty one stands for leaving
      out the item of `q`. */
  lemma OverlapShared(p: Pattern, q: Pattern) returns (x: string)
    requires p != [] && q != [] && Shaped(p) && Clean(p) && Proper(q)
    requires p[0].kind != ListArg && q[0].kind != ListArg && !(p[0].optional && q[0].optional)
    requires Overlap(AllowedValues(p[0]), AllowedValues(q[0])) && Ambiguous(p[1..], q[1..])
    ensures ItemTakes(p[0], x) && ItemTakes(q[0], x)
  {
    assert ShapedItem(p[0]) && ShapedItem(q[0]) && CleanAt(p, 0) && !HasValue(q[0], "") && !HasValue(q[0], ANY);
    if p[0].kind == StringArg {
      x := SampleValue(q[0]);
    } else if q[0].kind == StringArg {
      x := SampleValue(p[0]);
    } else {
      var v, w :| v in AllowedValues(p[0]) && w in AllowedValues(q[0]) && Clash(v, w);
      x := v;
      assert q[0].optional ==> q[1..] == [];
    }
  }

  lemma {:induction false} AmbiguousShared(p: Pattern, q: Pattern) returns (input: seq<string>)
    requires Shaped(p) && Clean(p) && Proper(q) && Ambiguous(p, q)
    ensures BothTake(p, q, input)
    decreases |p|
  {
    if p == [] || q == [] || (p[0].optional && q[0].optional) {
      input := [];
    } else if p[0].kind == ListArg {
      input := Sample(q);
      SampleTakes(q);
    } else if q[0].kind == ListArg {
      input := Sample(p);
      SampleTakes(p);
    } else {
      CleanTail(p);
      var x := OverlapShared(p, q);
      var rest := AmbiguousShared(p[1..], q[1..]);
      input := [x] + rest;
      assert input[1..] == rest;
    }
  }

  /** The validator is right about the two patterns. */
  ghost predicate ExactOn(p: Pattern, q: Pattern) {
    Ambiguous(p, q) <==> exists input :: BothTake(p, q, input)
  }

  lemma CleanIsExact(p: Pattern, q: Pattern)
    requires Shaped(p) && Clean(p) && Proper(q)
    ensures ExactOn(p, q)
  {
    LexedWhenShaped(p);
    LexedWhenShaped(q);
    if Ambiguous(p, q) {
      var input := AmbiguousShared(p, q);
    }
    forall input | BothTake(p, q, input)
      ensures Ambiguous(p, q)
    {
      BothTakeAmbiguous(p, q, input);
    }
  }

  lemma LexedWhenShaped(p: Pattern)
    requires Shaped(p)
    ensures Lexed(p)
  {
    forall it | it in p && it.kind == Literal
      ensures !it.optional
    {
      var i :| 0 <= i < |p| && p[i] == it;
      assert ShapedItem(p[i]);
    }
  }

  // The other way around: a pattern that the validator gets wrong

  const ANY_ITEM: Item := Item(StringArg, false, "", "", [])

  function Anything(n: nat): Pattern {
    seq(n, _ => ANY_ITEM)
  }

  /** A value that an item does not have. */
  lemma OtherValue(it: Item) returns (x: string)
    ensures x != "" && x != ANY && !HasValue(it, x)
  {
    x := LongerThan([it.text, ANY] + it.options);
  }

  lemma {:induction false} LongerThan(vs: seq<string>) returns (x: string)
    ensures x != "" && forall v :: v in vs ==> |v| < |x|
  {
    x := "x";
    if vs != [] {
      var y := LongerThan(vs[1..]);
      x := if |vs[0]| < |y| then y else vs[0] + "x";
    }
  }

  /** A required string argument overlaps with every item. */
  lemma AnyOverlaps(it: Item)
    requires ShapedItem(it)
    ensures Overlap(AllowedValues(it), AllowedValues(ANY_ITEM))
  {
    var v := if it.kind == Choice then it.options[0] else AllowedValues(it)[0];
    assert v in AllowedValues(it) && ANY in AllowedValues(ANY_ITEM) && Clash(v, ANY);
  }

  lemma {:induction false} AmbiguousWithAny(p: Pattern)
    requires Shaped(p)
    ensures Ambiguous(p, Anything(|p|))
  {
    if p != [] {
      assert ShapedItem(p[0]);
      AnyOverlaps(p[0]);
      AmbiguousWithAny(p[1..]);
      assert Anything(|p|)[1..] == Anything(|p| - 1);
    }
  }

  /** String arguments up to `i` leave the verdict to the rest. */
  lemma {:induction false} AmbiguousAfter(p: Pattern, i: nat, q: Pattern)
    requires Shaped(p) && i < |p| && q != []
    ensures Ambiguous(p, Anything(i) + q) <==> Ambiguous(p[i..], q)
    decreases i
  {
    if i == 0 {
      assert p[0..] == p && Anything(0) + q == q;
    } else {
      assert ShapedItem(p[0]);
      AnyOverlaps(p[0]);
      AmbiguousAfter(p[1..], i - 1, q);
      assert p[1..][i - 1..] == p[i..];
      assert (Anything(i) + q)[1..] == Anything(i - 1) + q && (Anything(i) + q)[0] == ANY_ITEM;
    }
  }

  lemma {:induction false} TakesAfter(p: Pattern, i: nat, q: Pattern, input: seq<string>)
    requires Shaped(p) && i < |p| && BothTake(p, Anything(i) + q, input)
    ensures i <= |input| && BothTake(p[i..], q, input[i..])
    decreases i
  {
    if i == 0 {
      assert p[0..] == p && Anything(0) + q == q && input[0..] == input;
    } else {
      assert (Anything(i) + q)[1..] == Anything(i - 1) + q && (Anything(i) + q)[0] == ANY_ITEM;
      TakesAfter(p[1..], i - 1, q, input[1..]);
      assert p[1..][i - 1..] == p[i..] && input[1..][i - 1..] == input[i..];
    }
  }

  lemma ProperAfter(i: nat, q: Pattern)
    requires Proper(q) && q != []
    ensures Proper(Anything(i) + q)
  {
    var r := Anything(i) + q;
    forall k | 0 <= k < |r|
      ensures ShapedItem(r[k]) && !HasValue(r[k], "") && !HasValue(r[k], ANY)
      ensures k < |r| - 1 ==> !r[k].optional && r[k].kind != ListArg
    {
      if k >= i { assert r[k] == q[k - i] && ShapedItem(q[k - i]); }
    }
  }

  /** At a literal or option that is an asterisk: a literal with another value. */
  lemma AsteriskMisleads(p: Pattern) returns (q: Pattern)
    requires p != [] && Shaped(p) && HasValue(p[0], ANY)
    ensures q != [] && Proper(q) && Ambiguous(p, q) && forall input :: !BothTake(p, q, input)
  {
    assert ShapedItem(p[0]);
    var x := OtherValue(p[0]);
    q := [Item(Literal, false, "", x, [])] + Anything(|p| - 1);
    assert q[1..] == Anything(|p| - 1);
    assert ANY in AllowedValues(p[0]) && x in AllowedValues(q[0]) && Clash(ANY, x);
    AmbiguousWithAny(p[1..]);
    assert forall k :: 0 < k < |q| ==> q[k] == ANY_ITEM;
  }

  /** At an empty value where the pattern may end: an optional choice of another. */
  lemma EmptyMisleads(p: Pattern) returns (q: Pattern)
    requires p != [] && Shaped(p) && MayEnd(p, 0) && HasValue(p[0], "")
    ensures q != [] && Proper(q) && Ambiguous(p, q) && forall input :: !BothTake(p, q, input)
  {
    assert ShapedItem(p[0]);
    var x := OtherValue(p[0]);
    q := [Item(Choice, true, "", "", [x])];
    assert q[1..] == [];
    assert "" in AllowedValues(p[0]) && "" in AllowedValues(q[0]) && Clash("", "");
  }

  lemma UncleanMisleads(p: Pattern, i: nat) returns (q: Pattern)
    requires Shaped(p) && i < |p| && !CleanAt(p, i)
    ensures Proper(q) && !ExactOn(p, q)
  {
    var rest := p[i..];
    assert Shaped(rest) by {
      assert forall k :: 0 <= k < |rest| ==> rest[k] == p[i + k];
    }
    var r;
    if HasValue(p[i], ANY) {
      r := AsteriskMisleads(rest);
    } else {
      r := EmptyMisleads(rest);
    }
    q := Anything(i) + r;
    ProperAfter(i, r);
    AmbiguousAfter(p, i, r);
    forall input
      ensures !BothTake(p, q, input)
    {
      if BothTake(p, q, input) { TakesAfter(p, i, r, input); }
    }
  }

  /** The validator is right about a pattern and every proper one exactly when the
      pattern is clean: for all other patterns it reports a pair that shares no
      input. */
  lemma AmbiguousIff(p: Pattern)
    requires Shaped(p)
    ensures (forall q :: Proper(q) ==> ExactOn(p, q)) <==> Clean(p)
  {
    if Clean(p) {
      forall q | Proper(q)
        ensures ExactOn(p, q)
      {
        CleanIsExact(p, q);
      }
    } else {
      var i :| 0 <= i < |p| && !CleanAt(p, i);
      var q := UncleanMisleads(p, i);
    }
  }

  /** A literal asterisk is taken for a wildcard: the validator then reports
      patterns that no input writes out both. */
  lemma AsteriskIsOverreported(text: string, input: seq<string>)
    requires text != ANY
    ensures var p, q := [Item(Literal, false, "", ANY, [])], [Item(Literal, false, "", text, [])];
      Ambiguous(p, q) && !BothTake(p, q, input)
  {
    var p, q := [Item(Literal, false, "", ANY, [])], [Item(Literal, false, "", text, [])];
    assert ANY in AllowedValues(p[0]) && text in AllowedValues(q[0]) && Clash(ANY, text);
  }

  /** Leaving out an optional choice is taken for the empty option of a required
      one, with the same effect. */
  lemma EmptyIsOverreported(x: string, y: string, z: string, input: seq<string>)
    requires x != "" && y != "" && z != x && z != y
    ensures var p, q := [Item(Choice, false, "", "", ["", z])], [Item(Choice, true, "", "", [x, y])];
      Ambiguous(p, q) && !BothTake(p, q, input)
  {
    var p, q := [Item(Choice, false, "", "", ["", z])], [Item(Choice, true, "", "", [x, y])];
    assert "" in AllowedValues(p[0]) && "" in AllowedValues(q[0]) && Clash("", "");
  }

  // The validator over all entries

  ghost predicate Validated(ps: seq<Entry>) {
    && (forall i, j :: 0 <= i < j < |ps| ==> ps[i].text != ps[j].text)
    && (forall i, j :: 0 <= i < j < |ps| ==> !Ambiguous(ps[i].items, ps[j].items))
  }

  lemma ValidatedPair(ps: seq<Entry>, i: int, j: int)
    requires Validated(ps) && 0 <= i < |ps| && 0 <= j < |ps| && i != j
    ensures !Ambiguous(ps[i].items, ps[j].items)
  {
    AmbiguousSymmetric(ps[i].items, ps[j].items);
  }

  /** The entries by their text, all texts being different. */
  ghost predicate Collected(ps: seq<Entry>, m: map<string, Pattern>) {
    && (forall i, j :: 0 <= i < j < |ps| ==> ps[i].text != ps[j].text)
    && (forall i :: 0 <= i < |ps| ==> ps[i].text in m && m[ps[i].text] == ps[i].items)
    && (forall x :: x in m ==> exists i :: 0 <= i < |ps| && ps[i].text == x)
  }

  ghost predicate Clear(m: map<string, Pattern>, x: string, y: string) {
    x in m && y in m && x != y ==> !Ambiguous(m[x], m[y])
  }

  lemma CollectedClear(ps: seq<Entry>, m: map<string, Pattern>)
    requires Collected(ps, m)
    ensures Validated(ps) <==> forall x, y :: Clear(m, x, y)
  {
    if Validated(ps) {
      forall x, y | x in m && y in m && x != y
        ensures !Ambiguous(m[x], m[y])
      {
        var i :| 0 <= i < |ps| && ps[i].text == x;
        var j :| 0 <= j < |ps| && ps[j].text == y;
        ValidatedPair(ps, i, j);
      }
    }
    if forall x, y :: Clear(m, x, y) {
      forall i, j | 0 <= i < j < |ps|
        ensures !Ambiguous(ps[i].items, ps[j].items)
      {
        assert Clear(m, ps[i].text, ps[j].text);
      }
    }
  }

  method Collect(ps: seq<Entry>) returns (ok: bool, m: map<string, Pattern>)
    ensures ok ==> Collected(ps, m)
    ensures !ok ==> exists i, j :: 0 <= i < j < |ps| && ps[i].text == ps[j].text
  {
    m := map[];
    for i := 0 to |ps|
      invariant Collected(ps[..i], m)
    {
      if ps[i].text in m {
        var j :| 0 <= j < i && ps[..i][j].text == ps[i].text;
        return false, m;
      }
      ghost var m0 := m;
      m := m[ps[i].text := ps[i].items];
      CollectedNext(ps, i, m0);
    }
    assert ps[..|ps|] == ps;
    ok := true;
  }

  lemma CollectedNext(ps: seq<Entry>, i: nat, m: map<string, Pattern>)
    requires i < |ps| && Collected(ps[..i], m) && ps[i].text !in m
    ensures Collected(ps[..i + 1], m[ps[i].text := ps[i].items])
  {
    var front, next, m' := ps[..i], ps[..i + 1], m[ps[i].text := ps[i].items];
    assert forall j :: 0 <= j < i ==> front[j] == next[j];
    forall x | x in m'
      ensures exists j :: 0 <= j < |next| && next[j].text == x
    {
      if x == ps[i].text {
        assert next[i].text == x;
      } else {
        var j :| 0 <= j < |front| && front[j].text == x;
        assert next[j].text == x;
      }
    }
  }

  method Listed(m: map<string, Pattern>) returns (slice: seq<string>)
    ensures (forall x :: x in slice <==> x in m) && Distinct(slice)
  {
    slice := [];
    var todo := m.Keys;
    while todo != {}
      invariant todo <= m.Keys && forall x :: x in slice <==> x in m && x !in todo
      invariant Distinct(slice)
    {
      var x :| x in todo;
      slice, todo := slice + [x], todo - {x};
    }
  }

  /** The patterns listed from position `i` on are clear of the one at `i`. */
  ghost predicate ClearFrom(m: map<string, Pattern>, slice: seq<string>, i: int) {
    forall b :: i < b < |slice| && 0 <= i ==> Clear(m, slice[i], slice[b])
  }

  lemma ClearAll(m: map<string, Pattern>, slice: seq<string>)
    requires forall x :: x in m ==> x in slice
    requires forall i :: 0 <= i < |slice| ==> ClearFrom(m, slice, i)
    ensures forall x, y :: Clear(m, x, y)
  {
    forall x, y | x in m && y in m && x != y
      ensures Clear(m, x, y)
    {
      var a :| 0 <= a < |slice| && slice[a] == x;
      var b :| 0 <= b < |slice| && slice[b] == y;
      AmbiguousSymmetric(m[x], m[y]);
      assert ClearFrom(m, slice, a) && ClearFrom(m, slice, b);
      assert a < b ==> Clear(m, x, y);
      assert b < a ==> Clear(m, y, x);
    }
  }

  /** Test all pairs of the listed patterns. */
  method CheckAll(m: map<string, Pattern>, slice: seq<string>) returns (ok: bool)
    requires (forall x :: x in slice <==> x in m) && Distinct(slice)
    ensures ok <==> forall x, y :: Clear(m, x, y)
  {
    hide Ambiguous;
    for i := 0 to |slice|
      invariant forall a :: 0 <= a < i ==> ClearFrom(m, slice, a)
    {
      for j := i + 1 to |slice|
        invariant forall b :: i < b < j ==> Clear(m, slice[i], slice[b])
      {
        assert slice[i] in m && slice[j] in m;
        var clash := CheckPair(m[slice[i]], m[slice[j]]);
        if clash {
          assert !Clear(m, slice[i], slice[j]);
          return false;
        }
      }
    }
    ClearAll(m, slice);
    return true;
  }

  /** Whatever the order of the collected patterns, the verdict is the same
      (src/minicli/validate.go:8-38). */
  method Validate(ps: seq<Entry>) returns (ok: bool)
    ensures ok <==> Validated(ps)
  {
    hide Ambiguous;
    var m;
    ok, m := Collect(ps);
    if ok {
      CollectedClear(ps, m);
      var slice := Listed(m);
      ok := CheckAll(m, slice);
    }
  }

  // What validation means for compiling

  ghost predicate Plain(ps: seq<Entry>) {
    forall i :: 0 <= i < |ps| ==> CommandFree(ps[i].items) && Lexed(ps[i].items)
  }

  lemma {:induction false} AddKeysTop(t: Trie, keys: seq<Key>, rest: Pattern, h: nat)
    requires NoTopCommand(t) && forall k :: k in keys ==> k.kind != Nested
    ensures NoTopCommand(AddKeys(t, keys, rest, h).0)
    decreases |keys|
  {
    if keys != [] {
      var (c, ok) := Add(Child(t, keys[0]), rest, h);
      AddKeysTop(t.(children := t.children[keys[0] := c]), keys[1..], rest, h);
    }
  }

  lemma {:induction false} BuildTop(ps: seq<Entry>)
    requires forall i :: 0 <= i < |ps| && ps[i].items != [] ==> ps[i].items[0].kind != Nested
    ensures NoTopCommand(Build(ps).0)
  {
    if ps != [] {
      var last := ps[|ps| - 1];
      BuildTop(ps[..|ps| - 1]);
      var (t, ok) := Build(ps[..|ps| - 1]);
      if ok && last.items != [] {
        var (t1, ok1) := if last.items[0].optional then SetHandler(t, last.handler) else (t, true);
        AddKeysTop(t1, KeysOf(last.items[0]), last.items[1..], last.handler);
      }
    }
  }

  lemma PlainTop(ps: seq<Entry>)
    requires Plain(ps)
    ensures NoTopCommand(Build(ps).0)
  {
    forall i | 0 <= i < |ps| && ps[i].items != []
      ensures ps[i].items[0].kind != Nested
    {
      assert ps[i].items[0] in ps[i].items;
    }
    BuildTop(ps);
  }

  lemma SameKey(it: Item, j: Key, k: Key, x: string)
    requires it.kind != Nested && j in KeysOf(it) && k in KeysOf(it)
    requires Single(j) ==> Spelled(j, x)
    requires Single(k) ==> Spelled(k, x)
    ensures j == k
  {
  }

  /** A pattern spells an input exactly in at most one way. */
  lemma {:induction false} ExactOnce(root: Trie, p: Pattern, e: seq<Key>, f: seq<Key>, input: seq<string>)
    requires NoTopCommand(root) && CommandFree(p) && e in Expansions(p) && f in Expansions(p)
    requires Reads(root, e, input) && Exact(e, input)
    requires Reads(root, f, input) && Exact(f, input)
    ensures e == f
    decreases |p|
  {
    if p != [] && input != [] {
      hide Expansions;
      ExpansionMember(p, e);
      ExpansionMember(p, f);
      assert p[0] in p;
      SameKey(p[0], e[0], f[0], input[0]);
      assert e == [e[0]] + e[1..] && f == [f[0]] + f[1..];
      if Single(e[0]) {
        ExactOnce(root, p[1..], e[1..], f[1..], input[1..]);
      }
    }
  }

  /** After validation no input has two exact matches. */
  lemma ExactUnique(ps: seq<Entry>, t: Trie, e: seq<Key>, f: seq<Key>, input: seq<string>)
    requires Validated(ps) && Plain(ps) && Indexes(t, ps) && NoTopCommand(t)
    requires Matches(t, t, e, input) && Exact(e, input)
    requires Matches(t, t, f, input) && Exact(f, input)
    ensures e == f
  {
    var i :| Spells(ps, i, e);
    var j :| Spells(ps, j, f);
    if i == j {
      ExactOnce(t, ps[i].items, e, f, input);
    } else {
      ExactTakes(t, ps[i].items, e, input);
      ExactTakes(t, ps[j].items, f, input);
      BothTakeAmbiguous(ps[i].items, ps[j].items, input);
      ValidatedPair(ps, i, j);
    }
  }

  /** If the validator accepts the registered patterns, an input that writes out
      a pattern compiles to the handler and the arguments of that pattern. */
  lemma SpelledCompiles(ps: seq<Entry>, i: int, e: seq<Key>, input: seq<string>)
    requires Plain(ps) && Validated(ps) && Build(ps).1 && Spells(ps, i, e)
    requires NoTopCommand(Build(ps).0) && Reads(Build(ps).0, e, input) && Exact(e, input)
    ensures var t := Build(ps).0;
      Compiled(t, t, input, false) == Some(CommandOf(t, e, ps[i].handler, input))
  {
    var t := Build(ps).0;
    BuildIndexes(ps);
    forall f | Matches(t, t, f, input) && Exact(f, input)
      ensures f == e
    {
      ExactUnique(ps, t, e, f, input);
    }
    ExactWins(t, e, input);
  }

  /** Every input that writes out pattern `i` compiles, to the handler of `i`. */
  lemma WrittenOutCompiles(ps: seq<Entry>, i: int, input: seq<string>)
    requires Plain(ps) && Validated(ps) && Build(ps).1 && 0 <= i < |ps| && Takes(ps[i].items, input)
    ensures var t := Build(ps).0;
      NoTopCommand(t) && exists e :: Spells(ps, i, e) && Reads(t, e, input) &&
                                     Compiled(t, t, input, false) == Some(CommandOf(t, e, ps[i].handler, input))
  {
    PlainTop(ps);
    var e := TakesExact(Build(ps).0, ps[i].items, input);
    SpelledCompiles(ps, i, e, input);
  }

  // The branch for several exact matches

  ghost function Down(t: Trie, pre: seq<Key>): Trie
    decreases |pre|
  {
    if pre == [] then t else Down(Child(t, pre[0]), pre[1..])
  }

  function Values(pre: seq<Key>): seq<string> {
    seq(|pre|, i requires 0 <= i < |pre| => pre[i].value)
  }

  /** Only such nodes are visited: keys of lists and commands end a pattern. */
  ghost predicate Passable(pre: seq<Key>) {
    forall k :: k in pre ==> Single(k)
  }

  lemma {:induction false} MatchesAlong(root: Trie, t: Trie, pre: seq<Key>, e: seq<Key>, input: seq<string>)
    requires NoTopCommand(root) && Passable(pre) && Matches(root, Down(t, pre), e, input) && Exact(e, input)
    ensures Matches(root, t, pre + e, Values(pre) + input) && Exact(pre + e, Values(pre) + input)
    decreases |pre|
  {
    if pre == [] {
      assert pre + e == e && Values(pre) + input == input;
    } else {
      MatchesAlong(root, Child(t, pre[0]), pre[1..], e, input);
      var whole, all := pre + e, Values(pre) + input;
      assert whole[1..] == pre[1..] + e && all[1..] == Values(pre[1..]) + input;
      assert all[0] == pre[0].value && Accepts(pre[0], all[0]);
    }
  }

  /** If the validator accepts the registered patterns, no input at any node
      brings `compile` into the branch for several exact matches. */
  lemma NoTwoExact(ps: seq<Entry>, pre: seq<Key>, input: seq<string>, deep: bool, j: Key, k: Key)
    requires Plain(ps) && Validated(ps) && Build(ps).1 && Passable(pre) && input != []
    requires NoTopCommand(Build(ps).0) && (deep || NoTopCommand(Down(Build(ps).0, pre)))
    requires var cs := Candidates(Build(ps).0, Down(Build(ps).0, pre), input, deep);
      j in cs && k in cs && cs[j].exact && cs[k].exact
    ensures j == k
  {
    var t := Build(ps).0;
    BuildIndexes(ps);
    var node := Down(t, pre);
    var e := TrySound(t, node, j, input, deep);
    var f := TrySound(t, node, k, input, deep);
    ExactCommand(t, e, Lookup(node, e).value, input);
    ExactCommand(t, f, Lookup(node, f).value, input);
    MatchesAlong(t, t, pre, e, input);
    MatchesAlong(t, t, pre, f, input);
    ExactUnique(ps, t, pre + e, pre + f, Values(pre) + input);
    assert (pre + e)[|pre|] == e[0] && (pre + f)[|pre|] == f[0];
  }
}
