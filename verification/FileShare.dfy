/** The node side of the file service: its files and transfers, updated in place
    under the lock, and the copying of parts into the whole file. */
module FileShare {
  import opened FileParts
  import opened Transfers

  /** If the data is part `p` of the file, the transfer stays in order. */
  ghost predicate KeptBy(t: Transfer, t': Transfer, p: nat, data: Bytes) {
    forall c :: TransferOk(c, t) && data == Chunk(c, p) && p < NumParts(|c|) ==> TransferOk(c, t')
  }

  /** The response is under way to node `n`, which looks like `nd`. */
  ghost predicate Pending(s: State, n: Name, nd: Node, m: Msg) {
    n in s.nodes && s.nodes[n] == nd && m in s.msgs && m.Response? && m.to == n && m.ack
  }

  class Share {
    const name: Name
    var files: map<Name, Bytes>
    var transfers: map<Name, Transfer>
    ghost var getters: map<Name, Getter>
    var tids: set<nat>

    ghost function View(): Node
      reads this
    {
      Node(files, transfers, getters)
    }

    /** The registered numbers are those that a fetch waits for, each for one. */
    ghost predicate Registered()
      reads this
    {
      && (forall tid :: tid in tids <==> Waiting(View(), tid))
      && (forall f, h, tid :: f in getters && h in getters && WaitsFor(getters[f], tid) && WaitsFor(getters[h], tid) ==> f == h)
    }

    /** A fetch registers a new number and waits for it
        (src/iomeshage/handler.go:107-128). */
    method NewTID(ghost f: Name, ghost next: nat -> Getter) returns (tid: nat)
      requires Registered() && (forall t :: WaitsFor(next(t), t))
      requires f in getters && !getters[f].Asking? && !getters[f].Fetching?
      modifies this`tids, this`getters
      ensures Registered() && !Waiting(old(View()), tid) && Waiting(View(), tid)
      ensures getters == old(getters)[f := next(tid)]
      ensures forall t :: t != tid ==> (Waiting(View(), t) <==> Waiting(old(View()), t))
    {
      ghost var free := Unused(tids);
      tid :| tid !in tids;
      ghost var nd := View();
      tids := tids + {tid};
      getters := getters[f := next(tid)];
      assert WaitsFor(getters[f], tid);
      forall t | t != tid
        ensures Waiting(View(), t) <==> Waiting(nd, t)
      {
        assert forall h :: h in getters && h != f ==> getters[h] == nd.getters[h];
      }
    }

    /** A response is handed on exactly while a fetch waits for its number, that is
        while the protocol has a step that takes it
        (src/iomeshage/handler.go:40-63). */
    method HandleResponse(m: Msg) returns (delivered: bool)
      requires Registered() && m.Response?
      ensures delivered <==> Waiting(View(), m.tid)
      ensures forall src, s :: Inv(src, s) && Pending(s, name, View(), m) ==> (delivered <==> CanTake(s, name, m))
    {
      delivered := m.tid in tids;
      forall src, s | Inv(src, s) && Pending(s, name, View(), m)
        ensures delivered <==> CanTake(s, name, m)
      {
        TakenIff(src, s, name, m);
      }
    }

    /** The fetch that waits for a number stops waiting and goes on as `next`; no
        other is affected (src/iomeshage/handler.go:130-141). */
    method UnregisterTID(tid: nat, ghost next: Getter) returns (known: bool)
      requires Registered() && !next.Asking? && !next.Fetching?
      modifies this`tids, this`getters
      ensures Registered() && !Waiting(View(), tid)
      ensures known <==> Waiting(old(View()), tid)
      ensures forall t :: t != tid ==> (Waiting(View(), t) <==> Waiting(old(View()), t))
      ensures forall f :: f in old(getters) && !WaitsFor(old(getters)[f], tid) ==> f in getters && getters[f] == old(getters)[f]
    {
      known := tid in tids;
      ghost var nd := View();
      tids := tids - {tid};
      if f: Name :| f in getters && WaitsFor(getters[f], tid) {
        getters := getters[f := next];
        forall t | t != tid
          ensures Waiting(View(), t) <==> Waiting(nd, t)
        {
          assert forall h :: h in getters && h != f ==> getters[h] == nd.getters[h];
        }
      }
    }

    /** Start with a part unless it is already there (src/iomeshage/iomeshage.go:502-511). */
    method TakeUp(f: Name, p: nat) returns (already: bool)
      requires f in transfers
      modifies this`transfers
      ensures already <==> p in old(transfers)[f].done
      ensures already ==> transfers == old(transfers)
      ensures !already ==> transfers == old(transfers)[f := old(transfers)[f].(inflight := p)]
      ensures forall c :: TransferOk(c, old(transfers)[f]) ==> TransferOk(c, transfers[f])
    {
      already := p in transfers[f].done;
      if !already {
        transfers := transfers[f := transfers[f].(inflight := p)];
      }
    }

    /** Write a part that has arrived (src/iomeshage/iomeshage.go:526-543). */
    method StorePart(f: Name, p: nat, data: Bytes) returns (ok: bool)
      modifies this`transfers
      ensures ok <==> f in old(transfers)
      ensures ok ==> transfers == old(transfers)[f := Write(old(transfers)[f], p, data)]
      ensures ok ==> var t, t' := old(transfers)[f], transfers[f];
        t' == Transfer(t.parts[p := data], t.done + {p}, t.numParts, t.inflight, t.writes + [p])
      ensures !ok ==> transfers == old(transfers)
      ensures ok && p !in old(transfers)[f].done ==> KeptBy(old(transfers)[f], transfers[f], p, data)
    {
      if f !in transfers {
        return false;
      }
      var t := transfers[f];
      forall c | p !in t.done && TransferOk(c, t) && data == Chunk(c, p) && p < NumParts(|c|)
        ensures TransferOk(c, Write(t, p, data))
      {
        WriteKeeps(c, t, p);
      }
      transfers := transfers[f := t.(parts := t.parts[p := data], done := t.done + {p}, writes := t.writes + [p])];
      return true;
    }

    /** Look at a message passing through (src/iomeshage/iomeshage.go:584-606). */
    method Mitm(m: Msg)
      modifies this`transfers
      ensures View() == Snoop(old(View()), m)
      ensures if PicksUp(old(View()), m) then PickedUp(old(View()), View(), m) else View() == old(View())
    {
      if !m.Response? || !m.ack || m.data == [] {
        return;
      }
      if m.file in transfers {
        var t := transfers[m.file];
        if t.inflight == m.part {
          return;
        }
        if m.part !in t.done {
          var ok := StorePart(m.file, m.part, m.data);
        }
      }
    }

    /** Answer a request for a part (src/iomeshage/handler.go:155-220). */
    method HandlePart(q: Msg) returns (r: Msg)
      requires q.Request? && !q.kind.Info?
      ensures r == Answer(View(), name, q)
      ensures r.Response? && r.from == name && r.to == q.from && r.tid == q.tid && r.file == q.file
      ensures r.ack <==> q.file in files ||
                         (q.file in transfers && q.part in transfers[q.file].done && q.part in transfers[q.file].parts)
      ensures r.ack ==> r.part == q.part && (q.kind.WhoHas? ==> r.data == [])
      ensures r.ack && q.kind.Xfer? ==>
                r.data == if q.file in files then Chunk(files[q.file], q.part) else Chunk(transfers[q.file].parts[q.part], 0)
      ensures forall src, msgs :: NodeOk(src, msgs, name, View()) ==> Truthful(src, q, r)
    {
      r := Response(name, q.from, q.tid, q.file, 0, false, []);
      if q.file in files {
        r := r.(ack := true, part := q.part);
        if q.kind.Xfer? {
          r := r.(data := ReadPart(files[q.file], q.part));
        }
      } else if q.file in transfers && q.part in transfers[q.file].done && q.part in transfers[q.file].parts {
        r := r.(ack := true, part := q.part);
        if q.kind.Xfer? {
          r := r.(data := ReadPart(transfers[q.file].parts[q.part], 0));
        }
      }
      if q.file in files {
        ReadIsChunk(files[q.file], q.part);
      } else if r.ack {
        ReadIsChunk(transfers[q.file].parts[q.part], 0);
      }
      forall src, msgs | NodeOk(src, msgs, name, View())
        ensures Truthful(src, q, r)
      {
        AnswerTruthful(src, msgs, name, View(), q);
      }
    }

    /** Copy the parts into one file; a missing part stops the copy
        (src/iomeshage/iomeshage.go:402-422). */
    method CopyParts(f: Name) returns (ok: bool, acc: Bytes)
      requires f in transfers
      ensures forall c :: TransferOk(c, transfers[f]) && RestOk(transfers[f], []) ==> ok && acc == c
      ensures ok <==> forall p: nat :: p < transfers[f].numParts ==> p in transfers[f].parts
    {
      var t := transfers[f];
      acc := [];
      for i := 0 to t.numParts
        invariant forall c :: TransferOk(c, t) && RestOk(t, []) ==> acc == Joined(c, i)
        invariant forall p: nat :: p < i ==> p in t.parts
      {
        if i !in t.parts {
          PartMissing(t, i);
          return false, acc;
        }
        PartThere(t, i);
        acc := acc + t.parts[i];
      }
      ok := true;
      forall c | TransferOk(c, t) && RestOk(t, [])
        ensures acc == c
      {
        JoinedIsWhole(c);
      }
    }
  }

  lemma PartMissing(t: Transfer, i: nat)
    requires i < t.numParts && i !in t.parts
    ensures forall c :: TransferOk(c, t) ==> !RestOk(t, [])
  {
  }

  lemma PartThere(t: Transfer, i: nat)
    requires i < t.numParts && i in t.parts
    ensures forall c :: TransferOk(c, t) && RestOk(t, []) ==> t.parts[i] == Chunk(c, i)
  {
  }

  /** There is always a number left to draw. */
  lemma {:induction false} Unused(s: set<nat>) returns (n: nat)
    ensures n !in s && forall x :: x in s ==> x < n
    decreases s
  {
    n := 0;
    if s != {} {
      var y :| y in s;
      var m := Unused(s - {y});
      n := if y < m then m else y + 1;
      assert forall x :: x in s ==> x == y || x in s - {y};
    }
  }
}
