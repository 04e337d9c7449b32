/** Transferring files in parts between the nodes of a mesh: the steps of the
    protocol and what every run of it keeps. */
module Transfers {
  import opened FileParts
  import opened Sequences

  type Name = string

  const MAX_ATTEMPTS: nat := 3

  // State

  /** `parts` are the part files on disk, `done` the completed ones, and `writes`
      records every write of a part file. `inflight` is -1 if there is none. */
  datatype Transfer = Transfer(parts: map<nat, Bytes>, done: set<nat>, numParts: nat, inflight: int, writes: seq<nat>)

  /** Where the goroutine that fetches a file is. `rest` starts with the part it
      is working on. */
  datatype Getter =
    | Next(rest: seq<nat>, attempt: nat)
    | Asking(rest: seq<nat>, attempt: nat, tid: nat)
    | Fetching(rest: seq<nat>, attempt: nat, tid: nat, who: Name)
    | Holding(rest: seq<nat>, attempt: nat, data: Bytes)
    | Copying(i: nat, acc: Bytes)
    | Leaving

  datatype Node = Node(files: map<Name, Bytes>, transfers: map<Name, Transfer>, getters: map<Name, Getter>)

  datatype Kind = Info | WhoHas | Xfer

  datatype Dest = All | One(name: Name)

  datatype Msg =
    | Request(from: Name, dest: Dest, tid: nat, file: Name, part: nat, kind: Kind)
    | Response(from: Name, to: Name, tid: nat, file: Name, part: nat, ack: bool, data: Bytes)

  /** Messages stay in `msgs`: they may be delivered late, often or never. `used`
      holds the transfer IDs drawn so far by each node. */
  datatype State = State(nodes: map<Name, Node>, msgs: set<Msg>, used: set<(Name, nat)>)

  // Operations of a node

  function NewTransfer(numParts: nat): Transfer {
    Transfer(map[], {}, numParts, -1, [])
  }

  /** Write a part file and mark it completed. */
  function Write(t: Transfer, p: nat, data: Bytes): Transfer {
    t.(parts := t.parts[p := data], done := t.done + {p}, writes := t.writes + [p])
  }

  /** A message passes through a node (src/iomeshage/iomeshage.go:584-606). */
  function Snoop(nd: Node, m: Msg): Node {
    if !m.Response? || !m.ack || m.data == [] || m.file !in nd.transfers then nd
    else
      var t := nd.transfers[m.file];
      if t.inflight == m.part || m.part in t.done then nd
      else nd.(transfers := nd.transfers[m.file := Write(t, m.part, m.data)])
  }

  /** The answer to a request (src/iomeshage/handler.go:65-107, 155-220). */
  function Answer(nd: Node, me: Name, q: Msg): Msg
    requires q.Request?
  {
    var nack := Response(me, q.from, q.tid, q.file, 0, false, []);
    if q.kind.Info? then
      if q.file in nd.files then nack.(ack := true, part := NumParts(|nd.files[q.file]|)) else nack
    else if q.file in nd.files then
      nack.(ack := true, part := q.part, data := if q.kind.Xfer? then ReadPart(nd.files[q.file], q.part) else [])
    else if q.file in nd.transfers && q.part in nd.transfers[q.file].done && q.part in nd.transfers[q.file].parts then
      nack.(ack := true, part := q.part,
            data := if q.kind.Xfer? then ReadPart(nd.transfers[q.file].parts[q.part], 0) else [])
    else nack
  }

  function WithGetter(nd: Node, f: Name, g: Getter): Node {
    nd.(getters := nd.getters[f := g])
  }

  /** What follows a failed attempt at a part (src/iomeshage/iomeshage.go:365-398). */
  function AfterFailure(t: Transfer, rest: seq<nat>, attempt: nat): Getter
    requires rest != []
  {
    if attempt + 1 < MAX_ATTEMPTS then Next(rest, attempt + 1)
    else if rest[0] in t.done then Next(rest[1..], 0)
    else Leaving
  }

  /** A part that does not come is tried three times in all. */
  lemma ThreeAttempts(t: Transfer, rest: seq<nat>, attempt: nat)
    requires rest != [] && rest[0] !in t.done
    ensures AfterFailure(t, rest, attempt) == if attempt < 2 then Next(rest, attempt + 1) else Leaving
  {
  }

  // Steps

  datatype Label =
    | AskInfo(n: Name, f: Name, tid: nat)
    | Reply(n: Name, q: Msg)
    | Start(n: Name, f: Name, m: Msg, order: seq<nat>)
    | Begin(n: Name, f: Name, tid: nat)
    | Found(n: Name, f: Name, m: Msg, tid: nat)
    | Receive(n: Name, f: Name, m: Msg)
    | Store(n: Name, f: Name)
    | Fail(n: Name, f: Name)
    | Overhear(n: Name, m: Msg)
    | Copy(n: Name, f: Name)
    | Destroy(n: Name, f: Name)
    | Delete(n: Name, f: Name)

  ghost predicate Fresh(s: State, n: Name, tid: nat) {
    (n, tid) !in s.used
  }

  function WithNode(s: State, n: Name, nd: Node): State {
    s.(nodes := s.nodes[n := nd])
  }

  function Sent(s: State, q: Msg): State
    requires q.Request?
  {
    s.(msgs := s.msgs + {q}, used := s.used + {(q.from, q.tid)})
  }

  /** A get asks the mesh for the file (src/iomeshage/iomeshage.go:83-99). */
  ghost predicate AskInfoStep(s: State, s': State, n: Name, f: Name, tid: nat) {
    Fresh(s, n, tid) && s' == Sent(s, Request(n, All, tid, f, 0, Info))
  }

  ghost predicate ReplyStep(s: State, s': State, n: Name, q: Msg) {
    && n in s.nodes && q in s.msgs && q.Request? && (q.dest.All? || q.dest.name == n)
    && s' == s.(msgs := s.msgs + {Answer(s.nodes[n], n, q)})
  }

  /** A get learned the number of parts from a response to its own request
      (src/iomeshage/iomeshage.go:205-242, 338-352). */
  ghost predicate StartStep(s: State, s': State, n: Name, f: Name, m: Msg, order: seq<nat>) {
    && n in s.nodes && f !in s.nodes[n].transfers && f !in s.nodes[n].getters
    && m in s.msgs && m.Response? && m.to == n && m.ack && m.file == f
    && Request(n, All, m.tid, f, 0, Info) in s.msgs
    && Permutes(order, m.part)
    && var nd := s.nodes[n];
       var g := if m.part == 0 then Copying(0, []) else Next(order, 0);
       s' == WithNode(s, n, nd.(transfers := nd.transfers[f := NewTransfer(m.part)], getters := nd.getters[f := g]))
  }

  ghost predicate Fetches(s: State, n: Name, f: Name) {
    n in s.nodes && f in s.nodes[n].getters && f in s.nodes[n].transfers
  }

  /** Take up the next part: skip it if it is already there, otherwise mark it in
      flight and ask who has it; with none left, copy the parts together
      (src/iomeshage/iomeshage.go:362-409, 502-517). */
  ghost predicate BeginStep(s: State, s': State, n: Name, f: Name, tid: nat) {
    Fetches(s, n, f) && s.nodes[n].getters[f].Next? &&
    var nd := s.nodes[n];
    var t, g := nd.transfers[f], nd.getters[f];
    if g.rest == [] then s' == WithNode(s, n, WithGetter(nd, f, Copying(0, [])))
    else if g.rest[0] in t.done then s' == WithNode(s, n, WithGetter(nd, f, Next(g.rest[1..], 0)))
    else
      var nd' := nd.(transfers := nd.transfers[f := t.(inflight := g.rest[0])],
                     getters := nd.getters[f := Asking(g.rest, g.attempt, tid)]);
      Fresh(s, n, tid) && s' == Sent(WithNode(s, n, nd'), Request(n, All, tid, f, g.rest[0], WhoHas))
  }

  /** Somebody has the part: request it (src/iomeshage/iomeshage.go:458-500, 545-560). */
  ghost predicate FoundStep(s: State, s': State, n: Name, f: Name, m: Msg, tid: nat) {
    Fetches(s, n, f) && s.nodes[n].getters[f].Asking? &&
    var g := s.nodes[n].getters[f];
    && g.rest != [] && m in s.msgs && m.Response? && m.to == n && m.tid == g.tid && m.ack && Fresh(s, n, tid)
    && s' == Sent(WithNode(s, n, WithGetter(s.nodes[n], f, Fetching(g.rest, g.attempt, tid, m.from))),
                  Request(n, One(m.from), tid, f, g.rest[0], Xfer))
  }

  /** The response to the own request arrives; responses to others are dropped
      (src/iomeshage/handler.go:40-63, src/iomeshage/iomeshage.go:560-582). */
  ghost predicate ReceiveStep(s: State, s': State, n: Name, f: Name, m: Msg) {
    Fetches(s, n, f) && s.nodes[n].getters[f].Fetching? &&
    var g := s.nodes[n].getters[f];
    && m in s.msgs && m.Response? && m.to == n && m.tid == g.tid && m.ack
    && s' == WithNode(s, n, WithGetter(s.nodes[n], f, Holding(g.rest, g.attempt, m.data)))
  }

  /** Write the received part (src/iomeshage/iomeshage.go:526-543). */
  ghost predicate StoreStep(s: State, s': State, n: Name, f: Name) {
    Fetches(s, n, f) && s.nodes[n].getters[f].Holding? &&
    var nd := s.nodes[n];
    var g := nd.getters[f];
    && g.rest != []
    && s' == WithNode(s, n, nd.(transfers := nd.transfers[f := Write(nd.transfers[f], g.rest[0], g.data)],
                                getters := nd.getters[f := Next(g.rest[1..], 0)]))
  }

  /** A time-out, a refusal, or nobody has the part. */
  ghost predicate FailStep(s: State, s': State, n: Name, f: Name) {
    Fetches(s, n, f) && (s.nodes[n].getters[f].Asking? || s.nodes[n].getters[f].Fetching?) &&
    var nd := s.nodes[n];
    var g := nd.getters[f];
    g.rest != [] && s' == WithNode(s, n, WithGetter(nd, f, AfterFailure(nd.transfers[f], g.rest, g.attempt)))
  }

  ghost predicate OverhearStep(s: State, s': State, n: Name, m: Msg) {
    n in s.nodes && m in s.msgs && s' == WithNode(s, n, Snoop(s.nodes[n], m))
  }

  /** Append the next part, or move the finished file into place
      (src/iomeshage/iomeshage.go:324-336, 402-435). */
  ghost predicate CopyStep(s: State, s': State, n: Name, f: Name) {
    Fetches(s, n, f) && s.nodes[n].getters[f].Copying? &&
    var nd := s.nodes[n];
    var t, g := nd.transfers[f], nd.getters[f];
    if g.i == t.numParts then s' == WithNode(s, n, nd.(files := nd.files[f := g.acc], getters := nd.getters[f := Leaving]))
    else if g.i !in t.parts then s' == WithNode(s, n, WithGetter(nd, f, Leaving))
    else s' == WithNode(s, n, WithGetter(nd, f, Copying(g.i + 1, g.acc + t.parts[g.i])))
  }

  /** src/iomeshage/iomeshage.go:438-456 */
  ghost predicate DestroyStep(s: State, s': State, n: Name, f: Name) {
    Fetches(s, n, f) && s.nodes[n].getters[f].Leaving? &&
    var nd := s.nodes[n];
    s' == WithNode(s, n, nd.(transfers := nd.transfers - {f}, getters := nd.getters - {f}))
  }

  ghost predicate DeleteStep(s: State, s': State, n: Name, f: Name) {
    n in s.nodes && s' == WithNode(s, n, s.nodes[n].(files := s.nodes[n].files - {f}))
  }

  ghost predicate Step(s: State, l: Label, s': State) {
    match l
    case AskInfo(n, f, tid) => AskInfoStep(s, s', n, f, tid)
    case Reply(n, q) => ReplyStep(s, s', n, q)
    case Start(n, f, m, order) => StartStep(s, s', n, f, m, order)
    case Begin(n, f, tid) => BeginStep(s, s', n, f, tid)
    case Found(n, f, m, tid) => FoundStep(s, s', n, f, m, tid)
    case Receive(n, f, m) => ReceiveStep(s, s', n, f, m)
    case Store(n, f) => StoreStep(s, s', n, f)
    case Fail(n, f) => FailStep(s, s', n, f)
    case Overhear(n, m) => OverhearStep(s, s', n, m)
    case Copy(n, f) => CopyStep(s, s', n, f)
    case Destroy(n, f) => DestroyStep(s, s', n, f)
    case Delete(n, f) => DeleteStep(s, s', n, f)
  }

  // The invariant. `src` gives the one content of every file name.

  /** Completed parts hold the bytes of the file, and no part was written twice. */
  ghost predicate TransferOk(c: Bytes, t: Transfer) {
    && t.numParts == NumParts(|c|)
    && (forall p :: p in t.done ==> p < t.numParts && p in t.parts && t.parts[p] == Chunk(c, p))
    && (forall p :: p in t.writes <==> p in t.done)
    && Distinct(t.writes)
  }

  /** Parts that are not done are still to come. */
  ghost predicate RestOk(t: Transfer, rest: seq<nat>) {
    && (forall p :: p in rest ==> p < t.numParts)
    && (forall p: nat :: p < t.numParts ==> p in t.done || p in rest)
  }

  /** The part being worked on is in flight and not there yet. */
  ghost predicate Working(t: Transfer, rest: seq<nat>) {
    rest != [] && RestOk(t, rest) && t.inflight == rest[0] && rest[0] !in t.done
  }

  ghost predicate GetterOk(c: Bytes, msgs: set<Msg>, n: Name, f: Name, t: Transfer, g: Getter) {
    match g
    case Next(rest, a) => a < MAX_ATTEMPTS && RestOk(t, rest)
    case Asking(rest, a, tid) =>
      a < MAX_ATTEMPTS && Working(t, rest) && Request(n, All, tid, f, rest[0], WhoHas) in msgs
    case Fetching(rest, a, tid, who) =>
      a < MAX_ATTEMPTS && Working(t, rest) && Request(n, One(who), tid, f, rest[0], Xfer) in msgs
    case Holding(rest, a, data) => a < MAX_ATTEMPTS && Working(t, rest) && data == Chunk(c, rest[0])
    case Copying(i, acc) => i <= t.numParts && RestOk(t, []) && acc == Joined(c, i)
    case Leaving => true
  }

  ghost predicate NodeOk(src: map<Name, Bytes>, msgs: set<Msg>, n: Name, nd: Node) {
    && (forall f :: f in nd.files ==> f in src && nd.files[f] == src[f])
    && (forall f :: f in nd.transfers ==> f in src && f in nd.getters && TransferOk(src[f], nd.transfers[f]))
    && (forall f :: f in nd.getters ==>
          f in nd.transfers && GetterOk(src[f], msgs, n, f, nd.transfers[f], nd.getters[f]))
  }

  /** `m` answers `q` with what the files hold. */
  ghost predicate Truthful(src: map<Name, Bytes>, q: Msg, m: Msg) {
    q.Request? && m.Response? && q.from == m.to && q.tid == m.tid && q.file == m.file &&
    (m.ack ==>
      && m.file in src
      && (if q.kind.Info? then m.part == NumParts(|src[m.file]|) else m.part == q.part)
      && m.data == if q.kind.Xfer? then Chunk(src[m.file], m.part) else [])
  }

  ghost predicate Answered(src: map<Name, Bytes>, msgs: set<Msg>, m: Msg) {
    exists q :: q in msgs && Truthful(src, q, m)
  }

  ghost predicate MsgsOk(src: map<Name, Bytes>, msgs: set<Msg>, used: set<(Name, nat)>) {
    && (forall m :: m in msgs && m.Response? ==> Answered(src, msgs, m))
    && (forall q :: q in msgs && q.Request? ==> (q.from, q.tid) in used)
    && (forall q, r :: q in msgs && r in msgs && q.Request? && r.Request? && q.from == r.from && q.tid == r.tid ==> q == r)
  }

  ghost predicate Inv(src: map<Name, Bytes>, s: State) {
    && (forall n :: n in s.nodes ==> NodeOk(src, s.msgs, n, s.nodes[n]))
    && MsgsOk(src, s.msgs, s.used)
  }

  /** Nothing is under way, and every file is a copy of the one source. */
  ghost predicate Init(src: map<Name, Bytes>, s: State) {
    && s.msgs == {} && s.used == {}
    && (forall n :: n in s.nodes ==> s.nodes[n].transfers == map[] && s.nodes[n].getters == map[])
    && (forall n, f :: n in s.nodes && f in s.nodes[n].files ==> f in src && s.nodes[n].files[f] == src[f])
  }

  // Messages

  lemma MoreMsgs(src: map<Name, Bytes>, msgs: set<Msg>, more: set<Msg>, n: Name, nd: Node)
    requires NodeOk(src, msgs, n, nd) && msgs <= more
    ensures NodeOk(src, more, n, nd)
  {
    forall f | f in nd.getters
      ensures GetterOk(src[f], more, n, f, nd.transfers[f], nd.getters[f])
    {
      assert GetterOk(src[f], msgs, n, f, nd.transfers[f], nd.getters[f]);
    }
  }

  lemma StillAnswered(src: map<Name, Bytes>, msgs: set<Msg>, more: set<Msg>, m: Msg)
    requires Answered(src, msgs, m) && msgs <= more
    ensures Answered(src, more, m)
  {
    var q :| q in msgs && Truthful(src, q, m);
    assert q in more;
  }

  lemma SendKeeps(src: map<Name, Bytes>, msgs: set<Msg>, used: set<(Name, nat)>, q: Msg)
    requires MsgsOk(src, msgs, used) && q.Request? && (q.from, q.tid) !in used
    ensures MsgsOk(src, msgs + {q}, used + {(q.from, q.tid)})
  {
    forall m | m in msgs + {q} && m.Response?
      ensures Answered(src, msgs + {q}, m)
    {
      StillAnswered(src, msgs, msgs + {q}, m);
    }
  }

  lemma ReplyKeeps(src: map<Name, Bytes>, msgs: set<Msg>, used: set<(Name, nat)>, q: Msg, m: Msg)
    requires MsgsOk(src, msgs, used) && q in msgs && Truthful(src, q, m)
    ensures MsgsOk(src, msgs + {m}, used)
  {
    forall r | r in msgs + {m} && r.Response?
      ensures Answered(src, msgs + {m}, r)
    {
      if r in msgs {
        StillAnswered(src, msgs, msgs + {m}, r);
      } else {
        assert q in msgs + {m};
      }
    }
  }

  /** The answer of a node tells the truth about the files. */
  lemma AnswerTruthful(src: map<Name, Bytes>, msgs: set<Msg>, n: Name, nd: Node, q: Msg)
    requires NodeOk(src, msgs, n, nd) && q.Request?
    ensures Truthful(src, q, Answer(nd, n, q))
  {
    if q.file in nd.files {
      ReadIsChunk(src[q.file], q.part);
    } else if q.file in nd.transfers && q.part in nd.transfers[q.file].done {
      assert TransferOk(src[q.file], nd.transfers[q.file]);
      ReadWholePart(src[q.file], q.part);
    }
  }

  /** The response with the number of a request answers that request. */
  lemma OwnResponse(src: map<Name, Bytes>, msgs: set<Msg>, used: set<(Name, nat)>, q: Msg, m: Msg)
    requires MsgsOk(src, msgs, used) && q in msgs && q.Request? && m in msgs && m.Response?
    requires m.to == q.from && m.tid == q.tid
    ensures Truthful(src, q, m)
  {
    assert Answered(src, msgs, m);
    var r :| r in msgs && Truthful(src, r, m);
    assert r == q;
  }

  // Who waits for a response

  ghost predicate WaitsFor(g: Getter, tid: nat) {
    (g.Asking? || g.Fetching?) && g.tid == tid
  }

  ghost predicate Waiting(nd: Node, tid: nat) {
    exists f :: f in nd.getters && WaitsFor(nd.getters[f], tid)
  }

  /** No two getters of a node wait for the same number. */
  lemma OneWaits(src: map<Name, Bytes>, s: State, n: Name, f: Name, h: Name, tid: nat)
    requires Inv(src, s) && n in s.nodes && f in s.nodes[n].getters && h in s.nodes[n].getters
    requires WaitsFor(s.nodes[n].getters[f], tid) && WaitsFor(s.nodes[n].getters[h], tid)
    ensures f == h
  {
    var nd := s.nodes[n];
    assert NodeOk(src, s.msgs, n, nd);
    assert GetterOk(src[f], s.msgs, n, f, nd.transfers[f], nd.getters[f]);
    assert GetterOk(src[h], s.msgs, n, h, nd.transfers[h], nd.getters[h]);
  }

  ghost predicate TakesResponse(l: Label, n: Name, m: Msg) {
    (l.Found? || l.Receive?) && l.n == n && l.m == m
  }

  /** Some getter of the node goes on with the response. */
  ghost predicate CanTake(s: State, n: Name, m: Msg) {
    exists l, s' :: TakesResponse(l, n, m) && Step(s, l, s')
  }

  /** A response that carries on a fetch can be taken exactly while a getter of
      its node waits for its number. */
  lemma TakenIff(src: map<Name, Bytes>, s: State, n: Name, m: Msg)
    requires Inv(src, s) && n in s.nodes && m in s.msgs && m.Response? && m.to == n && m.ack
    ensures CanTake(s, n, m) <==> Waiting(s.nodes[n], m.tid)
  {
    if Waiting(s.nodes[n], m.tid) {
      TakenWhileWaiting(src, s, n, m);
    }
    forall l, s' | TakesResponse(l, n, m) && Step(s, l, s')
      ensures Waiting(s.nodes[n], m.tid)
    {
      assert WaitsFor(s.nodes[n].getters[l.f], m.tid);
    }
  }

  lemma TakenWhileWaiting(src: map<Name, Bytes>, s: State, n: Name, m: Msg)
    requires Inv(src, s) && n in s.nodes && m in s.msgs && m.Response? && m.to == n && m.ack
    requires Waiting(s.nodes[n], m.tid)
    ensures CanTake(s, n, m)
  {
    var f :| f in s.nodes[n].getters && WaitsFor(s.nodes[n].getters[f], m.tid);
    var g := s.nodes[n].getters[f];
    assert NodeOk(src, s.msgs, n, s.nodes[n]);
    assert GetterOk(src[f], s.msgs, n, f, s.nodes[n].transfers[f], g);
    if g.Asking? {
      var tid := FreshNumber(s.used, n);
      var s' := Sent(WithNode(s, n, WithGetter(s.nodes[n], f, Fetching(g.rest, g.attempt, tid, m.from))),
                     Request(n, One(m.from), tid, f, g.rest[0], Xfer));
      assert Step(s, Found(n, f, m, tid), s') && TakesResponse(Found(n, f, m, tid), n, m);
    } else {
      var s' := WithNode(s, n, WithGetter(s.nodes[n], f, Holding(g.rest, g.attempt, m.data)));
      assert Step(s, Receive(n, f, m), s') && TakesResponse(Receive(n, f, m), n, m);
    }
  }

  // Transfers

  lemma NewTransferOk(c: Bytes)
    ensures TransferOk(c, NewTransfer(NumParts(|c|)))
  {
  }

  /** Writing the right bytes of a part that is not there yet. */
  lemma WriteKeeps(c: Bytes, t: Transfer, p: nat)
    requires TransferOk(c, t) && p !in t.done && p < t.numParts
    ensures TransferOk(c, Write(t, p, Chunk(c, p)))
    ensures forall rest :: RestOk(t, [p] + rest) ==> RestOk(Write(t, p, Chunk(c, p)), rest)
  {
    var t' := Write(t, p, Chunk(c, p));
    assert t'.writes[|t.writes|] == p && forall i :: 0 <= i < |t.writes| ==> t'.writes[i] == t.writes[i] && t.writes[i] in t.writes;
    forall rest | RestOk(t, [p] + rest)
      ensures RestOk(t', rest)
    {
      forall q | q in rest
        ensures q < t'.numParts
      {
        assert q in [p] + rest;
      }
    }
  }

  lemma WriteKeepsOthers(c: Bytes, msgs: set<Msg>, n: Name, f: Name, t: Transfer, g: Getter, p: nat, data: Bytes)
    requires GetterOk(c, msgs, n, f, t, g) && t.inflight != p
    ensures GetterOk(c, msgs, n, f, Write(t, p, data), g)
  {
  }

  /** Responses that carry data carry a part of the file. */
  lemma SnoopKeeps(src: map<Name, Bytes>, msgs: set<Msg>, used: set<(Name, nat)>, n: Name, nd: Node, m: Msg)
    requires MsgsOk(src, msgs, used) && NodeOk(src, msgs, n, nd) && m in msgs
    ensures NodeOk(src, msgs, n, Snoop(nd, m))
  {
    var nd' := Snoop(nd, m);
    if nd' != nd {
      var f, t := m.file, nd.transfers[m.file];
      assert Answered(src, msgs, m);
      var q :| q in msgs && Truthful(src, q, m);
      ReadIsChunk(src[f], m.part);
      WriteKeeps(src[f], t, m.part);
      forall x | x in nd'.getters
        ensures GetterOk(src[x], msgs, n, x, nd'.transfers[x], nd'.getters[x])
      {
        assert GetterOk(src[x], msgs, n, x, nd.transfers[x], nd.getters[x]);
        if x == f { WriteKeepsOthers(src[f], msgs, n, f, t, nd.getters[f], m.part, m.data); }
      }
    }
  }

  // Every step keeps the invariant

  /** A step that changes one node and keeps the messages. */
  lemma NodeKeeps(src: map<Name, Bytes>, s: State, n: Name, nd: Node)
    requires Inv(src, s) && NodeOk(src, s.msgs, n, nd)
    ensures Inv(src, WithNode(s, n, nd))
  {
  }

  /** A step that changes one node and sends a request. */
  lemma SendingKeeps(src: map<Name, Bytes>, s: State, q: Msg)
    requires Inv(src, s) && q.Request? && (q.from, q.tid) !in s.used
    ensures Inv(src, Sent(s, q))
  {
    SendKeeps(src, s.msgs, s.used, q);
    forall n | n in s.nodes
      ensures NodeOk(src, s.msgs + {q}, n, s.nodes[n])
    {
      MoreMsgs(src, s.msgs, s.msgs + {q}, n, s.nodes[n]);
    }
  }

  /** Replace the transfer and the getter of one file. */
  lemma FileKeeps(src: map<Name, Bytes>, msgs: set<Msg>, n: Name, nd: Node, f: Name, t: Transfer, g: Getter)
    requires NodeOk(src, msgs, n, nd) && f in src && TransferOk(src[f], t) && GetterOk(src[f], msgs, n, f, t, g)
    ensures NodeOk(src, msgs, n, nd.(transfers := nd.transfers[f := t], getters := nd.getters[f := g]))
  {
  }

  lemma GetterKeeps(src: map<Name, Bytes>, msgs: set<Msg>, n: Name, nd: Node, f: Name, g: Getter)
    requires NodeOk(src, msgs, n, nd) && f in nd.transfers && GetterOk(src[f], msgs, n, f, nd.transfers[f], g)
    ensures NodeOk(src, msgs, n, WithGetter(nd, f, g))
  {
  }

  lemma ReplyStepKeeps(src: map<Name, Bytes>, s: State, s': State, n: Name, q: Msg)
    requires Inv(src, s) && ReplyStep(s, s', n, q)
    ensures Inv(src, s')
  {
    var m := Answer(s.nodes[n], n, q);
    AnswerTruthful(src, s.msgs, n, s.nodes[n], q);
    ReplyKeeps(src, s.msgs, s.used, q, m);
    forall x | x in s'.nodes
      ensures NodeOk(src, s'.msgs, x, s'.nodes[x])
    {
      MoreMsgs(src, s.msgs, s'.msgs, x, s.nodes[x]);
    }
  }

  lemma StartStepKeeps(src: map<Name, Bytes>, s: State, s': State, n: Name, f: Name, m: Msg, order: seq<nat>)
    requires Inv(src, s) && StartStep(s, s', n, f, m, order)
    ensures Inv(src, s')
  {
    OwnResponse(src, s.msgs, s.used, Request(n, All, m.tid, f, 0, Info), m);
    NewTransferOk(src[f]);
    PermutesCovers(order, m.part);
    var g := if m.part == 0 then Copying(0, []) else Next(order, 0);
    FileKeeps(src, s.msgs, n, s.nodes[n], f, NewTransfer(m.part), g);
    NodeKeeps(src, s, n, s'.nodes[n]);
  }

  lemma RestShrinks(t: Transfer, rest: seq<nat>)
    requires rest != [] && RestOk(t, rest) && rest[0] in t.done
    ensures RestOk(t, rest[1..])
  {
    assert forall p :: p in rest <==> p == rest[0] || p in rest[1..];
  }

  lemma BeginStepKeeps(src: map<Name, Bytes>, s: State, s': State, n: Name, f: Name, tid: nat)
    requires Inv(src, s) && BeginStep(s, s', n, f, tid)
    ensures Inv(src, s')
  {
    var nd := s.nodes[n];
    var t, g := nd.transfers[f], nd.getters[f];
    assert GetterOk(src[f], s.msgs, n, f, t, g) && TransferOk(src[f], t);
    if g.rest == [] {
      GetterKeeps(src, s.msgs, n, nd, f, Copying(0, []));
      NodeKeeps(src, s, n, s'.nodes[n]);
    } else if g.rest[0] in t.done {
      RestShrinks(t, g.rest);
      GetterKeeps(src, s.msgs, n, nd, f, Next(g.rest[1..], 0));
      NodeKeeps(src, s, n, s'.nodes[n]);
    } else {
      AskKeeps(src, s, n, f, tid);
    }
  }

  lemma AskKeeps(src: map<Name, Bytes>, s: State, n: Name, f: Name, tid: nat)
    requires Inv(src, s) && Fetches(s, n, f) && s.nodes[n].getters[f].Next? && Fresh(s, n, tid)
    requires var g := s.nodes[n].getters[f]; g.rest != [] && g.rest[0] !in s.nodes[n].transfers[f].done
    ensures var nd := s.nodes[n]; var t, g := nd.transfers[f], nd.getters[f];
      Inv(src, Sent(WithNode(s, n, nd.(transfers := nd.transfers[f := t.(inflight := g.rest[0])],
                                       getters := nd.getters[f := Asking(g.rest, g.attempt, tid)])),
                    Request(n, All, tid, f, g.rest[0], WhoHas)))
  {
    var nd := s.nodes[n];
    var t, g := nd.transfers[f], nd.getters[f];
    assert GetterOk(src[f], s.msgs, n, f, t, g) && TransferOk(src[f], t);
    var q := Request(n, All, tid, f, g.rest[0], WhoHas);
    SendingKeeps(src, s, q);
    FileKeeps(src, s.msgs + {q}, n, nd, f, t.(inflight := g.rest[0]), Asking(g.rest, g.attempt, tid));
    NodeKeeps(src, Sent(s, q), n, nd.(transfers := nd.transfers[f := t.(inflight := g.rest[0])],
                                      getters := nd.getters[f := Asking(g.rest, g.attempt, tid)]));
  }

  lemma FoundStepKeeps(src: map<Name, Bytes>, s: State, s': State, n: Name, f: Name, m: Msg, tid: nat)
    requires Inv(src, s) && FoundStep(s, s', n, f, m, tid)
    ensures Inv(src, s')
  {
    var nd := s.nodes[n];
    var t, g := nd.transfers[f], nd.getters[f];
    assert GetterOk(src[f], s.msgs, n, f, t, g);
    var q := Request(n, One(m.from), tid, f, g.rest[0], Xfer);
    SendingKeeps(src, s, q);
    GetterKeeps(src, s.msgs + {q}, n, nd, f, Fetching(g.rest, g.attempt, tid, m.from));
    NodeKeeps(src, Sent(s, q), n, s'.nodes[n]);
  }

  lemma ReceiveStepKeeps(src: map<Name, Bytes>, s: State, s': State, n: Name, f: Name, m: Msg)
    requires Inv(src, s) && ReceiveStep(s, s', n, f, m)
    ensures Inv(src, s')
  {
    var nd := s.nodes[n];
    var t, g := nd.transfers[f], nd.getters[f];
    assert GetterOk(src[f], s.msgs, n, f, t, g);
    OwnResponse(src, s.msgs, s.used, Request(n, One(g.who), g.tid, f, g.rest[0], Xfer), m);
    GetterKeeps(src, s.msgs, n, nd, f, Holding(g.rest, g.attempt, m.data));
    NodeKeeps(src, s, n, s'.nodes[n]);
  }

  lemma StoreStepKeeps(src: map<Name, Bytes>, s: State, s': State, n: Name, f: Name)
    requires Inv(src, s) && StoreStep(s, s', n, f)
    ensures Inv(src, s')
  {
    var nd := s.nodes[n];
    var t, g := nd.transfers[f], nd.getters[f];
    assert GetterOk(src[f], s.msgs, n, f, t, g) && TransferOk(src[f], t);
    assert g.rest == [g.rest[0]] + g.rest[1..] && g.rest[0] in g.rest;
    WriteKeeps(src[f], t, g.rest[0]);
    FileKeeps(src, s.msgs, n, nd, f, Write(t, g.rest[0], g.data), Next(g.rest[1..], 0));
    NodeKeeps(src, s, n, s'.nodes[n]);
  }

  lemma FailStepKeeps(src: map<Name, Bytes>, s: State, s': State, n: Name, f: Name)
    requires Inv(src, s) && FailStep(s, s', n, f)
    ensures Inv(src, s')
  {
    var nd := s.nodes[n];
    var t, g := nd.transfers[f], nd.getters[f];
    assert GetterOk(src[f], s.msgs, n, f, t, g);
    GetterKeeps(src, s.msgs, n, nd, f, AfterFailure(t, g.rest, g.attempt));
    NodeKeeps(src, s, n, s'.nodes[n]);
  }

  lemma PlaceKeeps(src: map<Name, Bytes>, msgs: set<Msg>, n: Name, nd: Node, f: Name, acc: Bytes)
    requires NodeOk(src, msgs, n, nd) && f in nd.transfers && acc == src[f]
    ensures NodeOk(src, msgs, n, nd.(files := nd.files[f := acc], getters := nd.getters[f := Leaving]))
  {
  }

  lemma CopyGrows(c: Bytes, msgs: set<Msg>, n: Name, f: Name, t: Transfer, g: Getter)
    requires TransferOk(c, t) && g.Copying? && GetterOk(c, msgs, n, f, t, g)
    ensures g.i == t.numParts ==> g.acc == c
    ensures g.i != t.numParts ==> g.i in t.parts && GetterOk(c, msgs, n, f, t, Copying(g.i + 1, g.acc + t.parts[g.i]))
  {
    hide Chunk, NumParts;
    if g.i == t.numParts {
      JoinedIsWhole(c);
    } else {
      assert g.i in t.done;
    }
  }

  lemma CopyStepKeeps(src: map<Name, Bytes>, s: State, s': State, n: Name, f: Name)
    requires Inv(src, s) && CopyStep(s, s', n, f)
    ensures Inv(src, s')
  {
    hide TransferOk, GetterOk, MsgsOk;
    var nd := s.nodes[n];
    var t, g := nd.transfers[f], nd.getters[f];
    CopyGrows(src[f], s.msgs, n, f, t, g);
    if g.i == t.numParts {
      PlaceKeeps(src, s.msgs, n, nd, f, g.acc);
    } else {
      GetterKeeps(src, s.msgs, n, nd, f, Copying(g.i + 1, g.acc + t.parts[g.i]));
    }
    NodeKeeps(src, s, n, s'.nodes[n]);
  }

  lemma StepKeeps(src: map<Name, Bytes>, s: State, l: Label, s': State)
    requires Inv(src, s) && Step(s, l, s')
    ensures Inv(src, s')
  {
    match l
    case AskInfo(n, f, tid) => SendingKeeps(src, s, Request(n, All, tid, f, 0, Info));
    case Reply(n, q) => ReplyStepKeeps(src, s, s', n, q);
    case Start(n, f, m, order) => StartStepKeeps(src, s, s', n, f, m, order);
    case Begin(n, f, tid) => BeginStepKeeps(src, s, s', n, f, tid);
    case Found(n, f, m, tid) => FoundStepKeeps(src, s, s', n, f, m, tid);
    case Receive(n, f, m) => ReceiveStepKeeps(src, s, s', n, f, m);
    case Store(n, f) => StoreStepKeeps(src, s, s', n, f);
    case Fail(n, f) => FailStepKeeps(src, s, s', n, f);
    case Overhear(n, m) =>
      SnoopKeeps(src, s.msgs, s.used, n, s.nodes[n], m);
      NodeKeeps(src, s, n, Snoop(s.nodes[n], m));
    case Copy(n, f) => CopyStepKeeps(src, s, s', n, f);
    case Destroy(n, f) => NodeKeeps(src, s, n, s'.nodes[n]);
    case Delete(n, f) => NodeKeeps(src, s, n, s'.nodes[n]);
  }

  // Runs

  ghost predicate Run(states: seq<State>, labels: seq<Label>) {
    |states| == |labels| + 1 && forall i :: 0 <= i < |labels| ==> Step(states[i], labels[i], states[i + 1])
  }

  lemma {:induction false} RunInv(src: map<Name, Bytes>, states: seq<State>, labels: seq<Label>, k: nat)
    requires Run(states, labels) && Init(src, states[0]) && k < |states|
    ensures Inv(src, states[k])
  {
    if k > 0 {
      RunInv(src, states, labels, k - 1);
      StepKeeps(src, states[k - 1], labels[k - 1], states[k]);
    }
  }

  /** In every run, every completed part holds the bytes of the source and was
      written once, and every file in place is the source file. */
  lemma FilesAreSource(src: map<Name, Bytes>, states: seq<State>, labels: seq<Label>, k: nat, n: Name, f: Name)
    requires Run(states, labels) && Init(src, states[0]) && k < |states| && n in states[k].nodes
    ensures f in states[k].nodes[n].files ==> f in src && states[k].nodes[n].files[f] == src[f]
    ensures f in states[k].nodes[n].transfers ==> f in src && TransferOk(src[f], states[k].nodes[n].transfers[f])
  {
    RunInv(src, states, labels, k);
    assert NodeOk(src, states[k].msgs, n, states[k].nodes[n]);
  }

  /** A transfer only gives up because attempts at a part failed: once all parts
      are there, the file is put in place. */
  lemma CopyNeverStuck(src: map<Name, Bytes>, states: seq<State>, labels: seq<Label>, k: nat, n: Name, f: Name)
    requires Run(states, labels) && Init(src, states[0]) && k < |states|
    requires Fetches(states[k], n, f) && states[k].nodes[n].getters[f].Copying?
    ensures var t, g := states[k].nodes[n].transfers[f], states[k].nodes[n].getters[f];
      g.i == t.numParts || (g.i < t.numParts && g.i in t.parts)
  {
    RunInv(src, states, labels, k);
    var nd := states[k].nodes[n];
    assert NodeOk(src, states[k].msgs, n, nd);
    assert GetterOk(src[f], states[k].msgs, n, f, nd.transfers[f], nd.getters[f]);
    assert TransferOk(src[f], nd.transfers[f]);
  }

  // Fetching ends

  /** The steps a getter can still take. */
  ghost function Left(t: Transfer, g: Getter): int {
    match g
    case Next(rest, a) => t.numParts + 2 + 13 * |rest| + 4 * (MAX_ATTEMPTS - a)
    case Asking(rest, a, _) => t.numParts + 1 + 13 * |rest| + 4 * (MAX_ATTEMPTS - a)
    case Fetching(rest, a, _, _) => t.numParts + 13 * |rest| + 4 * (MAX_ATTEMPTS - a)
    case Holding(rest, a, _) => t.numParts - 1 + 13 * |rest| + 4 * (MAX_ATTEMPTS - a)
    case Copying(i, _) => t.numParts + 1 - i
    case Leaving => 0
  }

  ghost predicate OwnStep(l: Label, n: Name, f: Name) {
    match l
    case Begin(n', f', _) => n' == n && f' == f
    case Found(n', f', _, _) => n' == n && f' == f
    case Receive(n', f', _) => n' == n && f' == f
    case Store(n', f') => n' == n && f' == f
    case Fail(n', f') => n' == n && f' == f
    case Copy(n', f') => n' == n && f' == f
    case _ => false
  }

  ghost function LeftAt(s: State, n: Name, f: Name): int
    requires Fetches(s, n, f)
  {
    Left(s.nodes[n].transfers[f], s.nodes[n].getters[f])
  }

  /** The getter of `f` has come closer to its end by `d`, and parts were only added. */
  ghost predicate Closer(t: Transfer, g: Getter, t': Transfer, g': Getter, d: int) {
    t.writes <= t'.writes && 0 <= Left(t', g') <= Left(t, g) - d
  }

  ghost predicate Approaches(s: State, s': State, n: Name, f: Name, d: int)
    requires Fetches(s, n, f)
  {
    Fetches(s', n, f) &&
    Closer(s.nodes[n].transfers[f], s.nodes[n].getters[f], s'.nodes[n].transfers[f], s'.nodes[n].getters[f], d)
  }

  /** What the measure needs of the invariant. */
  ghost predicate Bounded(t: Transfer, g: Getter) {
    match g
    case Next(_, a) => a < MAX_ATTEMPTS
    case Asking(rest, a, _) => a < MAX_ATTEMPTS && rest != []
    case Fetching(rest, a, _, _) => a < MAX_ATTEMPTS && rest != []
    case Holding(rest, a, _) => a < MAX_ATTEMPTS && rest != []
    case Copying(i, _) => i <= t.numParts
    case Leaving => true
  }

  lemma IsBounded(src: map<Name, Bytes>, s: State, n: Name, f: Name)
    requires Inv(src, s) && Fetches(s, n, f)
    ensures Bounded(s.nodes[n].transfers[f], s.nodes[n].getters[f])
  {
    assert NodeOk(src, s.msgs, n, s.nodes[n]);
    assert GetterOk(src[f], s.msgs, n, f, s.nodes[n].transfers[f], s.nodes[n].getters[f]);
  }

  lemma StaysPut(s: State, s': State, n: Name, f: Name)
    requires Fetches(s, n, f) && Bounded(s.nodes[n].transfers[f], s.nodes[n].getters[f]) && Fetches(s', n, f)
    requires s'.nodes[n].transfers[f] == s.nodes[n].transfers[f] && s'.nodes[n].getters[f] == s.nodes[n].getters[f]
    ensures Approaches(s, s', n, f, 0)
  {
  }

  /** Steps elsewhere, and messages passing through. */
  lemma ForeignStep(s: State, l: Label, s': State, n: Name, f: Name)
    requires Step(s, l, s') && Fetches(s, n, f) && !OwnStep(l, n, f) && l != Destroy(n, f)
    requires Bounded(s.nodes[n].transfers[f], s.nodes[n].getters[f])
    ensures Approaches(s, s', n, f, 0)
  {
    hide Answer, Permutes, Bounded, Approaches, Left;
    match l
    case Overhear(n', m) => OverhearApproaches(s, s', n', m, n, f);
    case AskInfo(_, _, _) => StaysPut(s, s', n, f);
    case Reply(_, _) => StaysPut(s, s', n, f);
    case Start(_, _, _, _) => StaysPut(s, s', n, f);
    case Begin(_, _, _) => StaysPut(s, s', n, f);
    case Found(_, _, _, _) => StaysPut(s, s', n, f);
    case Receive(_, _, _) => StaysPut(s, s', n, f);
    case Store(_, _) => StaysPut(s, s', n, f);
    case Fail(_, _) => StaysPut(s, s', n, f);
    case Copy(_, _) => StaysPut(s, s', n, f);
    case Destroy(_, _) => StaysPut(s, s', n, f);
    case Delete(_, _) => StaysPut(s, s', n, f);
  }

  lemma OverhearApproaches(s: State, s': State, n': Name, m: Msg, n: Name, f: Name)
    requires OverhearStep(s, s', n', m) && Fetches(s, n, f)
    requires Bounded(s.nodes[n].transfers[f], s.nodes[n].getters[f])
    ensures Approaches(s, s', n, f, 0)
  {
  }

  lemma OwnBegin(s: State, s': State, n: Name, f: Name, tid: nat)
    requires BeginStep(s, s', n, f, tid) && Bounded(s.nodes[n].transfers[f], s.nodes[n].getters[f])
    ensures Approaches(s, s', n, f, 1)
  {
  }

  lemma OwnStore(s: State, s': State, n: Name, f: Name)
    requires StoreStep(s, s', n, f) && Bounded(s.nodes[n].transfers[f], s.nodes[n].getters[f])
    ensures Approaches(s, s', n, f, 1)
  {
  }

  lemma OwnFail(s: State, s': State, n: Name, f: Name)
    requires FailStep(s, s', n, f) && Bounded(s.nodes[n].transfers[f], s.nodes[n].getters[f])
    ensures Approaches(s, s', n, f, 1)
  {
  }

  lemma OwnCopy(s: State, s': State, n: Name, f: Name)
    requires CopyStep(s, s', n, f) && Bounded(s.nodes[n].transfers[f], s.nodes[n].getters[f])
    ensures Approaches(s, s', n, f, 1)
  {
  }

  lemma OwnMessage(s: State, l: Label, s': State, n: Name, f: Name)
    requires Step(s, l, s') && OwnStep(l, n, f) && (l.Found? || l.Receive?)
    requires Fetches(s, n, f) && Bounded(s.nodes[n].transfers[f], s.nodes[n].getters[f])
    ensures Approaches(s, s', n, f, 1)
  {
  }

  /** Every step of a getter brings it closer to its end; other steps neither
      hold it up nor rewrite one of its parts. */
  lemma StepApproaches(src: map<Name, Bytes>, s: State, l: Label, s': State, n: Name, f: Name)
    requires Inv(src, s) && Step(s, l, s') && Fetches(s, n, f) && l != Destroy(n, f)
    ensures Approaches(s, s', n, f, if OwnStep(l, n, f) then 1 else 0)
  {
    hide Inv, Approaches, Bounded, BeginStep, FoundStep, ReceiveStep, StoreStep, FailStep, CopyStep, OverhearStep;
    IsBounded(src, s, n, f);
    if OwnStep(l, n, f) {
      match l
      case Begin(_, _, tid) => OwnBegin(s, s', n, f, tid);
      case Store(_, _) => OwnStore(s, s', n, f);
      case Fail(_, _) => OwnFail(s, s', n, f);
      case Copy(_, _) => OwnCopy(s, s', n, f);
      case _ => OwnMessage(s, l, s', n, f);
    } else {
      ForeignStep(s, l, s', n, f);
    }
  }

  /** How many of the steps are taken by the getter of `f` at `n`. */
  ghost function OwnSteps(labels: seq<Label>, n: Name, f: Name): nat {
    if labels == [] then 0
    else OwnSteps(labels[..|labels| - 1], n, f) + if OwnStep(labels[|labels| - 1], n, f) then 1 else 0
  }

  lemma {:induction false} OwnStepsBound(src: map<Name, Bytes>, states: seq<State>, labels: seq<Label>, n: Name, f: Name)
    requires Run(states, labels) && Inv(src, states[0]) && Fetches(states[0], n, f) && Destroy(n, f) !in labels
    ensures Inv(src, states[|labels|]) && Fetches(states[|labels|], n, f)
    ensures 0 <= LeftAt(states[0], n, f)
    ensures OwnSteps(labels, n, f) <= LeftAt(states[0], n, f) - LeftAt(states[|labels|], n, f)
    ensures 0 <= LeftAt(states[|labels|], n, f)
    decreases |labels|
  {
    if labels == [] {
      IsBounded(src, states[0], n, f);
    } else {
      hide Inv, Left, Step;
      var k := |labels| - 1;
      assert states[..k + 1][k] == states[k];
      OwnStepsBound(src, states[..k + 1], labels[..k], n, f);
      StepKeeps(src, states[k], labels[k], states[k + 1]);
      StepApproaches(src, states[k], labels[k], states[k + 1], n, f);
    }
  }

  lemma StartLeft(s: State, s': State, n: Name, f: Name, m: Msg, order: seq<nat>)
    requires StartStep(s, s', n, f, m, order)
    ensures Fetches(s', n, f) && LeftAt(s', n, f) <= 14 * m.part + 14
  {
    hide Permutes;
    assert |order| == m.part by { assert Permutes(order, m.part); PermutesLength(order, m.part); }
  }

  lemma PermutesLength(order: seq<nat>, n: nat)
    requires Permutes(order, n)
    ensures |order| == n
  {
  }

  /** From its start, a transfer takes at most 14 steps per part and 14 more,
      retries included, until its temporary files are destroyed. */
  lemma FetchEnds(src: map<Name, Bytes>, s: State, m: Msg, order: seq<nat>, states: seq<State>, labels: seq<Label>,
                  n: Name, f: Name)
    requires Inv(src, s) && Run(states, labels) && StartStep(s, states[0], n, f, m, order) && Destroy(n, f) !in labels
    ensures OwnSteps(labels, n, f) <= 14 * m.part + 14
  {
    hide Inv, StartStep, Step, Left;
    StartStepKeeps(src, s, states[0], n, f, m, order);
    StartLeft(s, states[0], n, f, m, order);
    OwnStepsBound(src, states, labels, n, f);
  }

  // A file that somebody holds can be had

  ghost predicate Leads(s: State, s': State) {
    exists states, labels :: Run(states, labels) && states[0] == s && states[|labels|] == s'
  }

  lemma LeadsNowhere(s: State)
    ensures Leads(s, s)
  {
    assert Run([s], []);
  }

  lemma LeadsOn(s: State, t: State, l: Label, u: State)
    requires Leads(s, t) && Step(t, l, u)
    ensures Leads(s, u)
  {
    hide Step;
    var states: seq<State>, labels: seq<Label> :| Run(states, labels) && states[0] == s && states[|labels|] == t;
    var ss, ls := states + [u], labels + [l];
    assert forall i :: 0 <= i < |labels| ==> ls[i] == labels[i];
    assert forall i :: 0 <= i < |states| ==> ss[i] == states[i];
    assert Run(ss, ls) && ss[0] == s && ss[|ls|] == u;
  }

  lemma {:induction false} FreshNumber(used: set<(Name, nat)>, n: Name) returns (tid: nat)
    ensures (n, tid) !in used && forall x, k :: (x, k) in used ==> k < tid
    decreases used
  {
    tid := 0;
    if used != {} {
      var u :| u in used;
      var t := FreshNumber(used - {u}, n);
      tid := if u.1 < t then t else u.1 + 1;
      assert forall x, k :: (x, k) in used ==> (x, k) == u || (x, k) in used - {u};
    }
  }

  /** Node `n` works on `f` and node `m` holds it. */
  ghost predicate Served(src: map<Name, Bytes>, s: State, n: Name, f: Name, m: Name) {
    Inv(src, s) && Fetches(s, n, f) && m in s.nodes && m != n && f in s.nodes[m].files
  }

  /** The node that holds the file answers any request for a part with its bytes. */
  lemma HolderAnswers(src: map<Name, Bytes>, s: State, n: Name, f: Name, m: Name, q: Msg)
    requires Served(src, s, n, f, m) && q in s.msgs && q.Request? && q.file == f && !q.kind.Info?
    requires q.dest.All? || q.dest.name == m
    ensures var r := Answer(s.nodes[m], m, q); var s' := s.(msgs := s.msgs + {r});
      r.ack && r.Response? && r.from == m && r.to == q.from && r.tid == q.tid && Step(s, Reply(m, q), s') && Served(src, s', n, f, m)
  {
    ReplyStepKeeps(src, s, s.(msgs := s.msgs + {Answer(s.nodes[m], m, q)}), m, q);
  }

  /** The part taken up next can be fetched and stored. */
  lemma PartCanCome(src: map<Name, Bytes>, s: State, n: Name, f: Name, m: Name) returns (s': State)
    requires Served(src, s, n, f, m) && s.nodes[n].getters[f].Next? && s.nodes[n].getters[f].rest != []
    ensures Leads(s, s') && Served(src, s', n, f, m)
    ensures s'.nodes[n].getters[f] == Next(s.nodes[n].getters[f].rest[1..], 0)
  {
    var g := s.nodes[n].getters[f];
    LeadsNowhere(s);
    if g.rest[0] in s.nodes[n].transfers[f].done {
      s' := WithNode(s, n, WithGetter(s.nodes[n], f, Next(g.rest[1..], 0)));
      BeginStepKeeps(src, s, s', n, f, 0);
      LeadsOn(s, s, Begin(n, f, 0), s');
    } else {
      var s1 := CanAsk(src, s, n, f, m);
      var s2 := CanFind(src, s, s1, n, f, m);
      s' := CanStore(src, s, s2, n, f, m);
    }
  }

  lemma CanAsk(src: map<Name, Bytes>, s: State, n: Name, f: Name, m: Name) returns (s2: State)
    requires Served(src, s, n, f, m) && s.nodes[n].getters[f].Next? && s.nodes[n].getters[f].rest != []
    requires s.nodes[n].getters[f].rest[0] !in s.nodes[n].transfers[f].done
    ensures Leads(s, s2) && Served(src, s2, n, f, m)
    ensures var g, g2 := s.nodes[n].getters[f], s2.nodes[n].getters[f];
      g2.Asking? && g2.rest == g.rest && HasReply(s2, n, m, g2.tid)
  {
    hide Inv, Answer;
    var nd := s.nodes[n];
    var t, g := nd.transfers[f], nd.getters[f];
    var tid := FreshNumber(s.used, n);
    var q := Request(n, All, tid, f, g.rest[0], WhoHas);
    var s1 := Sent(WithNode(s, n, nd.(transfers := nd.transfers[f := t.(inflight := g.rest[0])],
                                      getters := nd.getters[f := Asking(g.rest, g.attempt, tid)])), q);
    BeginStepKeeps(src, s, s1, n, f, tid);
    LeadsNowhere(s);
    LeadsOn(s, s, Begin(n, f, tid), s1);
    HolderAnswers(src, s1, n, f, m, q);
    var r := Answer(s1.nodes[m], m, q);
    s2 := s1.(msgs := s1.msgs + {r});
    LeadsOn(s, s1, Reply(m, q), s2);
    assert IsReply(s2, n, m, tid, r);
  }

  ghost predicate IsReply(s: State, n: Name, m: Name, tid: nat, r: Msg) {
    r in s.msgs && r.Response? && r.ack && r.from == m && r.to == n && r.tid == tid
  }

  ghost predicate HasReply(s: State, n: Name, m: Name, tid: nat) {
    exists r :: IsReply(s, n, m, tid, r)
  }

  lemma CanFind(src: map<Name, Bytes>, s: State, s2: State, n: Name, f: Name, m: Name) returns (s4: State)
    requires Leads(s, s2) && Served(src, s2, n, f, m) && s2.nodes[n].getters[f].Asking?
    requires s2.nodes[n].getters[f].rest != [] && HasReply(s2, n, m, s2.nodes[n].getters[f].tid)
    ensures Leads(s, s4) && Served(src, s4, n, f, m)
    ensures var g, g4 := s2.nodes[n].getters[f], s4.nodes[n].getters[f];
      g4.Fetching? && g4.rest == g.rest && HasReply(s4, n, m, g4.tid)
  {
    hide Inv, Answer;
    var g := s2.nodes[n].getters[f];
    var r0: Msg :| IsReply(s2, n, m, g.tid, r0);
    var tid := FreshNumber(s2.used, n);
    var q := Request(n, One(m), tid, f, g.rest[0], Xfer);
    var s3 := Sent(WithNode(s2, n, WithGetter(s2.nodes[n], f, Fetching(g.rest, g.attempt, tid, m))), q);
    FoundStepKeeps(src, s2, s3, n, f, r0, tid);
    LeadsOn(s, s2, Found(n, f, r0, tid), s3);
    HolderAnswers(src, s3, n, f, m, q);
    var r := Answer(s3.nodes[m], m, q);
    s4 := s3.(msgs := s3.msgs + {r});
    LeadsOn(s, s3, Reply(m, q), s4);
    assert IsReply(s4, n, m, tid, r);
  }

  lemma CanStore(src: map<Name, Bytes>, s: State, s4: State, n: Name, f: Name, m: Name) returns (s6: State)
    requires Leads(s, s4) && Served(src, s4, n, f, m) && s4.nodes[n].getters[f].Fetching?
    requires s4.nodes[n].getters[f].rest != [] && HasReply(s4, n, m, s4.nodes[n].getters[f].tid)
    ensures Leads(s, s6) && Served(src, s6, n, f, m)
    ensures s6.nodes[n].getters[f] == Next(s4.nodes[n].getters[f].rest[1..], 0)
  {
    hide Inv;
    var g := s4.nodes[n].getters[f];
    var r: Msg :| IsReply(s4, n, m, g.tid, r);
    var s5 := WithNode(s4, n, WithGetter(s4.nodes[n], f, Holding(g.rest, g.attempt, r.data)));
    ReceiveStepKeeps(src, s4, s5, n, f, r);
    LeadsOn(s, s4, Receive(n, f, r), s5);
    var nd := s5.nodes[n];
    s6 := WithNode(s5, n, nd.(transfers := nd.transfers[f := Write(nd.transfers[f], g.rest[0], r.data)],
                              getters := nd.getters[f := Next(g.rest[1..], 0)]));
    StoreStepKeeps(src, s5, s6, n, f);
    LeadsOn(s, s5, Store(n, f), s6);
  }

  lemma LeadsVia(s: State, t: State, u: State)
    requires Leads(s, t) && Leads(t, u)
    ensures Leads(s, u)
  {
    var states: seq<State>, labels: seq<Label> :| Run(states, labels) && states[0] == t && states[|labels|] == u;
    LeadsAlong(s, states, labels, |labels|);
  }

  lemma {:induction false} LeadsAlong(s: State, states: seq<State>, labels: seq<Label>, k: nat)
    requires Run(states, labels) && Leads(s, states[0]) && k <= |labels|
    ensures Leads(s, states[k])
  {
    if k > 0 {
      LeadsAlong(s, states, labels, k - 1);
      LeadsOn(s, states[k - 1], labels[k - 1], states[k]);
    }
  }

  /** One more part is copied, or the file is put in place. */
  lemma CopyOnce(src: map<Name, Bytes>, s: State, n: Name, f: Name) returns (s': State)
    requires Inv(src, s) && Fetches(s, n, f) && s.nodes[n].getters[f].Copying?
    ensures Leads(s, s') && Inv(src, s') && Fetches(s', n, f)
    ensures f in s'.nodes[n].files || (s'.nodes[n].getters[f].Copying? && 0 <= LeftAt(s', n, f) < LeftAt(s, n, f))
  {
    hide Inv, GetterOk, TransferOk, Leads;
    var nd := s.nodes[n];
    var t, g := nd.transfers[f], nd.getters[f];
    CopyNext(src, s, n, f);
    if g.i == t.numParts {
      s' := WithNode(s, n, nd.(files := nd.files[f := g.acc], getters := nd.getters[f := Leaving]));
    } else {
      s' := WithNode(s, n, WithGetter(nd, f, Copying(g.i + 1, g.acc + t.parts[g.i])));
    }
    CopyStepKeeps(src, s, s', n, f);
    LeadsNowhere(s);
    LeadsOn(s, s, Copy(n, f), s');
  }

  lemma CopyNext(src: map<Name, Bytes>, s: State, n: Name, f: Name)
    requires Inv(src, s) && Fetches(s, n, f) && s.nodes[n].getters[f].Copying?
    ensures var t, g := s.nodes[n].transfers[f], s.nodes[n].getters[f];
      g.i <= t.numParts && (g.i != t.numParts ==> g.i in t.parts)
  {
    IsBounded(src, s, n, f);
    assert NodeOk(src, s.msgs, n, s.nodes[n]);
    CopyGrows(src[f], s.msgs, n, f, s.nodes[n].transfers[f], s.nodes[n].getters[f]);
  }

  /** Copying the parts together comes to its end. */
  lemma {:induction false} CopyCanEnd(src: map<Name, Bytes>, s: State, n: Name, f: Name) returns (s': State)
    requires Inv(src, s) && Fetches(s, n, f) && s.nodes[n].getters[f].Copying?
    ensures Leads(s, s') && Inv(src, s') && n in s'.nodes && f in s'.nodes[n].files
    decreases LeftAt(s, n, f)
  {
    hide Inv, Leads, Left;
    var t := CopyOnce(src, s, n, f);
    if f in t.nodes[n].files {
      s' := t;
    } else {
      s' := CopyCanEnd(src, t, n, f);
      LeadsVia(s, t, s');
    }
  }

  /** From between two parts, the remaining ones can be fetched and the file put
      in place. */
  lemma {:induction false} RestCanCome(src: map<Name, Bytes>, s: State, n: Name, f: Name, m: Name) returns (s': State)
    requires Served(src, s, n, f, m) && s.nodes[n].getters[f].Next?
    ensures Leads(s, s') && Inv(src, s') && n in s'.nodes && f in s'.nodes[n].files
    decreases |s.nodes[n].getters[f].rest|
  {
    hide Inv, Leads;
    var t;
    if s.nodes[n].getters[f].rest == [] {
      t := WithNode(s, n, WithGetter(s.nodes[n], f, Copying(0, [])));
      BeginStepKeeps(src, s, t, n, f, 0);
      LeadsNowhere(s);
      LeadsOn(s, s, Begin(n, f, 0), t);
      s' := CopyCanEnd(src, t, n, f);
    } else {
      t := PartCanCome(src, s, n, f, m);
      s' := RestCanCome(src, t, n, f, m);
    }
    LeadsVia(s, t, s');
  }

  /** The request a getter waits on is still there to be answered. */
  lemma OpenRequest(src: map<Name, Bytes>, s: State, n: Name, f: Name)
    requires Inv(src, s) && Fetches(s, n, f)
    ensures var g := s.nodes[n].getters[f];
      && (g.Asking? ==> g.rest != [] && Request(n, All, g.tid, f, g.rest[0], WhoHas) in s.msgs)
      && (g.Fetching? ==> g.rest != [] && Request(n, One(g.who), g.tid, f, g.rest[0], Xfer) in s.msgs)
      && (g.Holding? ==> g.rest != [])
  {
    assert NodeOk(src, s.msgs, n, s.nodes[n]);
    assert GetterOk(src[f], s.msgs, n, f, s.nodes[n].transfers[f], s.nodes[n].getters[f]);
  }

  /** The holder answers the request the getter waits on. */
  lemma ReplyCanCome(src: map<Name, Bytes>, s: State, n: Name, f: Name, m: Name) returns (s': State)
    requires Served(src, s, n, f, m)
    requires var g := s.nodes[n].getters[f]; g.Asking? || (g.Fetching? && g.who == m)
    ensures Leads(s, s') && Served(src, s', n, f, m) && s'.nodes == s.nodes
    ensures var g := s.nodes[n].getters[f]; g.rest != [] && HasReply(s', n, m, g.tid)
  {
    hide Inv, Answer, Leads;
    var g := s.nodes[n].getters[f];
    OpenRequest(src, s, n, f);
    var q := if g.Asking? then Request(n, All, g.tid, f, g.rest[0], WhoHas)
             else Request(n, One(m), g.tid, f, g.rest[0], Xfer);
    HolderAnswers(src, s, n, f, m, q);
    var r := Answer(s.nodes[m], m, q);
    s' := s.(msgs := s.msgs + {r});
    LeadsNowhere(s);
    LeadsOn(s, s, Reply(m, q), s');
    assert IsReply(s', n, m, g.tid, r);
  }

  /** Whatever the getter is waiting for or holding can be brought to an end. */
  lemma PartCanEnd(src: map<Name, Bytes>, s: State, n: Name, f: Name, m: Name) returns (s': State)
    requires Served(src, s, n, f, m)
    requires var g := s.nodes[n].getters[f];
      g.Asking? || (g.Fetching? && (g.who == m || g.attempt + 1 < MAX_ATTEMPTS)) || g.Holding?
    ensures Leads(s, s') && Served(src, s', n, f, m) && s'.nodes[n].getters[f].Next?
  {
    hide Inv, Leads, HasReply;
    var g := s.nodes[n].getters[f];
    if g.Holding? {
      OpenRequest(src, s, n, f);
      var nd := s.nodes[n];
      s' := WithNode(s, n, nd.(transfers := nd.transfers[f := Write(nd.transfers[f], g.rest[0], g.data)],
                               getters := nd.getters[f := Next(g.rest[1..], 0)]));
      StoreStepKeeps(src, s, s', n, f);
      LeadsNowhere(s);
      LeadsOn(s, s, Store(n, f), s');
    } else if g.Fetching? && g.who != m {
      OpenRequest(src, s, n, f);
      s' := WithNode(s, n, WithGetter(s.nodes[n], f, Next(g.rest, g.attempt + 1)));
      FailStepKeeps(src, s, s', n, f);
      LeadsNowhere(s);
      LeadsOn(s, s, Fail(n, f), s');
    } else {
      var t := ReplyCanCome(src, s, n, f, m);
      if g.Asking? { t := CanFind(src, s, t, n, f, m); }
      s' := CanStore(src, s, t, n, f, m);
    }
  }

  /** Whatever has failed before and wherever it is, a fetch that has not given up
      can still end with the source file in place, as long as some node holds the
      file. Only on the last attempt at a part, once a node has been asked for it,
      that node must be a holder. */
  lemma FetchCanSucceed(src: map<Name, Bytes>, s: State, n: Name, f: Name, m: Name) returns (s': State)
    requires Served(src, s, n, f, m)
    requires var g := s.nodes[n].getters[f];
      !g.Leaving? && (g.Fetching? ==> g.who == m || g.attempt + 1 < MAX_ATTEMPTS)
    ensures Leads(s, s') && n in s'.nodes && f in src && f in s'.nodes[n].files && s'.nodes[n].files[f] == src[f]
  {
    hide Leads, GetterOk, TransferOk, MsgsOk;
    var g := s.nodes[n].getters[f];
    if g.Copying? {
      s' := CopyCanEnd(src, s, n, f);
    } else if g.Next? {
      s' := RestCanCome(src, s, n, f, m);
    } else {
      var t := PartCanEnd(src, s, n, f, m);
      s' := RestCanCome(src, t, n, f, m);
      LeadsVia(s, t, s');
    }
    assert NodeOk(src, s'.msgs, n, s'.nodes[n]);
  }

  /** A get of a file that some other node holds can end with the source file in
      place, if no transfer of it is under way. */
  lemma GetCanSucceed(src: map<Name, Bytes>, s: State, n: Name, f: Name, m: Name) returns (s': State)
    requires Inv(src, s) && n in s.nodes && m in s.nodes && m != n && f in s.nodes[m].files
    requires f !in s.nodes[n].transfers && f !in s.nodes[n].getters
    ensures Leads(s, s') && n in s'.nodes && f in src && f in s'.nodes[n].files && s'.nodes[n].files[f] == src[f]
  {
    hide Inv, Leads, Left;
    var s2, r := PartsCanBeLearned(src, s, n, f, m);
    var order := seq(r.part, i => i);
    var nd := s2.nodes[n];
    var g := if r.part == 0 then Copying(0, []) else Next(order, 0);
    var s3 := WithNode(s2, n, nd.(transfers := nd.transfers[f := NewTransfer(r.part)], getters := nd.getters[f := g]));
    assert StartStep(s2, s3, n, f, r, order);
    StartStepKeeps(src, s2, s3, n, f, r, order);
    LeadsOn(s, s2, Start(n, f, r, order), s3);
    s' := FetchCanSucceed(src, s3, n, f, m);
    LeadsVia(s, s3, s');
  }

  /** The holder tells the number of parts. */
  lemma PartsCanBeLearned(src: map<Name, Bytes>, s: State, n: Name, f: Name, m: Name) returns (s2: State, r: Msg)
    requires Inv(src, s) && n in s.nodes && m in s.nodes && m != n && f in s.nodes[m].files
    ensures Leads(s, s2) && Inv(src, s2) && s2.nodes == s.nodes
    ensures r in s2.msgs && r.Response? && r.to == n && r.ack && r.file == f && r.part == NumParts(|s.nodes[m].files[f]|)
    ensures Request(n, All, r.tid, f, 0, Info) in s2.msgs
  {
    hide Inv, Leads;
    var tid := FreshNumber(s.used, n);
    var q := Request(n, All, tid, f, 0, Info);
    var s1 := Sent(s, q);
    SendingKeeps(src, s, q);
    LeadsNowhere(s);
    LeadsOn(s, s, AskInfo(n, f, tid), s1);
    r := Answer(s1.nodes[m], m, q);
    s2 := s1.(msgs := s1.msgs + {r});
    ReplyStepKeeps(src, s1, s2, m, q);
    LeadsOn(s, s1, Reply(m, q), s2);
  }

  /** A fetch that has given up clears away what it has, and a new get can start. */
  lemma LeavingCanEnd(src: map<Name, Bytes>, s: State, n: Name, f: Name) returns (s': State)
    requires Inv(src, s) && Fetches(s, n, f) && s.nodes[n].getters[f].Leaving?
    ensures Leads(s, s') && Inv(src, s') && s'.nodes.Keys == s.nodes.Keys
    ensures f !in s'.nodes[n].transfers && f !in s'.nodes[n].getters
    ensures forall x :: x in s.nodes && x != n ==> s'.nodes[x] == s.nodes[x]
  {
    var nd := s.nodes[n];
    s' := WithNode(s, n, nd.(transfers := nd.transfers - {f}, getters := nd.getters - {f}));
    assert DestroyStep(s, s', n, f);
    StepKeeps(src, s, Destroy(n, f), s');
    LeadsNowhere(s);
    LeadsOn(s, s, Destroy(n, f), s');
  }

  /** Give up on a part after the last attempt. */
  lemma CanGiveUp(src: map<Name, Bytes>, s: State, n: Name, f: Name) returns (s': State)
    requires Inv(src, s) && Fetches(s, n, f) && s.nodes[n].getters[f].Fetching?
    requires s.nodes[n].getters[f].attempt + 1 == MAX_ATTEMPTS
    ensures Leads(s, s') && Inv(src, s') && Fetches(s', n, f) && s'.nodes[n].getters[f].Leaving?
    ensures s'.nodes.Keys == s.nodes.Keys && forall x :: x in s.nodes && x != n ==> s'.nodes[x] == s.nodes[x]
  {
    var nd := s.nodes[n];
    var g := nd.getters[f];
    assert NodeOk(src, s.msgs, n, nd);
    assert GetterOk(src[f], s.msgs, n, f, nd.transfers[f], g);
    s' := WithNode(s, n, WithGetter(nd, f, Leaving));
    assert FailStep(s, s', n, f);
    FailStepKeeps(src, s, s', n, f);
    LeadsNowhere(s);
    LeadsOn(s, s, Fail(n, f), s');
  }

  /** In every reachable state, whatever is under way or has failed: a file that
      some other node holds can come to be in place, as the source has it. */
  lemma FileCanBeHad(src: map<Name, Bytes>, s: State, n: Name, f: Name, m: Name) returns (s': State)
    requires Inv(src, s) && n in s.nodes && m in s.nodes && m != n && f in s.nodes[m].files
    ensures Leads(s, s') && n in s'.nodes && f in src && f in s'.nodes[n].files && s'.nodes[n].files[f] == src[f]
  {
    assert NodeOk(src, s.msgs, n, s.nodes[n]);
    hide Inv, Leads, NodeOk;
    if f !in s.nodes[n].getters {
      s' := GetCanSucceed(src, s, n, f, m);
      return;
    }
    IsBounded(src, s, n, f);
    var g := s.nodes[n].getters[f];
    if !g.Leaving? && (g.Fetching? ==> g.who == m || g.attempt + 1 < MAX_ATTEMPTS) {
      s' := FetchCanSucceed(src, s, n, f, m);
    } else {
      var t := s;
      LeadsNowhere(s);
      if g.Fetching? { t := CanGiveUp(src, s, n, f); }
      var u := LeavingCanEnd(src, t, n, f);
      LeadsVia(s, t, u);
      s' := GetCanSucceed(src, u, n, f, m);
      LeadsVia(s, u, s');
    }
  }

  // Parts picked up in passing

  /** A passing response brings a part that is wanted and not being fetched. */
  ghost predicate PicksUp(nd: Node, m: Msg) {
    m.Response? && m.ack && |m.data| > 0 && m.file in nd.transfers &&
    m.part !in nd.transfers[m.file].done && nd.transfers[m.file].inflight != m.part
  }

  /** The part is on disk and completed, by one write; nothing else has changed. */
  ghost predicate PickedUp(nd: Node, nd': Node, m: Msg)
    requires m.Response? && m.file in nd.transfers
  {
    && nd'.files == nd.files && nd'.getters == nd.getters && nd'.transfers.Keys == nd.transfers.Keys
    && (forall f :: f in nd.transfers && f != m.file ==> nd'.transfers[f] == nd.transfers[f])
    && var t, t' := nd.transfers[m.file], nd'.transfers[m.file];
       && t'.done == t.done + {m.part} && t'.parts == t.parts[m.part := m.data] && t'.writes == t.writes + [m.part]
       && t'.numParts == t.numParts && t'.inflight == t.inflight
  }

  /** Exactly the wanted parts are picked up from passing messages. */
  lemma OverhearPicksUp(s: State, s': State, n: Name, m: Msg)
    requires OverhearStep(s, s', n, m)
    ensures PicksUp(s.nodes[n], m) ==> n in s'.nodes && PickedUp(s.nodes[n], s'.nodes[n], m)
    ensures !PicksUp(s.nodes[n], m) ==> s' == s
    ensures s'.msgs == s.msgs && s'.used == s.used && s'.nodes.Keys == s.nodes.Keys
    ensures forall x :: x in s.nodes && x != n ==> s'.nodes[x] == s.nodes[x]
  {
    assert WithNode(s, n, s.nodes[n]) == s;
  }

  /** What is completed stays completed while the transfer lasts. */
  lemma {:induction false} DoneStays(src: map<Name, Bytes>, states: seq<State>, labels: seq<Label>, n: Name, f: Name, p: nat, k: nat)
    requires Run(states, labels) && Inv(src, states[0]) && Fetches(states[0], n, f) && Destroy(n, f) !in labels
    requires p in states[0].nodes[n].transfers[f].done && k <= |labels|
    ensures Inv(src, states[k]) && Fetches(states[k], n, f) && p in states[k].nodes[n].transfers[f].done
  {
    hide Inv, Step;
    if k > 0 {
      DoneStays(src, states, labels, n, f, p, k - 1);
      assert labels[k - 1] in labels;
      DoneStaysOnce(src, states[k - 1], labels[k - 1], states[k], n, f, p);
    }
  }

  lemma DoneStaysOnce(src: map<Name, Bytes>, s: State, l: Label, s': State, n: Name, f: Name, p: nat)
    requires Inv(src, s) && Step(s, l, s') && Fetches(s, n, f) && l != Destroy(n, f)
    requires p in s.nodes[n].transfers[f].done
    ensures Inv(src, s') && Fetches(s', n, f) && p in s'.nodes[n].transfers[f].done
  {
    hide Inv, Step, Left;
    StepKeeps(src, s, l, s');
    StepApproaches(src, s, l, s', n, f);
    DoneIsWritten(src, s, n, f, p);
    DoneIsWritten(src, s', n, f, p);
  }

  lemma DoneIsWritten(src: map<Name, Bytes>, s: State, n: Name, f: Name, p: nat)
    requires Inv(src, s) && Fetches(s, n, f)
    ensures p in s.nodes[n].transfers[f].done <==> p in s.nodes[n].transfers[f].writes
  {
    assert NodeOk(src, s.msgs, n, s.nodes[n]);
    assert TransferOk(src[f], s.nodes[n].transfers[f]);
  }

  /** A part that was picked up is never asked for: when its turn comes, the fetch
      goes on to the next one without a message. */
  lemma PickedUpIsSkipped(src: map<Name, Bytes>, s: State, n: Name, m: Msg, states: seq<State>, labels: seq<Label>,
                          j: nat, tid: nat)
    requires Inv(src, s) && Run(states, labels) && OverhearStep(s, states[0], n, m) && PicksUp(s.nodes[n], m)
    requires Fetches(s, n, m.file) && Destroy(n, m.file) !in labels
    requires j < |labels| && labels[j] == Begin(n, m.file, tid) && Fetches(states[j], n, m.file)
    requires var g := states[j].nodes[n].getters[m.file]; g.Next? && g.rest != [] && g.rest[0] == m.part
    ensures states[j + 1].msgs == states[j].msgs && Fetches(states[j + 1], n, m.file)
    ensures states[j + 1].nodes[n].transfers == states[j].nodes[n].transfers
    ensures states[j + 1].nodes[n].getters[m.file] == Next(states[j].nodes[n].getters[m.file].rest[1..], 0)
  {
    OverhearPicksUp(s, states[0], n, m);
    StepKeeps(src, s, Overhear(n, m), states[0]);
    DoneStays(src, states, labels, n, m.file, m.part, j);
    hide Inv, TransferOk, MsgsOk;
    assert Step(states[j], labels[j], states[j + 1]);
  }
}
