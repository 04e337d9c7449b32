/** Cluster reservations as values: when hosts are free, the first time a host is
    free, and the two searches over a table of reservations. */
module Bookings {
  import opened Sequences

  type Time = int
  type Host = string

  datatype Booking = Booking(start: Time, end: Time, duration: int, hosts: seq<Host>) {

    /** src/igor/reservation.go:52-54 */
    predicate IsActive(t: Time) {
      start < t && end > t
    }

    /** src/igor/reservation.go:57-59 */
    predicate IsOverlap(s: Time, e: Time) {
      end - s > 0 && start - e < 0
    }

    predicate WellTimed() {
      0 < start && 0 < duration && end == start + duration
    }
  }

  type Table = map<nat, Booking>

  /** The two reservations never need the same host at the same time. */
  predicate Compatible(a: Booking, b: Booking) {
    (forall h :: h in a.hosts ==> h !in b.hosts) || a.end <= b.start || b.end <= a.start
  }

  ghost predicate Sound(t: Table) {
    && (forall i :: i in t ==> t[i].WellTimed())
    && (forall i, j :: i in t && j in t && i != j ==> Compatible(t[i], t[j]))
  }

  /** `h` is free for `d` from `s` on. */
  ghost predicate Free(t: Table, h: Host, s: Time, d: int) {
    forall i :: i in t && h in t[i].hosts ==> !t[i].IsOverlap(s, s + d)
  }

  ghost predicate FreeAll(t: Table, hosts: seq<Host>, s: Time, d: int) {
    forall h :: h in hosts ==> Free(t, h, s, d)
  }

  /** At the moment `x` the host belongs to reservation `i`. */
  ghost predicate Holds(t: Table, i: nat, h: Host, x: Time) {
    i in t && h in t[i].hosts && t[i].start <= x < t[i].end
  }

  /** A window is free just when no reservation holds the host at a moment of it
      (src/igor/reservation.go:56-59). */
  lemma FreeMeans(t: Table, h: Host, s: Time, d: int)
    requires Sound(t) && d > 0
    ensures Free(t, h, s, d) <==> forall i, x :: Holds(t, i, h, x) ==> !(s <= x < s + d)
  {
    if !Free(t, h, s, d) {
      var i :| i in t && h in t[i].hosts && t[i].IsOverlap(s, s + d);
      var x := if t[i].start < s then s else t[i].start;
      assert t[i].WellTimed() && Holds(t, i, h, x);
    }
  }

  /** At no moment does a host belong to two reservations. */
  lemma NeverTwice(t: Table, i: nat, j: nat, h: Host, x: Time)
    requires Sound(t) && Holds(t, i, h, x) && Holds(t, j, h, x)
    ensures i == j
  {
  }

  /** Writing one entry keeps the table sound exactly when the entry is well
      timed and clashes with none of the others. */
  lemma PutSoundIff(t: Table, id: nat, b: Booking)
    requires Sound(t)
    ensures Sound(t[id := b]) <==> b.WellTimed() && forall j :: j in t && j != id ==> Compatible(b, t[j])
  {
    var t' := t[id := b];
    if Sound(t') {
      forall j | j in t && j != id
        ensures Compatible(b, t[j])
      {
        assert Compatible(t'[id], t'[j]);
      }
      assert t'[id].WellTimed();
    }
  }

  lemma FreeIsCompatible(t: Table, j: nat, hosts: seq<Host>, s: Time, d: int)
    requires Sound(t) && j in t && FreeAll(t, hosts, s, d)
    ensures Compatible(Booking(s, s + d, d, hosts), t[j])
  {
    if h :| h in hosts && h in t[j].hosts {
      assert Free(t, h, s, d);
    }
  }

  /** A new reservation in a free window. */
  lemma InsertSound(t: Table, id: nat, b: Booking)
    requires Sound(t) && b.WellTimed() && FreeAll(t, b.hosts, b.start, b.duration)
    ensures Sound(t[id := b])
  {
    forall j | j in t && j != id
      ensures Compatible(b, t[j])
    {
      FreeIsCompatible(t, j, b.hosts, b.start, b.duration);
    }
    PutSoundIff(t, id, b);
  }

  function Extended(b: Booking, d: int): Booking {
    b.(end := b.end + d, duration := b.duration + d)
  }

  /** A reservation grown into a free window behind it. */
  lemma ExtendSound(t: Table, id: nat, d: int)
    requires Sound(t) && id in t && d > 0 && FreeAll(t, t[id].hosts, t[id].end, d)
    ensures Sound(t[id := Extended(t[id], d)])
  {
    var b := t[id];
    forall j | j in t && j != id
      ensures Compatible(Extended(b, d), t[j])
    {
      assert Compatible(b, t[j]);
      FreeIsCompatible(t, j, b.hosts, b.end, d);
    }
    PutSoundIff(t, id, Extended(b, d));
  }

  ghost predicate Scheduled(t: Table, t': Table, id: nat, b: Booking) {
    t' == t[id := b] && b.WellTimed() && FreeAll(t, b.hosts, b.start, b.duration)
  }

  ghost predicate Lengthened(t: Table, t': Table, id: nat, d: int) {
    id in t && d > 0 && FreeAll(t, t[id].hosts, t[id].end, d) && t' == t[id := Extended(t[id], d)]
  }

  ghost predicate Deleted(t: Table, t': Table, id: nat) {
    t' == t - {id}
  }

  /** One change of the store: a scheduled reservation, an extension, a deletion,
      or an edit that keeps hosts and times. */
  ghost predicate Change(t: Table, t': Table) {
    || t' == t
    || (exists id, b :: Scheduled(t, t', id, b))
    || (exists id, d :: Lengthened(t, t', id, d))
    || (exists id :: Deleted(t, t', id))
  }

  /** Whatever the store has been through, no host is booked twice at a time. */
  lemma {:induction false} ChangesStaySound(run: seq<Table>)
    requires run != [] && Sound(run[0])
    requires forall i :: 0 < i < |run| ==> Change(run[i - 1], run[i])
    ensures Sound(run[|run| - 1])
  {
    if |run| > 1 {
      var n := |run| - 1;
      var t, t' := run[n - 1], run[n];
      assert run[..n][n - 1] == t;
      ChangesStaySound(run[..n]);
      assert Change(t, t');
      if id, b :| Scheduled(t, t', id, b) {
        InsertSound(t, id, b);
      } else if id, d :| Lengthened(t, t', id, d) {
        ExtendSound(t, id, d);
      }
    }
  }

  /** At any time at most one reservation is active on a host. */
  lemma ActiveUnique(t: Table, i: nat, j: nat, h: Host, now: Time)
    requires Sound(t) && i in t && j in t && h in t[i].hosts && h in t[j].hosts
    requires t[i].IsActive(now) && t[j].IsActive(now)
    ensures i == j
  {
    assert i == j || Compatible(t[i], t[j]);
  }

  // The first time a host is free

  /** `r` is the first time from `after` on that `h` is free for `d`. */
  ghost predicate IsNextFree(t: Table, h: Host, after: Time, d: int, r: Time) {
    && after <= r && Free(t, h, r, d)
    && forall x :: after <= x < r ==> !Free(t, h, x, d)
  }

  ghost function Ends(t: Table): set<Time> {
    set i | i in t :: t[i].end
  }

  ghost function EndsAfter(t: Table, s: Time): set<Time> {
    set e | e in Ends(t) && s < e
  }

  lemma EndsAfterShrinks(t: Table, s: Time, e: Time)
    requires s < e && e in Ends(t)
    ensures EndsAfter(t, e) < EndsAfter(t, s)
  {
    assert e in EndsAfter(t, s) && e !in EndsAfter(t, e);
  }

  /** A reservation in the way rules out every start up to its end. */
  ghost function NextFreeTime(t: Table, h: Host, after: Time, d: int): (r: Time)
    requires d > 0
    ensures IsNextFree(t, h, after, d, r)
    ensures r == after || (after < r && r in Ends(t))
    decreases EndsAfter(t, after)
  {
    if Free(t, h, after, d) then after
    else
      var i :| i in t && h in t[i].hosts && t[i].IsOverlap(after, after + d);
      EndsAfterShrinks(t, after, t[i].end);
      NextFreeTime(t, h, t[i].end, d)
  }

  lemma NextFreeUnique(t: Table, h: Host, after: Time, d: int, r: Time)
    requires d > 0 && IsNextFree(t, h, after, d, r)
    ensures r == NextFreeTime(t, h, after, d)
  {
    var q := NextFreeTime(t, h, after, d);
    assert r < q ==> !Free(t, h, r, d);
    assert q < r ==> !Free(t, h, q, d);
  }

  // One host's reservations in order of their start

  ghost predicate Timeline(rs: seq<Booking>) {
    && (forall i :: 0 <= i < |rs| ==> rs[i].WellTimed())
    && (forall i, j :: 0 <= i < j < |rs| ==> rs[i] == rs[j] || rs[i].end <= rs[j].start)
  }

  ghost predicate Lists(t: Table, h: Host, rs: seq<Booking>) {
    && (forall b :: b in rs ==> exists i :: i in t && t[i] == b && h in b.hosts)
    && (forall i :: i in t && h in t[i].hosts ==> t[i] in rs)
  }

  ghost predicate Clear(rs: seq<Booking>, s: Time, d: int) {
    forall j :: 0 <= j < |rs| ==> !rs[j].IsOverlap(s, s + d)
  }

  /** Find when a reservation of duration `d` fits among the existing ones
      (src/igor/schedule.go:143-158). */
  method NextFree(rs: seq<Booking>, after: Time, d: int) returns (prev: Time)
    requires Timeline(rs) && d > 0
    ensures after <= prev && Clear(rs, prev, d)
    ensures forall x :: after <= x < prev ==> !Clear(rs, x, d)
  {
    prev := after;
    for i := 0 to |rs|
      invariant after <= prev
      invariant prev == after || exists j :: 0 <= j < i && rs[j].end == prev
      invariant forall j :: 0 <= j < i ==> rs[j].end <= prev
      invariant forall x :: after <= x < prev ==> !Clear(rs, x, d)
    {
      if rs[i].end < after {
        continue;
      }
      if rs[i].start - prev >= d {
        assert forall j :: i <= j < |rs| ==> rs[i].start <= rs[j].start;
        break;
      }
      forall x | prev <= x < rs[i].end
        ensures !Clear(rs, x, d)
      {
        assert rs[i].IsOverlap(x, x + d);
      }
      prev := rs[i].end;
    }
  }

  lemma ClearIsFree(t: Table, h: Host, rs: seq<Booking>, s: Time, d: int)
    requires Lists(t, h, rs)
    ensures Clear(rs, s, d) <==> Free(t, h, s, d)
  {
    if Free(t, h, s, d) {
      forall j | 0 <= j < |rs|
        ensures !rs[j].IsOverlap(s, s + d)
      {
        assert rs[j] in rs;
      }
    }
    if Clear(rs, s, d) {
      forall i | i in t && h in t[i].hosts
        ensures !t[i].IsOverlap(s, s + d)
      {
        var j :| 0 <= j < |rs| && rs[j] == t[i];
      }
    }
  }

  /** On the host's own list the search finds the first free time of the host. */
  lemma NextFreeOnList(t: Table, h: Host, rs: seq<Booking>, after: Time, d: int, r: Time)
    requires Lists(t, h, rs) && d > 0
    requires after <= r && Clear(rs, r, d)
    requires forall x :: after <= x < r ==> !Clear(rs, x, d)
    ensures r == NextFreeTime(t, h, after, d)
  {
    forall x
      ensures Clear(rs, x, d) <==> Free(t, h, x, d)
    {
      ClearIsFree(t, h, rs, x, d);
    }
    NextFreeUnique(t, h, after, d, r);
  }

  // The first time a set of hosts is free

  ghost predicate EarliestStart(t: Table, hosts: seq<Host>, s0: Time, d: int, r: Time) {
    && s0 <= r && FreeAll(t, hosts, r, d)
    && forall x :: s0 <= x < r ==> !FreeAll(t, hosts, x, d)
  }

  // Contiguous blocks

  function Max(a: Time, b: Time): Time {
    if b > a then b else a
  }

  /** The latest of the first free times of `hosts[i..i + k]`. */
  ghost function BlockStart(t: Table, hosts: seq<Host>, i: nat, k: nat, after: Time, d: int): Time
    requires d > 0 && 1 <= k && i + k <= |hosts|
    decreases k
  {
    var last := NextFreeTime(t, hosts[i + k - 1], after, d);
    if k == 1 then last else Max(BlockStart(t, hosts, i, k - 1, after, d), last)
  }

  /** A block starts when its last host gets free, at `after` or at the end of
      some reservation; no common start is earlier. */
  lemma {:induction false} BlockStartIsMax(t: Table, hosts: seq<Host>, i: nat, k: nat, after: Time, d: int)
    requires d > 0 && 1 <= k && i + k <= |hosts|
    ensures var b := BlockStart(t, hosts, i, k, after, d);
      && after <= b && (b == after || b in Ends(t))
      && (forall j :: i <= j < i + k ==> NextFreeTime(t, hosts[j], after, d) <= b)
      && (exists j :: i <= j < i + k && NextFreeTime(t, hosts[j], after, d) == b)
    decreases k
  {
    assert NextFreeTime(t, hosts[i + k - 1], after, d) >= after;
    if k > 1 { BlockStartIsMax(t, hosts, i, k - 1, after, d); }
  }

  ghost predicate BlockFree(t: Table, hosts: seq<Host>, i: nat, k: nat, s: Time, d: int)
    requires i + k <= |hosts|
  {
    forall j :: i <= j < i + k ==> Free(t, hosts[j], s, d)
  }

  lemma BlockStartIsEarliest(t: Table, hosts: seq<Host>, i: nat, k: nat, after: Time, d: int, x: Time)
    requires d > 0 && 1 <= k && i + k <= |hosts|
    requires after <= x < BlockStart(t, hosts, i, k, after, d)
    ensures !BlockFree(t, hosts, i, k, x, d)
  {
    BlockStartIsMax(t, hosts, i, k, after, d);
    var j :| i <= j < i + k && NextFreeTime(t, hosts[j], after, d) == BlockStart(t, hosts, i, k, after, d);
    assert !Free(t, hosts[j], x, d);
  }

  ghost predicate Fits(t: Table, hosts: seq<Host>, i: nat, k: nat, after: Time, d: int)
    requires d > 0 && 1 <= k
  {
    i + k <= |hosts| && BlockFree(t, hosts, i, k, BlockStart(t, hosts, i, k, after, d), d)
  }

  /** The first of the fitting blocks with the least start. */
  ghost predicate Picked(t: Table, hosts: seq<Host>, k: nat, after: Time, d: int, i: nat, s: Time)
    requires d > 0 && 1 <= k
  {
    && Fits(t, hosts, i, k, after, d) && s == BlockStart(t, hosts, i, k, after, d)
    && forall j: nat :: Fits(t, hosts, j, k, after, d) ==>
         s <= BlockStart(t, hosts, j, k, after, d) && (j < i ==> s < BlockStart(t, hosts, j, k, after, d))
  }

  /** From one pass to the next: nothing fits, so start over when the last of all
      hosts gets free (src/igor/schedule.go:120-131). */
  ghost predicate Bump(t: Table, hosts: seq<Host>, k: nat, d: int, a: Time, a': Time)
    requires d > 0 && 1 <= k <= |hosts|
  {
    (forall j: nat :: !Fits(t, hosts, j, k, a, d)) && a' == BlockStart(t, hosts, 0, |hosts|, a, d)
  }

  ghost predicate Passes(t: Table, hosts: seq<Host>, k: nat, d: int, s0: Time, passes: seq<Time>)
    requires d > 0 && 1 <= k <= |hosts|
  {
    && passes != [] && passes[0] == s0
    && forall m :: 0 < m < |passes| ==> Bump(t, hosts, k, d, passes[m - 1], passes[m])
  }

  /** What the contiguous search returns: block `i` at time `s`. */
  ghost predicate Contiguous(t: Table, hosts: seq<Host>, k: nat, s0: Time, d: int, passes: seq<Time>, i: nat, s: Time)
    requires d > 0 && 1 <= k <= |hosts|
  {
    Passes(t, hosts, k, d, s0, passes) && Picked(t, hosts, k, passes[|passes| - 1], d, i, s)
  }

  lemma NowFits(t: Table, hosts: seq<Host>, k: nat, a: Time, d: int)
    requires d > 0 && 1 <= k <= |hosts|
    ensures (forall j :: 0 <= j < k ==> NextFreeTime(t, hosts[j], a, d) == a) ==> Fits(t, hosts, 0, k, a, d)
  {
    BlockStartIsMax(t, hosts, 0, k, a, d);
  }

  /** A pass in which nothing fits moves the start strictly up, to the end of a
      reservation; so the search ends. */
  lemma BumpProgresses(t: Table, hosts: seq<Host>, k: nat, d: int, a: Time, a': Time)
    requires d > 0 && 1 <= k <= |hosts| && Bump(t, hosts, k, d, a, a')
    ensures a < a' && a' in Ends(t) && EndsAfter(t, a') < EndsAfter(t, a)
  {
    var n := |hosts|;
    BlockStartIsMax(t, hosts, 0, n, a, d);
    NowFits(t, hosts, k, a, d);
    EndsAfterShrinks(t, a, a');
  }

  lemma {:induction false} PassesRise(t: Table, hosts: seq<Host>, k: nat, d: int, s0: Time, passes: seq<Time>)
    requires d > 0 && 1 <= k <= |hosts| && Passes(t, hosts, k, d, s0, passes)
    ensures s0 <= passes[|passes| - 1]
    decreases |passes|
  {
    if |passes| > 1 {
      var n := |passes| - 1;
      PassesRise(t, hosts, k, d, s0, passes[..n]);
      BumpProgresses(t, hosts, k, d, passes[n - 1], passes[n]);
    }
  }

  /** The search returns a block of the valid hosts, all of them free for the
      whole window, no earlier than requested. */
  lemma ContiguousSafe(t: Table, hosts: seq<Host>, k: nat, s0: Time, d: int, passes: seq<Time>, i: nat, s: Time)
    requires d > 0 && 1 <= k <= |hosts| && Contiguous(t, hosts, k, s0, d, passes, i, s)
    ensures s0 <= s && i + k <= |hosts| && FreeAll(t, hosts[i..i + k], s, d)
  {
    PassesRise(t, hosts, k, d, s0, passes);
    BlockStartIsMax(t, hosts, i, k, passes[|passes| - 1], d);
    forall h | h in hosts[i..i + k]
      ensures Free(t, h, s, d)
    {
      var j :| 0 <= j < k && hosts[i..i + k][j] == h;
      assert hosts[i + j] == h;
    }
  }

  // When is the contiguous search the earliest?

  /** No block at all is free at an earlier time. */
  ghost predicate FirstTime(t: Table, hosts: seq<Host>, k: nat, s0: Time, d: int, s: Time) {
    forall x, i: nat :: s0 <= x < s && i + k <= |hosts| ==> !BlockFree(t, hosts, i, k, x, d)
  }

  lemma SingleHostFirst(t: Table, hosts: seq<Host>, s0: Time, d: int, passes: seq<Time>, i: nat, s: Time)
    requires d > 0 && 1 <= |hosts| && Contiguous(t, hosts, 1, s0, d, passes, i, s)
    ensures FirstTime(t, hosts, 1, s0, d, s)
  {
    forall a, j: nat | j < |hosts|
      ensures Fits(t, hosts, j, 1, a, d)
    {
      assert Free(t, hosts[j], NextFreeTime(t, hosts[j], a, d), d);
    }
    assert Fits(t, hosts, 0, 1, passes[0], d);
    assert |passes| > 1 ==> Bump(t, hosts, 1, d, passes[0], passes[1]);
    forall x, j: nat | s0 <= x < s && j + 1 <= |hosts|
      ensures !BlockFree(t, hosts, j, 1, x, d)
    {
      assert Fits(t, hosts, j, 1, s0, d);
      BlockStartIsEarliest(t, hosts, j, 1, s0, d, x);
    }
  }

  lemma {:induction false} WholeClusterPasses(t: Table, hosts: seq<Host>, d: int, s0: Time, passes: seq<Time>, x: Time)
    requires d > 0 && 1 <= |hosts| && Passes(t, hosts, |hosts|, d, s0, passes)
    requires s0 <= x < passes[|passes| - 1]
    ensures !BlockFree(t, hosts, 0, |hosts|, x, d)
    decreases |passes|
  {
    var n := |passes| - 1;
    assert n > 0;
    assert Bump(t, hosts, |hosts|, d, passes[n - 1], passes[n]);
    if x < passes[n - 1] {
      WholeClusterPasses(t, hosts, d, s0, passes[..n], x);
    } else {
      BlockStartIsEarliest(t, hosts, 0, |hosts|, passes[n - 1], d, x);
    }
  }

  lemma WholeClusterFirst(t: Table, hosts: seq<Host>, s0: Time, d: int, passes: seq<Time>, i: nat, s: Time)
    requires d > 0 && 1 <= |hosts| && Contiguous(t, hosts, |hosts|, s0, d, passes, i, s)
    ensures FirstTime(t, hosts, |hosts|, s0, d, s)
  {
    var a := passes[|passes| - 1];
    forall x, j: nat | s0 <= x < s && j + |hosts| <= |hosts|
      ensures !BlockFree(t, hosts, j, |hosts|, x, d)
    {
      if x < a {
        WholeClusterPasses(t, hosts, d, s0, passes, x);
      } else {
        BlockStartIsEarliest(t, hosts, 0, |hosts|, a, d, x);
      }
    }
  }

  // A family of tables on which the search misses an earlier block

  ghost function Missed(hosts: seq<Host>, k: nat): Table
    requires 2 <= k < |hosts|
  {
    map[0 := Booking(1, 2, 1, [hosts[0]]), 1 := Booking(4, 5, 1, [hosts[0]]),
        2 := Booking(1, 3, 2, [hosts[1]]), 3 := Booking(1, 100, 99, hosts[k..])]
  }

  lemma MissedHosts(hosts: seq<Host>, k: nat, j: nat)
    requires 2 <= k < |hosts| && Distinct(hosts) && j < |hosts|
    ensures hosts[j] in hosts[k..] <==> k <= j
    ensures hosts[j] == hosts[0] <==> j == 0
    ensures hosts[j] == hosts[1] <==> j == 1
  {
    if k <= j { assert hosts[k..][j - k] == hosts[j]; }
  }

  lemma MissedSound(hosts: seq<Host>, k: nat)
    requires 2 <= k < |hosts| && Distinct(hosts)
    ensures Sound(Missed(hosts, k))
  {
    MissedHosts(hosts, k, 0);
    MissedHosts(hosts, k, 1);
  }

  /** When host `j` is free for a window of length 2. */
  lemma MissedFree(hosts: seq<Host>, k: nat, j: nat, s: Time)
    requires 2 <= k < |hosts| && Distinct(hosts) && j < |hosts| && 1 <= s
    ensures Free(Missed(hosts, k), hosts[j], s, 2) <==>
      if j == 0 then s == 2 || s >= 5 else if j == 1 then s >= 3 else if j < k then true else s >= 100
  {
    var t := Missed(hosts, k);
    MissedHosts(hosts, k, j);
    assert t[0].hosts == [hosts[0]] && t[1].hosts == [hosts[0]] && t[2].hosts == [hosts[1]];
    assert hosts[j] in t[0].hosts <==> j == 0;
    assert hosts[j] in t[2].hosts <==> j == 1;
    assert hosts[j] in t[3].hosts <==> k <= j;
  }

  lemma MissedNextFree(hosts: seq<Host>, k: nat, j: nat)
    requires 2 <= k < |hosts| && Distinct(hosts) && j < |hosts|
    ensures NextFreeTime(Missed(hosts, k), hosts[j], 1, 2) ==
      if j == 0 then 2 else if j == 1 then 3 else if j < k then 1 else 100
  {
    var r := if j == 0 then 2 else if j == 1 then 3 else if j < k then 1 else 100;
    forall x | 1 <= x
      ensures Free(Missed(hosts, k), hosts[j], x, 2) <==>
        if j == 0 then x == 2 || x >= 5 else if j == 1 then x >= 3 else if j < k then true else x >= 100
    {
      MissedFree(hosts, k, j, x);
    }
    NextFreeUnique(Missed(hosts, k), hosts[j], 1, 2, r);
  }

  lemma MissedBlocks(hosts: seq<Host>, k: nat, i: nat)
    requires 2 <= k < |hosts| && Distinct(hosts) && i + k <= |hosts|
    ensures BlockStart(Missed(hosts, k), hosts, i, k, 1, 2) == if i == 0 then 3 else 100
    ensures Fits(Missed(hosts, k), hosts, i, k, 1, 2) <==> i != 0
  {
    var t := Missed(hosts, k);
    var b := BlockStart(t, hosts, i, k, 1, 2);
    BlockStartIsMax(t, hosts, i, k, 1, 2);
    forall j | i <= j < i + k
      ensures NextFreeTime(t, hosts[j], 1, 2) == if j == 0 then 2 else if j == 1 then 3 else if j < k then 1 else 100
    {
      MissedNextFree(hosts, k, j);
    }
    var w := if i == 0 then 1 else i + k - 1;
    assert NextFreeTime(t, hosts[w], 1, 2) <= b;
    if i == 0 {
      MissedFree(hosts, k, 0, 3);
    } else {
      forall j | i <= j < i + k
        ensures Free(t, hosts[j], 100, 2)
      {
        MissedFree(hosts, k, j, 100);
      }
    }
  }

  /** The search settles for time 100 although the first block is free at 5. */
  lemma MissedBlock(hosts: seq<Host>, k: nat)
    requires 2 <= k < |hosts| && Distinct(hosts)
    ensures Contiguous(Missed(hosts, k), hosts, k, 1, 2, [1], 1, 100)
    ensures !FirstTime(Missed(hosts, k), hosts, k, 1, 2, 100)
  {
    var t := Missed(hosts, k);
    MissedBlocks(hosts, k, 1);
    forall j: nat | Fits(t, hosts, j, k, 1, 2)
      ensures 100 <= BlockStart(t, hosts, j, k, 1, 2) && 1 <= j
    {
      MissedBlocks(hosts, k, j);
    }
    forall j | 0 <= j < 0 + k
      ensures Free(t, hosts[j], 5, 2)
    {
      MissedFree(hosts, k, j, 5);
    }
    assert BlockFree(t, hosts, 0, k, 5, 2);
  }

  /** The search is documented to find the first time that any contiguous block
      is free. It does, whatever the table, exactly for a single host and for the
      whole cluster. */
  lemma ContiguousFirstIff(hosts: seq<Host>, k: nat)
    requires Distinct(hosts) && 1 <= k <= |hosts|
    ensures (forall t, s0, d, passes, i: nat, s ::
               (Sound(t) && 0 < s0 && 0 < d && Contiguous(t, hosts, k, s0, d, passes, i, s)) ==>
                 FirstTime(t, hosts, k, s0, d, s))
            <==> (k == 1 || k == |hosts|)
  {
    if k == 1 || k == |hosts| {
      forall t, s0, d, passes, i: nat, s | Sound(t) && 0 < s0 && 0 < d &&
          Contiguous(t, hosts, k, s0, d, passes, i, s)
        ensures FirstTime(t, hosts, k, s0, d, s)
      {
        if k == 1 {
          SingleHostFirst(t, hosts, s0, d, passes, i, s);
        } else {
          WholeClusterFirst(t, hosts, s0, d, passes, i, s);
        }
      }
    } else {
      MissedSound(hosts, k);
      MissedBlock(hosts, k);
    }
  }
}
