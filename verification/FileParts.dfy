/** Cutting files into parts and putting them together again. */
module FileParts {
  import opened Sequences

  newtype byte = x: int | 0 <= x < 256

  type Bytes = seq<byte>

  const PART_SIZE: nat := 10485760

  /** src/iomeshage/local.go:36-42 */
  function NumParts(size: nat): nat {
    (size + PART_SIZE - 1) / PART_SIZE
  }

  function Min(a: nat, b: nat): nat {
    if a < b then a else b
  }

  /** The bytes of part `p` of a file. */
  function Chunk(c: Bytes, p: nat): Bytes {
    c[Min(p * PART_SIZE, |c|)..Min((p + 1) * PART_SIZE, |c|)]
  }

  /** What is read for a part (src/iomeshage/local.go:157-193). */
  function ReadPart(c: Bytes, part: nat): Bytes {
    if part > NumParts(|c|) then [] else c[Min(part * PART_SIZE, |c|)..][..Min(PART_SIZE, |c| - Min(part * PART_SIZE, |c|))]
  }

  lemma NumPartsBound(size: nat, p: nat)
    ensures p < NumParts(size) <==> p * PART_SIZE < size
  {
  }

  /** Reading a part of a file gives its bytes; parts past the end are empty and
      the others are not. */
  lemma ReadIsChunk(c: Bytes, p: nat)
    ensures ReadPart(c, p) == Chunk(c, p)
    ensures Chunk(c, p) != [] <==> p < NumParts(|c|)
    ensures |Chunk(c, p)| <= PART_SIZE
  {
    NumPartsBound(|c|, p);
    NumPartsBound(|c|, NumParts(|c|));
    var a, b := Min(p * PART_SIZE, |c|), Min((p + 1) * PART_SIZE, |c|);
    assert c[a..][..b - a] == c[a..b];
  }

  /** A part file, read as its own first part, is read in full. */
  lemma ReadWholePart(c: Bytes, p: nat)
    ensures ReadPart(Chunk(c, p), 0) == Chunk(c, p)
  {
    ReadIsChunk(c, p);
    ReadIsChunk(Chunk(c, p), 0);
  }

  /** The first `n` parts, joined. */
  function Joined(c: Bytes, n: nat): Bytes {
    if n == 0 then [] else Joined(c, n - 1) + Chunk(c, n - 1)
  }

  lemma {:induction false} JoinedIsPrefix(c: Bytes, n: nat)
    ensures Joined(c, n) == c[..Min(n * PART_SIZE, |c|)]
  {
    if n > 0 {
      JoinedIsPrefix(c, n - 1);
      var a, b := Min((n - 1) * PART_SIZE, |c|), Min(n * PART_SIZE, |c|);
      assert c[..a] + c[a..b] == c[..b];
    }
  }

  /** All parts joined are the file. */
  lemma JoinedIsWhole(c: Bytes)
    ensures Joined(c, NumParts(|c|)) == c
  {
    JoinedIsPrefix(c, NumParts(|c|));
    NumPartsBound(|c|, NumParts(|c|));
    assert c[..|c|] == c;
  }

  /** `s` lists the numbers below `n`, each once. */
  ghost predicate Permutes(s: seq<nat>, n: nat) {
    |s| == n && multiset(s) == multiset(seq(n, i => i))
  }

  lemma PermutesCovers(s: seq<nat>, n: nat)
    requires Permutes(s, n)
    ensures forall p: nat :: p in s <==> p < n
    ensures Distinct(s)
  {
    var id := seq(n, i => i);
    forall p: nat
      ensures p in s <==> p < n
    {
      assert p in s <==> p in multiset(s);
      assert p in id <==> p in multiset(id);
      assert p < n ==> id[p] == p;
    }
    forall i, j | 0 <= i < j < |s|
      ensures s[i] != s[j]
    {
      TwiceCounts(s, i, j);
      OnceCounted(n, s[i]);
    }
  }

  lemma {:induction false} OnceCounted(n: nat, p: nat)
    ensures multiset(seq(n, i => i))[p] <= 1
  {
    var id := seq(n, i => i);
    if n > 0 {
      OnceCounted(n - 1, p);
      var front: seq<nat> := seq(n - 1, i => i);
      assert id == front + [n - 1];
      assert p == n - 1 ==> p !in front;
    }
  }

  /** The shuffle of the part list, for any source of random numbers
      (src/iomeshage/iomeshage.go:338-352). */
  method ShuffledParts(numParts: nat) returns (order: seq<nat>)
    ensures Permutes(order, numParts)
  {
    var parts := new nat[numParts](i => i);
    assert parts[..] == seq(numParts, i => i);
    var i := numParts - 1;
    while i > 0
      invariant i < numParts && multiset(parts[..]) == multiset(seq(numParts, k => k))
    {
      var j: nat :| j <= i;
      SwapKeeps(parts[..], i, j);
      parts[j], parts[i] := parts[i], parts[j];
      i := i - 1;
    }
    order := parts[..];
  }

  lemma SwapKeeps(s: seq<nat>, i: nat, j: nat)
    requires i < |s| && j < |s|
    ensures multiset(s[j := s[i]][i := s[j]]) == multiset(s)
  {
  }

  /** Every part but the last has ten mebibytes, and the last has the rest. */
  lemma PartSizes(c: Bytes, p: nat)
    requires p < NumParts(|c|)
    ensures p + 1 < NumParts(|c|) ==> |Chunk(c, p)| == 10 * 1024 * 1024
    ensures p + 1 == NumParts(|c|) ==> |Chunk(c, p)| == |c| - p * (10 * 1024 * 1024) <= 10 * 1024 * 1024
  {
    NumPartsBound(|c|, p + 1);
    NumPartsBound(|c|, p);
  }
}
