/** The `hash` benchmark: chunks hashed in parallel, the digests then hashed in order. */
module HashKernel {
  import opened Wrappers
  import opened WorkPool

  /** The bytes of a chunk: 1 MiB. */
  const CHUNK: nat := 0x10_0000

  /** `slice::chunks`: pieces of `size` bytes, the last one possibly shorter. */
  function Chunks(buf: seq<Byte>, size: nat): (chunks: seq<seq<Byte>>)
    requires size > 0
  {
    if buf == [] then []
    else if |buf| <= size then [buf]
    else [buf[..size]] + Chunks(buf[size..], size)
  }

  function Joined(parts: seq<seq<Byte>>): seq<Byte> {
    if parts == [] then [] else Joined(parts[..|parts| - 1]) + parts[|parts| - 1]
  }

  lemma {:induction false} JoinedCons(part: seq<Byte>, parts: seq<seq<Byte>>)
    ensures Joined([part] + parts) == part + Joined(parts)
  {
    if parts == [] {
      assert [part] + parts == [part] && [part][..0] == [];
    } else {
      var front := parts[..|parts| - 1];
      JoinedCons(part, front);
      assert ([part] + parts)[..|parts|] == [part] + front;
      assert Joined([part] + parts) == Joined([part] + front) + parts[|parts| - 1];
    }
  }

  /** The chunks are the whole buffer, in order, and every one but the last is full. */
  lemma {:induction false} ChunksCoverTheBuffer(buf: seq<Byte>, size: nat)
    requires size > 0
    ensures Joined(Chunks(buf, size)) == buf
    ensures forall i | 0 <= i < |Chunks(buf, size)| :: 0 < |Chunks(buf, size)[i]| <= size
    ensures forall i | 0 <= i < |Chunks(buf, size)| - 1 :: |Chunks(buf, size)[i]| == size
  {
    if |buf| > size {
      ChunksCoverTheBuffer(buf[size..], size);
      JoinedCons(buf[..size], Chunks(buf[size..], size));
    } else if buf != [] {
      JoinedCons(buf, []);
      assert [buf] + [] == [buf];
    }
  }

  /** The digests of the chunks, one by one. */
  function Digests(hash: seq<Byte> -> seq<Byte>, chunks: seq<seq<Byte>>): (digests: seq<seq<Byte>>)
    ensures |digests| == |chunks|
  {
    seq(|chunks|, i requires 0 <= i < |chunks| => hash(chunks[i]))
  }

  /** What one thread alone computes: every chunk hashed in turn, the digests hashed in turn. */
  function SerialHash(hash: seq<Byte> -> seq<Byte>, buf: seq<Byte>): seq<Byte> {
    hash(Joined(Digests(hash, Chunks(buf, CHUNK))))
  }

  /** Every index handed out is in some thread's hands, or its slot holds its digest. */
  ghost predicate Filled(
    hash: seq<Byte> -> seq<Byte>, chunks: seq<seq<Byte>>, digests: seq<seq<Byte>>, given: nat,
    claims: seq<Option<nat>>)
    requires |chunks| == |digests|
  {
    forall i | 0 <= i < given && i < |chunks| && Some(i) !in claims :: digests[i] == hash(chunks[i])
  }

  lemma ClaimKeepsFilled(
    hash: seq<Byte> -> seq<Byte>, chunks: seq<seq<Byte>>, digests: seq<seq<Byte>>, given: nat,
    claims: seq<Option<nat>>, t: nat)
    requires |chunks| == |digests| && t < |claims| && claims[t].None? && Filled(hash, chunks, digests, given, claims)
    ensures Filled(hash, chunks, digests, given + 1, claims[t := Some(given)])
  {
    var after := claims[t := Some(given)];
    assert after[t] == Some(given);
    forall i: nat | Some(i) in claims
      ensures Some(i) in after
    {
      var u :| 0 <= u < |claims| && claims[u] == Some(i);
      assert after[u] == Some(i);
    }
  }

  lemma WriteKeepsFilled(
    hash: seq<Byte> -> seq<Byte>, chunks: seq<seq<Byte>>, digests: seq<seq<Byte>>, given: nat,
    claims: seq<Option<nat>>, t: nat, i: nat)
    requires |chunks| == |digests| && t < |claims| && claims[t] == Some(i) && i < |chunks|
    requires Filled(hash, chunks, digests, given, claims)
    ensures Filled(hash, chunks, digests[i := hash(chunks[i])], given, claims[t := None])
  {
    var after := claims[t := None];
    forall k: nat | k != i && Some(k) in claims
      ensures Some(k) in after
    {
      var u :| 0 <= u < |claims| && claims[u] == Some(k);
      assert after[u] == Some(k);
    }
  }

  /** What holds between two steps of the threads. */
  ghost predicate Consistent(hash: seq<Byte> -> seq<Byte>, chunks: seq<seq<Byte>>, digests: seq<seq<Byte>>, pool: Pool)
    reads pool
  {
    && |chunks| == |digests| == pool.size && pool.Valid()
    && Filled(hash, chunks, digests, |pool.owner|, pool.claims)
  }

  /** Thread `t` asks for its next chunk. */
  method AskForChunk(
    ghost hash: seq<Byte> -> seq<Byte>, ghost chunks: seq<seq<Byte>>, ghost digests: seq<seq<Byte>>,
    pool: Pool, t: nat)
    requires Consistent(hash, chunks, digests, pool) && t < pool.threads && !pool.stopped[t] && pool.claims[t].None?
    modifies pool
    ensures Consistent(hash, chunks, digests, pool) && pool.Left() < old(pool.Left())
  {
    ClaimKeepsFilled(hash, chunks, digests, |pool.owner|, pool.claims, t);
    pool.Claim(t);
  }

  /** Thread `t` hashes its chunk and writes the digest into the chunk's own slot. */
  method WriteDigest(
    hash: seq<Byte> -> seq<Byte>, chunks: seq<seq<Byte>>, digests: array<seq<Byte>>, pool: Pool, t: nat)
    requires Consistent(hash, chunks, digests[..], pool) && t < pool.threads && pool.claims[t].Some?
    modifies pool, digests
    ensures Consistent(hash, chunks, digests[..], pool) && pool.Left() < old(pool.Left())
  {
    var i := pool.claims[t].value;
    WriteKeepsFilled(hash, chunks, digests[..], |pool.owner|, pool.claims, t, i);
    pool.Release(t);
    digests[i] := hash(chunks[i]);
  }

  /** The parallel phase: for every interleaving, slot `i` ends up with the digest of chunk `i`. */
  method HashChunks(
    hash: seq<Byte> -> seq<Byte>, chunks: seq<seq<Byte>>, threads: nat)
    returns (digests: array<seq<Byte>>)
    ensures fresh(digests) && digests[..] == Digests(hash, chunks)
  {
    digests := new seq<Byte>[|chunks|](_ => seq<Byte>(32, _ => 0));
    var pool := new Pool(|chunks|, Max(threads, 1));
    while exists t :: 0 <= t < pool.threads && !pool.stopped[t]
      invariant fresh(pool) && fresh(digests) && Consistent(hash, chunks, digests[..], pool)
      decreases pool.Left()
    {
      var t :| 0 <= t < pool.threads && !pool.stopped[t];
      if pool.claims[t].None? {
        AskForChunk(hash, chunks, digests[..], pool, t);
      } else {
        WriteDigest(hash, chunks, digests, pool, t);
      }
    }
    assert pool.stopped[0];
    assert forall i | 0 <= i < |chunks| :: digests[..][i] == hash(chunks[i]);
  }

  /** The result depends on the buffer alone: not on the thread count, not on the interleaving. */
  method HashParallel(hash: seq<Byte> -> seq<Byte>, buf: seq<Byte>, threads: nat) returns (digest: seq<Byte>)
    ensures digest == SerialHash(hash, buf) == hash(Joined(Digests(hash, Chunks(buf, 1_048_576))))
  {
    var chunks := Chunks(buf, CHUNK);
    var digests := HashChunks(hash, chunks, threads);
    var hasher: seq<Byte> := [];
    for i := 0 to digests.Length
      invariant hasher == Joined(digests[..i])
      invariant digests[..] == Digests(hash, chunks)
    {
      assert digests[..i + 1][..i] == digests[..i];
      hasher := hasher + digests[i];
    }
    assert digests[..digests.Length] == digests[..];
    digest := hash(hasher);
  }
}
