/** The hash chain walk of tools/verify_lineage.py.  An entry is its stored hash and the remaining
    key-value pairs; `digest` stands for SHA-256 over the canonical JSON of those pairs. */
module Lineage {
  import opened Words

  /** `get` returns None for a key that is absent. */
  datatype Entry<V(==)> = Entry(hash: Option<V>, fields: map<string, V>)

  function PrevHash<V>(e: Entry<V>): Option<V> {
    if "prev_hash" in e.fields then Some(e.fields["prev_hash"]) else None
  }

  /** Entry k links to its predecessor and carries its own digest. */
  predicate EntryOk<V(==)>(zero: V, digest: map<string, V> -> V, chain: seq<Entry<V>>, k: nat)
    requires k < |chain|
  {
    && PrevHash(chain[k]) == (if k == 0 then Some(zero) else chain[k - 1].hash)
    && chain[k].hash == Some(digest(chain[k].fields))
  }

  ghost predicate Accepts<V>(zero: V, digest: map<string, V> -> V, chain: seq<Entry<V>>) {
    chain != [] && forall k: nat | k < |chain| :: EntryOk(zero, digest, chain, k)
  }

  datatype Verdict = Passed | EmptyChain | PrevMismatch(at: nat) | HashMismatch(at: nat)

  /** `verify_lineage`: passes exactly the valid chains, otherwise reports the first bad entry. */
  method VerifyLineage<V(==)>(zero: V, digest: map<string, V> -> V, chain: seq<Entry<V>>) returns (verdict: Verdict)
    ensures verdict.Passed? <==> Accepts(zero, digest, chain)
    ensures verdict.EmptyChain? <==> chain == []
    ensures verdict.PrevMismatch? || verdict.HashMismatch? ==>
      verdict.at < |chain| && !EntryOk(zero, digest, chain, verdict.at)
      && forall k: nat | k < verdict.at :: EntryOk(zero, digest, chain, k)
    ensures verdict.PrevMismatch? ==>
      PrevHash(chain[verdict.at]) != if verdict.at == 0 then Some(zero) else chain[verdict.at - 1].hash
    ensures verdict.HashMismatch? ==> chain[verdict.at].hash != Some(digest(chain[verdict.at].fields))
  {
    if |chain| == 0 {
      return EmptyChain;
    }
    var expectedPrev := Some(zero);
    for idx := 0 to |chain|
      invariant expectedPrev == if idx == 0 then Some(zero) else chain[idx - 1].hash
      invariant forall k: nat | k < idx :: EntryOk(zero, digest, chain, k)
    {
      var entry := chain[idx];
      if PrevHash(entry) != expectedPrev {
        assert !EntryOk(zero, digest, chain, idx);
        return PrevMismatch(idx);
      }
      if Some(digest(entry.fields)) != entry.hash {
        assert !EntryOk(zero, digest, chain, idx);
        return HashMismatch(idx);
      }
      expectedPrev := entry.hash;
    }
    verdict := Passed;
  }

  /** Entry k stores its own digest, and the digest of the entry before under "prev_hash". */
  predicate Linked<V(==)>(zero: V, digest: map<string, V> -> V, chain: seq<Entry<V>>, k: nat)
    requires k < |chain|
  {
    && chain[k].hash == Some(digest(chain[k].fields)) && "prev_hash" in chain[k].fields
    && chain[k].fields["prev_hash"] == if k == 0 then zero else digest(chain[k - 1].fields)
  }

  /** What acceptance comes to: the first entry names the all-zero value, every other one the digest of
      its predecessor. */
  lemma AcceptedExactly<V>(zero: V, digest: map<string, V> -> V, chain: seq<Entry<V>>)
    ensures Accepts(zero, digest, chain) <==>
      chain != [] && forall k: nat | k < |chain| :: Linked(zero, digest, chain, k)
  {
    if Accepts(zero, digest, chain) {
      forall k: nat | k < |chain| ensures Linked(zero, digest, chain, k) {
        assert EntryOk(zero, digest, chain, k);
        if k != 0 {
          assert EntryOk(zero, digest, chain, k - 1);
        }
      }
    } else if forall k: nat | k < |chain| :: Linked(zero, digest, chain, k) {
      forall k: nat | k < |chain| ensures EntryOk(zero, digest, chain, k) {
        assert Linked(zero, digest, chain, k);
        if k != 0 {
          assert Linked(zero, digest, chain, k - 1);
        }
      }
    }
  }

  /** The digest never collides on the entries of the two chains and never is the all-zero value. */
  ghost predicate CollisionFree<V(!new)>(zero: V, digest: map<string, V> -> V) {
    && (forall x, y :: digest(x) == digest(y) ==> x == y)
    && (forall x :: digest(x) != zero)
  }

  /** Walking both chains back from entries with equal hashes: equal entries all the way down. */
  lemma {:induction false} SameHistory<V(!new)>(
      zero: V, digest: map<string, V> -> V, a: seq<Entry<V>>, b: seq<Entry<V>>, i: nat, j: nat)
    requires CollisionFree(zero, digest) && Accepts(zero, digest, a) && Accepts(zero, digest, b)
    requires i < |a| && j < |b| && a[i].hash == b[j].hash
    ensures i == j && a[..i + 1] == b[..j + 1]
  {
    assert EntryOk(zero, digest, a, i) && EntryOk(zero, digest, b, j);
    assert digest(a[i].fields) == digest(b[j].fields);
    assert a[i] == b[j];
    if i != 0 {
      assert EntryOk(zero, digest, a, i - 1);
    }
    if j != 0 {
      assert EntryOk(zero, digest, b, j - 1);
    }
    // at the front of one chain the predecessor in the other would have digest zero
    if i != 0 && j != 0 {
      SameHistory(zero, digest, a, b, i - 1, j - 1);
      assert a[..i + 1] == a[..i] + [a[i]] && b[..j + 1] == b[..j] + [b[j]];
    }
  }

  /** Two accepted chains are identical exactly when their last hashes are equal. */
  lemma FinalHashBinds<V(!new)>(zero: V, digest: map<string, V> -> V, a: seq<Entry<V>>, b: seq<Entry<V>>)
    requires CollisionFree(zero, digest) && Accepts(zero, digest, a) && Accepts(zero, digest, b)
    ensures a[|a| - 1].hash == b[|b| - 1].hash <==> a == b
  {
    if a[|a| - 1].hash == b[|b| - 1].hash {
      SameHistory(zero, digest, a, b, |a| - 1, |b| - 1);
      assert a[..|a|] == a && b[..|b|] == b;
    }
  }

  /** So replacing any entry of an accepted chain, keeping its last hash, is detected. */
  lemma TamperingDetected<V(!new)>(
      zero: V, digest: map<string, V> -> V, chain: seq<Entry<V>>, k: nat, forged: Entry<V>)
    requires CollisionFree(zero, digest) && Accepts(zero, digest, chain) && k < |chain| && forged != chain[k]
    requires k == |chain| - 1 ==> forged.hash == chain[k].hash
    ensures !Accepts(zero, digest, chain[k := forged])
  {
    var other := chain[k := forged];
    if Accepts(zero, digest, other) {
      assert other[|other| - 1].hash == chain[|chain| - 1].hash;
      FinalHashBinds(zero, digest, chain, other);
      assert false;
    }
  }
}
