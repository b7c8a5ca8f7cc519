/** The 64-bit FNV-1a fingerprint that the configuration transaction compares contents by. */
module ConfigFingerprint {
  import opened Basics
  import opened ConfigTransaction
  import Admission

  /** Folding a step over bytes through known intermediate values. */
  lemma {:induction false} FoldsThrough<H>(step: (H, Byte) -> H, digest: nat -> H, bytes: Bytes, values: seq<H>,
      count: nat)
    requires |values| == |bytes| + 1 && count <= |bytes|
    requires digest(0) == values[0]
    requires forall k: nat | k < |bytes| :: digest(k + 1) == step(digest(k), bytes[k])
    requires forall k: nat | k < |bytes| :: values[k + 1] == step(values[k], bytes[k])
    ensures digest(count) == values[count]
  {
    if count > 0 {
      FoldsThrough(step, digest, bytes, values, count - 1);
    }
  }

  /** A digest that follows `values`, step by step, ends at the last of them. */
  lemma DigestsTo(bytes: Bytes, values: seq<bv64>)
    requires |values| == |bytes| + 1 && values[0] == Admission.FNV_OFFSET
    requires forall k: nat | k < |bytes| :: values[k + 1] == Admission.FnvStep(values[k], bytes[k])
    ensures Admission.CanonicalChecksum(bytes) == values[|bytes|] as nat
  {
    var digest := (k: nat) => if k <= |bytes| then Admission.FnvPrefix(bytes, k) else 0;
    FoldsThrough(Admission.FnvStep, digest, bytes, values, |bytes|);
  }

  const ZERO_DIGEST: Bytes := [0xd5, 0x6b, 0xb9, 0x53, 0x42, 0x87, 0x08, 0x36]

  const ZERO_DIGEST_VALUES: seq<bv64> := [Admission.FNV_OFFSET, 0xaf64884c860310d0,
    0x0ae45507b7356dc1, 0xb769f41c4fc902e8, 0x720c871b928fa3c1, 0x5aed16da0a12d799,
    0x93b4f27f1e0387fa, 0x0000000000000036, 0]

  /** This content digests to zero under 64-bit FNV-1a. */
  lemma DigestsToZero()
    ensures Admission.CanonicalChecksum(ZERO_DIGEST) == 0
  {
    FnvStepsToZero();
    DigestsTo(ZERO_DIGEST, ZERO_DIGEST_VALUES);
  }

  /** A further zero octet keeps the digest. */
  lemma ZeroOctetKeepsZero()
    ensures Admission.CanonicalChecksum(ZERO_DIGEST + [0]) == 0
  {
    FnvStepsToZero();
    DigestsTo(ZERO_DIGEST + [0], ZERO_DIGEST_VALUES + [0]);
  }

  /** Under the fingerprint in use, replacing one of these byte strings by the other can leave the two files different.
      The callers of the commit pass on valid texts only, which these are not. */
  lemma FingerprintInUseCanSplitFiles(tx: Transaction)
    requires WellFormed(tx) && tx.snapshot.Some? && tx.hash == Admission.CanonicalChecksum
    requires tx.before == ZERO_DIGEST && tx.after == ZERO_DIGEST + [0]
    ensures !AlwaysAtomic(tx)
  {
    DigestsToZero();
    ZeroOctetKeepsZero();
    assert |tx.before| != |tx.after|;
    AtomicExactlyWhenDistinguished(tx);
  }

  lemma FnvStepsToZero()
    ensures Admission.FnvStep(Admission.FNV_OFFSET, 0xd5) == 0xaf64884c860310d0
    ensures Admission.FnvStep(0xaf64884c860310d0, 0x6b) == 0x0ae45507b7356dc1
    ensures Admission.FnvStep(0x0ae45507b7356dc1, 0xb9) == 0xb769f41c4fc902e8
    ensures Admission.FnvStep(0xb769f41c4fc902e8, 0x53) == 0x720c871b928fa3c1
    ensures Admission.FnvStep(0x720c871b928fa3c1, 0x42) == 0x5aed16da0a12d799
    ensures Admission.FnvStep(0x5aed16da0a12d799, 0x87) == 0x93b4f27f1e0387fa
    ensures Admission.FnvStep(0x93b4f27f1e0387fa, 0x08) == 0x0000000000000036
    ensures Admission.FnvStep(0x0000000000000036, 0x36) == 0x0000000000000000
    ensures Admission.FnvStep(0, 0) == 0
  {
  }
}
