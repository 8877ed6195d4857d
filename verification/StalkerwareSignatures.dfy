/** A bit-packed Bloom filter in front of an exact signature set. */
module StalkerwareSignatures {
  import opened Options

  /** `1 << k` within a byte. */
  function Mask(k: nat): bv8
    requires k < 8
  {
    if k == 0 then 1 else if k == 1 then 2 else if k == 2 then 4 else if k == 3 then 8
    else if k == 4 then 16 else if k == 5 then 32 else if k == 6 then 64 else 128
  }

  predicate HasBit(b: bv8, k: nat)
    requires k < 8
  {
    b & Mask(k) != 0
  }

  /** Or-ing one mask into a byte sets that bit and no other. */
  lemma MaskSetsOneBit(b: bv8, j: nat, k: nat)
    requires j < 8 && k < 8
    ensures HasBit(b | Mask(j), k) <==> j == k || HasBit(b, k)
    ensures !HasBit(0, k)
  {
  }

  ghost predicate IsSet(bits: seq<bv8>, k: nat) {
    k / 8 < |bits| && HasBit(bits[k / 8], k % 8)
  }

  /** The first eight bytes of a digest of the round and the item. */
  type Hash = (nat, string) -> nat

  ghost predicate Selects(hash: Hash, size: nat, rounds: nat, item: string, k: nat)
    requires size > 0
  {
    exists i: nat {:trigger hash(i, item)} :: i < rounds && hash(i, item) % size == k
  }

  class BloomFilter {
    const hash: Hash
    const size: nat
    const rounds: nat
    const bits: array<bv8>

    ghost predicate Valid()
      reads this
    {
      size > 0 && bits.Length == (size + 7) / 8
    }

    constructor (hash: Hash, size: nat, rounds: nat)
      requires size > 0
      ensures Valid() && this.hash == hash && this.size == size && this.rounds == rounds && fresh(bits)
      ensures forall k: nat :: !IsSet(bits[..], k)
    {
      this.hash, this.size, this.rounds := hash, size, rounds;
      bits := new bv8[(size + 7) / 8](_ => 0);
      new;
      forall k: nat
        ensures !IsSet(bits[..], k)
      {
        MaskSetsOneBit(0, 0, k % 8);
      }
    }

    function Index(round: nat, item: string): (idx: nat)
      requires Valid()
      reads this
      ensures idx < size && idx / 8 < bits.Length
    {
      hash(round, item) % size
    }

    /** Sets exactly the bits the item selects, on top of those already set. */
    method Add(item: string)
      requires Valid()
      modifies bits
      ensures forall k: nat :: IsSet(bits[..], k) <==> old(IsSet(bits[..], k)) || Selects(hash, size, rounds, item, k)
    {
      ghost var was := bits[..];
      for i := 0 to rounds
        invariant forall k: nat :: IsSet(bits[..], k) <==> IsSet(was, k) || Selects(hash, size, i, item, k)
      {
        var idx := Index(i, item);
        ghost var before := bits[..];
        bits[idx / 8] := bits[idx / 8] | Mask(idx % 8);
        assert bits[..] == before[idx / 8 := before[idx / 8] | Mask(idx % 8)];
        SetOne(before, idx);
        OneMoreRound(hash, size, i, item);
        forall k: nat
          ensures IsSet(bits[..], k) <==> IsSet(was, k) || Selects(hash, size, i + 1, item, k)
        {
          assert IsSet(bits[..], k) <==> k == idx || IsSet(before, k);
        }
      }
    }

    /** Whether every bit the item selects is set. */
    method MightContain(item: string) returns (r: bool)
      requires Valid()
      ensures r <==> forall k: nat :: Selects(hash, size, rounds, item, k) ==> IsSet(bits[..], k)
    {
      for i := 0 to rounds
        invariant forall k: nat :: Selects(hash, size, i, item, k) ==> IsSet(bits[..], k)
      {
        var idx := Index(i, item);
        if bits[idx / 8] & Mask(idx % 8) == 0 {
          assert hash(i, item) % size == idx;
          assert Selects(hash, size, rounds, item, idx) && !IsSet(bits[..], idx);
          return false;
        }
        assert IsSet(bits[..], idx);
        OneMoreRound(hash, size, i, item);
      }
      return true;
    }
  }

  lemma SetOne(bits: seq<bv8>, idx: nat)
    requires idx / 8 < |bits|
    ensures forall k: nat :: IsSet(bits[idx / 8 := bits[idx / 8] | Mask(idx % 8)], k) <==> k == idx || IsSet(bits, k)
  {
    forall k: nat
      ensures IsSet(bits[idx / 8 := bits[idx / 8] | Mask(idx % 8)], k) <==> k == idx || IsSet(bits, k)
    {
      if k / 8 == idx / 8 {
        MaskSetsOneBit(bits[idx / 8], idx % 8, k % 8);
        assert k % 8 == idx % 8 <==> k == idx;
      }
    }
  }

  lemma OneMoreRound(hash: Hash, size: nat, i: nat, item: string)
    requires size > 0
    ensures forall k: nat :: Selects(hash, size, i + 1, item, k) <==>
            Selects(hash, size, i, item, k) || k == hash(i, item) % size
  {
    forall k: nat
      ensures Selects(hash, size, i + 1, item, k) <==> Selects(hash, size, i, item, k) || k == hash(i, item) % size
    {
      if k == hash(i, item) % size {
        assert Selects(hash, size, i + 1, item, k);
      }
    }
  }

  datatype SignatureMatch = SignatureMatch(signatureId: string, exactMatchConfirmed: bool)

  /** Some known signature selects bit `k`. */
  ghost predicate Covered(hash: Hash, size: nat, rounds: nat, known: seq<string>, k: nat)
    requires size > 0
  {
    exists s :: s in known && Selects(hash, size, rounds, s, k)
  }

  class StalkerwareSignatureIndex {
    const known: seq<string>
    const exact: set<string>
    const bloom: BloomFilter

    ghost predicate Valid()
      reads this, bloom, bloom.bits
    {
      && bloom.Valid()
      && (forall s :: s in exact <==> s in known)
      && (forall k: nat :: IsSet(bloom.bits[..], k) <==> Covered(bloom.hash, bloom.size, bloom.rounds, known, k))
    }

    constructor (hash: Hash, known: seq<string>, size: nat, rounds: nat)
      requires size > 0
      ensures Valid() && fresh(bloom) && fresh(bloom.bits) && this.known == known
      ensures bloom.hash == hash && bloom.size == size && bloom.rounds == rounds
    {
      this.known := known;
      exact := set s | s in known;
      var filter := new BloomFilter(hash, size, rounds);
      for i := 0 to |known|
        invariant filter.Valid() && filter.hash == hash && filter.size == size && filter.rounds == rounds
        invariant fresh(filter) && fresh(filter.bits)
        invariant forall k: nat :: IsSet(filter.bits[..], k) <==> Covered(hash, size, rounds, known[..i], k)
      {
        filter.Add(known[i]);
        OneMoreSignature(hash, size, rounds, known, i);
      }
      bloom := filter;
      new;
      assert known[..|known|] == known;
    }

    /** The prefilter never loses a known signature, and a hit is confirmed exactly when the signature is known. */
    method Check(candidate: string) returns (r: Option<SignatureMatch>)
      requires Valid()
      ensures r.Some? <==> forall k: nat :: Selects(bloom.hash, bloom.size, bloom.rounds, candidate, k) ==>
                Covered(bloom.hash, bloom.size, bloom.rounds, known, k)
      ensures r.Some? ==> r.value == SignatureMatch(candidate, candidate in known)
      ensures candidate in known <==> r == Some(SignatureMatch(candidate, true))
    {
      var might := bloom.MightContain(candidate);
      if !might {
        return None;
      }
      return Some(SignatureMatch(candidate, candidate in exact));
    }
  }

  lemma OneMoreSignature(hash: Hash, size: nat, rounds: nat, known: seq<string>, i: nat)
    requires size > 0 && i < |known|
    ensures forall k: nat :: Covered(hash, size, rounds, known[..i + 1], k)
              <==> Covered(hash, size, rounds, known[..i], k) || Selects(hash, size, rounds, known[i], k)
  {
    assert known[..i + 1] == known[..i] + [known[i]];
  }
}
