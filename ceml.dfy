/**
 The optimized policy's bookkeeping for one request, shared by the
 TypeScript stepper (App.tsx) and the Python data center (App.py): the
 redundancy discount, the decay of the global entropy, the signature stored
 in memory and the entropy-scaled cost.

 Known oddity, kept on purpose: the signature stored in memory is computed
 from the request's OWN entropy estimate, while the cost multiplier uses the
 decayed GLOBAL entropy. The detector, for its part, always recomputes
 signatures at the fixed entropy 0.5.
 */
module Ceml {
  import opened LesLogic

  /** Requests handled per call of the stepper. */
  const BatchSize: nat := 10
  /** Global entropy at the start of a run and after a reset. */
  const InitialEntropy: real := 1.0
  /** The decay never takes the global entropy below this. */
  const EntropyFloor: real := 0.1
  const DecayFactor: real := 0.99

  /** A redundant request costs a tenth of the basic cost. */
  const RedundantCost: real := EnergyPerRequest as real * 0.1

  /** One step of the global entropy's decay, floored at 0.1. */
  function Decay(e: real): (r: real)
    ensures r >= EntropyFloor
    ensures e >= EntropyFloor ==> r <= e
    ensures e <= InitialEntropy ==> r <= 0.99
    ensures r == EntropyFloor || r == e * DecayFactor
    ensures e * DecayFactor <= r
  {
    if e * DecayFactor >= EntropyFloor then e * DecayFactor else EntropyFloor
  }

  /** Cost of a request that is not redundant, at the (already decayed) global entropy. */
  function FreshCost(e: real): (c: real)
    ensures EntropyFloor <= e <= 0.99 ==> RedundantCost < c < EnergyPerRequest as real
  {
    EnergyPerRequest as real * (0.3 + 0.7 * e)
  }

  /** Arithmetic hint: the totals of `n` requests at the two fixed per-request costs, as literals. */
  lemma CostHint(n: nat)
    ensures EnergyPerRequest * n == 10 * n
    ensures (EnergyPerRequest * n) as real == n as real * EnergyPerRequest as real == 10.0 * n as real
    ensures n as real * RedundantCost == n as real
  {
  }

  /** The optimized policy's state: the signature memory, the global entropy and the energy spent. */
  datatype Optimized = Optimized(memory: set<string>, entropy: real, energy: real)

  /** The state an optimized data center starts from. */
  const Initial: Optimized := Optimized({}, InitialEntropy, 0.0)

  /**
   Handles one request whose own entropy estimate is `textEntropy`. A
   redundant request costs 1 and changes nothing else; otherwise the global
   entropy decays, the request's signature (made at `textEntropy`) is stored
   and the cost is scaled by the decayed entropy.
   */
  function Serve(s: Optimized, request: string, textEntropy: real): (t: Optimized)
    ensures s.memory <= t.memory <= s.memory + {Compress(request, textEntropy)}
    ensures IsRedundant(request, s.memory) ==> t.memory == s.memory && t.entropy == s.entropy
    ensures s.energy + RedundantCost <= t.energy
    ensures EntropyFloor <= s.entropy <= InitialEntropy ==>
              EntropyFloor <= t.entropy <= s.entropy &&
              s.energy + RedundantCost <= t.energy < s.energy + EnergyPerRequest as real
  {
    if IsRedundant(request, s.memory) then
      s.(energy := s.energy + RedundantCost)
    else
      var e := Decay(s.entropy);
      Optimized(s.memory + {Compress(request, textEntropy)}, e, s.energy + FreshCost(e))
  }

  /** The signature the stepper stores for a request, made at the request's own entropy. */
  function StoredSignature(request: string, log2: real -> real): string
  {
    Compress(request, EntropyPort(request, log2))
  }

  /**
   Handles the requests of `batch` in order, each at its own entropy
   estimate. Memory never loses a signature.
   */
  function ServeBatch(s: Optimized, batch: seq<string>, log2: real -> real): (t: Optimized)
    ensures s.memory <= t.memory
    decreases |batch|, 1
  {
    if batch == [] then s else ServeLast(s, batch, log2)
  }

  /** Serves a non-empty batch: all but its last request, then the last one. */
  function ServeLast(s: Optimized, batch: seq<string>, log2: real -> real): (t: Optimized)
    requires batch != []
    ensures s.memory <= t.memory
    decreases |batch|, 0
  {
    var last := batch[|batch| - 1];
    Serve(ServeBatch(s, batch[..|batch| - 1], log2), last, EntropyPort(last, log2))
  }

  /** Every signature a list of requests can leave in memory. */
  ghost function Signatures(requests: seq<string>, log2: real -> real): set<string>
  {
    set r | r in requests :: StoredSignature(r, log2)
  }

  lemma SignaturesSplit(requests: seq<string>, log2: real -> real, i: nat, j: nat)
    requires i <= j <= |requests|
    ensures Signatures(requests[..i], log2) + Signatures(requests[i..j], log2)
            == Signatures(requests[..j], log2)
  {
    assert requests[..j] == requests[..i] + requests[i..j];
  }

  /**
   Over any batch, from an entropy in [0.1, 1]: the entropy stays in range
   and never rises, and memory only grows, gaining only signatures of the
   batch.
   */
  lemma {:induction false} ServeBatchState(s: Optimized, batch: seq<string>, log2: real -> real)
    requires EntropyFloor <= s.entropy <= InitialEntropy
    ensures EntropyFloor <= ServeBatch(s, batch, log2).entropy <= s.entropy
    ensures s.memory <= ServeBatch(s, batch, log2).memory <= s.memory + Signatures(batch, log2)
    decreases |batch|
  {
    if batch != [] {
      var init, last := batch[..|batch| - 1], batch[|batch| - 1];
      ServeBatchState(s, init, log2);
      var before := ServeBatch(s, init, log2);
      assert ServeBatch(s, batch, log2) == Serve(before, last, EntropyPort(last, log2));
      assert batch == init + [last];
      assert Signatures(init, log2) + {StoredSignature(last, log2)} == Signatures(batch, log2);
    }
  }

  /**
   Over any batch, from an entropy in [0.1, 1], each request costs at least
   1 and strictly less than the basic cost of 10.
   */
  lemma {:induction false} ServeBatchEnergy(s: Optimized, batch: seq<string>, log2: real -> real)
    requires EntropyFloor <= s.entropy <= InitialEntropy
    ensures var spent := ServeBatch(s, batch, log2).energy - s.energy;
      && |batch| as real * RedundantCost <= spent <= |batch| as real * EnergyPerRequest as real
      && (|batch| > 0 ==> spent < |batch| as real * EnergyPerRequest as real)
    decreases |batch|
  {
    if batch != [] {
      assert RedundantCost == 1.0 && EnergyPerRequest as real == 10.0;
      var init, last := batch[..|batch| - 1], batch[|batch| - 1];
      ServeBatchEnergy(s, init, log2);
      ServeBatchState(s, init, log2);
      var before := ServeBatch(s, init, log2);
      var after := Serve(before, last, EntropyPort(last, log2));
      assert ServeBatch(s, batch, log2) == after;
      assert RedundantCost <= after.energy - before.energy < EnergyPerRequest as real;
      assert |batch| as real == |init| as real + 1.0;
    }
  }

  /** A batch of one request is that request served at its own entropy estimate. */
  lemma ServeBatchSingle(s: Optimized, request: string, log2: real -> real)
    ensures ServeBatch(s, [request], log2) == Serve(s, request, EntropyPort(request, log2))
  {
    var batch := [request];
    assert batch[..0] == [] && batch[0] == request;
    assert ServeBatch(s, batch, log2) == ServeLast(s, batch, log2);
  }

  /** Extending a slice of requests by one serves that one request last. */
  lemma ServeBatchExtend(s: Optimized, requests: seq<string>, i: nat, j: nat, log2: real -> real)
    requires i <= j < |requests|
    ensures ServeBatch(s, requests[i..j + 1], log2)
            == ServeBatch(ServeBatch(s, requests[i..j], log2), [requests[j]], log2)
  {
    assert requests[i..j + 1][..j - i] == requests[i..j];
    ServeBatchSingle(ServeBatch(s, requests[i..j], log2), requests[j], log2);
  }

  /**
   What a batch does to memory and entropy does not depend on the energy
   spent before it, and its cost adds to that energy.
   */
  lemma {:induction false} ServeBatchShift(s: Optimized, batch: seq<string>, log2: real -> real)
    ensures var t := ServeBatch(s.(energy := 0.0), batch, log2);
      ServeBatch(s, batch, log2) == t.(energy := s.energy + t.energy)
    decreases |batch|
  {
    if batch != [] {
      ServeBatchShift(s, batch[..|batch| - 1], log2);
    }
  }

  /** Serving two batches one after the other is serving their concatenation. */
  lemma {:induction false} ServeBatchAppend(s: Optimized, a: seq<string>, b: seq<string>, log2: real -> real)
    ensures ServeBatch(ServeBatch(s, a, log2), b, log2) == ServeBatch(s, a + b, log2)
    decreases |b|
  {
    if b != [] {
      ServeBatchAppend(s, a, b[..|b| - 1], log2);
      assert (a + b)[..|a + b| - 1] == a + b[..|b| - 1];
    } else {
      assert a + b == a;
    }
  }
}
