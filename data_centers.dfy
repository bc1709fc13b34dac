/**
 The two data centers of the Python original (App.py): the basic one, which
 charges every request the full cost, and the optimized one, which keeps a
 dictionary of signatures, discounts redundant requests and lets its global
 entropy decay with each request it actually processes. The servers, the
 random choice among them and the simulated clock are left out: a request
 takes no simulated time, so the requests are handled one after the other.
 */
module DataCenters {
  import opened LesLogic
  import opened Ceml

  /** The global entropy after `n` decays starting from `e`. */
  function DecayTimes(e: real, n: nat): (r: real)
    ensures EntropyFloor <= e <= InitialEntropy ==> EntropyFloor <= r <= e
  {
    if n == 0 then e else Decay(DecayTimes(e, n - 1))
  }

  function Pow(x: real, n: nat): (r: real)
    ensures 0.0 <= x ==> 0.0 <= r
  {
    if n == 0 then 1.0 else x * Pow(x, n - 1)
  }

  function Max(a: real, b: real): real { if a >= b then a else b }

  /** After `n` decays from the initial entropy 1, the entropy is max(0.1, 0.99^n). */
  lemma {:induction false} DecayTimesClosedForm(n: nat)
    ensures DecayTimes(InitialEntropy, n) == Max(EntropyFloor, Pow(DecayFactor, n))
  {
    if n > 0 {
      DecayTimesClosedForm(n - 1);
      var x := Pow(DecayFactor, n - 1);
      assert Pow(DecayFactor, n) == DecayFactor * x;
      if x < EntropyFloor {
        assert DecayTimes(InitialEntropy, n) == Decay(EntropyFloor) == EntropyFloor;
      } else {
        assert DecayTimes(InitialEntropy, n) == Decay(x);
      }
    }
  }

  /** The energy of the first `n` processed requests: the i-th costs FreshCost at the entropy after i decays. */
  function FreshTotal(n: nat): real
  {
    if n == 0 then 0.0 else FreshTotal(n - 1) + FreshCost(DecayTimes(InitialEntropy, n))
  }

  /** Each processed request costs strictly between 1 and 10, so the total lies in between too. */
  lemma {:induction false} FreshTotalBounds(n: nat)
    ensures n as real * RedundantCost <= FreshTotal(n) <= n as real * EnergyPerRequest as real
    ensures n > 0 ==> n as real * RedundantCost < FreshTotal(n) < n as real * EnergyPerRequest as real
  {
    if n > 0 {
      FreshTotalBounds(n - 1);
      var e := DecayTimes(InitialEntropy, n - 1);
      assert DecayTimes(InitialEntropy, n) == Decay(e);
      assert RedundantCost < FreshCost(Decay(e)) < EnergyPerRequest as real;
    }
  }

  /** The data center without optimization: every request costs the full amount. */
  class BasicDataCenter {
    var energyTotal: nat
    var processedCount: nat

    ghost predicate Valid()
      reads this
    {
      energyTotal == EnergyPerRequest * processedCount
    }

    constructor()
      ensures Valid() && energyTotal == 0 && processedCount == 0
    {
      energyTotal := 0;
      processedCount := 0;
    }

    /** Charges the full cost and counts the request, whatever its text. */
    method ProcessRequest(request: string)
      requires Valid()
      modifies this
      ensures Valid()
      ensures energyTotal == old(energyTotal) + EnergyPerRequest
      ensures processedCount == old(processedCount) + 1
    {
      energyTotal := energyTotal + EnergyPerRequest;
      processedCount := processedCount + 1;
    }
  }

  /** The optimized center's fields as a value: memory, global entropy, energy spent and processed count. */
  datatype Center = Center(memory: map<string, string>, entropy: real, energy: real, processed: nat)

  /** The center seen as the optimized policy's state shared with the stepper. */
  function View(c: Center): Optimized
  {
    Optimized(c.memory.Keys, c.entropy, c.energy)
  }

  /**
   The entropy has decayed once per processed request; memory holds at most
   one signature per processed request; the energy is 1 per redundant
   request (`redundant` of them) plus the scaled cost of each processed one.
   */
  ghost predicate CenterValid(c: Center, redundant: nat)
  {
    && c.entropy == DecayTimes(InitialEntropy, c.processed)
    && |c.memory.Keys| <= c.processed
    && c.energy == redundant as real * RedundantCost + FreshTotal(c.processed)
  }

  /**
   One request handled by the optimized center. A redundant one costs 1 and
   changes nothing else. Otherwise the entropy estimate of the text is needed
   first, which fails on the empty text (None); else the entropy decays, the
   signature made at the text's own entropy is stored with the request, the
   scaled cost is charged and the request is counted. Whenever it succeeds it
   does what the stepper's policy does with the same request.
   */
  function Handle(c: Center, request: string, log2: real -> real): (r: Option<Center>)
    ensures r.None? <==> !IsRedundant(request, c.memory.Keys) && |request| == 0
    ensures r.Some? ==> View(r.value) == Serve(View(c), request, EntropyPort(request, log2))
    ensures r.Some? && IsRedundant(request, c.memory.Keys) ==> r.value.memory == c.memory && r.value.processed == c.processed
    ensures r.Some? && !IsRedundant(request, c.memory.Keys) ==>
              r.value.memory == c.memory[StoredSignature(request, log2) := request] && r.value.processed == c.processed + 1
  {
    if IsRedundant(request, c.memory.Keys) then
      Some(c.(energy := c.energy + RedundantCost))
    else
      match EntropyLES(request, log2)
      case None => None
      case Some(entropy) =>
        var decayed := Decay(c.entropy);
        Some(Center(c.memory[Compress(request, entropy) := request], decayed, c.energy + FreshCost(decayed), c.processed + 1))
  }

  /** Every key of memory is the signature of the non-empty request it maps to. */
  ghost predicate SignedMemory(memory: map<string, string>, log2: real -> real)
  {
    forall sig :: sig in memory ==> |memory[sig]| > 0 && StoredSignature(memory[sig], log2) == sig
  }

  /** Handling a request keeps every stored signature paired with a request that has it. */
  lemma HandleKeepsSigned(c: Center, request: string, log2: real -> real)
    requires SignedMemory(c.memory, log2)
    requires Handle(c, request, log2).Some?
    ensures SignedMemory(Handle(c, request, log2).value.memory, log2)
  {
  }

  /** Handling a request keeps the center's invariant, counting one more redundant request when it was redundant. */
  lemma HandleKeepsValid(c: Center, redundant: nat, request: string, log2: real -> real)
    requires CenterValid(c, redundant)
    requires Handle(c, request, log2).Some?
    ensures CenterValid(Handle(c, request, log2).value,
                        if IsRedundant(request, c.memory.Keys) then redundant + 1 else redundant)
  {
    CostHint(redundant + 1);
    CostHint(redundant);
    if !IsRedundant(request, c.memory.Keys) {
      var d := Handle(c, request, log2).value;
      assert d.memory.Keys <= c.memory.Keys + {StoredSignature(request, log2)};
      assert d.entropy == DecayTimes(InitialEntropy, d.processed);
    }
  }

  /**
   The optimized data center. `memory` maps each stored signature to the
   request that stored it; redundancy is checked against its keys.
   `processedCount` counts only the requests that were not redundant.
   */
  class OptimizedDataCenter {
    const log2: real -> real
    var energyTotal: real
    var processedCount: nat
    var memory: map<string, string>
    var entropyLes: real
    /** How many redundant requests were charged; the original does not keep this count. */
    ghost var redundantCount: nat

    ghost function Snapshot(): Center
      reads this
    {
      Center(memory, entropyLes, energyTotal, processedCount)
    }

    ghost predicate Valid()
      reads this
    {
      CenterValid(Snapshot(), redundantCount)
    }

    constructor(log2: real -> real)
      ensures Valid() && this.log2 == log2
      ensures View(Snapshot()) == Initial && memory == map[] && processedCount == 0
    {
      this.log2 := log2;
      energyTotal := 0.0;
      processedCount := 0;
      memory := map[];
      entropyLes := InitialEntropy;
      redundantCount := 0;
    }

    /** Handles one request; `ok` is false, and nothing changes, exactly when the entropy estimate fails. */
    method ProcessRequest(request: string) returns (ok: bool)
      requires Valid()
      modifies this
      ensures Valid()
      ensures ok <==> Handle(old(Snapshot()), request, log2).Some?
      ensures !ok ==> unchanged(this)
      ensures ok ==> Snapshot() == Handle(old(Snapshot()), request, log2).value
    {
      var before := Center(memory, entropyLes, energyTotal, processedCount);
      var after := Handle(before, request, log2);
      if after.None? {
        return false;
      }
      HandleKeepsValid(before, redundantCount, request, log2);
      if IsRedundant(request, memory.Keys) {
        redundantCount := redundantCount + 1;
      }
      memory, entropyLes, energyTotal, processedCount := after.value.memory, after.value.entropy, after.value.energy, after.value.processed;
      ok := true;
    }
  }

  /**
   Feeds the requests in order to a fresh basic and a fresh optimized data
   center. A failure of the optimized one (a non-redundant empty request)
   stops the run. On success the optimized center ends in the state the
   stepper's policy reaches on the same list, and with no empty request
   there is no failure.
   */
  method Simulate(requests: seq<string>, log2: real -> real)
    returns (basic: BasicDataCenter, optimized: OptimizedDataCenter, ok: bool)
    ensures fresh(basic) && fresh(optimized)
    ensures basic.Valid() && optimized.Valid()
    ensures ok ==> basic.processedCount == |requests|
    ensures SignedMemory(optimized.memory, log2)
    ensures ok ==> View(optimized.Snapshot()) == ServeBatch(Initial, requests, log2)
    ensures ok && |requests| > 0 ==>
              |requests| as real <= optimized.energyTotal < basic.energyTotal as real &&
              0.0 < Savings(basic.energyTotal as real, optimized.energyTotal) <= 90.0
    ensures (forall k :: 0 <= k < |requests| ==> |requests[k]| > 0) ==> ok
  {
    basic := new BasicDataCenter();
    optimized := new OptimizedDataCenter(log2);
    ok := true;
    var i := 0;
    while i < |requests| && ok
      invariant 0 <= i <= |requests|
      invariant basic.Valid() && optimized.Valid() && optimized.log2 == log2
      invariant SignedMemory(optimized.memory, log2)
      invariant ok ==> basic.processedCount == i
      invariant ok ==> View(optimized.Snapshot()) == ServeBatch(Initial, requests[..i], log2)
      invariant !ok ==> exists k :: 0 <= k < |requests| && |requests[k]| == 0
    {
      basic.ProcessRequest(requests[i]);
      ghost var before := optimized.Snapshot();
      ok := optimized.ProcessRequest(requests[i]);
      if ok {
        HandleKeepsSigned(before, requests[i], log2);
      }
      ServeBatchExtend(Initial, requests, 0, i, log2);
      ServeBatchSingle(ServeBatch(Initial, requests[..i], log2), requests[i], log2);
      assert requests[0..i] == requests[..i] && requests[0..i + 1] == requests[..i + 1];
      i := i + 1;
    }
    if ok {
      assert requests[..i] == requests;
      if |requests| > 0 {
        RunSavings(requests, log2);
      }
    }
  }

  /**
   Over a non-empty list, the optimized policy spends at least 1 per request
   and strictly less than the basic 10 per request, so the savings figure
   is positive and at most 90 percent.
   */
  lemma RunSavings(requests: seq<string>, log2: real -> real)
    requires |requests| > 0
    ensures var spent := ServeBatch(Initial, requests, log2).energy;
      && |requests| as real <= spent < (EnergyPerRequest * |requests|) as real
      && 0.0 < Savings((EnergyPerRequest * |requests|) as real, spent) <= 90.0
  {
    ServeBatchEnergy(Initial, requests, log2);
    CostHint(|requests|);
  }

  /** The savings figure shown at the end: the optimized energy as a percentage below the basic one. */
  function Savings(basicEnergy: real, optimizedEnergy: real): (r: real)
    ensures basicEnergy > 0.0 && basicEnergy / 10.0 <= optimizedEnergy < basicEnergy ==> 0.0 < r <= 90.0
    ensures basicEnergy <= 0.0 ==> r == 0.0
  {
    if basicEnergy > 0.0 then 100.0 * (1.0 - optimizedEnergy / basicEnergy) else 0.0
  }
}
