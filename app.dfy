/**
 The simulation driver of App.tsx: a batch stepper over the generated
 requests that keeps a cursor, the signature memory, the decaying global
 entropy, the two energy totals, a running flag and the last five log
 entries. Animation-frame scheduling is left to the caller, which calls
 `ProcessBatch` once per tick.
 */
module App {
  import opened Text
  import opened LesLogic
  import opened Ceml

  // ---------------------------------------------------------------------------
  // Cursor
  // ---------------------------------------------------------------------------

  /** Where the cursor stands after one call: the end of the next slice, or unchanged once complete. */
  function NextCursor(cursor: nat, total: nat): (r: nat)
    ensures cursor < total ==> cursor < r <= total && r - cursor <= BatchSize
    ensures cursor >= total ==> r == cursor
  {
    if cursor >= total then cursor else Min(cursor + BatchSize, total)
  }

  /** The cursor after `calls` calls from a fresh run. */
  function CursorAfter(calls: nat, total: nat): (r: nat)
    ensures r <= total
  {
    if calls == 0 then 0 else NextCursor(CursorAfter(calls - 1, total), total)
  }

  /** After `calls` calls the cursor stands at min(10 * calls, total). */
  lemma {:induction false} CursorAfterCalls(calls: nat, total: nat)
    ensures CursorAfter(calls, total) == Min(calls * BatchSize, total)
  {
    if calls > 0 {
      CursorAfterCalls(calls - 1, total);
    }
  }

  /** A full run over the 1000 generated requests takes exactly 100 calls. */
  lemma FullRunCalls()
    ensures CursorAfter(100, TotalRequestsBatchSize * |BaseRequests|) == 1000
    ensures CursorAfter(99, TotalRequestsBatchSize * |BaseRequests|) < 1000
  {
    CursorAfterCalls(100, 1000);
    CursorAfterCalls(99, 1000);
  }

  // ---------------------------------------------------------------------------
  // Live log
  // ---------------------------------------------------------------------------

  datatype LogKind = BasicLog | OptimizedLog | InfoLog

  /** A log line; `entropy` is the value shown beside it, if any. */
  datatype LogEntry = LogEntry(text: string, kind: LogKind, entropy: Option<real>)

  /** How many log entries are kept. */
  const MaxLogs: nat := 5

  /** Puts `entry` first and keeps the newest five entries. */
  function PushLog(logs: seq<LogEntry>, entry: LogEntry): (r: seq<LogEntry>)
    ensures |r| == Min(|logs| + 1, MaxLogs)
    ensures r[0] == entry
    ensures forall i :: 1 <= i < |r| ==> r[i] == logs[i - 1]
  {
    ([entry] + logs)[..Min(|logs| + 1, MaxLogs)]
  }

  const CompleteLog: LogEntry := LogEntry("Simulation Complete.", InfoLog, None)

  /** The log line written after a batch: the tail of its last request and the global entropy. */
  function ProcessedLog(lastRequest: string, entropy: real): (e: LogEntry)
    ensures e.kind == InfoLog && e.entropy == Some(entropy)
  {
    LogEntry("Processed: ..." + Suffix(lastRequest, 15), InfoLog, Some(entropy))
  }

  /** The processed line reads `Processed: ...` followed by the last fifteen characters of the request. */
  lemma ProcessedLogText(lastRequest: string, entropy: real)
    ensures var t := ProcessedLog(lastRequest, entropy).text;
      && |t| == 14 + Min(15, |lastRequest|)
      && t[..14] == "Processed: ..."
      && t[14..] == lastRequest[|lastRequest| - Min(15, |lastRequest|)..]
  {
  }

  // ---------------------------------------------------------------------------
  // One tick, on values
  // ---------------------------------------------------------------------------

  /** The stepper's state: cursor, memory, global entropy, the two totals, the running flag and the log. */
  datatype Run = Run(cursor: nat, memory: set<string>, entropy: real, basicEnergy: nat,
                     optimizedEnergy: real, running: bool, logs: seq<LogEntry>)

  /** The state after a reset. */
  const FreshRun: Run := Run(0, {}, InitialEntropy, 0, 0.0, false, [])

  /**
   The invariant of a run over `requests`: the cursor is within the
   requests, the global entropy within [0.1, 1], memory holds only
   signatures of processed requests (of any processed request: the bound
   does not single out the redundant ones, which store nothing), the
   basic total is 10 per processed request and the optimized total lies
   between 1 per request and the basic total, strictly below it once
   anything was processed.
   */
  ghost predicate Invariant(requests: seq<string>, log2: real -> real, r: Run)
  {
    && r.cursor <= |requests|
    && EntropyFloor <= r.entropy <= InitialEntropy
    && r.memory <= Signatures(requests[..r.cursor], log2)
    && r.basicEnergy == EnergyPerRequest * r.cursor
    && r.cursor as real * RedundantCost <= r.optimizedEnergy <= r.basicEnergy as real
    && (r.cursor > 0 ==> r.optimizedEnergy < r.basicEnergy as real)
    && |r.logs| <= MaxLogs
  }

  /**
   One call of the stepper. Once the cursor reached the end it only stops
   and logs completion; otherwise it serves the requests
   [cursor, min(cursor + 10, total)) in order, adds 10 per request to the
   basic total and the batch's cost to the optimized total, moves the
   cursor to the slice end, logs the slice's last request with the global
   entropy and stops when that was the end.
   */
  function Tick(requests: seq<string>, log2: real -> real, r: Run): (t: Run)
    ensures t.cursor == NextCursor(r.cursor, |requests|)
  {
    var total := |requests|;
    if r.cursor >= total then
      r.(running := false, logs := PushLog(r.logs, CompleteLog))
    else
      var endIndex := Min(r.cursor + BatchSize, total);
      var b := ServeBatch(Optimized(r.memory, r.entropy, 0.0), requests[r.cursor..endIndex], log2);
      Run(endIndex, b.memory, b.entropy,
          r.basicEnergy + EnergyPerRequest * (endIndex - r.cursor),
          r.optimizedEnergy + b.energy,
          r.running && endIndex < total,
          PushLog(r.logs, ProcessedLog(requests[endIndex - 1], b.entropy)))
  }

  /** The fresh state satisfies the invariant. */
  lemma FreshRunInvariant(requests: seq<string>, log2: real -> real)
    ensures Invariant(requests, log2, FreshRun)
  {
    assert requests[..0] == [];
  }

  /** What a batch over [c0, c1) does to the invariant's memory, entropy and energy clauses. */
  lemma BatchKeepsInvariant(requests: seq<string>, log2: real -> real, c0: nat, c1: nat,
                            memory: set<string>, entropy: real, optimized: real)
    requires c0 < c1 <= |requests|
    requires EntropyFloor <= entropy <= InitialEntropy
    requires memory <= Signatures(requests[..c0], log2)
    requires c0 as real * RedundantCost <= optimized <= (EnergyPerRequest * c0) as real
    ensures var b := ServeBatch(Optimized(memory, entropy, 0.0), requests[c0..c1], log2);
      && EntropyFloor <= b.entropy <= InitialEntropy
      && b.memory <= Signatures(requests[..c1], log2)
      && c1 as real * RedundantCost <= optimized + b.energy < (EnergyPerRequest * c1) as real
  {
    CostHint(c0);
    CostHint(c1);
    CostHint(c1 - c0);
    var s := Optimized(memory, entropy, 0.0);
    ServeBatchState(s, requests[c0..c1], log2);
    ServeBatchEnergy(s, requests[c0..c1], log2);
    SignaturesSplit(requests, log2, c0, c1);
  }

  /** Every tick keeps the invariant. */
  lemma TickKeepsInvariant(requests: seq<string>, log2: real -> real, r: Run)
    requires Invariant(requests, log2, r)
    ensures Invariant(requests, log2, Tick(requests, log2, r))
  {
    if r.cursor < |requests| {
      var endIndex := Min(r.cursor + BatchSize, |requests|);
      CostHint(r.cursor);
      CostHint(endIndex);
      CostHint(endIndex - r.cursor);
      BatchKeepsInvariant(requests, log2, r.cursor, endIndex, r.memory, r.entropy, r.optimizedEnergy);
    }
  }

  /**
   A tick that processes requests adds 10 per request to the basic total
   and between 1 and 10 per request to the optimized one, strictly less
   than the basic addition; a tick after the end changes neither total,
   the memory nor the entropy. Every tick keeps the memory it had and never
   raises the global entropy.
   */
  lemma TickEnergy(requests: seq<string>, log2: real -> real, r: Run)
    requires Invariant(requests, log2, r)
    ensures var t := Tick(requests, log2, r);
      && (r.cursor < |requests| ==>
            && t.basicEnergy - r.basicEnergy == 10 * (t.cursor - r.cursor)
            && (t.cursor - r.cursor) as real <= t.optimizedEnergy - r.optimizedEnergy
            && t.optimizedEnergy - r.optimizedEnergy < (10 * (t.cursor - r.cursor)) as real)
      && (r.cursor >= |requests| ==>
            t.basicEnergy == r.basicEnergy && t.optimizedEnergy == r.optimizedEnergy &&
            t.memory == r.memory && t.entropy == r.entropy && !t.running)
    ensures r.memory <= Tick(requests, log2, r).memory && Tick(requests, log2, r).entropy <= r.entropy
  {
    if r.cursor < |requests| {
      var endIndex := Min(r.cursor + BatchSize, |requests|);
      var s := Optimized(r.memory, r.entropy, 0.0);
      CostHint(endIndex - r.cursor);
      ServeBatchEnergy(s, requests[r.cursor..endIndex], log2);
      ServeBatchState(s, requests[r.cursor..endIndex], log2);
    }
  }

  /** A tick keeps running only while it is running already and the end is not reached. */
  lemma TickRunning(requests: seq<string>, log2: real -> real, r: Run)
    ensures Tick(requests, log2, r).running <==> r.running && NextCursor(r.cursor, |requests|) < |requests|
  {
  }

  /** `n` ticks from a state. */
  function Ticks(requests: seq<string>, log2: real -> real, r: Run, n: nat): Run
  {
    if n == 0 then r else Tick(requests, log2, Ticks(requests, log2, r, n - 1))
  }

  /** After `n` ticks from a fresh run the invariant holds and the cursor stands at min(10 n, total). */
  lemma {:induction false} TicksFromFresh(requests: seq<string>, log2: real -> real, n: nat)
    ensures Invariant(requests, log2, Ticks(requests, log2, FreshRun, n))
    ensures Ticks(requests, log2, FreshRun, n).cursor == CursorAfter(n, |requests|)
  {
    if n == 0 {
      FreshRunInvariant(requests, log2);
    } else {
      TicksFromFresh(requests, log2, n - 1);
      TickKeepsInvariant(requests, log2, Ticks(requests, log2, FreshRun, n - 1));
    }
  }

  /** The optimized policy's part of a run: memory, global entropy and optimized total. */
  function PolicyOf(r: Run): Optimized
  {
    Optimized(r.memory, r.entropy, r.optimizedEnergy)
  }

  /** The cursor after `n` ticks from a fresh run. */
  lemma {:induction false} TicksCursor(requests: seq<string>, log2: real -> real, n: nat)
    ensures Ticks(requests, log2, FreshRun, n).cursor == CursorAfter(n, |requests|)
  {
    if n > 0 {
      TicksCursor(requests, log2, n - 1);
    }
  }

  /** One tick serves the next slice after the requests already served, in order. */
  lemma TickServesInOrder(requests: seq<string>, log2: real -> real, r: Run)
    requires r.cursor <= |requests|
    requires PolicyOf(r) == ServeBatch(Initial, requests[..r.cursor], log2)
    ensures PolicyOf(Tick(requests, log2, r))
            == ServeBatch(Initial, requests[..NextCursor(r.cursor, |requests|)], log2)
  {
    var c := r.cursor;
    if c < |requests| {
      var e := Min(c + BatchSize, |requests|);
      var slice := requests[c..e];
      ServeBatchShift(PolicyOf(r), slice, log2);
      ServeBatchAppend(Initial, requests[..c], slice, log2);
      assert requests[..c] + slice == requests[..e];
    }
  }

  /**
   Batching changes nothing: after `n` ticks from a fresh run, memory, the
   global entropy and the optimized total are those of serving the requests
   processed so far one at a time, in order, from the initial state.
   */
  lemma {:induction false} TicksServeInOrder(requests: seq<string>, log2: real -> real, n: nat)
    ensures PolicyOf(Ticks(requests, log2, FreshRun, n))
            == ServeBatch(Initial, requests[..CursorAfter(n, |requests|)], log2)
  {
    if n == 0 {
      assert requests[..0] == [];
    } else {
      TicksServeInOrder(requests, log2, n - 1);
      TicksCursor(requests, log2, n - 1);
      TickServesInOrder(requests, log2, Ticks(requests, log2, FreshRun, n - 1));
    }
  }

  /**
   From a started run, the cursor moves as from a fresh one and the run
   keeps running exactly until the tick whose cursor reaches the end.
   */
  lemma {:induction false} StartedTicks(requests: seq<string>, log2: real -> real, n: nat)
    requires |requests| > 0
    ensures Ticks(requests, log2, FreshRun.(running := true), n).cursor == CursorAfter(n, |requests|)
    ensures Ticks(requests, log2, FreshRun.(running := true), n).running <==> CursorAfter(n, |requests|) < |requests|
  {
    if n > 0 {
      StartedTicks(requests, log2, n - 1);
      TickRunning(requests, log2, Ticks(requests, log2, FreshRun.(running := true), n - 1));
    }
  }

  /**
   A whole run over the 1000 generated requests: after 100 ticks every
   request is processed, the basic policy spent 10000 and the optimized
   policy at least 1000 and strictly less than 10000. A started run is still
   running after 99 ticks and has stopped after the 100th.
   */
  lemma FullRun(requests: seq<string>, log2: real -> real)
    requires |requests| == TotalRequestsBatchSize * |BaseRequests|
    ensures var t := Ticks(requests, log2, FreshRun, 100);
      && t.cursor == |requests|
      && t.basicEnergy == 10000
      && 1000.0 <= t.optimizedEnergy < 10000.0
    ensures Ticks(requests, log2, FreshRun.(running := true), 99).running
    ensures !Ticks(requests, log2, FreshRun.(running := true), 100).running
  {
    TicksFromFresh(requests, log2, 100);
    FullRunCalls();
    CostHint(1000);
    StartedTicks(requests, log2, 99);
    StartedTicks(requests, log2, 100);
  }

  // ---------------------------------------------------------------------------
  // The stepper
  // ---------------------------------------------------------------------------

  class Simulation {
    /** The generated requests. */
    const requests: seq<string>
    /** The base-2 logarithm the entropy estimate uses. */
    const log2: real -> real

    var cursor: nat
    var memory: set<string>
    var entropy: real
    var basicEnergy: nat
    var optimizedEnergy: real
    var running: bool
    var logs: seq<LogEntry>

    /** The fields as a value. */
    ghost function State(): Run
      reads this
    {
      Run(cursor, memory, entropy, basicEnergy, optimizedEnergy, running, logs)
    }

    ghost predicate Valid()
      reads this
    {
      Invariant(requests, log2, State())
    }

    constructor (log2: real -> real)
      ensures Valid() && State() == FreshRun
      ensures this.log2 == log2
      ensures |requests| == 1000 && forall k :: 0 <= k < |requests| ==> requests[k] == RequestAt(k)
    {
      var all := GenerateRequests();
      requests := all;
      this.log2 := log2;
      cursor := 0;
      memory := {};
      entropy := InitialEntropy;
      basicEnergy := 0;
      optimizedEnergy := 0.0;
      running := false;
      logs := [];
      new;
      FreshRunInvariant(requests, log2);
    }

    /** Share of the requests processed, in percent. */
    function Progress(): (p: real)
      reads this
      requires Valid() && |requests| > 0
      ensures 0.0 <= p <= 100.0
      ensures p == 100.0 <==> cursor == |requests|
    {
      ProgressBounds(cursor, |requests|);
      cursor as real / |requests| as real * 100.0
    }

    static lemma ProgressBounds(cursor: nat, total: nat)
      requires 0 < total && cursor <= total
      ensures 0.0 <= cursor as real / total as real * 100.0 <= 100.0
      ensures cursor as real / total as real * 100.0 == 100.0 <==> cursor == total
    {
      var q := cursor as real / total as real;
      assert q * total as real == cursor as real;
      if cursor == total {
        assert q == 1.0;
      } else {
        assert q * total as real != 1.0 * total as real;
      }
    }

    /** Adds a log line, keeping the newest five. */
    method AddLog(entry: LogEntry)
      requires Valid()
      modifies this`logs
      ensures Valid()
      ensures logs == PushLog(old(logs), entry)
    {
      logs := PushLog(logs, entry);
    }

    /** Returns to the fresh state: cursor 0, entropy 1, memory empty, totals 0, stopped, no log. */
    method Reset()
      modifies this
      ensures Valid() && State() == FreshRun
    {
      running := false;
      basicEnergy := 0;
      optimizedEnergy := 0.0;
      logs := [];
      cursor := 0;
      entropy := InitialEntropy;
      memory := {};
      FreshRunInvariant(requests, log2);
    }

    /**
     Starts a run; does nothing while one is running, and first resets a
     run whose cursor reached the end.
     */
    method Start()
      requires Valid()
      modifies this
      ensures Valid()
      ensures old(running) ==> unchanged(this)
      ensures !old(running) && old(cursor) >= |requests| ==> State() == FreshRun.(running := true)
      ensures !old(running) && old(cursor) < |requests| ==> State() == old(State()).(running := true)
    {
      if running {
        return;
      }
      if cursor >= |requests| {
        Reset();
      }
      running := true;
    }

    static method ServeRequest(log2: real -> real, memory0: set<string>, entropy0: real, req: string)
      returns (memory: set<string>, entropy: real, energyForThisReq: real)
      ensures Optimized(memory, entropy, energyForThisReq)
              == ServeBatch(Optimized(memory0, entropy0, 0.0), [req], log2)
    {
      ServeBatchSingle(Optimized(memory0, entropy0, 0.0), req, log2);
      memory, entropy := memory0, entropy0;
      if IsRedundant(req, memory) {
        energyForThisReq := RedundantCost;
      } else {
        var textEntropy := EntropyPort(req, log2);
        entropy := Decay(entropy);
        var signature := Compress(req, textEntropy);
        memory := memory + {signature};
        energyForThisReq := FreshCost(entropy);
      }
    }

    static method ServeSlice(requests: seq<string>, log2: real -> real, memory0: set<string>, entropy0: real, from: nat, to: nat)
      returns (memory: set<string>, entropy: real, localBasicEnergy: nat, localOptimizedEnergy: real)
      requires from <= to <= |requests|
      ensures localBasicEnergy == EnergyPerRequest * (to - from)
      ensures Optimized(memory, entropy, localOptimizedEnergy)
              == ServeBatch(Optimized(memory0, entropy0, 0.0), requests[from..to], log2)
    {
      memory, entropy := memory0, entropy0;
      localBasicEnergy := 0;
      localOptimizedEnergy := 0.0;
      ghost var start := Optimized(memory, entropy, 0.0);
      var i := from;
      while i < to
        invariant from <= i <= to
        invariant localBasicEnergy == EnergyPerRequest * (i - from)
        invariant Optimized(memory, entropy, localOptimizedEnergy)
                  == ServeBatch(start, requests[from..i], log2)
      {
        var req := requests[i];
        ghost var served := Optimized(memory, entropy, localOptimizedEnergy);
        localBasicEnergy := localBasicEnergy + EnergyPerRequest;
        var energyForThisReq;
        memory, entropy, energyForThisReq := ServeRequest(log2, memory, entropy, req);
        localOptimizedEnergy := localOptimizedEnergy + energyForThisReq;
        ServeBatchShift(served, [req], log2);
        ServeBatchExtend(start, requests, from, i, log2);
        i := i + 1;
      }
    }

    /** The stepper once the cursor reached the end: it stops and logs completion. */
    method FinishRun()
      requires Valid() && cursor >= |requests|
      modifies this
      ensures State() == Tick(requests, log2, old(State()))
    {
      running := false;
      AddLog(CompleteLog);
    }

    /** The stepper before the end, on values: serves the next slice and moves the cursor past it. */
    static method Advance(requests: seq<string>, log2: real -> real, r: Run) returns (t: Run)
      requires r.cursor < |requests|
      ensures t == Tick(requests, log2, r)
    {
      var total := |requests|;
      var endIndex := Min(r.cursor + BatchSize, total);
      var memory, entropy, localBasicEnergy, localOptimizedEnergy :=
        ServeSlice(requests, log2, r.memory, r.entropy, r.cursor, endIndex);
      var lastReq := requests[endIndex - 1];
      var running := r.running;
      if endIndex >= total {
        running := false;
      }
      t := Run(endIndex, memory, entropy, r.basicEnergy + localBasicEnergy,
               r.optimizedEnergy + localOptimizedEnergy, running,
               PushLog(r.logs, ProcessedLog(lastReq, entropy)));
    }

    /** The stepper before the end: serves the next slice and moves the cursor past it. */
    method AdvanceRun()
      requires cursor < |requests|
      modifies this
      ensures State() == Tick(requests, log2, old(State()))
    {
      var t := Advance(requests, log2, Run(cursor, memory, entropy, basicEnergy, optimizedEnergy, running, logs));
      cursor, memory, entropy, basicEnergy, optimizedEnergy, running, logs :=
        t.cursor, t.memory, t.entropy, t.basicEnergy, t.optimizedEnergy, t.running, t.logs;
    }

    /** One call of the stepper: the new state is `Tick` of the old one, so the invariant is kept. */
    method ProcessBatch()
      requires Valid()
      modifies this
      ensures State() == Tick(requests, log2, old(State()))
      ensures Valid()
    {
      TickKeepsInvariant(requests, log2, State());
      if cursor >= |requests| {
        FinishRun();
      } else {
        AdvanceRun();
      }
    }
  }
}
