/** The memory budget shared by all modules of a store, and what a failed call says about it. */
module MemoryLimits {
  import opened Wrappers
  import opened RustInts

  const U32_COUNT := 0x1_0000_0000

  /** MemoryLimiter; the counter is a u32 that wraps, because the release profile checks no overflow. */
  datatype Limiter = Limiter(remaining: u64, rejects: u32)

  function TryAlloc(st: Limiter, amount: u64): (bool, Limiter) {
    if amount <= st.remaining then (true, Limiter(st.remaining - amount, st.rejects))
    else (false, Limiter(st.remaining, (st.rejects + 1) % U32_COUNT))
  }

  /** The engine's kinds of errors, as far as they are told apart. */
  datatype CoreError = ITInstructionError | HostImportError | WasmBackendError | OtherError

  datatype CoreResult = Finished | Failed(error: CoreError)

  /** What Marine makes of an engine's error. */
  datatype Report = EngineError(error: CoreError) | HighProbabilityOOM(rejects: u32, original: CoreError)

  predicate MayBeOom(error: CoreError) {
    error.ITInstructionError? || error.HostImportError? || error.WasmBackendError?
  }

  /** check_for_oom_and_convert_error; a backend without statistics reports None. */
  function CheckForOom(stats: Option<u32>, error: CoreError): Report {
    match stats
    case None => EngineError(error)
    case Some(rejects) =>
      if rejects == 0 then EngineError(error)
      else
        match error
        case ITInstructionError => HighProbabilityOOM(rejects, error)
        case HostImportError => HighProbabilityOOM(rejects, error)
        case WasmBackendError => HighProbabilityOOM(rejects, error)
        case OtherError => EngineError(error)
  }

  /** The size a table grows by: (desired - current) as usize times the width of a pointer, in usize. */
  function TableBytes(current: u32, desired: u32, width: nat): u64
    requires current <= desired && (width == 4 || width == 8)
  {
    if width == 4 then (desired - current) * 4 % U32_COUNT else (desired - current) * 8
  }

  // ----- Histories -----

  /** What happens to a store: growth requests of any module, and ends of calls. */
  datatype Event = Request(amount: u64) | EndOfCall(result: CoreResult)

  function Step(st: Limiter, e: Event): Limiter {
    match e
    case Request(amount) => TryAlloc(st, amount).1
    case EndOfCall(result) => if result.Finished? then st.(rejects := 0) else st
  }

  function Run(st: Limiter, events: seq<Event>): Limiter {
    if events == [] then st else Step(Run(st, events[..|events| - 1]), events[|events| - 1])
  }

  /** The bytes granted in a history under `limit`: those of every request that still fitted. */
  function Granted(limit: nat, events: seq<Event>): (g: nat)
    ensures g <= limit
  {
    if events == [] then 0
    else
      var before, last := Granted(limit, events[..|events| - 1]), events[|events| - 1];
      if last.Request? && last.amount <= limit - before then before + last.amount else before
  }

  /** Request `i` of the history asks for more than what is left at that point. */
  predicate Refused(limit: nat, events: seq<Event>, i: nat) {
    i < |events| && events[i].Request? && events[i].amount > limit - Granted(limit, events[..i])
  }

  /** Refused requests from event `from` on. */
  function RefusedSince(limit: nat, events: seq<Event>, from: nat): nat
    decreases |events| - from
  {
    if from >= |events| then 0 else (if Refused(limit, events, from) then 1 else 0) + RefusedSince(limit, events, from + 1)
  }

  /** Right behind the last call that finished; 0 when there is none. */
  function LastClear(events: seq<Event>): (k: nat)
    ensures k <= |events|
  {
    if events == [] then 0
    else if events[|events| - 1] == EndOfCall(Finished) then |events|
    else LastClear(events[..|events| - 1])
  }

  lemma {:induction false} RefusedSnoc(limit: nat, events: seq<Event>, e: Event, from: nat)
    requires from <= |events|
    ensures RefusedSince(limit, events + [e], from) ==
            RefusedSince(limit, events, from) + (if Refused(limit, events + [e], |events|) then 1 else 0)
    decreases |events| - from
  {
    var longer := events + [e];
    if from < |events| {
      assert longer[..from] == events[..from];
      RefusedSnoc(limit, events, e, from + 1);
    } else {
      assert RefusedSince(limit, longer, from + 1) == 0;
    }
  }

  lemma {:induction false} RemainingIsRest(limit: u64, events: seq<Event>)
    ensures Run(Limiter(limit, 0), events).remaining + Granted(limit, events) == limit
  {
    if events != [] { RemainingIsRest(limit, events[..|events| - 1]); }
  }

  lemma CountWraps(n: nat)
    ensures (n % U32_COUNT + 1) % U32_COUNT == (n + 1) % U32_COUNT
  {
  }

  lemma {:induction false} RejectsAreCounted(limit: u64, events: seq<Event>)
    ensures Run(Limiter(limit, 0), events).rejects == RefusedSince(limit, events, LastClear(events)) % U32_COUNT
  {
    if events != [] {
      var init, last := events[..|events| - 1], events[|events| - 1];
      RejectsAreCounted(limit, init);
      RemainingIsRest(limit, init);
      assert init + [last] == events && events[..|init|] == init;
      if last == EndOfCall(Finished) {
        assert RefusedSince(limit, events, |events|) == 0;
      } else {
        RefusedSnoc(limit, init, last, LastClear(init));
        CountWraps(RefusedSince(limit, init, LastClear(init)));
      }
    }
  }

  /** Over every history, from all modules and in any order: what was granted and what remains make up
      the limit, and the counter is the number of requests refused since the last finished call, as
      far as 32 bits can tell. */
  lemma BudgetIsConserved(limit: u64, events: seq<Event>)
    ensures var st := Run(Limiter(limit, 0), events);
            && st.remaining + Granted(limit, events) == limit
            && st.rejects == RefusedSince(limit, events, LastClear(events)) % U32_COUNT
  {
    RemainingIsRest(limit, events);
    RejectsAreCounted(limit, events);
  }

  /** A request is refused exactly when it exceeds what remains, and then changes only the counter. */
  lemma RefusalIsExact(limit: u64, events: seq<Event>, amount: u64)
    ensures var st := Run(Limiter(limit, 0), events);
            var (ok, after) := TryAlloc(st, amount);
            && (ok <==> Granted(limit, events) + amount <= limit)
            && (ok <==> !Refused(limit, events + [Request(amount)], |events|))
            && (ok ==> after == Limiter(st.remaining - amount, st.rejects))
            && (!ok ==> after == st.(rejects := (st.rejects + 1) % U32_COUNT))
            && after == Run(Limiter(limit, 0), events + [Request(amount)])
  {
    BudgetIsConserved(limit, events);
    var longer := events + [Request(amount)];
    assert longer[..|events|] == events;
  }

  /** A failed call is reported as probably out of memory exactly when its error is one of three kinds
      and some request was refused since the last finished call (or since the store was made), unless
      the number of refusals is a multiple of 2^32. */
  lemma OomReportedExactly(limit: u64, events: seq<Event>, error: CoreError)
    ensures var refused := RefusedSince(limit, events, LastClear(events));
            var reported := CheckForOom(Some(Run(Limiter(limit, 0), events).rejects), error);
            && (reported.HighProbabilityOOM? <==> MayBeOom(error) && refused % U32_COUNT != 0)
            && (refused < U32_COUNT ==> (reported.HighProbabilityOOM? <==> MayBeOom(error) && refused > 0))
            && (reported.HighProbabilityOOM? ==> reported.original == error && reported.rejects == refused % U32_COUNT)
            && (!reported.HighProbabilityOOM? ==> reported == EngineError(error))
  {
    BudgetIsConserved(limit, events);
  }

  // ----- The objects -----

  class MemoryLimiter {
    var remainingMemory: u64
    var allocationRejects: u32

    function Value(): Limiter
      reads this
    {
      Limiter(remainingMemory, allocationRejects)
    }

    constructor (maxTotalMemory: u64)
      ensures Value() == Limiter(maxTotalMemory, 0)
    {
      remainingMemory, allocationRejects := maxTotalMemory, 0;
    }

    method CountAllocationReject()
      modifies this
      ensures Value() == old(Value()).(rejects := (old(allocationRejects) + 1) % U32_COUNT)
    {
      allocationRejects := (allocationRejects + 1) % U32_COUNT;
    }

    method TryAllocate(amount: u64) returns (ok: bool)
      modifies this
      ensures (ok, Value()) == TryAlloc(old(Value()), amount)
      ensures Value() == Step(old(Value()), Request(amount))
    {
      if amount <= remainingMemory {
        remainingMemory := remainingMemory - amount;
        return true;
      }
      CountAllocationReject();
      return false;
    }

    method MemoryGrowing(current: u64, desired: u64) returns (ok: bool)
      requires current <= desired
      modifies this
      ensures ok <==> desired - current <= old(remainingMemory)
      ensures Value() == Step(old(Value()), Request(desired - current))
    {
      ok := TryAllocate(desired - current);
    }

    method TableGrowing(current: u32, desired: u32, width: nat) returns (ok: bool)
      requires current <= desired && (width == 4 || width == 8)
      modifies this
      ensures ok <==> TableBytes(current, desired, width) <= old(remainingMemory)
      ensures Value() == Step(old(Value()), Request(TableBytes(current, desired, width)))
    {
      ok := TryAllocate(TableBytes(current, desired, width));
    }

    method ClearAllocationStats()
      modifies this
      ensures Value() == old(Value()).(rejects := 0)
    {
      allocationRejects := 0;
    }
  }

  lemma RunSnoc(st: Limiter, events: seq<Event>, e: Event)
    ensures Run(st, events + [e]) == Step(Run(st, events), e)
  {
  }

  function Requests(amounts: seq<u64>): (r: seq<Event>)
    ensures |r| == |amounts|
  {
    seq(|amounts|, i requires 0 <= i < |amounts| => Request(amounts[i]))
  }

  lemma RequestsSnoc(amounts: seq<u64>, k: nat)
    requires k < |amounts|
    ensures Requests(amounts[..k + 1]) == Requests(amounts[..k]) + [Request(amounts[k])]
  {
  }
}
