/** Token and memory budgets charged together, by any number of threads over two shared atomic counters. */
module Budgets {
  import opened Wrappers

  const U64_MAX := 0xFFFF_FFFF_FFFF_FFFF

  // ----- one counter, called from one thread -----

  function SaturatingSub(a: nat, b: nat): nat {
    if a < b then 0 else a - b
  }

  /** A sum as the program's 64-bit error can show it. */
  function Capped(n: nat): (c: nat)
    ensures c <= n && c <= U64_MAX && (c == n || c == U64_MAX)
  {
    if n <= U64_MAX then n else U64_MAX
  }

  /** The decision a charge takes on the value it has read. */
  function NextUse(budget: nat, current: nat, count: nat): Result<nat, nat> {
    if current + count > U64_MAX then Err(U64_MAX)
    else if current + count > budget then Err(current + count)
    else Ok(current + count)
  }

  class BudgetCounter {
    var used: nat
    const budget: nat

    ghost predicate Valid()
      reads this
    {
      budget <= U64_MAX && if budget == 0 then used == 0 else used <= budget
    }

    constructor (budget: nat)
      requires budget <= U64_MAX
      ensures Valid() && used == 0 && this.budget == budget
    {
      this.used, this.budget := 0, budget;
    }

    /** The compare-exchange loop, with `spurious` failures of the weak exchange before it is decided. */
    method Record(count: nat, spurious: nat) returns (r: Result<(), nat>)
      requires Valid() && count <= U64_MAX
      modifies this
      ensures Valid()
      ensures r.Ok? <==> budget == 0 || old(used) + count <= budget
      ensures used == if r.Ok? && budget != 0 then old(used) + count else old(used)
      ensures r.Err? ==> r.error == Capped(old(used) + count)
    {
      if budget == 0 {
        return Ok(());
      }
      var current, left := used, spurious;
      while true
        invariant current == used == old(used)
        decreases left
      {
        var next := NextUse(budget, current, count);
        if next.Err? {
          return Err(next.error);
        }
        if left == 0 {
          used := next.value;
          return Ok(());
        }
        current, left := used, left - 1;
      }
    }

    method Release(count: nat, spurious: nat)
      requires Valid()
      modifies this
      ensures Valid() && used == if count <= old(used) then old(used) - count else 0
    {
      var current, left := used, spurious;
      while left > 0
        invariant current == used == old(used)
      {
        current, left := used, left - 1;
      }
      used := SaturatingSub(current, count);
    }
  }

  class CognitiveBudgets {
    const tokens: BudgetCounter
    const memory: BudgetCounter

    ghost predicate Valid()
      reads this, tokens, memory
    {
      tokens != memory && tokens.Valid() && memory.Valid()
    }

    constructor (tokenBudget: nat, memoryBudget: nat)
      requires tokenBudget <= U64_MAX && memoryBudget <= U64_MAX
      ensures Valid() && fresh(tokens) && fresh(memory)
      ensures tokens.budget == tokenBudget && memory.budget == memoryBudget && tokens.used == memory.used == 0
    {
      tokens := new BudgetCounter(tokenBudget);
      memory := new BudgetCounter(memoryBudget);
    }

    /** Both charges or neither; the ending says which budget refused. */
    method RecordUsage(count: nat, bytes: nat, spurious: nat) returns (ending: Ending)
      requires Valid() && count <= U64_MAX && bytes <= U64_MAX
      modifies tokens, memory
      ensures Valid()
      ensures ending == Charged <==> (tokens.budget == 0 || old(tokens.used) + count <= tokens.budget)
                                     && (memory.budget == 0 || old(memory.used) + bytes <= memory.budget)
      ensures tokens.used == old(tokens.used) + if ending == Charged && tokens.budget != 0 then count else 0
      ensures memory.used == old(memory.used) + if ending == Charged && memory.budget != 0 then bytes else 0
      ensures tokens.budget != 0 && old(tokens.used) + count > tokens.budget ==>
                ending == TokensRefused(Capped(old(tokens.used) + count))
      ensures ending != Charged && (tokens.budget == 0 || old(tokens.used) + count <= tokens.budget) ==>
                ending == MemoryRefused(Capped(old(memory.used) + bytes))
      ensures ending == SoloEnding(tokens.budget, memory.budget, old(tokens.used), old(memory.used), count, bytes)
    {
      var paid := tokens.Record(count, spurious);
      if paid.Err? {
        return TokensRefused(paid.error);
      }
      var charged := memory.Record(bytes, spurious);
      if charged.Err? {
        tokens.Release(count, spurious);
        return MemoryRefused(charged.error);
      }
      return Charged;
    }

    method ReleaseMemory(bytes: nat, spurious: nat)
      requires Valid()
      modifies memory
      ensures Valid() && memory.used == if bytes <= old(memory.used) then old(memory.used) - bytes else 0
    {
      memory.Release(bytes, spurious);
    }
  }

  /** How a call of `record_usage` ends: no other thread's step comes in between. */
  function SoloEnding(tokenBudget: nat, memoryBudget: nat, usedTokens: nat, usedMemory: nat, count: nat,
                      bytes: nat): Ending {
    var paid := if tokenBudget == 0 then Ok(0) else NextUse(tokenBudget, usedTokens, count);
    var charged := if memoryBudget == 0 then Ok(0) else NextUse(memoryBudget, usedMemory, bytes);
    if paid.Err? then TokensRefused(paid.error)
    else if charged.Err? then MemoryRefused(charged.error)
    else Charged
  }

  // ----- any number of threads -----

  /** How a thread's last call ended. */
  datatype Ending = NoCall | Charged | TokensRefused(used: nat) | MemoryRefused(used: nat) | Released

  /** Where a thread is in `record_usage` or `release_memory`; `current` is the value its loop has read. */
  datatype Pc =
    | Idle(ending: Ending)
    | TokenTry(tokens: nat, memory: nat, current: nat)
    | MemoryLoad(tokens: nat, memory: nat)
    | MemoryTry(tokens: nat, memory: nat, current: nat)
    | RollbackLoad(tokens: nat, refused: nat)
    | RollbackTry(tokens: nat, refused: nat, current: nat)
    | ReleaseTry(bytes: nat, current: nat)

  /**
   * The two counters, and the charges granted and not given back. The grants belong to
   * nobody: any thread may release what another one was granted.
   */
  datatype Shared = Shared(
    tokenBudget: nat, memoryBudget: nat, usedTokens: nat, usedMemory: nat,
    grantedTokens: nat, grantedMemory: nat, threads: seq<Pc>)

  /** What the scheduler lets a thread do next. */
  datatype Move =
    | BeginUsage(tokens: nat, memory: nat)
    | BeginRelease(bytes: nat)
    | Continue(spurious: bool)

  function Goto(s: Shared, i: nat, pc: Pc): Shared
    requires i < |s.threads|
  {
    s.(threads := s.threads[i := pc])
  }

  /** A successful charge is recorded only for a budget that is not unlimited. */
  function Granted(budget: nat, amount: nat): nat {
    if budget == 0 then 0 else amount
  }

  function Grant(s: Shared, i: nat, tokens: nat, memory: nat): Shared
    requires i < |s.threads|
  {
    Goto(s, i, Idle(Charged)).(grantedTokens := s.grantedTokens + Granted(s.tokenBudget, tokens),
                               grantedMemory := s.grantedMemory + Granted(s.memoryBudget, memory))
  }

  /** One atomic step of thread `i`. A weak exchange may fail although the value has not changed. */
  function Step(s: Shared, i: nat, move: Move): Shared
    requires i < |s.threads|
  {
    match (s.threads[i], move)
    case (Idle(_), BeginUsage(tokens, memory)) =>
      if tokens > U64_MAX || memory > U64_MAX then s
      else if s.tokenBudget == 0 then Goto(s, i, MemoryLoad(tokens, memory))
      else Goto(s, i, TokenTry(tokens, memory, s.usedTokens))
    case (Idle(_), BeginRelease(bytes)) =>
      if bytes > s.grantedMemory then s
      else Goto(s, i, ReleaseTry(bytes, s.usedMemory)).(grantedMemory := s.grantedMemory - bytes)
    case (TokenTry(tokens, memory, current), Continue(spurious)) =>
      var next := NextUse(s.tokenBudget, current, tokens);
      if next.Err? then Goto(s, i, Idle(TokensRefused(next.error)))
      else if s.usedTokens == current && !spurious then
        Goto(s, i, MemoryLoad(tokens, memory)).(usedTokens := next.value)
      else Goto(s, i, TokenTry(tokens, memory, s.usedTokens))
    case (MemoryLoad(tokens, memory), Continue(_)) =>
      if s.memoryBudget == 0 then Grant(s, i, tokens, memory)
      else Goto(s, i, MemoryTry(tokens, memory, s.usedMemory))
    case (MemoryTry(tokens, memory, current), Continue(spurious)) =>
      var next := NextUse(s.memoryBudget, current, memory);
      if next.Err? then Goto(s, i, RollbackLoad(tokens, next.error))
      else if s.usedMemory == current && !spurious then Grant(s, i, tokens, memory).(usedMemory := next.value)
      else Goto(s, i, MemoryTry(tokens, memory, s.usedMemory))
    case (RollbackLoad(tokens, refused), Continue(_)) =>
      Goto(s, i, RollbackTry(tokens, refused, s.usedTokens))
    case (RollbackTry(tokens, refused, current), Continue(spurious)) =>
      if s.usedTokens == current && !spurious then
        Goto(s, i, Idle(MemoryRefused(refused))).(usedTokens := SaturatingSub(current, tokens))
      else Goto(s, i, RollbackTry(tokens, refused, s.usedTokens))
    case (ReleaseTry(bytes, current), Continue(spurious)) =>
      if s.usedMemory == current && !spurious then
        Goto(s, i, Idle(Released)).(usedMemory := SaturatingSub(current, bytes))
      else Goto(s, i, ReleaseTry(bytes, s.usedMemory))
    case _ => s
  }

  /** The token charge a thread has made and neither settled nor rolled back. */
  function TokensInFlight(pc: Pc): nat {
    match pc
    case MemoryLoad(tokens, _) => tokens
    case MemoryTry(tokens, _, _) => tokens
    case RollbackLoad(tokens, _) => tokens
    case RollbackTry(tokens, _, _) => tokens
    case _ => 0
  }

  /** The memory a thread is about to give back. */
  function MemoryInFlight(pc: Pc): nat {
    match pc
    case ReleaseTry(bytes, _) => bytes
    case _ => 0
  }

  function Sum(threads: seq<Pc>, f: Pc -> nat): nat {
    if threads == [] then 0 else Sum(threads[..|threads| - 1], f) + f(threads[|threads| - 1])
  }

  lemma {:induction false} SumUpdate(threads: seq<Pc>, f: Pc -> nat, i: nat, pc: Pc)
    requires i < |threads|
    ensures Sum(threads[i := pc], f) + f(threads[i]) == Sum(threads, f) + f(pc)
    ensures f(threads[i]) <= Sum(threads, f)
  {
    var n := |threads| - 1;
    if i == n {
      assert threads[i := pc][..n] == threads[..n];
    } else {
      SumUpdate(threads[..n], f, i, pc);
      assert threads[i := pc][..n] == threads[..n][i := pc];
    }
  }

  lemma {:induction false} SumZero(threads: seq<Pc>, f: Pc -> nat)
    requires forall pc :: pc in threads ==> f(pc) == 0
    ensures Sum(threads, f) == 0
  {
    if threads != [] {
      SumZero(threads[..|threads| - 1], f);
    }
  }

  /** Granted, or charged by a call that is still under way. */
  function OutstandingTokens(s: Shared): nat {
    s.grantedTokens + Sum(s.threads, TokensInFlight)
  }

  function OutstandingMemory(s: Shared): nat {
    s.grantedMemory + Sum(s.threads, MemoryInFlight)
  }

  predicate UseIsExact(budget: nat, used: nat, outstanding: nat) {
    budget <= U64_MAX && if budget == 0 then used == 0 else used == outstanding && used <= budget
  }

  /** Each limited counter equals the charges outstanding and never exceeds its budget. */
  ghost predicate Exact(s: Shared) {
    && UseIsExact(s.tokenBudget, s.usedTokens, OutstandingTokens(s))
    && UseIsExact(s.memoryBudget, s.usedMemory, OutstandingMemory(s))
  }

  /**
   * A step of thread `i` moves the token counter by exactly the change in the grants and in that
   * thread's own charge.
   */
  lemma TokensBalance(s: Shared, i: nat, move: Move)
    requires i < |s.threads| && s.tokenBudget <= U64_MAX
    requires if s.tokenBudget == 0 then s.usedTokens == 0
             else s.grantedTokens + TokensInFlight(s.threads[i]) <= s.usedTokens <= s.tokenBudget
    ensures var after := Step(s, i, move);
            && after.tokenBudget == s.tokenBudget
            && if s.tokenBudget == 0 then after.usedTokens == 0 else
               && after.usedTokens <= s.tokenBudget
               && after.usedTokens + s.grantedTokens + TokensInFlight(s.threads[i])
                  == s.usedTokens + after.grantedTokens + TokensInFlight(after.threads[i])
  {
  }

  lemma MemoryBalance(s: Shared, i: nat, move: Move)
    requires i < |s.threads| && s.memoryBudget <= U64_MAX
    requires if s.memoryBudget == 0 then s.usedMemory == 0
             else s.grantedMemory + MemoryInFlight(s.threads[i]) <= s.usedMemory <= s.memoryBudget
    ensures var after := Step(s, i, move);
            && after.memoryBudget == s.memoryBudget
            && if s.memoryBudget == 0 then after.usedMemory == 0 else
               && after.usedMemory <= s.memoryBudget
               && after.usedMemory + s.grantedMemory + MemoryInFlight(s.threads[i])
                  == s.usedMemory + after.grantedMemory + MemoryInFlight(after.threads[i])
  {
  }

  lemma StepTouchesOneThread(s: Shared, i: nat, move: Move)
    requires i < |s.threads|
    ensures |Step(s, i, move).threads| == |s.threads|
    ensures Step(s, i, move).threads == s.threads[i := Step(s, i, move).threads[i]]
  {
    assert s.threads[i := s.threads[i]] == s.threads;
  }

  lemma StepKeepsExact(s: Shared, i: nat, move: Move)
    requires Exact(s) && i < |s.threads|
    ensures Exact(Step(s, i, move))
  {
    StepTouchesOneThread(s, i, move);
    var pc := Step(s, i, move).threads[i];
    SumUpdate(s.threads, TokensInFlight, i, pc);
    SumUpdate(s.threads, MemoryInFlight, i, pc);
    TokensBalance(s, i, move);
    MemoryBalance(s, i, move);
  }

  datatype Turn = Turn(thread: nat, move: Move)

  function Run(s: Shared, turns: seq<Turn>): Shared {
    if turns == [] then s else
      var before := Run(s, turns[..|turns| - 1]);
      var turn := turns[|turns| - 1];
      if turn.thread < |before.threads| then Step(before, turn.thread, turn.move) else before
  }

  function Initial(tokenBudget: nat, memoryBudget: nat, threads: nat): Shared {
    Shared(tokenBudget, memoryBudget, 0, 0, 0, 0, seq(threads, _ => Idle(NoCall)))
  }

  /** Under every interleaving, with any spurious failures, both counters stay exact. */
  lemma {:induction false} CountersStayExact(tokenBudget: nat, memoryBudget: nat, threads: nat, turns: seq<Turn>)
    requires tokenBudget <= U64_MAX && memoryBudget <= U64_MAX
    ensures Exact(Run(Initial(tokenBudget, memoryBudget, threads), turns))
  {
    var start := Initial(tokenBudget, memoryBudget, threads);
    if turns == [] {
      SumZero(start.threads, TokensInFlight);
      SumZero(start.threads, MemoryInFlight);
    } else {
      CountersStayExact(tokenBudget, memoryBudget, threads, turns[..|turns| - 1]);
      var before, turn := Run(start, turns[..|turns| - 1]), turns[|turns| - 1];
      if turn.thread < |before.threads| {
        StepKeepsExact(before, turn.thread, turn.move);
      }
    }
  }

  /** A refused memory charge is rolled back exactly: the saturating release never clips, and nothing stays charged. */
  lemma RollbackIsExact(s: Shared, i: nat)
    requires Exact(s) && i < |s.threads| && s.tokenBudget != 0
    requires s.threads[i].RollbackTry? && s.threads[i].current == s.usedTokens
    ensures var after := Step(s, i, Continue(false));
            && after.usedTokens + s.threads[i].tokens == s.usedTokens
            && after.threads[i] == Idle(MemoryRefused(s.threads[i].refused))
            && after.usedMemory == s.usedMemory
            && after.grantedTokens == s.grantedTokens && after.grantedMemory == s.grantedMemory
  {
    SumUpdate(s.threads, TokensInFlight, i, s.threads[i]);
  }

  /** Giving back memory that was granted, to whichever thread, never clips either. */
  lemma ReleaseIsExact(s: Shared, i: nat)
    requires Exact(s) && i < |s.threads| && s.memoryBudget != 0
    requires s.threads[i].ReleaseTry? && s.threads[i].current == s.usedMemory
    ensures Step(s, i, Continue(false)).usedMemory + s.threads[i].bytes == s.usedMemory
  {
    SumUpdate(s.threads, MemoryInFlight, i, s.threads[i]);
  }

  // ----- the class methods are the calls that nothing interrupts -----

  /** Thread `i` goes on alone; `flags[k]` says whether its next exchange fails spuriously. */
  function Alone(s: Shared, i: nat, flags: seq<bool>): (t: Shared)
    requires i < |s.threads|
    ensures |t.threads| == |s.threads|
  {
    if flags == [] then s else
      var before := Alone(s, i, flags[..|flags| - 1]);
      Step(before, i, Continue(flags[|flags| - 1]))
  }

  /** The counters as `start` had them, with the token charge `paid` on top. */
  predicate Since(start: Shared, s: Shared, paid: nat) {
    && s.tokenBudget == start.tokenBudget && s.memoryBudget == start.memoryBudget
    && s.usedTokens == start.usedTokens + paid && s.usedMemory == start.usedMemory
  }

  function EndingFrom(start: Shared, count: nat, bytes: nat): Ending {
    SoloEnding(start.tokenBudget, start.memoryBudget, start.usedTokens, start.usedMemory, count, bytes)
  }

  /** Where an uninterrupted `record_usage` that began in `start` can be. */
  ghost predicate UsageUnderWay(start: Shared, s: Shared, i: nat, count: nat, bytes: nat)
    requires i < |s.threads|
  {
    var paid, ending := Granted(start.tokenBudget, count), EndingFrom(start, count, bytes);
    match s.threads[i]
    case Idle(e) =>
      && e == ending && s.tokenBudget == start.tokenBudget && s.memoryBudget == start.memoryBudget
      && s.usedTokens == start.usedTokens + (if e == Charged then paid else 0)
      && s.usedMemory == start.usedMemory + (if e == Charged then Granted(start.memoryBudget, bytes) else 0)
    case TokenTry(t, m, current) =>
      t == count && m == bytes && Since(start, s, 0) && current == s.usedTokens && start.tokenBudget != 0
    case MemoryLoad(t, m) => t == count && m == bytes && Since(start, s, paid) && !ending.TokensRefused?
    case MemoryTry(t, m, current) =>
      && t == count && m == bytes && Since(start, s, paid) && !ending.TokensRefused?
      && current == s.usedMemory && start.memoryBudget != 0
    case RollbackLoad(t, refused) => t == count && Since(start, s, paid) && ending == MemoryRefused(refused)
    case RollbackTry(t, refused, current) =>
      t == count && Since(start, s, paid) && ending == MemoryRefused(refused) && current == s.usedTokens
    case ReleaseTry(_, _) => false
  }

  lemma TokensGoOn(start: Shared, s: Shared, i: nat, count: nat, bytes: nat, spurious: bool)
    requires i < |s.threads| && UsageUnderWay(start, s, i, count, bytes) && s.threads[i].TokenTry?
    requires start.tokenBudget == 0 ==> start.usedTokens == 0
    ensures UsageUnderWay(start, Step(s, i, Continue(spurious)), i, count, bytes)
  {
  }

  lemma MemoryGoesOn(start: Shared, s: Shared, i: nat, count: nat, bytes: nat, spurious: bool)
    requires i < |s.threads| && UsageUnderWay(start, s, i, count, bytes)
             && (s.threads[i].MemoryLoad? || s.threads[i].MemoryTry?)
    requires start.tokenBudget == 0 ==> start.usedTokens == 0
    ensures UsageUnderWay(start, Step(s, i, Continue(spurious)), i, count, bytes)
  {
  }

  lemma RollbackGoesOn(start: Shared, s: Shared, i: nat, count: nat, bytes: nat, spurious: bool)
    requires i < |s.threads| && UsageUnderWay(start, s, i, count, bytes)
             && (s.threads[i].RollbackLoad? || s.threads[i].RollbackTry?)
    requires start.tokenBudget == 0 ==> start.usedTokens == 0
    ensures UsageUnderWay(start, Step(s, i, Continue(spurious)), i, count, bytes)
  {
  }

  lemma UsageGoesOn(start: Shared, s: Shared, i: nat, count: nat, bytes: nat, spurious: bool)
    requires i < |s.threads| && UsageUnderWay(start, s, i, count, bytes)
    requires start.tokenBudget == 0 ==> start.usedTokens == 0
    ensures UsageUnderWay(start, Step(s, i, Continue(spurious)), i, count, bytes)
  {
    var pc := s.threads[i];
    if pc.TokenTry? {
      TokensGoOn(start, s, i, count, bytes, spurious);
    } else if pc.MemoryLoad? || pc.MemoryTry? {
      MemoryGoesOn(start, s, i, count, bytes, spurious);
    } else if !pc.Idle? {
      RollbackGoesOn(start, s, i, count, bytes, spurious);
    }
  }

  /** However its exchanges fail spuriously, a `record_usage` that nothing interrupts can only end as the class says. */
  lemma {:induction false} UninterruptedUsage(start: Shared, i: nat, count: nat, bytes: nat, flags: seq<bool>)
    requires i < |start.threads| && start.threads[i].Idle? && count <= U64_MAX && bytes <= U64_MAX
    requires start.tokenBudget == 0 ==> start.usedTokens == 0
    ensures UsageUnderWay(start, Alone(Step(start, i, BeginUsage(count, bytes)), i, flags), i, count, bytes)
  {
    if flags != [] {
      UninterruptedUsage(start, i, count, bytes, flags[..|flags| - 1]);
      var before := Alone(Step(start, i, BeginUsage(count, bytes)), i, flags[..|flags| - 1]);
      UsageGoesOn(start, before, i, count, bytes, flags[|flags| - 1]);
    }
  }

  /** How many exchanges and loads are still ahead at most. */
  function StepsLeft(pc: Pc): nat {
    match pc
    case Idle(_) => 0
    case TokenTry(_, _, _) => 5
    case MemoryLoad(_, _) => 4
    case MemoryTry(_, _, _) => 3
    case RollbackLoad(_, _) => 2
    case _ => 1
  }

  function Genuine(flags: seq<bool>): nat {
    if flags == [] then 0 else Genuine(flags[..|flags| - 1]) + if flags[|flags| - 1] then 0 else 1
  }

  /** It does end once five of its steps have not failed spuriously. */
  lemma {:induction false} UsageEnds(start: Shared, i: nat, count: nat, bytes: nat, flags: seq<bool>)
    requires i < |start.threads| && start.threads[i].Idle? && count <= U64_MAX && bytes <= U64_MAX
    requires start.tokenBudget == 0 ==> start.usedTokens == 0
    ensures var s := Alone(Step(start, i, BeginUsage(count, bytes)), i, flags);
            s.threads[i].Idle? || StepsLeft(s.threads[i]) + Genuine(flags) <= 5
  {
    if flags != [] {
      UsageEnds(start, i, count, bytes, flags[..|flags| - 1]);
      UninterruptedUsage(start, i, count, bytes, flags[..|flags| - 1]);
    }
  }

  /** The same for a release: until it succeeds nothing has changed, and then exactly the amount has gone. */
  lemma {:induction false} UninterruptedRelease(start: Shared, i: nat, bytes: nat, flags: seq<bool>)
    requires i < |start.threads| && start.threads[i].Idle? && bytes <= start.grantedMemory
    ensures var s := Alone(Step(start, i, BeginRelease(bytes)), i, flags);
            || (s.threads[i] == ReleaseTry(bytes, start.usedMemory) && s.usedMemory == start.usedMemory)
            || (&& s.threads[i] == Idle(Released)
                && s.usedMemory == if bytes <= start.usedMemory then start.usedMemory - bytes else 0)
  {
    if flags != [] {
      UninterruptedRelease(start, i, bytes, flags[..|flags| - 1]);
    }
  }
}
