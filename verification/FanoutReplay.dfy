/** Durable claims: at-most-once execution of fan-out children over any number of interleaved runs. */
module FanoutReplay {
  import opened Wrappers
  import opened Bytes
  import opened Fanout

  /** A child some run has claimed, and the clock reading with which it was verified. */
  datatype Held = Held(child: FanoutChild, now: U64)

  /** The durable claim table, what each live run has claimed but not yet executed, and what was executed. */
  datatype Claims = Claims(rows: map<Id, seq<Byte>>, holding: map<nat, Held>, executed: seq<Held>)

  const NO_CLAIMS := Claims(map[], map[], [])

  datatype Event =
    | Claimed(run: nat, held: Held)   // the row was inserted and the run goes on to execute
    | ClaimLost(run: nat, held: Held) // the row was inserted but the run was told it failed
    | Executed(run: nat)
    | Died(run: nat)

  function ClaimValue(child: FanoutChild): seq<Byte> {
    child.idempotencyKey + child.planDigest + child.requestDigest
  }

  /** The row of a claim holds the key, the plan and the request of its child, 32 bytes each. */
  lemma ClaimValueLayout(child: FanoutChild)
    ensures |ClaimValue(child)| == 96
    ensures ClaimValue(child)[..32] == child.idempotencyKey && ClaimValue(child)[32..64] == child.planDigest
    ensures ClaimValue(child)[64..] == child.requestDigest
  {
  }

  predicate Legal(c: Claims, e: Event) {
    match e
    case Claimed(run, held) => run !in c.holding && held.child.childId !in c.rows && held.now <= held.child.deadline
    case ClaimLost(_, held) => held.child.childId !in c.rows
    case Executed(run) => run in c.holding
    case Died(_) => true
  }

  function Apply(c: Claims, e: Event): Claims
    requires Legal(c, e)
  {
    match e
    case Claimed(run, held) => c.(rows := c.rows[held.child.childId := ClaimValue(held.child)],
                                  holding := c.holding[run := held])
    case ClaimLost(_, held) => c.(rows := c.rows[held.child.childId := ClaimValue(held.child)])
    case Executed(run) => c.(holding := c.holding - {run}, executed := c.executed + [c.holding[run]])
    case Died(run) => c.(holding := c.holding - {run})
  }

  /** The state after a run of events, as long as every one of them is legal. */
  function Replay(events: seq<Event>): Option<Claims> {
    if events == [] then Some(NO_CLAIMS) else
      var before := Replay(events[..|events| - 1]);
      if before.Some? && Legal(before.value, events[|events| - 1]) then Some(Apply(before.value, events[|events| - 1]))
      else None
  }

  ghost predicate ClaimsOk(c: Claims) {
    && (forall i :: 0 <= i < |c.executed| ==>
          c.executed[i].child.childId in c.rows && c.executed[i].now <= c.executed[i].child.deadline)
    && (forall run :: run in c.holding ==>
          c.holding[run].child.childId in c.rows && c.holding[run].now <= c.holding[run].child.deadline)
    && (forall i, j :: 0 <= i < j < |c.executed| ==> c.executed[i].child.childId != c.executed[j].child.childId)
    && (forall a, b :: a in c.holding && b in c.holding && a != b ==>
          c.holding[a].child.childId != c.holding[b].child.childId)
    && (forall i, run :: 0 <= i < |c.executed| && run in c.holding ==>
          c.executed[i].child.childId != c.holding[run].child.childId)
  }

  lemma ExecutionKeepsClaims(c: Claims, run: nat)
    requires ClaimsOk(c) && run in c.holding
    ensures ClaimsOk(Apply(c, Executed(run)))
  {
  }

  lemma ClaimKeepsClaims(c: Claims, e: Event)
    requires ClaimsOk(c) && Legal(c, e) && (e.Claimed? || e.ClaimLost?)
    ensures ClaimsOk(Apply(c, e))
  {
  }

  lemma EventKeepsClaims(c: Claims, e: Event)
    requires ClaimsOk(c) && Legal(c, e)
    ensures ClaimsOk(Apply(c, e))
  {
    match e
    case Executed(run) => ExecutionKeepsClaims(c, run);
    case Died(_) =>
    case _ => ClaimKeepsClaims(c, e);
  }

  /**
   * At most once: however the runs interleave and wherever they die, no child id is executed
   * twice, nothing is executed without its durable claim, and nothing past its deadline.
   */
  lemma {:induction false} AtMostOnce(events: seq<Event>)
    requires Replay(events).Some?
    ensures ClaimsOk(Replay(events).value)
  {
    if events != [] {
      AtMostOnce(events[..|events| - 1]);
      EventKeepsClaims(Replay(events[..|events| - 1]).value, events[|events| - 1]);
    }
  }

  /** The history leads to this state, in a form that unfolds only where it is asked for. */
  ghost predicate LeadsTo(history: seq<Event>, state: Claims) {
    forall events {:trigger Replay(events)} :: events == history ==> Replay(events) == Some(state)
  }

  datatype Outcome = Succeeded | Denied | Failed

  datatype Status = Status(childId: Id, outcome: Outcome)

  /** The replay store on disk; `events` is the ghost history of all runs over it. */
  class ReplayStore {
    var rows: map<Id, seq<Byte>>
    ghost var events: seq<Event>
    ghost var state: Claims  // where that history has led
    ghost var faults: nat    // how often the database failed a claim

    ghost predicate Valid()
      reads this
    {
      LeadsTo(events, state) && state.rows == rows
    }

    constructor ()
      ensures Valid() && events == [] && rows == map[]
    {
      rows, events, faults, state := map[], [], 0, NO_CLAIMS;
    }

    /** One more event of the history. */
    ghost method Record(e: Event)
      requires LeadsTo(events, state) && Legal(state, e)
      modifies this`events, this`state
      ensures LeadsTo(events, state) && state == Apply(old(state), e)
    {
      assert Replay(events) == Some(state);
      assert (events + [e])[..|events|] == events;
      events, state := events + [e], Apply(state, e);
    }

    lemma StateOk()
      requires Valid()
      ensures ClaimsOk(state)
    {
      assert Replay(events) == Some(state);
      AtMostOnce(events);
    }

    /**
     * `INSERT OR IGNORE`: a claim succeeds exactly for a new child id while the database works;
     * a second claim is refused as a replay, and a claim may be durable and yet reported as failed.
     */
    method Claim(child: FanoutChild, now: U64, ghost run: nat) returns (r: Result<(), FanoutError>)
      requires Valid() && run !in state.holding && now <= child.deadline
      modifies this
      ensures Valid() && state.executed == old(state.executed) && faults >= old(faults)
      ensures rows == old(rows) || rows == old(rows)[child.childId := ClaimValue(child)]
      ensures r.Ok? <==> child.childId !in old(rows) && faults == old(faults)
      ensures r == Err(ReplayError) <==> child.childId in old(rows)
      ensures r.Err? ==> r.error == ReplayError || r.error == Storage
      ensures r.Ok? ==> rows == old(rows)[child.childId := ClaimValue(child)]
                        && state.holding == old(state.holding)[run := Held(child, now)]
      ensures r.Err? ==> state.holding == old(state.holding)
    {
      if child.childId in rows {
        return Err(ReplayError);
      }
      var failsBefore: bool := *;
      var failsAfter: bool := *;
      if failsBefore {
        faults := faults + 1;
        return Err(Storage);
      }
      ghost var held := Held(child, now);
      ghost var event := if failsAfter then ClaimLost(run, held) else Claimed(run, held);
      Record(event);
      rows := rows[child.childId := ClaimValue(child)];
      if failsAfter {
        faults := faults + 1;
        return Err(Storage);
      }
      return Ok(());
    }

    /** One child: verified, claimed, executed; a crash may come after any of these. */
    method ExecuteChild(plan: FanoutPlan, child: FanoutChild, now: U64, effect: Outcome, ghost run: nat)
      returns (status: Status, died: bool, ghost ran: bool)
      requires Valid() && run !in state.holding
      modifies this
      ensures Valid() && faults >= old(faults)
      ensures rows == old(rows) || rows == old(rows)[child.childId := ClaimValue(child)]
      ensures !died ==> run !in state.holding
      ensures state.executed == old(state.executed) + if ran then [Held(child, now)] else []
      ensures ran ==> VerifyChild(plan, child, now).Ok? && child.childId !in old(rows) && child.childId in rows
      // What is reported is what happened, and a child that can run does run.
      ensures status.childId == child.childId
      ensures !died ==> status.outcome == if ran then effect else Failed
      ensures !died ==>
                (ran <==> VerifyChild(plan, child, now).Ok? && child.childId !in old(rows) && faults == old(faults))
    {
      status, died, ran := Status(child.childId, Failed), false, false;
      if VerifyChild(plan, child, now).Err? {
        return;
      }
      var claimed := Claim(child, now, run);
      if claimed.Err? {
        return;
      }
      died := *;
      if died {
        return;
      }
      Record(Executed(run));
      ran := true;
      status := Status(child.childId, effect);
    }

    /**
     * Every child of the plan in order, with one status each; a denial or a failure does not
     * stop the rest. `ran[i]` says that this run executed child `i`, `lost[i]` that the
     * database failed its claim.
     */
    method ExecuteFanout(plan: FanoutPlan, clock: seq<U64>, effects: seq<Outcome>, ghost run: nat)
      returns (statuses: seq<Status>, died: bool, ghost ran: seq<bool>, ghost lost: seq<bool>)
      requires Valid() && run !in state.holding
      requires |clock| == |plan.children| == |effects|
      modifies this
      ensures Valid() && ClaimsOk(state)
      ensures |ran| == |lost| <= |plan.children|
      ensures state.executed == old(state.executed) + Executions(plan.children, clock, ran)
      ensures !died ==> |statuses| == |ran| == |plan.children|
      ensures !died ==> forall i {:trigger statuses[i]} :: 0 <= i < |statuses| ==>
                Accounted(plan, clock, effects, old(rows), i, statuses[i], ran[i], lost[i])
      ensures !died && faults == old(faults) ==> true !in lost
    {
      statuses, died, ran, lost := [], false, [], [];
      for i := 0 to |plan.children|
        invariant Valid() && run !in state.holding && !died && faults >= old(faults)
        invariant |statuses| == |ran| == |lost| == i
        invariant state.executed == old(state.executed) + Executions(plan.children, clock, ran)
        invariant ClaimedBefore(old(rows), rows, plan.children, i)
        invariant forall j {:trigger statuses[j]} :: 0 <= j < i ==>
                    Accounted(plan, clock, effects, old(rows), j, statuses[j], ran[j], lost[j])
        invariant faults == old(faults) ==> true !in lost
      {
        ghost var faultsBefore, rowsBefore := faults, rows;
        var status;
        ghost var executed;
        status, died, executed := ExecuteChild(plan, plan.children[i], clock[i], effects[i], run);
        ExecutionsGrow(plan.children, clock, ran, executed);
        ClaimsGrow(old(rows), rowsBefore, rows, plan.children, i);
        ran, lost := ran + [executed], lost + [faults != faultsBefore];
        if died {
          StateOk();
          return;
        }
        assert Accounted(plan, clock, effects, old(rows), i, status, executed, faults != faultsBefore);
        statuses := statuses + [status];
      }
      StateOk();
    }
  }

  /** Some child before place `i` has this id. */
  predicate Listed(children: seq<FanoutChild>, i: nat, id: Id)
    requires i <= |children|
  {
    exists j :: 0 <= j < i && children[j].childId == id
  }

  /** Why a run did not execute child `i`: it does not verify, its id was claimed already, or the database failed. */
  predicate Excused(plan: FanoutPlan, clock: seq<U64>, before: map<Id, seq<Byte>>, i: nat, lost: bool)
    requires i < |plan.children| == |clock|
  {
    || VerifyChild(plan, plan.children[i], clock[i]).Err?
    || plan.children[i].childId in before || Listed(plan.children, i, plan.children[i].childId)
    || lost
  }

  /** The report on child `i` is what happened to it. */
  predicate Accounted(plan: FanoutPlan, clock: seq<U64>, effects: seq<Outcome>, before: map<Id, seq<Byte>>, i: nat,
                      status: Status, ran: bool, lost: bool)
    requires i < |plan.children| == |clock| == |effects|
  {
    && status == Status(plan.children[i].childId, if ran then effects[i] else Failed)
    && (ran || Excused(plan, clock, before, i, lost))
  }

  /** Every claim on record was there before or is one of the first `i` children's. */
  predicate ClaimedBefore(before: map<Id, seq<Byte>>, rows: map<Id, seq<Byte>>, children: seq<FanoutChild>, i: nat)
    requires i <= |children|
  {
    forall id :: id in rows ==> id in before || Listed(children, i, id)
  }

  lemma ClaimsGrow(before: map<Id, seq<Byte>>, rows: map<Id, seq<Byte>>, after: map<Id, seq<Byte>>,
                   children: seq<FanoutChild>, i: nat)
    requires i < |children| && ClaimedBefore(before, rows, children, i)
    requires forall id :: id in after ==> id in rows || id == children[i].childId
    ensures ClaimedBefore(before, after, children, i + 1)
  {
    forall id | id in after
      ensures id in before || Listed(children, i + 1, id)
    {
      if id == children[i].childId {
        assert Listed(children, i + 1, id);
      } else if id !in before {
        var j :| 0 <= j < i && children[j].childId == id;
      }
    }
  }

  /** The children that ran, in plan order, each with the clock reading it was verified with. */
  function Executions(children: seq<FanoutChild>, clock: seq<U64>, ran: seq<bool>): seq<Held>
    requires |ran| <= |children| == |clock|
  {
    if ran == [] then [] else
      var n := |ran| - 1;
      Executions(children, clock, ran[..n]) + if ran[n] then [Held(children[n], clock[n])] else []
  }

  lemma ExecutionsGrow(children: seq<FanoutChild>, clock: seq<U64>, ran: seq<bool>, executed: bool)
    requires |ran| < |children| == |clock|
    ensures Executions(children, clock, ran + [executed]) ==
            Executions(children, clock, ran) + if executed then [Held(children[|ran|], clock[|ran|])] else []
  {
    assert (ran + [executed])[..|ran|] == ran;
  }
}
