/** The claim that lets one of many concurrent `init` calls build the units of a queue, the store that gives the
    claim back when an allocation fails, and the gate that keeps get and put out until the units are built. One
    atomic operation or one allocation a step. */
module RingInit {

  const READY: nat := 0xAA55
  const WRAP: nat := 0x1_0000
  /** 0x55AB claims after READY wrap the 16-bit state back to 0. */
  const CLAIMS_TO_WRAP: nat := 0x55AB
  /** The first claim, the claims that wrap the state, and one that then finds 0 again. */
  const ATTEMPT_LIMIT: nat := 1 + CLAIMS_TO_WRAP + 1

  /** Where a caller of init is. `built` counts the allocations that succeeded, and `Done` keeps the returned
      status. */
  datatype Caller =
    | Outside
    | Claiming
    | Building(built: nat)
    | Releasing
    | SettingUnits(built: nat)
    | SettingReady
    | SettingLatest
    | Done(status: nat)

  const STATUS_OK: nat := 0
  const STATUS_ALREADY: nat := 2
  const STATUS_NO_MEMORY: nat := 4

  /** What only counts: claims made, claims won, claims given back after a failed allocation, stores of READY,
      claims since the last one given back, and claims since the last store of READY. */
  datatype Tally = Tally(attempts: nat, builders: nat, failures: nat, readied: nat, sinceReset: nat, sinceReady: nat)

  /** `buffers` is how many buffers `pUnits` has in place (none before it is set). */
  datatype State = State(state: nat, buffers: nat, latest: nat, callers: seq<Caller>, count: Tally)

  /** `Step(i, _)` is the next operation of caller i: a call entered, or one operation inside it. `allocates` is
      whether the allocation succeeds if that operation is one. */
  datatype Action = Step(i: nat, allocates: bool)

  function Claimed(t: Tally, won: bool): Tally {
    t.(attempts := t.attempts + 1, builders := if won then t.builders + 1 else t.builders,
       sinceReset := t.sinceReset + 1, sinceReady := t.sinceReady + 1)
  }

  /** The first allocation is the array of units, the others are their buffers. */
  function Apply(unitNum: nat, s: State, a: Action): (s': State)
    ensures |s'.callers| == |s.callers|
  {
    if a.i >= |s.callers| then s
    else
      match s.callers[a.i]
      case Outside => s.(callers := s.callers[a.i := Claiming])
      case Done(_) => s.(callers := s.callers[a.i := Claiming])
      case Claiming =>
        var won := s.state == 0;
        s.(state := (s.state + 1) % WRAP, count := Claimed(s.count, won),
           callers := s.callers[a.i := if won then Building(0) else Done(STATUS_ALREADY)])
      case Building(k) =>
        s.(callers := s.callers[a.i := if k > unitNum then SettingUnits(k)
                                       else if a.allocates then Building(k + 1) else Releasing])
      case Releasing =>
        s.(state := 0, count := s.count.(failures := s.count.failures + 1, sinceReset := 0),
           callers := s.callers[a.i := Done(STATUS_NO_MEMORY)])
      case SettingUnits(k) => s.(buffers := if k == 0 then 0 else k - 1, callers := s.callers[a.i := SettingReady])
      case SettingReady => s.(state := READY, count := s.count.(readied := s.count.readied + 1, sinceReady := 0),
                              callers := s.callers[a.i := SettingLatest])
      case SettingLatest => s.(latest := 0, callers := s.callers[a.i := Done(STATUS_OK)])
  }

  function Exec(unitNum: nat, s: State, acts: seq<Action>): (s': State)
    ensures |s'.callers| == |s.callers|
  {
    if acts == [] then s else Apply(unitNum, Exec(unitNum, s, acts[..|acts| - 1]), acts[|acts| - 1])
  }

  ghost predicate Initial(s: State) {
    && s.state == 0 && s.buffers == 0 && s.count == Tally(0, 0, 0, 0, 0, 0)
    && forall i :: 0 <= i < |s.callers| ==> s.callers[i] == Outside
  }

  /** get and put go on only when they load READY. */
  predicate GateOpen(s: State) {
    s.state == READY
  }

  predicate BeforeReady(cl: Caller) {
    cl.Building? || cl.Releasing? || cl.SettingUnits? || cl.SettingReady?
  }

  /** A claim has been won and not been given back. */
  ghost predicate Taken(s: State) {
    s.count.builders == s.count.failures + 1
  }

  ghost predicate Ready(s: State) {
    s.count.readied > 0
  }

  ghost predicate IsBuilder(cl: Caller) {
    BeforeReady(cl) || cl.SettingLatest?
  }

  ghost predicate OneBuilderAtMost(s: State) {
    forall i, j :: 0 <= i < j < |s.callers| ==> !(IsBuilder(s.callers[i]) && IsBuilder(s.callers[j]))
  }

  ghost predicate GlobalInv(unitNum: nat, s: State) {
    var t := s.count;
    && t.sinceReady <= t.attempts && t.sinceReset <= t.attempts
    && t.builders == t.failures + (if t.sinceReset == 0 then 0 else 1)
    && (t.failures == 0 ==> t.sinceReset == t.attempts)
    && t.readied <= 1 && (Ready(s) ==> Taken(s) && t.sinceReady < t.attempts)
    && (Ready(s) ==> s.buffers == unitNum)
    && s.state == if Ready(s) then (READY + t.sinceReady) % WRAP else t.sinceReset
  }

  ghost predicate CallerInv(unitNum: nat, s: State, cl: Caller) {
    && (BeforeReady(cl) ==> Taken(s) && !Ready(s))
    && (cl.SettingLatest? ==> Ready(s))
    && (cl.Building? ==> cl.built <= unitNum + 1)
    && (cl.SettingUnits? ==> cl.built == unitNum + 1)
    && (cl.SettingReady? ==> s.buffers == unitNum)
  }

  ghost predicate Inv(unitNum: nat, s: State) {
    && GlobalInv(unitNum, s) && OneBuilderAtMost(s)
    && forall i :: 0 <= i < |s.callers| ==> CallerInv(unitNum, s, s.callers[i])
  }

  lemma StepKeepsOneBuilder(unitNum: nat, s: State, a: Action)
    requires Inv(unitNum, s) && Apply(unitNum, s, a).count.attempts < ATTEMPT_LIMIT
    ensures OneBuilderAtMost(Apply(unitNum, s, a))
  {
    if a.i < |s.callers| && s.callers[a.i].Claiming? && s.state == 0 {
      assert !Taken(s);
      assert forall i :: 0 <= i < |s.callers| ==> !IsBuilder(s.callers[i]);
    }
  }

  lemma StepKeepsInv(unitNum: nat, s: State, a: Action)
    requires Inv(unitNum, s) && Apply(unitNum, s, a).count.attempts < ATTEMPT_LIMIT
    ensures Inv(unitNum, Apply(unitNum, s, a))
  {
    hide Apply, GlobalInv, CallerInv, OneBuilderAtMost;
    StepKeepsOneBuilder(unitNum, s, a);
    StepKeepsGlobal(unitNum, s, a);
    forall k | 0 <= k < |s.callers| ensures CallerInv(unitNum, Apply(unitNum, s, a), Apply(unitNum, s, a).callers[k]) {
      StepKeepsCaller(unitNum, s, a, k);
    }
  }

  lemma StepKeepsGlobal(unitNum: nat, s: State, a: Action)
    requires Inv(unitNum, s) && Apply(unitNum, s, a).count.attempts < ATTEMPT_LIMIT
    ensures GlobalInv(unitNum, Apply(unitNum, s, a))
  {
    hide OneBuilderAtMost;
    if a.i < |s.callers| {
      assert CallerInv(unitNum, s, s.callers[a.i]);
    }
  }

  lemma StepKeepsCaller(unitNum: nat, s: State, a: Action, k: nat)
    requires Inv(unitNum, s) && Apply(unitNum, s, a).count.attempts < ATTEMPT_LIMIT && k < |s.callers|
    ensures CallerInv(unitNum, Apply(unitNum, s, a), Apply(unitNum, s, a).callers[k])
  {
    assert CallerInv(unitNum, s, s.callers[k]);
    if a.i < |s.callers| {
      assert CallerInv(unitNum, s, s.callers[a.i]);
    }
  }

  lemma AttemptsGrow(unitNum: nat, s: State, a: Action)
    ensures s.count.attempts <= Apply(unitNum, s, a).count.attempts
  {
  }

  /** In every interleaving with fewer than 0x55AD claims in all, whichever allocations fail, at most one caller
      builds at a time. */
  lemma {:induction false} RunKeepsInv(unitNum: nat, s: State, acts: seq<Action>)
    requires Initial(s) && Exec(unitNum, s, acts).count.attempts < ATTEMPT_LIMIT
    ensures Inv(unitNum, Exec(unitNum, s, acts))
  {
    if acts != [] {
      AttemptsGrow(unitNum, Exec(unitNum, s, acts[..|acts| - 1]), acts[|acts| - 1]);
      RunKeepsInv(unitNum, s, acts[..|acts| - 1]);
      StepKeepsInv(unitNum, Exec(unitNum, s, acts[..|acts| - 1]), acts[|acts| - 1]);
    }
  }

  /** At most one caller is inside the building part. The claims won are those given back after a failed
      allocation, and exactly one more once anybody has claimed since; so without a failure exactly one caller
      builds. No get or put passes the gate before all buffers are in place, and the gate is open exactly when
      READY has been stored and no claim has been made since. */
  lemma OneBuilderAndGate(unitNum: nat, s: State, acts: seq<Action>)
    requires Initial(s) && Exec(unitNum, s, acts).count.attempts < ATTEMPT_LIMIT
    ensures var e := Exec(unitNum, s, acts);
            && OneBuilderAtMost(e)
            && e.count.builders == e.count.failures + (if e.count.sinceReset == 0 then 0 else 1)
            && (e.count.failures == 0 ==> e.count.builders == if e.count.attempts == 0 then 0 else 1)
            && (GateOpen(e) ==> e.buffers == unitNum)
            && (GateOpen(e) <==> Ready(e) && e.count.sinceReady == 0)
  {
    RunKeepsInv(unitNum, s, acts);
  }

  lemma {:induction false} OthersLeaveCaller(unitNum: nat, s: State, acts: seq<Action>, i: nat)
    requires i < |s.callers| && forall k :: 0 <= k < |acts| ==> acts[k].i != i
    ensures Exec(unitNum, s, acts).callers[i] == s.callers[i]
  {
    if acts != [] {
      OthersLeaveCaller(unitNum, s, acts[..|acts| - 1], i);
    }
  }

  /** A builder whose allocation fails returns "no memory", whatever the others do in the meantime. It publishes no
      buffers, and the store it makes gives the claim to the next caller that claims. */
  lemma {:induction false} FailureGivesBack(
    unitNum: nat, s: State, i: nat, more: seq<Action>, before: State, after: State, j: nat)
    requires i < |s.callers| && s.callers[i].Building? && s.callers[i].built <= unitNum
    requires forall k :: 0 <= k < |more| ==> more[k].i != i
    requires before == Exec(unitNum, Apply(unitNum, s, Step(i, false)), more)
    requires after == Apply(unitNum, before, Step(i, true))
    ensures |after.callers| == |s.callers| && after.callers[i] == Done(4) && after.state == 0
    ensures after.buffers == before.buffers && after.count.readied == before.count.readied
    ensures j < |s.callers| && after.callers[j].Claiming? ==>
              Apply(unitNum, after, Step(j, true)).callers[j] == Building(0)
  {
    OthersLeaveCaller(unitNum, Apply(unitNum, s, Step(i, false)), more, i);
  }

  lemma ExecConcat(unitNum: nat, s: State, a: seq<Action>, b: seq<Action>)
    ensures Exec(unitNum, s, a + b) == Exec(unitNum, Exec(unitNum, s, a), b)
  {
    hide Apply;
    if b == [] {
      assert a + b == a;
    } else {
      ExecConcat(unitNum, s, a, b[..|b| - 1]);
      assert (a + b)[..|a + b| - 1] == a + b[..|b| - 1];
    }
  }

  /** READY is stored once and no claim is won or given back after it, so the claims since then only grow. */
  lemma {:induction false} ReadyStays(unitNum: nat, s: State, more: seq<Action>)
    requires Inv(unitNum, s) && Ready(s) && Exec(unitNum, s, more).count.attempts < ATTEMPT_LIMIT
    ensures var e := Exec(unitNum, s, more);
            && Inv(unitNum, e) && Ready(e) && e.count.sinceReady >= s.count.sinceReady
            && e.count.builders == s.count.builders && e.count.failures == s.count.failures
  {
    if more != [] {
      var before := Exec(unitNum, s, more[..|more| - 1]);
      AttemptsGrow(unitNum, before, more[|more| - 1]);
      ReadyStays(unitNum, s, more[..|more| - 1]);
      StepKeepsInv(unitNum, before, more[|more| - 1]);
    }
  }

  /** A call of init on a ready queue shuts the gate: every later get and put is refused, and nobody builds. */
  lemma LateInitShutsGate(unitNum: nat, s: State, acts: seq<Action>, more: seq<Action>)
    requires Initial(s) && Exec(unitNum, s, acts + more).count.attempts < ATTEMPT_LIMIT
    requires Ready(Exec(unitNum, s, acts)) && Exec(unitNum, s, acts).count.sinceReady > 0
    ensures !GateOpen(Exec(unitNum, s, acts + more))
    ensures Exec(unitNum, s, acts + more).count.builders == Exec(unitNum, s, acts).count.builders
  {
    hide *;
    ExecConcat(unitNum, s, acts, more);
    AttemptsOnlyGrow(unitNum, Exec(unitNum, s, acts), more);
    RunKeepsInv(unitNum, s, acts);
    ReadyStays(unitNum, Exec(unitNum, s, acts), more);
    ClaimsShutGate(unitNum, Exec(unitNum, s, acts + more));
  }

  lemma ClaimsShutGate(unitNum: nat, s: State)
    requires Inv(unitNum, s) && Ready(s) && 0 < s.count.sinceReady && s.count.attempts < ATTEMPT_LIMIT
    ensures !GateOpen(s)
  {
  }

  lemma {:induction false} AttemptsOnlyGrow(unitNum: nat, s: State, acts: seq<Action>)
    ensures s.count.attempts <= Exec(unitNum, s, acts).count.attempts
  {
    if acts != [] {
      AttemptsOnlyGrow(unitNum, s, acts[..|acts| - 1]);
      AttemptsGrow(unitNum, Exec(unitNum, s, acts[..|acts| - 1]), acts[|acts| - 1]);
    }
  }

  // ---------------------------------------------------------------- the limit is exact

  function Steps(i: nat, n: nat): seq<Action> {
    if n == 0 then [] else Steps(i, n - 1) + [Step(i, true)]
  }

  lemma ExecSteps(unitNum: nat, s: State, i: nat, n: nat)
    requires n > 0
    ensures Exec(unitNum, s, Steps(i, n)) == Apply(unitNum, Exec(unitNum, s, Steps(i, n - 1)), Step(i, true))
  {
    assert Steps(i, n)[..|Steps(i, n)| - 1] == Steps(i, n - 1);
  }

  lemma NoSteps(unitNum: nat, s: State, i: nat)
    ensures Exec(unitNum, s, Steps(i, 0)) == s
  {
  }

  lemma {:induction false} BuildAlone(unitNum: nat, s: State, k: nat)
    requires Initial(s) && |s.callers| == 2 && k <= unitNum + 1
    ensures Exec(unitNum, s, Steps(0, 2 + k))
         == State(1, 0, s.latest, [Building(k), Outside], Tally(1, 1, 0, 0, 1, 1))
  {
    hide Exec, Steps;
    NoSteps(unitNum, s, 0);
    if k == 0 {
      ExecSteps(unitNum, s, 0, 1);
      ExecSteps(unitNum, s, 0, 2);
      assert s.callers == [Outside, Outside];
    } else {
      BuildAlone(unitNum, s, k - 1);
      ExecSteps(unitNum, s, 0, 2 + k);
    }
  }

  lemma ReadyAlone(unitNum: nat, s: State)
    requires Initial(s) && |s.callers| == 2
    ensures Exec(unitNum, s, Steps(0, unitNum + 7))
         == State(READY, unitNum, 0, [Done(STATUS_OK), Outside], Tally(1, 1, 0, 1, 1, 0))
  {
    hide Exec, Steps;
    BuildAlone(unitNum, s, unitNum + 1);
    ExecSteps(unitNum, s, 0, unitNum + 4);
    ExecSteps(unitNum, s, 0, unitNum + 5);
    ExecSteps(unitNum, s, 0, unitNum + 6);
    ExecSteps(unitNum, s, 0, unitNum + 7);
  }

  lemma LateClaim(unitNum: nat, s: State)
    requires |s.callers| == 2 && 0 < s.state < WRAP && (s.callers[1].Outside? || s.callers[1].Done?)
    ensures Apply(unitNum, Apply(unitNum, s, Step(1, true)), Step(1, true))
         == s.(state := if s.state + 1 == WRAP then 0 else s.state + 1, count := Claimed(s.count, false),
               callers := [s.callers[0], Done(STATUS_ALREADY)])
  {
  }

  lemma {:induction false} LateClaims(unitNum: nat, s: State, k: nat)
    requires s == State(READY, unitNum, 0, [Done(STATUS_OK), Outside], Tally(1, 1, 0, 1, 1, 0))
    requires 1 <= k <= CLAIMS_TO_WRAP
    ensures Exec(unitNum, s, Steps(1, 2 * k))
         == State(if k < CLAIMS_TO_WRAP then READY + k else 0, unitNum, 0,
                  [Done(STATUS_OK), Done(STATUS_ALREADY)], Tally(1 + k, 1, 0, 1, 1 + k, k))
  {
    hide Exec, Steps, Apply;
    NoSteps(unitNum, s, 1);
    var before := Exec(unitNum, s, Steps(1, 2 * (k - 1)));
    if k > 1 {
      LateClaims(unitNum, s, k - 1);
    }
    assert before.state == READY + k - 1 && before.count == Tally(k, 1, 0, 1, k, k - 1);
    LateClaim(unitNum, before);
    ExecSteps(unitNum, s, 1, 2 * k - 1);
    ExecSteps(unitNum, s, 1, 2 * k);
  }

  /** One claim more than the bound allows, and a second caller can build over the units in use. */
  lemma SecondBuilderPossible(unitNum: nat, s: State) returns (acts: seq<Action>)
    requires Initial(s) && |s.callers| == 2
    ensures var t := Exec(unitNum, s, acts).count;
            t.attempts == ATTEMPT_LIMIT && t.builders == 2 && t.failures == 0
  {
    acts := Steps(0, unitNum + 7) + Steps(1, 2 * CLAIMS_TO_WRAP + 2);
    ExecConcat(unitNum, s, Steps(0, unitNum + 7), Steps(1, 2 * CLAIMS_TO_WRAP + 2));
    ReadyAlone(unitNum, s);
    var r := Exec(unitNum, s, Steps(0, unitNum + 7));
    LateClaims(unitNum, r, CLAIMS_TO_WRAP);
    ExecSteps(unitNum, r, 1, 2 * CLAIMS_TO_WRAP + 1);
    ExecSteps(unitNum, r, 1, 2 * CLAIMS_TO_WRAP + 2);
  }
}
