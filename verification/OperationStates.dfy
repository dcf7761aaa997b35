/**
 The state machine of an operation, following ASTM F3548-21
 (`State`, `FlightOperationStateMachine`, `verify_operation_state_transition`).
 */
module OperationStates {
  import opened Options

  datatype OperationState =
    | NotSubmitted | Accepted | Activated | Nonconforming | Contingent
    | Ended | Withdrawn | Cancelled | Rejected
  {
    function OnEvent(event: string): OperationState {
      match this
      case NotSubmitted =>
        if event == "dss_accepts" then Accepted
        else if event == "operator_withdraws" then Withdrawn
        else if event == "operator_cancels" then Cancelled
        else this
      case Accepted =>
        if event == "operator_activates" then Activated
        else if event == "operator_confirms_ended" then Ended
        else if event == "ua_departs_early_late_outside_op_intent" then Nonconforming
        else this
      case Activated =>
        if event == "operator_confirms_ended" then Ended
        else if event == "ua_exits_coordinated_op_intent" then Nonconforming
        else if event == "operator_initiates_contingent" then Contingent
        else this
      case Nonconforming =>
        if event == "operator_return_to_coordinated_op_intent" then Activated
        else if event == "operator_confirms_ended" then Ended
        else if event == "timeout" || event == "operator_confirms_contingent" then Contingent
        else this
      case Contingent =>
        if event == "operator_confirms_ended" then Ended else this
      case Ended => this
      case Withdrawn => this
      case Cancelled => this
      case Rejected => this
    }
  }

  const STATES := [NotSubmitted, Accepted, Activated, Nonconforming, Contingent, Ended, Withdrawn, Cancelled, Rejected]

  /** The state with a given number; other numbers match no state. */
  function MatchState(status: int): Option<OperationState> {
    if 0 <= status < 9 then Some(STATES[status]) else None
  }

  function GetStatus(state: OperationState): int {
    match state
    case NotSubmitted => 0
    case Accepted => 1
    case Activated => 2
    case Nonconforming => 3
    case Contingent => 4
    case Ended => 5
    case Withdrawn => 6
    case Cancelled => 7
    case Rejected => 8
  }

  lemma StatusRoundTrip(status: int, state: OperationState)
    ensures MatchState(status) == Some(state) <==> GetStatus(state) == status
  {
  }

  /** The transitions by status number: these events move the machine, and no other does. */
  lemma EventsByNumber(status: int, event: string)
    requires 0 <= status < 9
    ensures MatchState(status).Some? &&
            GetStatus(MatchState(status).value.OnEvent(event)) ==
            if status == 0 && event == "dss_accepts" then 1
            else if status == 0 && event == "operator_withdraws" then 6
            else if status == 0 && event == "operator_cancels" then 7
            else if status == 1 && event == "operator_activates" then 2
            else if status == 1 && event == "ua_departs_early_late_outside_op_intent" then 3
            else if status == 2 && event == "ua_exits_coordinated_op_intent" then 3
            else if status == 2 && event == "operator_initiates_contingent" then 4
            else if status == 3 && event == "operator_return_to_coordinated_op_intent" then 2
            else if status == 3 && event in {"timeout", "operator_confirms_contingent"} then 4
            else if status in {1, 2, 3, 4} && event == "operator_confirms_ended" then 5
            else status
  {
  }

  class FlightOperationStateMachine {
    var state: Option<OperationState>

    constructor (status: int := 1)
      ensures state == MatchState(status)
    {
      state := MatchState(status);
    }

    /** Fails, as an attribute error does, if the machine was built from an unknown status. */
    method OnEvent(event: string) returns (failed: bool)
      modifies this
      ensures failed == old(state).None?
      ensures state == if old(state).Some? then Some(old(state).value.OnEvent(event)) else None
    {
      if state.None? {
        return true;
      }
      state := Some(state.value.OnEvent(event));
      failed := false;
    }
  }

  /** `None` when the check itself fails. */
  function Verify(original: int, new_: int, event: string): Option<bool> {
    match MatchState(original)
    case None => None
    case Some(state) => Some(GetStatus(state.OnEvent(event)) == new_)
  }

  method VerifyOperationStateTransition(originalState: int, newState: int, event: string) returns (r: Option<bool>)
    ensures r == Verify(originalState, newState, event)
    ensures r.None? <==> originalState < 0 || originalState > 8
    ensures r.Some? ==> (r.value <==> newState == GetStatus(MatchState(originalState).value.OnEvent(event)))
  {
    var machine := new FlightOperationStateMachine(originalState);
    var failed := machine.OnEvent(event);
    if failed {
      return None;
    }
    var changedState := GetStatus(machine.state.value);
    r := Some(changedState == newState);
  }

  // ---------- Whole event words ----------

  function Run(state: OperationState, word: seq<string>): OperationState
    decreases |word|
  {
    if word == [] then state else Run(state.OnEvent(word[0]), word[1..])
  }

  /** Every state that some event word leads to, by starting state. */
  function Reachable(state: OperationState): set<OperationState> {
    match state
    case NotSubmitted =>
      {NotSubmitted, Accepted, Activated, Nonconforming, Contingent, Ended, Withdrawn, Cancelled}
    case Accepted => {Accepted, Activated, Nonconforming, Contingent, Ended}
    case Activated => {Activated, Nonconforming, Contingent, Ended}
    case Nonconforming => {Activated, Nonconforming, Contingent, Ended}
    case Contingent => {Contingent, Ended}
    case _ => {state}
  }

  /** An event word from one state to another. */
  function WordTo(start: OperationState, target: OperationState): (word: seq<string>)
    requires target in Reachable(start)
  {
    if start == target then []
    else
      match start
      case NotSubmitted =>
        if target == Withdrawn then ["operator_withdraws"]
        else if target == Cancelled then ["operator_cancels"]
        else ["dss_accepts"] + WordFromAccepted(target)
      case Accepted => WordFromAccepted(target)
      case Activated =>
        if target == Ended then ["operator_confirms_ended"]
        else if target == Nonconforming then ["ua_exits_coordinated_op_intent"]
        else ["operator_initiates_contingent"]
      case Nonconforming =>
        if target == Activated then ["operator_return_to_coordinated_op_intent"]
        else if target == Ended then ["operator_confirms_ended"]
        else ["timeout"]
      case _ => ["operator_confirms_ended"]
  }

  function WordFromAccepted(target: OperationState): seq<string>
    requires target in Reachable(Accepted)
  {
    match target
    case Accepted => []
    case Activated => ["operator_activates"]
    case Nonconforming => ["ua_departs_early_late_outside_op_intent"]
    case Contingent => ["operator_activates", "operator_initiates_contingent"]
    case _ => ["operator_confirms_ended"]
  }

  lemma {:induction false} RunStaysReachable(state: OperationState, word: seq<string>)
    ensures Run(state, word) in Reachable(state)
    decreases |word|
  {
    if word != [] {
      RunStaysReachable(state.OnEvent(word[0]), word[1..]);
      assert Reachable(state.OnEvent(word[0])) <= Reachable(state);
    }
  }

  lemma RunStep(state: OperationState, event: string, rest: seq<string>)
    ensures Run(state, [event] + rest) == Run(state.OnEvent(event), rest)
    ensures Run(state, [event]) == state.OnEvent(event)
  {
  }

  lemma WordReaches(start: OperationState, target: OperationState)
    requires target in Reachable(start)
    ensures Run(start, WordTo(start, target)) == target
  {
    var word := WordTo(start, target);
    if target in Reachable(Accepted) && start in {NotSubmitted, Accepted} {
      WordFromAcceptedReaches(target);
      RunStep(NotSubmitted, "dss_accepts", WordFromAccepted(target));
    } else if word != [] {
      RunStep(start, word[0], []);
    }
  }

  lemma WordFromAcceptedReaches(target: OperationState)
    requires target in Reachable(Accepted)
    ensures Run(Accepted, WordFromAccepted(target)) == target
  {
    var word := WordFromAccepted(target);
    if target == Contingent {
      assert word == [word[0]] + [word[1]];
      RunStep(Accepted, word[0], [word[1]]);
      RunStep(Activated, word[1], []);
    } else if word != [] {
      RunStep(Accepted, word[0], []);
    }
  }

  /** An event word leads from one state to another if and only if the table says so.  In
      particular nothing is ever rejected by the machine, only a declaration that was not yet
      submitted can be withdrawn or cancelled, and a contingent operation can only end. */
  lemma ReachableIff(start: OperationState, target: OperationState)
    ensures (exists word :: Run(start, word) == target) <==> target in Reachable(start)
  {
    if target in Reachable(start) {
      WordReaches(start, target);
    } else {
      forall word ensures Run(start, word) != target {
        RunStaysReachable(start, word);
      }
    }
  }

  // ---------- Phases ----------

  function Phase(state: OperationState): nat {
    match state
    case NotSubmitted => 0
    case Accepted => 1
    case Activated => 2
    case Nonconforming => 2
    case Contingent => 3
    case _ => 4
  }

  /** How often the phase changes while the word is read. */
  function PhaseChanges(state: OperationState, word: seq<string>): nat
    decreases |word|
  {
    if word == [] then 0
    else
      var next := state.OnEvent(word[0]);
      (if Phase(next) != Phase(state) then 1 else 0) + PhaseChanges(next, word[1..])
  }

  /** Phases only go forward, so however long the word, they change at most four times. */
  lemma {:induction false} PhaseChangesBounded(state: OperationState, word: seq<string>)
    ensures Phase(state) + PhaseChanges(state, word) <= Phase(Run(state, word)) <= 4
    decreases |word|
  {
    if word != [] {
      PhaseChangesBounded(state.OnEvent(word[0]), word[1..]);
    }
  }

  // ---------- Chains of verified transitions ----------

  datatype Transition = Transition(original: int, new_: int, event: string)

  /** Each transition passes the check and starts where the one before it ended. */
  predicate VerifiedChain(start: int, chain: seq<Transition>)
    decreases |chain|
  {
    chain == [] ||
    (chain[0].original == start &&
     Verify(chain[0].original, chain[0].new_, chain[0].event) == Some(true) &&
     VerifiedChain(chain[0].new_, chain[1..]))
  }

  function Events(chain: seq<Transition>): seq<string> {
    if chain == [] then [] else [chain[0].event] + Events(chain[1..])
  }

  /** The chain of transitions the machine itself goes through. */
  function Trace(state: OperationState, word: seq<string>): seq<Transition>
    decreases |word|
  {
    if word == [] then []
    else
      var next := state.OnEvent(word[0]);
      [Transition(GetStatus(state), GetStatus(next), word[0])] + Trace(next, word[1..])
  }

  /** From a known state, a chain is verified if and only if it is the run of the machine on its
      own events; so it ends where that run ends. */
  lemma {:induction false} VerifiedChainIff(state: OperationState, chain: seq<Transition>)
    ensures VerifiedChain(GetStatus(state), chain) <==> chain == Trace(state, Events(chain))
    ensures VerifiedChain(GetStatus(state), chain) && chain != [] ==>
              chain[|chain| - 1].new_ == GetStatus(Run(state, Events(chain)))
    decreases |chain|
  {
    if chain != [] {
      var next := state.OnEvent(chain[0].event);
      VerifiedChainIff(next, chain[1..]);
      StatusRoundTrip(GetStatus(state), state);
      assert Events(chain)[1..] == Events(chain[1..]);
      assert Trace(state, Events(chain))[1..] == Trace(next, Events(chain[1..]));
      assert chain == [chain[0]] + chain[1..];
      if |chain| == 1 {
        assert chain[1..] == [];
        assert Events(chain) == [chain[0].event];
        assert Run(state, Events(chain)) == Run(next, []);
      }
    }
  }

  /** No transition out of an unknown state passes. */
  lemma UnknownStateNeverVerified(start: int, chain: seq<Transition>)
    requires chain != [] && !(0 <= start <= 8)
    ensures !VerifiedChain(start, chain)
  {
  }
}
