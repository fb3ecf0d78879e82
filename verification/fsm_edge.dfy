/** The reactive FSM event: a callback that turns a boolean expression into
    events by claiming its false-to-true edge with a compare-and-swap, and puts
    the edge back if the machine's mailbox refuses the event. Any number of
    callbacks run at once; each label is one atomic action of one of them. */
module ReactiveEdge {

  datatype Edge = Edge(
    lastWasTrue: bool,
    claims: nat,      // callbacks that claimed the edge and have not yet enqueued
    refused: nat,     // callbacks whose event was refused, before their store
    accepted: nat,
    dropped: nat,     // events a stopped machine turned away
    falseStores: nat,
    rollbacks: nat)

  datatype Label =
    | EvalFalse    // the expression is not true: store false
    | EvalTrue     // the expression is true: compare-and-swap false to true
    | Accept       // a claimed event is enqueued
    | Refuse       // a claimed event meets a full mailbox
    | TurnAway     // a claimed event meets a stopped machine
    | Rollback     // the store that follows a refusal

  /** Whether the label does anything in this state. */
  predicate Enabled(e: Edge, l: Label) {
    match l
    case EvalFalse => true
    case EvalTrue => !e.lastWasTrue
    case Rollback => e.refused > 0
    case _ => e.claims > 0
  }

  function Step(e: Edge, l: Label): Edge {
    if !Enabled(e, l) then e
    else
      match l
      case EvalFalse => e.(lastWasTrue := false, falseStores := e.falseStores + 1)
      case EvalTrue => e.(lastWasTrue := true, claims := e.claims + 1)
      case Accept => e.(claims := e.claims - 1, accepted := e.accepted + 1)
      case Refuse => e.(claims := e.claims - 1, refused := e.refused + 1)
      case TurnAway => e.(claims := e.claims - 1, dropped := e.dropped + 1)
      case Rollback => e.(lastWasTrue := false, refused := e.refused - 1, rollbacks := e.rollbacks + 1)
  }

  const INITIAL := Edge(false, 0, 0, 0, 0, 0, 0)

  function Run(e: Edge, ls: seq<Label>): Edge {
    if ls == [] then e else Step(Run(e, ls[..|ls| - 1]), ls[|ls| - 1])
  }

  // ----- one callback on its own -----

  datatype Outcome = Enqueued | MailboxFull | Stopped

  /** The shared flag and its callback, run without interference. */
  class Trigger {
    var lastWasTrue: bool
    ghost var edge: Edge

    ghost predicate Valid()
      reads this
    {
      edge.lastWasTrue == lastWasTrue && edge.claims == 0 && edge.refused == 0
    }

    constructor ()
      ensures Valid() && edge == INITIAL
    {
      lastWasTrue := false;
      edge := INITIAL;
    }

    /** Returns whether an event was enqueued. */
    method OnValue(isTrue: bool, outcome: Outcome) returns (fired: bool)
      requires Valid()
      modifies this
      ensures Valid()
      ensures edge ==
              if !isTrue then Step(old(edge), EvalFalse)
              else if old(lastWasTrue) then Step(old(edge), EvalTrue)
              else match outcome
                case Enqueued => Step(Step(old(edge), EvalTrue), Accept)
                case Stopped => Step(Step(old(edge), EvalTrue), TurnAway)
                case MailboxFull => Step(Step(Step(old(edge), EvalTrue), Refuse), Rollback)
      ensures fired <==> isTrue && !old(lastWasTrue) && outcome.Enqueued?
    {
      if !isTrue {
        lastWasTrue := false;
        edge := Step(edge, EvalFalse);
        return false;
      }
      fired := false;
      var swapped := !lastWasTrue;
      edge := Step(edge, EvalTrue);
      if swapped {
        lastWasTrue := true;
        match outcome {
          case Enqueued =>
            fired := true;
            edge := Step(edge, Accept);
          case Stopped =>
            edge := Step(edge, TurnAway);
          case MailboxFull =>
            edge := Step(edge, Refuse);
            lastWasTrue := false;
            edge := Step(edge, Rollback);
        }
      }
    }
  }

  lemma RunMore(e: Edge, ls: seq<Label>, l: Label)
    ensures Run(e, ls + [l]) == Step(Run(e, ls), l)
  {
    assert (ls + [l])[..|ls|] == ls;
  }

  // ----- how many events -----

  /** Every claim but the first needed a store of false since the one before. */
  predicate Balanced(e: Edge) {
    e.claims + e.refused + e.accepted + e.dropped <= e.falseStores + (if e.lastWasTrue then 1 else 0)
  }

  /** In every interleaving, refusals included, accepted events number at most
      one plus the false evaluations stored; strictly fewer are possible only
      by what is still in flight, refused or turned away. */
  lemma {:induction false} EventsAreBounded(ls: seq<Label>)
    ensures var e := Run(INITIAL, ls);
            Balanced(e) && e.accepted + e.claims + e.refused + e.dropped <= 1 + e.falseStores
  {
    if ls != [] {
      EventsAreBounded(ls[..|ls| - 1]);
    }
  }

  // ----- what separates claims -----

  predicate NoRefusals(ls: seq<Label>) {
    Refuse !in ls
  }

  lemma {:induction false} NoRefusalNoRollback(ls: seq<Label>)
    requires NoRefusals(ls)
    ensures Run(INITIAL, ls).refused == 0
  {
    if ls != [] {
      NoRefusalNoRollback(ls[..|ls| - 1]);
    }
  }

  /** Step `k` lowers the flag, or stores false where it is already down. */
  predicate Lowers(ls: seq<Label>, k: nat) {
    && k < |ls|
    && (ls[k].EvalFalse? || (ls[k].Rollback? && Enabled(Run(INITIAL, ls[..k]), Rollback)))
  }

  /** Until a step lowers it the flag stays up. */
  lemma {:induction false} FlagHolds(ls: seq<Label>, i: nat, j: nat)
    requires i <= j <= |ls| && Run(INITIAL, ls[..i]).lastWasTrue
    requires forall k :: i <= k < j ==> !Lowers(ls, k)
    ensures Run(INITIAL, ls[..j]).lastWasTrue
    decreases j
  {
    if i < j {
      FlagHolds(ls, i, j - 1);
      assert ls[..j] == ls[..j - 1] + [ls[j - 1]];
      RunMore(INITIAL, ls[..j - 1], ls[j - 1]);
      assert !Lowers(ls, j - 1);
    }
  }

  predicate Claims(ls: seq<Label>, i: nat) {
    i < |ls| && ls[i].EvalTrue? && Enabled(Run(INITIAL, ls[..i]), EvalTrue)
  }

  /** In every interleaving a false evaluation or the rollback of a refusal lies
      between any two claims of the edge; with no refusals, a false evaluation. */
  lemma {:induction false} ClaimsAreSeparated(ls: seq<Label>, i: nat, j: nat)
    requires i < j && Claims(ls, i) && Claims(ls, j)
    ensures exists k :: i < k < j && Lowers(ls, k)
    ensures NoRefusals(ls) ==> exists k :: i < k < j && ls[k].EvalFalse?
  {
    if forall k :: i < k < j ==> !Lowers(ls, k) {
      assert ls[..i + 1] == ls[..i] + [ls[i]];
      RunMore(INITIAL, ls[..i], ls[i]);
      FlagHolds(ls, i + 1, j);
      assert false;
    }
    var k :| i < k < j && Lowers(ls, k);
    if NoRefusals(ls) {
      NoRefusalNoRollback(ls[..k]);
      assert ls[k].EvalFalse?;
    }
  }

  /** A refusal whose store lands after another callback's claim: the second and
      the third claim, and both events, with no false evaluation between. */
  const MISPLACED := [EvalTrue, Refuse, EvalFalse, EvalTrue, Accept, Rollback, EvalTrue, Accept]

  lemma RefusalMisplacesAnEdge()
    ensures Claims(MISPLACED, 3) && Claims(MISPLACED, 6)
    ensures Run(INITIAL, MISPLACED[..4]).accepted == 0 && Run(INITIAL, MISPLACED).accepted == 2
    ensures EvalFalse !in MISPLACED[4..]
  {
    var ls := MISPLACED;
    RefusedThenClaimed(ls);
    RolledBackThenClaimed(ls);
    assert ls[..8] == ls;
  }

  lemma RefusedThenClaimed(ls: seq<Label>)
    requires |ls| >= 4 && ls[0] == EvalTrue && ls[1] == Refuse && ls[2] == EvalFalse && ls[3] == EvalTrue
    ensures Run(INITIAL, ls[..3]) == Edge(false, 0, 1, 0, 0, 1, 0)
    ensures Run(INITIAL, ls[..4]) == Edge(true, 1, 1, 0, 0, 1, 0)
  {
    assert Run(INITIAL, ls[..0]) == INITIAL;
    RunAt(ls, 0);
    RunAt(ls, 1);
    RunAt(ls, 2);
    RunAt(ls, 3);
  }

  lemma RolledBackThenClaimed(ls: seq<Label>)
    requires |ls| >= 8 && ls[4] == Accept && ls[5] == Rollback && ls[6] == EvalTrue && ls[7] == Accept
    requires Run(INITIAL, ls[..4]) == Edge(true, 1, 1, 0, 0, 1, 0)
    ensures Run(INITIAL, ls[..6]) == Edge(false, 0, 0, 1, 0, 1, 1)
    ensures Run(INITIAL, ls[..8]) == Edge(true, 0, 0, 2, 0, 1, 1)
  {
    RunAt(ls, 4);
    RunAt(ls, 5);
    RunAt(ls, 6);
    RunAt(ls, 7);
  }

  lemma RunAt(ls: seq<Label>, k: nat)
    requires k < |ls|
    ensures Run(INITIAL, ls[..k + 1]) == Step(Run(INITIAL, ls[..k]), ls[k])
  {
    assert ls[..k + 1][..k] == ls[..k];
  }

  // ----- and between enqueues -----

  /** Claims may reach the mailbox late, so two events can be enqueued back to
      back although the expression went false between their claims. */
  lemma BackToBackEvents()
    ensures var before := Step(Step(Step(INITIAL, EvalTrue), EvalFalse), EvalTrue);
            before.accepted == 0 && Step(Step(before, Accept), Accept).accepted == 2
  {
    assert Step(INITIAL, EvalTrue) == Edge(true, 1, 0, 0, 0, 0, 0);
  }

  /** Nothing is in flight and the flag is still up. */
  predicate Quiescent(e: Edge) {
    e.lastWasTrue && e.claims == 0
  }

  /** Every further event comes after a further false evaluation. */
  ghost predicate NextNeedsFalse(e: Edge) {
    forall more :: Run(e, more).accepted > e.accepted ==> EvalFalse in more
  }

  lemma {:induction false} QuiescentStays(e: Edge, more: seq<Label>)
    requires Quiescent(e) && e.refused == 0 && EvalFalse !in more
    ensures var n := Run(e, more); Quiescent(n) && n.refused == 0 && n.accepted == e.accepted
  {
    if more != [] {
      QuiescentStays(e, more[..|more| - 1]);
    }
  }

  /** In any state, whatever refusals are past, pending or to come, the next
      event needs a further false evaluation exactly when no claim is in flight,
      no rollback is pending and the flag is up. */
  lemma {:induction false} NextEventNeedsFalse(e: Edge)
    ensures NextNeedsFalse(e) <==> Quiescent(e) && e.refused == 0
  {
    if Quiescent(e) && e.refused == 0 {
      forall more | Run(e, more).accepted > e.accepted ensures EvalFalse in more {
        if EvalFalse !in more {
          QuiescentStays(e, more);
        }
      }
    } else {
      var more := NextWithoutFalse(e);
    }
  }

  lemma {:induction false} NextWithoutFalse(e: Edge) returns (more: seq<Label>)
    requires !(Quiescent(e) && e.refused == 0)
    ensures Run(e, more).accepted > e.accepted && EvalFalse !in more
  {
    RunMore(e, [], Accept);
    RunMore(e, [], EvalTrue);
    RunMore(e, [EvalTrue], Accept);
    RunMore(e, [], Rollback);
    RunMore(e, [Rollback], EvalTrue);
    RunMore(e, [Rollback] + [EvalTrue], Accept);
    assert [] + [Accept] == [Accept] && [] + [EvalTrue] == [EvalTrue] && [] + [Rollback] == [Rollback];
    more := if e.claims > 0 then [Accept]
            else if !e.lastWasTrue then [EvalTrue] + [Accept]
            else [Rollback] + [EvalTrue] + [Accept];
  }

  // ----- what the flag and the counts are -----

  /** The flag from the history: up exactly if an evaluation found the expression
      true after the last false evaluation or rollback. */
  function Flag(ls: seq<Label>): bool {
    if ls == [] then false
    else if Lowers(ls, |ls| - 1) then false
    else if ls[|ls| - 1].EvalTrue? then true
    else Flag(ls[..|ls| - 1])
  }

  lemma {:induction false} FlagPrefix(ls: seq<Label>, n: nat)
    requires n < |ls|
    ensures Lowers(ls, n) <==> Lowers(ls[..n + 1], n)
    ensures Claims(ls, n) <==> Claims(ls[..n + 1], n)
  {
    assert ls[..n + 1][..n] == ls[..n];
  }

  lemma {:induction false} FlagFromHistory(ls: seq<Label>)
    ensures Run(INITIAL, ls).lastWasTrue == Flag(ls)
  {
    if ls != [] {
      FlagFromHistory(ls[..|ls| - 1]);
    }
  }

  /** How often the edge was claimed. */
  function ClaimCount(ls: seq<Label>): nat {
    if ls == [] then 0 else ClaimCount(ls[..|ls| - 1]) + (if Claims(ls, |ls| - 1) then 1 else 0)
  }

  function Stores(ls: seq<Label>): nat {
    if ls == [] then 0 else Stores(ls[..|ls| - 1]) + (if ls[|ls| - 1].EvalFalse? then 1 else 0)
  }

  /** Nothing is lost: every claim is still in flight, accepted, turned away, or
      refused and then rolled back; and false evaluations are counted. */
  lemma {:induction false} ClaimsAreConserved(ls: seq<Label>)
    ensures var e := Run(INITIAL, ls);
            && ClaimCount(ls) == e.claims + e.accepted + e.dropped + e.refused + e.rollbacks
            && Stores(ls) == e.falseStores
  {
    if ls != [] {
      ClaimsAreConserved(ls[..|ls| - 1]);
    }
  }
}
