/** Histories of successful state changes: what follows from each change having
    found the job in the state it expected. */
module MoveHistory {
  import opened Wrappers
  import opened Domain

  /** A job enters a state; it has no earlier state when it is created. */
  datatype Move = Move(id: string, from: Option<JobState>, to: JobState)

  /** The state that a job's last move left it in. */
  ghost function LastState(moves: seq<Move>, id: string): Option<JobState> {
    if moves == [] then None
    else if moves[|moves| - 1].id == id then Some(moves[|moves| - 1].to)
    else LastState(moves[..|moves| - 1], id)
  }

  ghost predicate LegalMove(before: seq<Move>, m: Move) {
    && m.from == LastState(before, m.id)
    && match m.from
       case None => m.to == Draft
       case Some(s) => CanTransition(s, m.to)
  }

  ghost predicate Legal(moves: seq<Move>) {
    forall k :: 0 <= k < |moves| ==> LegalMove(moves[..k], moves[k])
  }

  lemma LegalExtends(moves: seq<Move>, m: Move)
    requires Legal(moves) && LegalMove(moves, m)
    ensures Legal(moves + [m]) && LastState(moves + [m], m.id) == Some(m.to)
    ensures forall id :: id != m.id ==> LastState(moves + [m], id) == LastState(moves, id)
  {
    var after := moves + [m];
    assert after[..|moves|] == moves;
    forall k | 0 <= k < |after| ensures LegalMove(after[..k], after[k]) {
      if k < |moves| {
        assert after[..k] == moves[..k];
      }
    }
  }

  lemma LegalPrefix(moves: seq<Move>, k: nat)
    requires Legal(moves) && k <= |moves|
    ensures Legal(moves[..k])
  {
    forall j | 0 <= j < k ensures LegalMove(moves[..k][..j], moves[..k][j]) {
      assert moves[..k][..j] == moves[..j];
    }
  }

  ghost function Entries(moves: seq<Move>, id: string, s: JobState): nat {
    if moves == [] then 0
    else
      Entries(moves[..|moves| - 1], id, s)
      + if moves[|moves| - 1].id == id && moves[|moves| - 1].to == s then 1 else 0
  }

  ghost function Exits(moves: seq<Move>, id: string, s: JobState): nat {
    if moves == [] then 0
    else
      Exits(moves[..|moves| - 1], id, s)
      + if moves[|moves| - 1].id == id && moves[|moves| - 1].from == Some(s) then 1 else 0
  }

  /** Conservation: a job has entered a state once more than it has left it exactly
      when it is there, and otherwise as often. */
  lemma {:induction false} EntriesBalanceExits(moves: seq<Move>, id: string, s: JobState)
    requires Legal(moves)
    ensures Entries(moves, id, s) - Exits(moves, id, s) == if LastState(moves, id) == Some(s) then 1 else 0
  {
    if moves != [] {
      LegalPrefix(moves, |moves| - 1);
      EntriesBalanceExits(moves[..|moves| - 1], id, s);
      assert LegalMove(moves[..|moves| - 1], moves[|moves| - 1]);
    }
  }

  /** Only creation enters DRAFT, and only once. */
  lemma {:induction false} DraftEnteredOnce(moves: seq<Move>, id: string)
    requires Legal(moves)
    ensures Entries(moves, id, Draft) == if LastState(moves, id).None? then 0 else 1
  {
    if moves != [] {
      LegalPrefix(moves, |moves| - 1);
      DraftEnteredOnce(moves[..|moves| - 1], id);
      assert LegalMove(moves[..|moves| - 1], moves[|moves| - 1]);
    }
  }

  lemma {:induction false} ApprovalsLeaveDraft(moves: seq<Move>, id: string)
    requires Legal(moves)
    ensures Entries(moves, id, Approved) <= Exits(moves, id, Draft)
  {
    if moves != [] {
      LegalPrefix(moves, |moves| - 1);
      ApprovalsLeaveDraft(moves[..|moves| - 1], id);
      assert LegalMove(moves[..|moves| - 1], moves[|moves| - 1]);
    }
  }

  /** A job is approved at most once, whoever competes to approve it. */
  lemma ApprovedAtMostOnce(moves: seq<Move>, id: string)
    requires Legal(moves)
    ensures Entries(moves, id, Approved) <= 1
    ensures LastState(moves, id) == Some(Draft) ==> Entries(moves, id, Approved) == 0
  {
    ApprovalsLeaveDraft(moves, id);
    EntriesBalanceExits(moves, id, Draft);
    DraftEnteredOnce(moves, id);
  }

  lemma LastStateStep(moves: seq<Move>, id: string, j: nat)
    requires Legal(moves) && 0 < j <= |moves|
    ensures LastState(moves[..j], id)
         == if moves[j - 1].id == id then Some(moves[j - 1].to) else LastState(moves[..j - 1], id)
    ensures moves[j - 1].id == id ==>
              match LastState(moves[..j - 1], id)
              case None => moves[j - 1].to == Draft
              case Some(s) => CanTransition(s, moves[j - 1].to)
  {
    assert LegalMove(moves[..j - 1], moves[j - 1]);
    assert moves[..j][..j - 1] == moves[..j - 1];
  }

  /** No move follows COMPLETE or CANCELLED. */
  lemma FinalStatesAreFinal(moves: seq<Move>, i: nat, j: nat)
    requires Legal(moves) && i < j < |moves| && moves[i].id == moves[j].id
    ensures moves[i].to != Complete && moves[i].to != Cancelled
  {
    assert LegalMove(moves[..j], moves[j]);
    if moves[i].to == Complete || moves[i].to == Cancelled {
      StuckAfterFinal(moves, i, j);
    }
  }

  lemma {:induction false} StuckAfterFinal(moves: seq<Move>, i: nat, j: nat)
    requires Legal(moves) && i < j <= |moves| && (moves[i].to == Complete || moves[i].to == Cancelled)
    ensures LastState(moves[..j], moves[i].id) == Some(moves[i].to)
  {
    LastStateStep(moves, moves[i].id, j);
    if j > i + 1 {
      StuckAfterFinal(moves, i, j - 1);
    }
  }

  /** Some move of the job strictly between i and j enters this state. */
  ghost predicate EntersBetween(moves: seq<Move>, id: string, i: int, j: int, s: JobState) {
    exists k :: 0 <= i < k < j <= |moves| && moves[k].id == id && moves[k].to == s
  }

  /** A job under publication is not cancelled: FAILED lies between PUBLISHING and a later
      CANCELLED. */
  lemma PublishingIsNotCancelled(moves: seq<Move>, i: nat, j: nat)
    requires Legal(moves) && i < j < |moves| && moves[i].id == moves[j].id
    requires moves[i].to == Publishing && moves[j].to == Cancelled
    ensures EntersBetween(moves, moves[i].id, i, j, Failed)
  {
    assert LegalMove(moves[..j], moves[j]);
    if !EntersBetween(moves, moves[i].id, i, j, Failed) {
      BeforeFailure(moves, i, j);
    }
  }

  lemma {:induction false} BeforeFailure(moves: seq<Move>, i: nat, j: nat)
    requires Legal(moves) && i < j <= |moves| && moves[i].to == Publishing
    requires !EntersBetween(moves, moves[i].id, i, j, Failed)
    ensures LastState(moves[..j], moves[i].id).Some?
    ensures LastState(moves[..j], moves[i].id).value in {Publishing, Partial, Unknown, Complete}
  {
    LastStateStep(moves, moves[i].id, j);
    if j > i + 1 {
      BeforeFailure(moves, i, j - 1);
      assert moves[j - 1].id == moves[i].id ==> moves[j - 1].to != Failed;
    }
  }

  /** Nothing is published without a route: between FAILED or APPROVED and a later PUBLISHING
      lies ROUTING. */
  lemma PublishingIsRouted(moves: seq<Move>, i: nat, j: nat)
    requires Legal(moves) && i < j < |moves| && moves[i].id == moves[j].id
    requires (moves[i].to == Failed || moves[i].to == Approved) && moves[j].to == Publishing
    ensures EntersBetween(moves, moves[i].id, i, j, Routing)
  {
    assert LegalMove(moves[..j], moves[j]);
    if !EntersBetween(moves, moves[i].id, i, j, Routing) {
      BeforeRoute(moves, i, j);
    }
  }

  lemma {:induction false} BeforeRoute(moves: seq<Move>, i: nat, j: nat)
    requires Legal(moves) && i < j <= |moves| && (moves[i].to == Failed || moves[i].to == Approved)
    requires !EntersBetween(moves, moves[i].id, i, j, Routing)
    ensures LastState(moves[..j], moves[i].id).Some?
    ensures LastState(moves[..j], moves[i].id).value in {Failed, Approved, Cancelled}
  {
    LastStateStep(moves, moves[i].id, j);
    if j > i + 1 {
      BeforeRoute(moves, i, j - 1);
      assert moves[j - 1].id == moves[i].id ==> moves[j - 1].to != Routing;
    }
  }

  ghost predicate PassesThrough(moves: seq<Move>, id: string, i: int, j: int) {
    exists k :: 0 <= i < k < j <= |moves| && moves[k].id == id && (moves[k].to == Partial || moves[k].to == Failed)
  }

  /** Between UNKNOWN and a later PUBLISHING lies PARTIAL or FAILED: an ambiguous
      result is never published again directly. */
  lemma UnknownIsNotRepublished(moves: seq<Move>, i: nat, j: nat)
    requires Legal(moves) && i < j < |moves| && moves[i].id == moves[j].id
    requires moves[i].to == Unknown && moves[j].to == Publishing
    ensures PassesThrough(moves, moves[i].id, i, j)
  {
    assert LegalMove(moves[..j], moves[j]);
    if !PassesThrough(moves, moves[i].id, i, j) {
      UnknownOrComplete(moves, i, j);
    }
  }

  lemma {:induction false} UnknownOrComplete(moves: seq<Move>, i: nat, j: nat)
    requires Legal(moves) && i < j <= |moves| && moves[i].to == Unknown
    requires !PassesThrough(moves, moves[i].id, i, j)
    ensures LastState(moves[..j], moves[i].id) == Some(Unknown) || LastState(moves[..j], moves[i].id) == Some(Complete)
  {
    LastStateStep(moves, moves[i].id, j);
    if j > i + 1 {
      UnknownOrComplete(moves, i, j - 1);
      assert moves[j - 1].id == moves[i].id ==> moves[j - 1].to != Partial && moves[j - 1].to != Failed;
    }
  }
}
