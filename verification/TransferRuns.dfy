// Whole-run properties of the transfer-request desk.
module TransferRuns {
  import opened Basics
  import opened Ledger
  import opened Units
  import opened TransferRequests
  import opened TransferInvariants

  // ---- Well-formedness in every reachable state ----

  lemma {:induction false} Reachable(w: Desk, steps: seq<Step>)
    requires Initial(w)
    ensures Inv(Run(w, steps)) && Agrees(Run(w, steps).store)
  {
    hide Inv, Agrees;
    InitialInv(w);
    RunKeeps(w, steps);
    EmptyAgrees();
    RunAgrees(w, steps);
  }

  lemma {:induction false} WellFormed(w: Desk, steps: seq<Step>, id: nat)
    requires Initial(w) && id in Run(w, steps).requests
    ensures var now := Run(w, steps).now;
      var r := Run(w, steps).requests[id];
      && r.fromScope == FromScope(r.direction, r.technician) && r.toScope == ToScope(r.direction, r.technician)
      && r.fromScope != r.toScope
      && r.lines != []
      && r.status != Disputed && r.dispute != ManagerResponded
      && (r.status == ChangeRequested ==> ParsePayload(r.payload).Some? && ParsePayload(r.payload).value.lines != [])
      && (r.dispute != NoDispute ==> IsPosted(r.status))
      && (r.status == Submitted ==> r.pickup <= now)
  {
    hide Run;
    RowReachable(w, steps, id);
    DisputedArePosted(w, steps, id);
  }

  lemma {:induction false} RowReachable(w: Desk, steps: seq<Step>, id: nat)
    requires Initial(w) && id in Run(w, steps).requests
    ensures var v := Run(w, steps); RowOk(v.requests[id], v.now, v.nextId, v.catalog.Keys)
  {
    hide RowOk, Run;
    Reachable(w, steps);
  }

  // Nothing takes a request that was disputed out of the posted statuses.
  lemma {:induction false} DisputedArePosted(w: Desk, steps: seq<Step>, id: nat)
    requires Initial(w)
    ensures Holds(Disputes, Run(w, steps), id)
  {
    hide Inv, Next;
    if steps == [] {
      InitialHolds(Disputes, w, id);
    } else {
      var front, s := steps[..|steps| - 1], steps[|steps| - 1];
      DisputedArePosted(w, front, id);
      Reachable(w, front);
      StepHoldsIff(Disputes, Run(w, front), s, id);
      if Posts(Run(w, front), s, id) { PostsHasRow(Run(w, front), s, id); }
    }
  }

  lemma {:induction false} PostsHasRow(w: Desk, s: Step, id: nat)
    requires Posts(w, s, id)
    ensures Fits(Disputes, w, s.action.call)
  {
    hide PostAll, FinalizePostings;
  }

  // approveChanges can fail, but never on its stored payload.
  lemma {:induction false} ApproveChangesParses(w: Desk, steps: seq<Step>, user: User, id: nat)
    requires Initial(w)
    ensures OnRowStep(Run(w, steps), user, id, ApproveChanges).1 != BadPayload
  {
    hide Run, LinesOk, NumberLines, AllKnown;
    if id in Run(w, steps).requests { RowReachable(w, steps, id); }
  }

  // ---- Who may do what, when, and what it changes ----

  // The status diagram, independent of the guards that implement it.
  ghost predicate Edge(op: RowOp, tech: bool, from: Status, to: Status) {
    match op
    case Update(_) =>
      if tech && from in {Approved, ChangeRequested} then to == ChangeRequested
      else from in {Open, Submitted, ApprovalPending, Approved, ChangeRequested} && to in {Submitted, ApprovalPending}
    case Approve => !tech && from == ApprovalPending && to == Approved
    case Deny => !tech && from == ApprovalPending && to == Status.Rejected
    case ApproveChanges => !tech && from == ChangeRequested && to == Approved
    case DenyChanges => !tech && from == ChangeRequested && to == Approved
    case Acknowledge => from == AckPending && to == Acknowledged
    case Dispute(_) => tech && from in {AckPending, Finalized} && to == from
    case ResolveDispute => !tech && IsPosted(from) && to == from
    case SendBack => !tech && from in {Open, Submitted, ApprovalPending, Approved, ChangeRequested} && to == Open
    case Withdraw(k) =>
      && from in {Open, Submitted, ApprovalPending, Approved, ChangeRequested}
      && (to == Status.Rejected || to == Status.Canceled)
      && (tech ==> to == Status.Canceled)
      && (k.Some? ==> (to == Status.Rejected <==> k.value == Refuse))
      && (k.None? && !tech ==> to == Status.Rejected)
  }

  lemma {:induction false} StatusDiagram(w: Desk, steps: seq<Step>, user: User, id: nat, op: RowOp)
    requires Initial(w)
    requires OnRowStep(Run(w, steps), user, id, op).1 == Done(id)
    ensures var v := Run(w, steps);
      id in v.requests &&
      Edge(op, user.role == Tech, v.requests[id].status, OnRowStep(v, user, id, op).0.requests[id].status)
  {
    hide Run, LinesOk, NumberLines, AllKnown;
    var v := Run(w, steps);
    if id in v.requests { RowReachable(w, steps, id); }
    DisputedArePosted(w, steps, id);
  }

  // The request is the user's own.
  ghost predicate Theirs(user: User, r: Request) { user.technician == Some(r.technician) && r.technician != "" }

  ghost predicate StillOpen(s: Status) { s in {Open, Submitted, ApprovalPending, Approved, ChangeRequested} }

  // The calls the desk takes: role or ownership, status, and the payload's own form.
  ghost predicate Allowed(op: RowOp, user: User, r: Request, known: set<ProductId>) {
    var tech := user.role == Tech;
    match op
    case Update(dto) =>
      && StillOpen(r.status) && dto.lines != [] && !dto.pickup.InvalidDate?
      && (tech ==> Theirs(user, r))
      && (AllKnown(dto.lines, known) || (tech && r.status in {Approved, ChangeRequested}))
    case Approve => !tech && r.status == ApprovalPending
    case Deny => !tech && r.status == ApprovalPending
    case ApproveChanges =>
      !tech && r.status == ChangeRequested && r.payload.Some? && r.payload.value.lines.Some? && AllKnown(r.payload.value.lines.value, known)
    case DenyChanges => !tech && r.status == ChangeRequested
    case Acknowledge => r.status == AckPending && Theirs(user, r)
    case Dispute(noteMissing) =>
      tech && user.technician == Some(r.technician) && r.status in {AckPending, Finalized} && r.dispute != DisputeOpen && !noteMissing
    case ResolveDispute => !tech && r.dispute == DisputeOpen
    case SendBack => !tech && StillOpen(r.status)
    case Withdraw(kind) => StillOpen(r.status) && (tech ==> Theirs(user, r) && kind != Some(Refuse))
  }

  // In every reachable state a call on a request is accepted exactly then.
  lemma {:induction false} AcceptedIff(w: Desk, steps: seq<Step>, user: User, id: nat, op: RowOp)
    requires Initial(w)
    ensures var v := Run(w, steps);
      OnRowStep(v, user, id, op).1 == Done(id) <==> id in v.requests && Allowed(op, user, v.requests[id], v.catalog.Keys)
  {
    hide Run, LinesOk, NumberLines, AllKnown;
    var v := Run(w, steps);
    if id in v.requests { RowReachable(w, steps, id); }
  }

  // The columns an accepted call may write.
  ghost predicate Writes(op: RowOp, r: Request, r': Request) {
    match op
    case Update(_) => r'.technician == r.technician && r'.key == r.key && r'.dispute == r.dispute
    case ApproveChanges => r'.technician == r.technician && r'.key == r.key && r'.dispute == r.dispute && r'.payload.None?
    case DenyChanges => r' == r.(status := r'.status, payload := None)
    case SendBack => r' == r.(status := r'.status, payload := None)
    case Dispute(_) => r' == r.(dispute := DisputeOpen)
    case ResolveDispute => r' == r.(dispute := Resolved)
    case _ => r' == r.(status := r'.status)
  }

  // An accepted call changes its own row only, in those columns; a refused one nothing.
  lemma {:induction false} TouchesOnly(w: Desk, user: User, id: nat, op: RowOp)
    ensures var (w', o) := OnRowStep(w, user, id, op);
      && w' == w.(requests := w'.requests, nextId := w'.nextId)
      && (o != Done(id) ==> w' == w)
      && (o == Done(id) ==> id in w.requests && w'.requests == w.requests[id := w'.requests[id]] && Writes(op, w.requests[id], w'.requests[id]))
  {
    hide NumberLines, AllKnown;
  }

  // ---- Exactly-once posting ----

  // Every commit of the request in the run fits.
  ghost predicate AllFit(a: Aspect, w: Desk, steps: seq<Step>, id: nat) {
    forall k | 0 <= k < |steps| && Posts(Run(w, steps[..k]), steps[k], id) :: Fits(a, Run(w, steps[..k]), steps[k].action.call)
  }

  ghost predicate HoldsThroughout(a: Aspect, w: Desk, steps: seq<Step>, id: nat) {
    forall k | 0 <= k <= |steps| :: Holds(a, Run(w, steps[..k]), id)
  }

  // Over a whole run a request keeps an aspect exactly if every commit of it that
  // goes through finds on the row what its call had read.
  lemma {:induction false} HoldsIffAllFit(a: Aspect, w: Desk, steps: seq<Step>, id: nat)
    requires Inv(w) && Holds(a, w, id)
    ensures HoldsThroughout(a, w, steps, id) <==> AllFit(a, w, steps, id)
  {
    hide Holds, Fits, Posts, Inv, Run;
    if steps == [] {
      RunNone(w);
      assert steps[..0] == steps;
    } else {
      var n := |steps| - 1;
      var front, v := steps[..n], Run(w, steps[..n]);
      HoldsIffAllFit(a, w, front, id);
      PrefixHolds(a, w, steps, n, id);
      PrefixFits(a, w, steps, n, id);
      RunKeeps(w, front);
      RunLast(w, steps);
      assert steps[..n + 1] == steps && front[..n] == front;
      if Holds(a, v, id) { StepHoldsIff(a, v, steps[n], id); }
    }
  }

  lemma {:induction false} RunNone(w: Desk)
    ensures Run(w, []) == w
  {}

  lemma {:induction false} RunLast(w: Desk, steps: seq<Step>)
    requires steps != []
    ensures Run(w, steps) == Next(Run(w, steps[..|steps| - 1]), steps[|steps| - 1])
  {}

  lemma {:induction false} PrefixHolds(a: Aspect, w: Desk, steps: seq<Step>, n: nat, id: nat)
    requires n <= |steps|
    ensures HoldsThroughout(a, w, steps[..n], id) <==> forall k | 0 <= k <= n :: Holds(a, Run(w, steps[..k]), id)
  {
    hide Holds, Run;
    assert forall k | 0 <= k <= n :: steps[..n][..k] == steps[..k];
    if HoldsThroughout(a, w, steps[..n], id) {
      forall k | 0 <= k <= n ensures Holds(a, Run(w, steps[..k]), id) { assert Holds(a, Run(w, steps[..n][..k]), id); }
    }
  }

  lemma {:induction false} PrefixFits(a: Aspect, w: Desk, steps: seq<Step>, n: nat, id: nat)
    requires n <= |steps|
    ensures AllFit(a, w, steps[..n], id) <==>
      forall k | 0 <= k < n && Posts(Run(w, steps[..k]), steps[k], id) :: Fits(a, Run(w, steps[..k]), steps[k].action.call)
  {
    hide Do, Fits, Run;
    assert forall k | 0 <= k < n :: steps[..n][..k] == steps[..k] && steps[..n][k] == steps[k];
    if AllFit(a, w, steps[..n], id) {
      forall k | 0 <= k < n && Posts(Run(w, steps[..k]), steps[k], id) ensures Fits(a, Run(w, steps[..k]), steps[k].action.call) {
        assert Posts(Run(w, steps[..n][..k]), steps[..n][k], id);
      }
    }
  }

  lemma {:induction false} InitialHolds(a: Aspect, w: Desk, id: nat)
    requires Initial(w)
    ensures Holds(a, w, id)
  {
    assert Postings(Empty.ledger) == [];
  }

  // Entries exist exactly for posted requests, and are one OUT/IN pair per line.
  ghost predicate PostedAsLined(w: Desk, id: nat) {
    var ms := Moves(w.store, id);
    && (ms != [] <==> id in w.requests && IsPosted(w.requests[id].status))
    && (ms != [] ==> id in w.requests && PairsOf(ms, id, w.requests[id], w.requests[id].lines))
  }

  lemma {:induction false} LinedIsOnce(w: Desk, id: nat)
    requires RowsOk(w)
    ensures PostedAsLined(w, id) <==> PostedOnce(w, id)
  {
    hide Moves, PairAt;
    if id in w.requests { assert RowOk(w.requests[id], w.now, w.nextId, w.catalog.Keys); }
  }

  // The exact condition for exactly-once posting over a run from the empty database.
  lemma {:induction false} ExactlyOnceIff(w: Desk, steps: seq<Step>, id: nat)
    requires Initial(w)
    ensures (forall k | 0 <= k <= |steps| :: PostedAsLined(Run(w, steps[..k]), id)) <==> AllFit(Once, w, steps, id)
  {
    hide PostedAsLined, PostedOnce, Inv, AllFit, Run;
    InitialInv(w);
    InitialHolds(Once, w, id);
    HoldsIffAllFit(Once, w, steps, id);
    forall k | 0 <= k <= |steps| ensures PostedAsLined(Run(w, steps[..k]), id) <==> Holds(Once, Run(w, steps[..k]), id) {
      Reachable(w, steps[..k]);
      OnceOf(Run(w, steps[..k]), id);
    }
    if HoldsThroughout(Once, w, steps, id) {
      forall k | 0 <= k <= |steps| ensures PostedAsLined(Run(w, steps[..k]), id) { assert Holds(Once, Run(w, steps[..k]), id); }
    }
    if forall k | 0 <= k <= |steps| :: PostedAsLined(Run(w, steps[..k]), id) {
      forall k | 0 <= k <= |steps| ensures Holds(Once, Run(w, steps[..k]), id) { assert PostedAsLined(Run(w, steps[..k]), id); }
    }
  }

  lemma {:induction false} OnceOf(w: Desk, id: nat)
    requires Inv(w)
    ensures PostedAsLined(w, id) <==> Holds(Once, w, id)
  {
    hide PostedAsLined, PostedOnce, KeysUnique, SnapshotsOk, RowOk;
    LinedIsOnce(w, id);
  }

  // ---- Runs in which no lines are replaced under a finalize call ----

  ghost predicate SnapshotsCurrent(w: Desk) {
    forall call | call in w.inflight :: w.inflight[call].id in w.requests && w.inflight[call].row.lines == w.requests[w.inflight[call].id].lines
  }

  lemma {:induction false} CalmPrefix(w: Desk, steps: seq<Step>, n: nat)
    requires Calm(w, steps) && n <= |steps|
    ensures Calm(w, steps[..n])
  {
    forall k | 0 <= k < n ensures CalmStep(Run(w, steps[..n][..k]), steps[..n][k]) {
      assert steps[..n][..k] == steps[..k];
    }
  }

  lemma {:induction false} RowsStay(w: Desk, s: Step, id: nat)
    requires Inv(w) && id in w.requests
    ensures id in Next(w, s).requests && Next(w, s).requests[id].key == w.requests[id].key
  {
    hide PostAll, FinalizePostings, DoRow, AllKnown, RowOk, SnapshotsOk;
    assert id < w.nextId;
    if s.action.OnRow? && s.action.id in w.requests
       && DoRow(w.requests[s.action.id], s.user, s.action.op, w.now, w.nextId, w.catalog.Keys).Put? {
      RowOpKeeps(w.requests[s.action.id], s.user, s.action.op, w.now, w.nextId, w.catalog.Keys);
    }
  }

  lemma {:induction false} CalmStepCurrent(w: Desk, s: Step)
    requires Inv(w) && SnapshotsCurrent(w) && CalmStep(w, s)
    ensures SnapshotsCurrent(Next(w, s))
  {
    hide Inv, Next;
    var w' := Next(w, s);
    forall call | call in w'.inflight
      ensures w'.inflight[call].id in w'.requests && w'.inflight[call].row.lines == w'.requests[w'.inflight[call].id].lines
    {
      SnapshotOrigin(w, s, call);
      if call in w.inflight && w.inflight[call] == w'.inflight[call] {
        RowsStay(w, s, w.inflight[call].id);
        assert !ReplacesLines(w, s, w.inflight[call].id);
      }
    }
  }

  // Where a snapshot comes from.
  lemma {:induction false} SnapshotOrigin(w: Desk, s: Step, call: nat)
    requires call in Next(w, s).inflight
    ensures w.now <= Next(w, s).now
    ensures var snap := Next(w, s).inflight[call];
      || (call in w.inflight && w.inflight[call] == snap)
      || (snap.id in w.requests && snap.row == w.requests[snap.id] && (snap.row.pickup <= w.now || snap.row.status == Approved)
          && Next(w, s) == w.(inflight := Next(w, s).inflight))
  {
    hide PostAll, FinalizePostings, DoRow, AllKnown;
  }

  lemma {:induction false} CalmCurrent(w: Desk, steps: seq<Step>)
    requires Initial(w) && Calm(w, steps)
    ensures SnapshotsCurrent(Run(w, steps))
  {
    hide Inv, Next, CalmStep;
    if steps != [] {
      var n := |steps| - 1;
      CalmPrefix(w, steps, n);
      CalmCurrent(w, steps[..n]);
      Reachable(w, steps[..n]);
      assert steps[..n] == steps[..n];
      CalmStepCurrent(Run(w, steps[..n]), steps[n]);
    }
  }

  lemma {:induction false} CurrentFits(w: Desk, s: Step, id: nat)
    requires Inv(w) && SnapshotsCurrent(w) && Holds(Once, w, id) && Posts(w, s, id)
    ensures Fits(Once, w, s.action.call) && Fits(Directed, w, s.action.call)
  {
    hide RowsOk, KeysUnique, PostedOnce, CommitStep;
    CommitExactly(w, s.action.call);
    assert SnapshotOk(w, w.inflight[s.action.call]);
    assert w.inflight[s.action.call].row.lines[0].id == w.requests[id].lines[0].id;
  }

  // That is enough for a request to be posted exactly once, and in its direction.
  lemma {:induction false} CalmPostsOnce(w: Desk, steps: seq<Step>, id: nat)
    requires Initial(w) && Calm(w, steps)
    ensures AllFit(Once, w, steps, id) && AllFit(Directed, w, steps, id)
    ensures Holds(Once, Run(w, steps), id) && Holds(Directed, Run(w, steps), id)
  {
    hide Inv, Holds, Fits, Posts, Run, Calm, SnapshotsCurrent;
    if steps == [] {
      InitialHolds(Once, w, id);
      InitialHolds(Directed, w, id);
      RunNone(w);
    } else {
      var n := |steps| - 1;
      var v := Run(w, steps[..n]);
      CalmPrefix(w, steps, n);
      CalmPostsOnce(w, steps[..n], id);
      Reachable(w, steps[..n]);
      CalmCurrent(w, steps[..n]);
      RunLast(w, steps);
      PrefixFits(Once, w, steps, n, id);
      PrefixFits(Directed, w, steps, n, id);
      if Posts(v, steps[n], id) { CurrentFits(v, steps[n], id); }
      StepHoldsIff(Once, v, steps[n], id);
      StepHoldsIff(Directed, v, steps[n], id);
    }
  }

  // ---- What is posted stays ----

  ghost predicate PostedRow(w: Desk, id: nat) {
    id in w.requests && IsPosted(w.requests[id].status)
  }

  // Lines and scopes as before, and the entries there were, perhaps with more after.
  ghost predicate StillPosted(w: Desk, w': Desk, id: nat)
    requires id in w.requests
  {
    && PostedRow(w', id)
    && var r, r' := w.requests[id], w'.requests[id];
    && r'.lines == r.lines && r'.direction == r.direction && r'.technician == r.technician
    && r'.fromScope == r.fromScope && r'.toScope == r.toScope && r'.pickup == r.pickup
    && Moves(w.store, id) <= Moves(w'.store, id)
  }

  lemma {:induction false} StaysPosted(w: Desk, id: nat)
    requires PostedRow(w, id)
    ensures StillPosted(w, w, id)
  {}

  lemma {:induction false} FrozenRow(w: Desk, user: User, k: nat, op: RowOp, id: nat)
    requires PostedRow(w, id)
    ensures StillPosted(w, OnRowStep(w, user, k, op).0, id)
  {
    hide Moves, NumberLines, AllKnown;
  }

  lemma {:induction false} FrozenCommit(w: Desk, s: Step, id: nat)
    requires Inv(w) && PostedRow(w, id) && s.action.CommitFinalize?
    ensures StillPosted(w, Next(w, s), id)
    ensures Moves(Next(w, s).store, id) == Moves(w.store, id) <==> !Posts(w, s, id)
  {
    hide Moves, FinalizePostings, PostAll, KeysUnique, RowsOk;
    var call := s.action.call;
    CommitShape(w, call);
    if CommitStep(w, call).0.store != w.store || CommitStep(w, call).0.requests != w.requests {
      var Snapshot(k, row) := w.inflight[call];
      assert SnapshotOk(w, w.inflight[call]);
      FinalizePairs(k, row, row.lines, w.catalog);
      CommitMoves(w.store, k, row, w.catalog, id);
    } else if Posts(w, s, id) {
      var Snapshot(k, row) := w.inflight[call];
      assert SnapshotOk(w, w.inflight[call]);
      FinalizePairs(k, row, row.lines, w.catalog);
      CommitMoves(w.store, k, row, w.catalog, id);
    }
  }

  lemma {:induction false} FrozenOther(w: Desk, s: Step, id: nat)
    requires Inv(w) && PostedRow(w, id) && !s.action.OnRow? && !s.action.CommitFinalize?
    ensures StillPosted(w, Next(w, s), id) && Moves(Next(w, s).store, id) == Moves(w.store, id)
  {
    hide Commit, Moves, RowOk, AllKnown, SnapshotsOk, KeysUnique;
    assert id < w.nextId;
    if s.action.BeginFinalize? { BeginOnlyReads(w, s.action.call, s.action.request); }
    if s.action.Foreign? && !exists p | p in s.action.postings :: p.key.RequestMove? { ForeignMoves(w.store, s.action.postings, id); }
  }

  lemma {:induction false} FrozenStep(w: Desk, s: Step, id: nat)
    requires Inv(w) && PostedRow(w, id)
    ensures StillPosted(w, Next(w, s), id)
    ensures Moves(Next(w, s).store, id) == Moves(w.store, id) <==> !Posts(w, s, id)
  {
    hide Inv, Moves, OnRowStep, CommitStep, StillPosted;
    match s.action
    case OnRow(k, op) => FrozenRow(w, s.user, k, op, id); OnRowSameStore(w, s.user, k, op);
    case CommitFinalize(_) => FrozenCommit(w, s, id);
    case _ => FrozenOther(w, s, id);
  }

  lemma {:induction false} OnRowSameStore(w: Desk, user: User, k: nat, op: RowOp)
    ensures OnRowStep(w, user, k, op).0.store == w.store
  {}

  // Once posted, a request keeps status class, lines and scopes in every run, and its
  // entries are the same afterwards exactly if no commit of it went through.
  lemma {:induction false} FrozenForever(w: Desk, steps: seq<Step>, id: nat)
    requires Inv(w) && PostedRow(w, id)
    ensures StillPosted(w, Run(w, steps), id)
    ensures Moves(Run(w, steps).store, id) == Moves(w.store, id) <==>
            forall k | 0 <= k < |steps| :: !Posts(Run(w, steps[..k]), steps[k], id)
  {
    hide Inv, Moves, Posts, Next;
    if steps != [] {
      var n := |steps| - 1;
      var front := steps[..n];
      RunKeeps(w, front);
      FrozenForever(w, front, id);
      FrozenStep(Run(w, front), steps[n], id);
      PrefixPosts(w, steps, n, id);
    }
  }

  lemma {:induction false} PrefixPosts(w: Desk, steps: seq<Step>, n: nat, id: nat)
    requires n <= |steps|
    ensures (forall k | 0 <= k < n :: !Posts(Run(w, steps[..n][..k]), steps[..n][k], id)) <==>
            (forall k | 0 <= k < n :: !Posts(Run(w, steps[..k]), steps[k], id))
  {
    hide Posts, Run;
    assert forall k | 0 <= k < n :: steps[..n][..k] == steps[..k] && steps[..n][k] == steps[k];
    if forall k | 0 <= k < n :: !Posts(Run(w, steps[..n][..k]), steps[..n][k], id) {
      forall k | 0 <= k < n ensures !Posts(Run(w, steps[..k]), steps[k], id) {
        assert !Posts(Run(w, steps[..n][..k]), steps[..n][k], id);
      }
    }
  }

  // ---- A create call is idempotent in its key ----

  lemma {:induction false} KeyStays(w: Desk, steps: seq<Step>, id: nat)
    requires Inv(w) && id in w.requests
    ensures id in Run(w, steps).requests && Run(w, steps).requests[id].key == w.requests[id].key
  {
    hide Inv, Next;
    if steps != [] {
      var n := |steps| - 1;
      RunKeeps(w, steps[..n]);
      KeyStays(w, steps[..n], id);
      RowsStay(Run(w, steps[..n]), steps[n], id);
    }
  }

  lemma {:induction false} CreateFinds(w: Desk, user: User, dto: CreateDto, id: nat)
    requires KeysUnique(w) && id in w.requests && w.requests[id].key == dto.key
    requires dto.key.Some? && dto.key.value != ""
    ensures CreateStep(w, user, dto).0 == w && CreateStep(w, user, dto).1 in {Done(id), Forbidden, BadRequest}
  {}

  lemma {:induction false} CreateLeavesKey(w: Desk, user: User, dto: CreateDto, id: nat)
    requires dto.key.Some? && CreateStep(w, user, dto).1 == Done(id)
    ensures var w' := CreateStep(w, user, dto).0; id in w'.requests && w'.requests[id].key == dto.key
  {}

  // Sending the same key again, whatever happened meanwhile and whatever else the
  // call carries, creates nothing and answers with the first request.
  lemma {:induction false} CreateOnce(w: Desk, user: User, dto: CreateDto, id: nat, steps: seq<Step>, user': User, dto': CreateDto)
    requires Inv(w) && CreateStep(w, user, dto).1 == Done(id)
    requires dto.key.Some? && dto.key.value != "" && dto'.key == dto.key
    ensures var v := Run(Next(w, Step(user, Create(dto))), steps);
      CreateStep(v, user', dto').0 == v && CreateStep(v, user', dto').1 in {Done(id), Forbidden, BadRequest}
  {
    hide CreateStep, Run;
    var w1 := Next(w, Step(user, Create(dto)));
    StepKeeps(w, Step(user, Create(dto)));
    CreateLeavesKey(w, user, dto, id);
    KeyStays(w1, steps, id);
    RunKeeps(w1, steps);
    CreateFinds(Run(w1, steps), user', dto', id);
  }

  // ---- Approved content ----

  datatype Content = Content(direction: Direction, fromScope: Scope, toScope: Scope, pickup: int, lines: seq<Line>)

  ghost function ContentOf(r: Request): Content {
    Content(r.direction, r.fromScope, r.toScope, r.pickup, r.lines)
  }

  // Step k of the run is an accepted approval of the request.
  ghost predicate ApprovalAt(w: Desk, steps: seq<Step>, k: nat, id: nat)
    requires k < |steps|
  {
    var s := steps[k];
    s.action.OnRow? && s.action.id == id && (s.action.op.Approve? || s.action.op.ApproveChanges?)
    && Do(Run(w, steps[..k]), s).1 == Done(id)
  }

  ghost predicate ApprovedAs(w: Desk, steps: seq<Step>, k: nat, id: nat, c: Content)
    requires k < |steps|
  {
    && ApprovalAt(w, steps, k, id)
    && steps[k].user.role != Tech
    && id in Run(w, steps[..k + 1]).requests
    && ContentOf(Run(w, steps[..k + 1]).requests[id]) == c
  }

  // The latest approval among the steps had this content.
  ghost predicate LatestApproval(w: Desk, steps: seq<Step>, id: nat, c: Content) {
    exists k :: 0 <= k < |steps| && ApprovedAs(w, steps, k, id, c)
                && forall j | k < j < |steps| :: !ApprovalAt(w, steps, j, id)
  }

  predicate Cleared(s: Status) { s == Approved || s == ChangeRequested }

  lemma {:induction false} ApprovalsExtend(w: Desk, steps: seq<Step>, k: nat, id: nat, c: Content)
    requires steps != [] && k < |steps| - 1
    ensures ApprovalAt(w, steps, k, id) <==> ApprovalAt(w, steps[..|steps| - 1], k, id)
    ensures ApprovedAs(w, steps, k, id, c) <==> ApprovedAs(w, steps[..|steps| - 1], k, id, c)
  {
    assert steps[..|steps| - 1][..k] == steps[..k];
    assert steps[..|steps| - 1][..k + 1] == steps[..k + 1];
  }

  ghost predicate StaysCleared(w: Desk, w': Desk, id: nat) {
    id in w'.requests && Cleared(w'.requests[id].status) ==>
      id in w.requests && Cleared(w.requests[id].status) && ContentOf(w'.requests[id]) == ContentOf(w.requests[id])
  }

  lemma {:induction false} ClearedRow(w: Desk, user: User, k: nat, op: RowOp, id: nat)
    requires !(k == id && (op.Approve? || op.ApproveChanges?) && OnRowStep(w, user, k, op).1 == Done(id))
    ensures StaysCleared(w, OnRowStep(w, user, k, op).0, id)
  {}

  // A step that is not an approval only leaves a request cleared if it was
  // cleared before with the same content.
  lemma {:induction false} ClearedStep(w: Desk, s: Step, id: nat)
    requires !(s.action.OnRow? && s.action.id == id && (s.action.op.Approve? || s.action.op.ApproveChanges?) && Do(w, s).1 == Done(id))
    ensures StaysCleared(w, Next(w, s), id)
  {
    match s.action
    case OnRow(k, op) => ClearedRow(w, s.user, k, op, id);
    case BeginFinalize(call, k) => BeginOnlyReads(w, call, k);
    case _ =>
  }

  lemma {:induction false} LatestExtends(w: Desk, steps: seq<Step>, id: nat, c: Content)
    requires steps != [] && LatestApproval(w, steps[..|steps| - 1], id, c) && !ApprovalAt(w, steps, |steps| - 1, id)
    ensures LatestApproval(w, steps, id, c)
  {
    hide ApprovalAt, ApprovedAs;
    var n := |steps| - 1;
    var k :| 0 <= k < n && ApprovedAs(w, steps[..n], k, id, c) && forall j | k < j < n :: !ApprovalAt(w, steps[..n], j, id);
    forall j | k <= j < n ensures ApprovalAt(w, steps, j, id) <==> ApprovalAt(w, steps[..n], j, id) {
      ApprovalsExtend(w, steps, j, id, c);
    }
    ApprovalsExtend(w, steps, k, id, c);
  }

  lemma {:induction false} ApprovedContent(w: Desk, steps: seq<Step>, id: nat)
    requires Initial(w)
    requires id in Run(w, steps).requests && Cleared(Run(w, steps).requests[id].status)
    ensures LatestApproval(w, steps, id, ContentOf(Run(w, steps).requests[id]))
  {
    if steps != [] {
      var n := |steps| - 1;
      var c := ContentOf(Run(w, steps).requests[id]);
      if ApprovalAt(w, steps, n, id) {
        assert steps[..n + 1] == steps;
        assert ApprovedAs(w, steps, n, id, c);
      } else {
        ClearedStep(Run(w, steps[..n]), steps[n], id);
        ApprovedContent(w, steps[..n], id);
        LatestExtends(w, steps, id, c);
      }
    }
  }

  // A finalize call, in any run, read what was due then or what had last been approved.
  ghost predicate ReadWasDue(w: Desk, steps: seq<Step>, n: nat, id: nat, row: Request)
    requires n <= |steps|
  {
    var v := Run(w, steps[..n]);
    id in v.requests && v.requests[id] == row && (row.pickup <= v.now || LatestApproval(w, steps[..n], id, ContentOf(row)))
  }

  lemma {:induction false} ReadDueOrApproved(w: Desk, steps: seq<Step>, call: nat)
    requires Initial(w) && call in Run(w, steps).inflight
    ensures var Snapshot(id, row) := Run(w, steps).inflight[call]; exists n :: 0 <= n <= |steps| && ReadWasDue(w, steps, n, id, row)
  {
    hide Next, LatestApproval;
    if steps != [] {
      var m := |steps| - 1;
      var front, snap := steps[..m], Run(w, steps).inflight[call];
      var v := Run(w, front);
      SnapshotOrigin(v, steps[m], call);
      if call in v.inflight && v.inflight[call] == snap {
        ReadDueOrApproved(w, front, call);
        var n :| 0 <= n <= m && ReadWasDue(w, front, n, snap.id, snap.row);
        assert front[..n] == steps[..n];
        assert ReadWasDue(w, steps, n, snap.id, snap.row);
      } else {
        if snap.row.status == Approved { ApprovedContent(w, front, snap.id); }
        assert ReadWasDue(w, steps, m, snap.id, snap.row);
      }
    }
  }

  // Every commit that posts, in every run, posts one pair per line of a row that was
  // due when it was read, or was exactly the content of its latest approval then.
  lemma {:induction false} FinalizeDueOrApproved(w: Desk, steps: seq<Step>, s: Step, id: nat)
    requires Initial(w) && Posts(Run(w, steps), s, id)
    ensures var v := Run(w, steps);
      var row, before, after := v.inflight[s.action.call].row, Moves(v.store, id), Moves(Next(v, s).store, id);
      && before <= after && PairsOf(after[|before|..], id, row, row.lines)
      && exists n :: 0 <= n <= |steps| && ReadWasDue(w, steps, n, id, row)
  {
    hide Run, Moves, PostAll, FinalizePostings, ReadWasDue, KeysUnique, RowsOk;
    var v, call := Run(w, steps), s.action.call;
    Reachable(w, steps);
    ReadDueOrApproved(w, steps, call);
    var row := v.inflight[call].row;
    assert SnapshotOk(v, v.inflight[call]);
    FinalizePairs(id, row, row.lines, v.catalog);
    CommitMoves(v.store, id, row, v.catalog, id);
    var ps, before := FinalizePostings(id, row, row.lines, v.catalog), Moves(v.store, id);
    assert (before + ps)[|before|..] == ps;
  }

  // In a calm run the request cannot be approved between read and commit.
  lemma {:induction false} NoApprovalInFlight(w: Desk, steps: seq<Step>, k: nat, call: nat)
    requires k < |steps| && Inv(Run(w, steps[..k])) && call in Run(w, steps[..k]).inflight
    requires SnapshotsCurrent(Run(w, steps[..k])) && CalmStep(Run(w, steps[..k]), steps[k])
    ensures !ApprovalAt(w, steps, k, Run(w, steps[..k]).inflight[call].id)
  {
    hide Inv, Run, OnRowStep;
    var v, s := Run(w, steps[..k]), steps[k];
    var id := v.inflight[call].id;
    SnapshotNotPending(v, call);
    assert !ReplacesLines(v, s, id);
    if s.action.OnRow? && s.action.id == id {
      ApproveNeedsPending(v, s.user, id);
      if s.action.op.ApproveChanges? && OnRowStep(v, s.user, id, ApproveChanges).1 == Done(id) { ApproveChangesReplaces(v, s.user, id); }
    }
  }

  lemma {:induction false} SnapshotNotPending(v: Desk, call: nat)
    requires Inv(v) && call in v.inflight && SnapshotsCurrent(v)
    ensures v.inflight[call].id in v.requests
    ensures v.requests[v.inflight[call].id].status != ApprovalPending
  {
    assert SnapshotOk(v, v.inflight[call]);
    var read, r := v.inflight[call].row, v.requests[v.inflight[call].id];
    assert read.lines[0].id == r.lines[0].id;
  }

  lemma {:induction false} ApproveNeedsPending(v: Desk, user: User, id: nat)
    requires id in v.requests && v.requests[id].status != ApprovalPending
    ensures OnRowStep(v, user, id, Approve).1 != Done(id)
  {}

  lemma {:induction false} ApproveChangesReplaces(v: Desk, user: User, id: nat)
    requires Inv(v) && id in v.requests && OnRowStep(v, user, id, ApproveChanges).1 == Done(id)
    ensures id in OnRowStep(v, user, id, ApproveChanges).0.requests
    ensures OnRowStep(v, user, id, ApproveChanges).0.requests[id].lines != v.requests[id].lines
  {
    hide AllKnown, SnapshotsOk, KeysUnique;
    var r := v.requests[id];
    assert RowOk(r, v.now, v.nextId, v.catalog.Keys);
    var e := ParsePayload(r.payload).value;
    assert NumberLines(e.lines, v.nextId)[0].id == v.nextId;
  }

  // So up to its commit, what the call read is due or is the latest approved content.
  lemma {:induction false} ReadStaysLatest(w: Desk, steps: seq<Step>, call: nat)
    requires Initial(w) && Calm(w, steps) && call in Run(w, steps).inflight
    ensures var Snapshot(id, row) := Run(w, steps).inflight[call];
      row.pickup <= Run(w, steps).now || LatestApproval(w, steps, id, ContentOf(row))
  {
    hide LatestApproval, Inv, ApprovalAt, Next, CalmStep, SnapshotsCurrent;
    if steps != [] {
      var n := |steps| - 1;
      var front := steps[..n];
      var v, snap := Run(w, front), Run(w, steps).inflight[call];
      CalmPrefix(w, steps, n);
      SnapshotOrigin(v, steps[n], call);
      Reachable(w, front);
      if call in v.inflight && v.inflight[call] == snap {
        ReadStaysLatest(w, front, call);
        CalmCurrent(w, front);
        NoApprovalInFlight(w, steps, n, call);
        if LatestApproval(w, front, snap.id, ContentOf(snap.row)) { LatestExtends(w, steps, snap.id, ContentOf(snap.row)); }
      } else if snap.row.status == Approved {
        ApprovedContent(w, front, snap.id);
        ReadIsNoApproval(w, steps, n, call);
        LatestExtends(w, steps, snap.id, ContentOf(snap.row));
      }
    }
  }

  lemma {:induction false} ReadIsNoApproval(w: Desk, steps: seq<Step>, k: nat, call: nat)
    requires k < |steps|
    requires var v := Run(w, steps[..k]);
      call in Next(v, steps[k]).inflight && !(call in v.inflight && v.inflight[call] == Next(v, steps[k]).inflight[call])
    ensures forall id :: !ApprovalAt(w, steps, k, id)
  {
    hide Run, DoRow;
  }
}
