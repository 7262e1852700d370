// Split calls on a row and split finalize calls together: what keeps a request posted
// exactly once, and when a posted request stays as it was posted.
module TransferCalm {
  import opened Basics
  import opened Ledger
  import opened TransferRequests
  import opened O = TransferOverlaps
  import D = TransferRequests
  import I = TransferInvariants
  import R = TransferRuns

  // ---- A condition that is enough ----

  // No lines are replaced while a finalize call of the request is open, and no late
  // write takes a request out of the posted statuses.
  ghost predicate CalmMove(f: Floor, m: Move) {
    match m
    case AtDesk(s) => CalmStep(f.desk, s)
    case WriteRow(call) => call in f.calls && Lands(f.desk, f.calls[call]) ==> CalmWrite(f.desk, f.calls[call])
    case _ => true
  }

  ghost predicate CalmWrite(w: Desk, c: RowCall)
    requires c.id in w.requests
  {
    && (IsPosted(w.requests[c.id].status) ==> IsPosted(StatusAfter(w.requests[c.id], c.write, w.now)))
    && (c.write.Replace? ==> forall call | call in w.inflight :: w.inflight[call].id != c.id)
  }

  ghost predicate CalmRun(f: Floor, moves: seq<Move>) {
    forall k | 0 <= k < |moves| :: CalmMove(O.Run(f, moves[..k]), moves[k])
  }

  // An acknowledgement that has been read awaits a posted issue.
  ghost predicate AckOk(w: Desk, c: RowCall) {
    c.write.ToStatus? && c.write.status == Acknowledged ==>
      c.id in w.requests && IsPosted(w.requests[c.id].status) && w.requests[c.id].direction == Issue
  }

  ghost predicate AcksOk(f: Floor, id: nat) {
    forall call | call in f.calls && f.calls[call].id == id :: AckOk(f.desk, f.calls[call])
  }

  ghost predicate Settled(f: Floor, id: nat) {
    && O.Inv(f) && R.SnapshotsCurrent(f.desk) && AcksOk(f, id)
    && I.Holds(I.Once, f.desk, id) && I.Holds(I.Directed, f.desk, id)
  }

  // A posted request stays posted, in its direction.
  ghost predicate StaysIssued(w: Desk, w': Desk, id: nat) {
    id in w.requests && IsPosted(w.requests[id].status) ==>
      id in w'.requests && IsPosted(w'.requests[id].status) && w'.requests[id].direction == w.requests[id].direction
  }

  lemma {:induction false} AcksStay(f: Floor, f': Floor, id: nat)
    requires AcksOk(f, id) && StaysIssued(f.desk, f'.desk, id)
    requires forall call | call in f'.calls :: call in f.calls && f'.calls[call] == f.calls[call]
    ensures AcksOk(f', id)
  {
    forall call | call in f'.calls && f'.calls[call].id == id ensures AckOk(f'.desk, f'.calls[call]) { assert AckOk(f.desk, f.calls[call]); }
  }

  lemma {:induction false} DeskIssued(w: Desk, s: Step, id: nat)
    requires I.Inv(w)
    ensures StaysIssued(w, D.Next(w, s), id)
  {
    hide D.Next, I.Inv, I.Moves;
    if R.PostedRow(w, id) { R.FrozenStep(w, s, id); }
  }

  lemma {:induction false} WriteIssued(w: Desk, c: RowCall, id: nat)
    requires Lands(w, c) ==> CalmWrite(w, c)
    ensures StaysIssued(w, LandAt(w, c), id)
  {
    hide NumberLines, AllKnown;
  }

  lemma {:induction false} WriteCurrent(w: Desk, c: RowCall)
    requires R.SnapshotsCurrent(w) && (Lands(w, c) ==> CalmWrite(w, c))
    ensures R.SnapshotsCurrent(LandAt(w, c))
  {
    hide NumberLines, AllKnown;
  }

  // In a calm run a late write lands where it fits.
  lemma {:induction false} CalmWriteFits(w: Desk, c: RowCall)
    requires Lands(w, c) && CalmWrite(w, c) && AckOk(w, c) && WriteOk(c.write)
    ensures FitsWrite(I.Once, w.requests[c.id], c.write, w.now) && FitsWrite(I.Directed, w.requests[c.id], c.write, w.now)
  {
    hide Land;
  }

  lemma {:induction false} ReadAck(w: Desk, user: User, id: nat, op: RowOp)
    requires id in w.requests && Decide(w.requests[id], user, op).Decided? && I.Holds(I.Directed, w, id)
    ensures AckOk(w, RowCall(user, id, op, w.requests[id], Decide(w.requests[id], user, op).write))
  {
    hide ParsePayload;
  }

  lemma {:induction false} SettledDesk(f: Floor, s: Step, id: nat)
    requires Settled(f, id) && CalmStep(f.desk, s)
    ensures Settled(f.(desk := D.Next(f.desk, s)), id) && !Breaks(I.Once, f, AtDesk(s), id) && !Breaks(I.Directed, f, AtDesk(s), id)
  {
    hide I.Holds, I.Fits, I.Posts, I.Inv, D.Next, R.SnapshotsCurrent, CalmStep, CallOk, AckOk;
    O.StepKeeps(f, AtDesk(s));
    R.CalmStepCurrent(f.desk, s);
    DeskIssued(f.desk, s, id);
    AcksStay(f, f.(desk := D.Next(f.desk, s)), id);
    if I.Posts(f.desk, s, id) { R.CurrentFits(f.desk, s, id); }
    O.StepHoldsIff(I.Once, f, AtDesk(s), id);
    O.StepHoldsIff(I.Directed, f, AtDesk(s), id);
  }

  lemma {:induction false} SettledWrite(f: Floor, call: nat, id: nat)
    requires Settled(f, id) && CalmMove(f, WriteRow(call))
    ensures Settled(O.Next(f, WriteRow(call)), id)
    ensures !Breaks(I.Once, f, WriteRow(call), id) && !Breaks(I.Directed, f, WriteRow(call), id)
  {
    hide I.Holds, I.Fits, I.Inv, FitsWrite, R.SnapshotsCurrent, CalmWrite, Lands, LandAt, WriteOk, Decide, AckOk;
    if call in f.calls {
      var c := f.calls[call];
      assert CallOk(f.desk, c);
      O.StepKeeps(f, WriteRow(call));
      WriteCurrent(f.desk, c);
      WriteIssued(f.desk, c, id);
      AcksStay(f, O.Next(f, WriteRow(call)), id);
      if c.id == id && Lands(f.desk, c) { CalmWriteFits(f.desk, c); }
    }
    O.StepHoldsIff(I.Once, f, WriteRow(call), id);
    O.StepHoldsIff(I.Directed, f, WriteRow(call), id);
  }

  lemma {:induction false} SettledOther(f: Floor, m: Move, id: nat)
    requires Settled(f, id) && (m.ReadRow? || m.CrashRow?)
    ensures Settled(O.Next(f, m), id) && !Breaks(I.Once, f, m, id) && !Breaks(I.Directed, f, m, id)
  {
    hide I.Holds, R.SnapshotsCurrent, AckOk, Decide, O.Inv;
    O.StepKeeps(f, m);
    if m.ReadRow? && m.id == id && id in f.desk.requests && Decide(f.desk.requests[id], m.user, m.op).Decided? {
      ReadAck(f.desk, m.user, id, m.op);
    }
    forall call | call in O.Next(f, m).calls && O.Next(f, m).calls[call].id == id
      ensures AckOk(f.desk, O.Next(f, m).calls[call])
    {
      if call in f.calls && f.calls[call] == O.Next(f, m).calls[call] { assert AckOk(f.desk, f.calls[call]); }
    }
  }

  // In every such run a request is posted exactly once, or not at all, and in its
  // direction, at every moment.
  lemma {:induction false} CalmPostsOnce(f: Floor, moves: seq<Move>, id: nat)
    requires O.Initial(f) && CalmRun(f, moves)
    ensures Settled(O.Run(f, moves), id)
    ensures forall k | 0 <= k < |moves| ::
      !Breaks(I.Once, O.Run(f, moves[..k]), moves[k], id) && !Breaks(I.Directed, O.Run(f, moves[..k]), moves[k], id)
  {
    hide Settled, Breaks, O.Next, CalmMove;
    if moves == [] {
      StartsSettled(f, id);
    } else {
      var n := |moves| - 1;
      var v := O.Run(f, moves[..n]);
      forall k | 0 <= k < n ensures CalmMove(O.Run(f, moves[..n][..k]), moves[..n][k]) { assert moves[..n][..k] == moves[..k]; }
      CalmPostsOnce(f, moves[..n], id);
      forall k | 0 <= k < n
        ensures !Breaks(I.Once, O.Run(f, moves[..k]), moves[k], id)
        ensures !Breaks(I.Directed, O.Run(f, moves[..k]), moves[k], id)
      {
        assert moves[..n][..k] == moves[..k] && moves[..n][k] == moves[k];
      }
      assert CalmMove(v, moves[n]);
      SettledStep(v, moves[n], id);
    }
  }

  lemma {:induction false} StartsSettled(f: Floor, id: nat)
    requires O.Initial(f)
    ensures Settled(f, id)
  {
    hide I.Holds;
    O.InitialInv(f);
    R.InitialHolds(I.Once, f.desk, id);
    R.InitialHolds(I.Directed, f.desk, id);
  }

  lemma {:induction false} SettledStep(f: Floor, m: Move, id: nat)
    requires Settled(f, id) && CalmMove(f, m)
    ensures Settled(O.Next(f, m), id) && !Breaks(I.Once, f, m, id) && !Breaks(I.Directed, f, m, id)
  {
    hide Settled, Breaks, D.Next, Decide, CalmStep, CalmWrite, Lands, LandAt;
    match m
    case AtDesk(s) => SettledDesk(f, s, id);
    case WriteRow(call) => SettledWrite(f, call, id);
    case _ => SettledOther(f, m, id);
  }

  // ---- What is posted stays, and exactly when ----

  // A late write takes the request out of the posted statuses.
  ghost predicate Reopens(f: Floor, m: Move, id: nat) {
    && m.WriteRow? && m.call in f.calls && f.calls[m.call].id == id && Lands(f.desk, f.calls[m.call])
    && !IsPosted(StatusAfter(f.desk.requests[id], f.calls[m.call].write, f.desk.now))
  }

  lemma {:induction false} WriteFrozenIff(w: Desk, c: RowCall, id: nat)
    requires R.PostedRow(w, id)
    ensures R.StillPosted(w, LandAt(w, c), id) <==>
            (c.id == id && Lands(w, c) ==> IsPosted(StatusAfter(w.requests[id], c.write, w.now)))
    ensures !R.StillPosted(w, LandAt(w, c), id) ==> !R.PostedRow(LandAt(w, c), id)
  {
    hide I.Moves, NumberLines, AllKnown;
  }

  lemma {:induction false} FrozenStepIff(f: Floor, m: Move, id: nat)
    requires O.Inv(f) && R.PostedRow(f.desk, id)
    ensures R.StillPosted(f.desk, O.Next(f, m).desk, id) <==> !Reopens(f, m, id)
    ensures Reopens(f, m, id) ==> !R.PostedRow(O.Next(f, m).desk, id)
    ensures I.Moves(O.Next(f, m).desk.store, id) == I.Moves(f.desk.store, id) <==> !(m.AtDesk? && I.Posts(f.desk, m.step, id))
  {
    hide I.Inv, I.Moves, I.Posts, D.Next, LandAt, Lands, Decide;
    match m
    case AtDesk(s) => R.FrozenStep(f.desk, s, id);
    case WriteRow(call) =>
      StoreStays(f, call);
      if call in f.calls { WriteFrozenIff(f.desk, f.calls[call], id); } else { R.StaysPosted(f.desk, id); }
    case _ => R.StaysPosted(f.desk, id);
  }

  lemma {:induction false} StoreStays(f: Floor, call: nat)
    ensures O.Next(f, WriteRow(call)).desk.store == f.desk.store
  {
    hide Land;
  }

  lemma {:induction false} PostedOn(a: Desk, b: Desk, c: Desk, id: nat)
    requires R.PostedRow(a, id) && R.StillPosted(a, b, id)
    ensures R.StillPosted(b, c, id) ==> R.StillPosted(a, c, id)
    ensures !R.PostedRow(c, id) ==> !R.StillPosted(a, c, id)
  {
    hide I.Moves;
  }

  ghost predicate FrozenThroughout(f: Floor, moves: seq<Move>, id: nat)
    requires id in f.desk.requests
  {
    forall k | 0 <= k <= |moves| :: R.StillPosted(f.desk, O.Run(f, moves[..k]).desk, id)
  }

  ghost predicate NeverReopened(f: Floor, moves: seq<Move>, id: nat) {
    forall k | 0 <= k < |moves| :: !Reopens(O.Run(f, moves[..k]), moves[k], id)
  }

  ghost predicate NoPosting(f: Floor, moves: seq<Move>, id: nat) {
    forall k | 0 <= k < |moves| && moves[k].AtDesk? :: !I.Posts(O.Run(f, moves[..k]).desk, moves[k].step, id)
  }

  // From any moment at which a request is posted, in every interleaving of split
  // calls: it stays posted throughout, with its lines, scopes and pickup, exactly if
  // no late write takes it out of the posted statuses; and then its entries stay the
  // same exactly if no commit of it goes through.
  lemma {:induction false} FrozenIff(f: Floor, moves: seq<Move>, id: nat)
    requires O.Inv(f) && R.PostedRow(f.desk, id)
    ensures FrozenThroughout(f, moves, id) <==> NeverReopened(f, moves, id)
    ensures NeverReopened(f, moves, id) ==>
      (I.Moves(O.Run(f, moves).desk.store, id) == I.Moves(f.desk.store, id) <==> NoPosting(f, moves, id))
  {
    hide O.Inv, I.Moves, I.Posts, Reopens, R.StillPosted, O.Run;
    if moves == [] {
      O.RunNone(f);
      assert moves[..0] == moves;
      R.StaysPosted(f.desk, id);
    } else {
      var n := |moves| - 1;
      var v := O.Run(f, moves[..n]);
      FrozenIff(f, moves[..n], id);
      Prefixes(f, moves, n, id);
      O.RunKeeps(f, moves[..n]);
      O.RunLast(f, moves);
      assert moves[..n + 1] == moves && moves[..n][..n] == moves[..n];
      if NeverReopened(f, moves[..n], id) {
        assert R.StillPosted(f.desk, O.Run(f, moves[..n][..n]).desk, id);
        EntriesGrow(f.desk, v.desk, id);
        FrozenStepIff(v, moves[n], id);
        PostedOn(f.desk, v.desk, O.Run(f, moves).desk, id);
        if !Reopens(v, moves[n], id) { EntriesGrow(v.desk, O.Run(f, moves).desk, id); }
      }
    }
  }

  lemma {:induction false} EntriesGrow(w: Desk, w': Desk, id: nat)
    requires id in w.requests && R.StillPosted(w, w', id)
    ensures R.PostedRow(w', id) && I.Moves(w.store, id) <= I.Moves(w'.store, id)
  {}

  lemma {:induction false} Prefixes(f: Floor, moves: seq<Move>, n: nat, id: nat)
    requires n <= |moves| && id in f.desk.requests
    ensures FrozenThroughout(f, moves[..n], id) <==> forall k | 0 <= k <= n :: R.StillPosted(f.desk, O.Run(f, moves[..k]).desk, id)
    ensures NeverReopened(f, moves[..n], id) <==> forall k | 0 <= k < n :: !Reopens(O.Run(f, moves[..k]), moves[k], id)
    ensures NoPosting(f, moves[..n], id) <==>
      forall k | 0 <= k < n && moves[k].AtDesk? :: !I.Posts(O.Run(f, moves[..k]).desk, moves[k].step, id)
  {
    hide R.StillPosted, Reopens, I.Posts, O.Run;
    assert forall k | 0 <= k <= n :: moves[..n][..k] == moves[..k];
    assert forall k | 0 <= k < n :: moves[..n][k] == moves[k];
    if FrozenThroughout(f, moves[..n], id) {
      forall k | 0 <= k <= n ensures R.StillPosted(f.desk, O.Run(f, moves[..k]).desk, id) {
        assert R.StillPosted(f.desk, O.Run(f, moves[..n][..k]).desk, id);
      }
    }
    if NeverReopened(f, moves[..n], id) {
      forall k | 0 <= k < n ensures !Reopens(O.Run(f, moves[..k]), moves[k], id) {
        assert !Reopens(O.Run(f, moves[..n][..k]), moves[..n][k], id);
      }
    }
    if NoPosting(f, moves[..n], id) {
      forall k | 0 <= k < n && moves[k].AtDesk? ensures !I.Posts(O.Run(f, moves[..k]).desk, moves[k].step, id) {
        assert !I.Posts(O.Run(f, moves[..n][..k]).desk, moves[..n][k].step, id);
      }
    }
  }
}
