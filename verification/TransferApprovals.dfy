// Approved content where calls on a row read in one statement and write in a later
// one: when APPROVED and CHANGE_REQUESTED stand for what was last approved, when an
// approval is one of what its call read, and what a finalize then posts.
module TransferApprovals {
  import opened Basics
  import opened Ledger
  import opened TransferRequests
  import opened O = TransferOverlaps
  import D = TransferRequests
  import E = TransferEffects
  import I = TransferInvariants
  import R = TransferRuns

  // ---- Approvals in a run ----

  predicate IsApproval(op: RowOp) { op.Approve? || op.ApproveChanges? }

  // The move puts an approval on the request, as a whole call or as a late write.
  ghost predicate Approves(f: Floor, m: Move, id: nat) {
    match m
    case AtDesk(s) => s.action.OnRow? && s.action.id == id && IsApproval(s.action.op) && D.Do(f.desk, s).1 == D.Done(id)
    case WriteRow(call) => call in f.calls && f.calls[call].id == id && IsApproval(f.calls[call].op) && Lands(f.desk, f.calls[call])
    case _ => false
  }

  ghost predicate ByClerk(f: Floor, m: Move) {
    match m
    case AtDesk(s) => s.user.role != Tech
    case WriteRow(call) => call in f.calls && f.calls[call].user.role != Tech
    case _ => false
  }

  ghost predicate ApprovalAt(f: Floor, moves: seq<Move>, k: nat, id: nat)
    requires k < |moves|
  {
    Approves(O.Run(f, moves[..k]), moves[k], id)
  }

  // The request after the first n moves has this content.
  ghost predicate Reads(f: Floor, moves: seq<Move>, n: nat, id: nat, c: R.Content)
    requires n <= |moves|
  {
    var w := O.Run(f, moves[..n]).desk;
    id in w.requests && R.ContentOf(w.requests[id]) == c
  }

  ghost predicate ApprovedAs(f: Floor, moves: seq<Move>, k: nat, id: nat, c: R.Content)
    requires k < |moves|
  {
    ApprovalAt(f, moves, k, id) && ByClerk(O.Run(f, moves[..k]), moves[k]) && Reads(f, moves, k + 1, id, c)
  }

  // The latest approval among the moves left this content.
  ghost predicate LatestApproval(f: Floor, moves: seq<Move>, id: nat, c: R.Content) {
    exists k :: 0 <= k < |moves| && ApprovedAs(f, moves, k, id, c)
                && forall j | k < j < |moves| :: !ApprovalAt(f, moves, j, id)
  }

  lemma {:induction false} ApprovalsExtend(f: Floor, moves: seq<Move>, n: nat, k: nat, id: nat, c: R.Content)
    requires k < n <= |moves|
    ensures ApprovalAt(f, moves[..n], k, id) <==> ApprovalAt(f, moves, k, id)
    ensures ApprovedAs(f, moves[..n], k, id, c) <==> ApprovedAs(f, moves, k, id, c)
  {
    hide O.Run, Approves, ByClerk;
    assert moves[..n][..k] == moves[..k];
    assert moves[..n][..k + 1] == moves[..k + 1];
  }

  // One more move: it is the latest approval, or the latest one stays.
  lemma {:induction false} LatestStep(f: Floor, moves: seq<Move>, id: nat, c: R.Content)
    requires moves != []
    ensures var n := |moves| - 1;
      LatestApproval(f, moves, id, c) <==>
      if ApprovalAt(f, moves, n, id) then ApprovedAs(f, moves, n, id, c) else LatestApproval(f, moves[..n], id, c)
  {
    hide ApprovalAt, ApprovedAs;
    var n := |moves| - 1;
    forall k | 0 <= k < n
      ensures ApprovalAt(f, moves[..n], k, id) <==> ApprovalAt(f, moves, k, id)
      ensures ApprovedAs(f, moves[..n], k, id, c) <==> ApprovedAs(f, moves, k, id, c)
    {
      ApprovalsExtend(f, moves, n, k, id, c);
    }
    ApprovedIsApproval(f, moves, n, id, c);
    if !ApprovalAt(f, moves, n, id) {
      if LatestApproval(f, moves, id, c) {
        var k :| 0 <= k < |moves| && ApprovedAs(f, moves, k, id, c) && forall j | k < j < |moves| :: !ApprovalAt(f, moves, j, id);
        assert ApprovedAs(f, moves[..n], k, id, c);
      }
      if LatestApproval(f, moves[..n], id, c) {
        var k :| 0 <= k < n && ApprovedAs(f, moves[..n], k, id, c) && forall j | k < j < n :: !ApprovalAt(f, moves[..n], j, id);
        assert ApprovedAs(f, moves, k, id, c);
      }
    }
  }

  lemma {:induction false} ApprovedIsApproval(f: Floor, moves: seq<Move>, k: nat, id: nat, c: R.Content)
    requires k < |moves|
    ensures ApprovedAs(f, moves, k, id, c) ==> ApprovalAt(f, moves, k, id)
  {}

  // ---- While cleared, the content is the approved one ----

  // The request is cleared only with the content of its latest approval.
  ghost predicate ClearedAsApproved(f: Floor, moves: seq<Move>, id: nat) {
    var w := O.Run(f, moves).desk;
    id in w.requests && R.Cleared(w.requests[id].status) ==> LatestApproval(f, moves, id, R.ContentOf(w.requests[id]))
  }

  // Writes that clear a request without approving its content.
  predicate Restores(c: RowCall) { c.op.DenyChanges? || c.write.StoreChange? }

  ghost predicate RestoreLands(f: Floor, m: Move, id: nat) {
    m.WriteRow? && m.call in f.calls && f.calls[m.call].id == id && Restores(f.calls[m.call]) && Lands(f.desk, f.calls[m.call])
  }

  // Such a write finds the request cleared, or with the content of its latest approval.
  ghost predicate RestoreFits(f: Floor, moves: seq<Move>, k: nat, id: nat)
    requires k < |moves|
  {
    var w := O.Run(f, moves[..k]).desk;
    RestoreLands(O.Run(f, moves[..k]), moves[k], id) ==>
      && id in w.requests
      && (R.Cleared(w.requests[id].status) || LatestApproval(f, moves[..k], id, R.ContentOf(w.requests[id])))
  }

  // A late write that is no approval leaves a request cleared only as it was, exactly
  // if it finds it cleared where it clears it.
  lemma {:induction false} LandClearedIff(w: Desk, c: RowCall)
    requires O.CallOk(w, c) && Lands(w, c) && !IsApproval(c.op)
    ensures R.StaysCleared(w, LandAt(w, c), c.id) <==> (Restores(c) ==> R.Cleared(w.requests[c.id].status))
    ensures Restores(c) ==> var r := LandAt(w, c).requests[c.id]; R.Cleared(r.status) && R.ContentOf(r) == R.ContentOf(w.requests[c.id])
  {
    hide ParsePayload, NumberLines, AllKnown;
  }

  lemma {:induction false} ApprovingMove(f: Floor, m: Move, id: nat)
    requires CallsOk(f) && Approves(f, m, id)
    ensures ByClerk(f, m) && id in O.Next(f, m).desk.requests && O.Next(f, m).desk.requests[id].status == Approved
  {
    hide ParsePayload, NumberLines, AllKnown;
    if m.WriteRow? { assert O.CallOk(f.desk, f.calls[m.call]); }
  }

  // A move that neither approves nor restores leaves a request cleared only as it was.
  lemma {:induction false} OtherMove(f: Floor, m: Move, id: nat)
    requires CallsOk(f) && !Approves(f, m, id) && !RestoreLands(f, m, id)
    ensures R.StaysCleared(f.desk, O.Next(f, m).desk, id)
  {
    hide D.Do, LandAt, Lands, Decide;
    match m
    case AtDesk(s) => R.ClearedStep(f.desk, s, id);
    case WriteRow(call) =>
      if call in f.calls {
        var c := f.calls[call];
        assert O.CallOk(f.desk, c);
        LandElsewhere(f.desk, c, id);
        if c.id == id && Lands(f.desk, c) { LandClearedIff(f.desk, c); }
      }
    case _ =>
  }

  lemma {:induction false} LandElsewhere(w: Desk, c: RowCall, id: nat)
    ensures c.id != id || !Lands(w, c) ==> R.StaysCleared(w, LandAt(w, c), id)
  {
    hide Land;
  }

  lemma {:induction false} RestoringMove(f: Floor, m: Move, id: nat)
    requires CallsOk(f) && RestoreLands(f, m, id)
    ensures !Approves(f, m, id) && id in f.desk.requests && id in O.Next(f, m).desk.requests
    ensures var r := O.Next(f, m).desk.requests[id]; R.Cleared(r.status) && R.ContentOf(r) == R.ContentOf(f.desk.requests[id])
  {
    hide Land, ParsePayload, Lands;
    var c := f.calls[m.call];
    assert O.CallOk(f.desk, c);
    RestoreIsNoApproval(c);
    LandClearedIff(f.desk, c);
    LandKeepsRow(f.desk, c);
  }

  lemma {:induction false} RestoreIsNoApproval(c: RowCall)
    requires Decide(c.read, c.user, c.op) == Decided(c.write) && Restores(c)
    ensures !IsApproval(c.op)
  {
    hide ParsePayload;
  }

  lemma {:induction false} LandKeepsRow(w: Desk, c: RowCall)
    ensures c.id in w.requests ==> c.id in LandAt(w, c).requests
  {
    hide Land;
  }

  // One more move, from a state where the property holds.
  lemma {:induction false} ClearedStep(f: Floor, moves: seq<Move>, id: nat)
    requires O.Initial(f) && moves != [] && ClearedAsApproved(f, moves[..|moves| - 1], id)
    ensures ClearedAsApproved(f, moves, id) <==> RestoreFits(f, moves, |moves| - 1, id)
  {
    hide O.Next, Approves, RestoreLands, ByClerk, Lands, LatestApproval, O.Inv, CallsOk;
    var n := |moves| - 1;
    var v, m := O.Run(f, moves[..n]), moves[n];
    var w := O.Run(f, moves).desk;
    O.InitialInv(f);
    O.RunKeeps(f, moves[..n]);
    O.InvCalls(v);
    RunLast(f, moves);
    assert moves[..n + 1] == moves;
    if id in w.requests { LatestStep(f, moves, id, R.ContentOf(w.requests[id])); }
    if Approves(v, m, id) {
      ApprovingMove(v, m, id);
      if RestoreLands(v, m, id) { RestoringMove(v, m, id); }
      assert ApprovedAs(f, moves, n, id, R.ContentOf(w.requests[id]));
    } else if RestoreLands(v, m, id) {
      RestoringMove(v, m, id);
    } else {
      OtherMove(v, m, id);
    }
  }

  // From an empty database, in every interleaving of split calls: throughout the run
  // an APPROVED or CHANGE_REQUESTED request has the direction, scopes, pickup and lines
  // of its latest approval, by a non-technician, exactly if every denial of changes and
  // every change request that is written finds it cleared, or with that content.
  lemma {:induction false} ApprovedContentIff(f: Floor, moves: seq<Move>, id: nat)
    requires O.Initial(f)
    ensures (forall k | 0 <= k <= |moves| :: ClearedAsApproved(f, moves[..k], id)) <==>
            forall k | 0 <= k < |moves| :: RestoreFits(f, moves, k, id)
  {
    hide ClearedAsApproved, RestoreFits, O.Run;
    if moves == [] {
      assert moves[..0] == moves;
      NothingCleared(f, id);
    } else {
      var n := |moves| - 1;
      ApprovedContentIff(f, moves[..n], id);
      Prefixes(f, moves, n, id);
      assert moves[..n + 1] == moves;
      if ClearedAsApproved(f, moves[..n], id) { ClearedStep(f, moves, id); }
    }
  }

  lemma {:induction false} NothingCleared(f: Floor, id: nat)
    requires O.Initial(f)
    ensures ClearedAsApproved(f, [], id)
  {}

  lemma {:induction false} Prefixes(f: Floor, moves: seq<Move>, n: nat, id: nat)
    requires n <= |moves|
    ensures (forall k | 0 <= k <= n :: ClearedAsApproved(f, moves[..n][..k], id)) <==> forall k | 0 <= k <= n :: ClearedAsApproved(f, moves[..k], id)
    ensures (forall k | 0 <= k < n :: RestoreFits(f, moves[..n], k, id)) <==> forall k | 0 <= k < n :: RestoreFits(f, moves, k, id)
  {
    hide ClearedAsApproved, RestoreLands, O.Run;
    assert forall k | 0 <= k <= n :: moves[..n][..k] == moves[..k];
    assert forall k | 0 <= k < n :: moves[..n][k] == moves[k];
    if forall k | 0 <= k <= n :: ClearedAsApproved(f, moves[..n][..k], id) {
      forall k | 0 <= k <= n ensures ClearedAsApproved(f, moves[..k], id) { assert ClearedAsApproved(f, moves[..n][..k], id); }
    }
    if forall k | 0 <= k < n :: RestoreFits(f, moves[..n], k, id) {
      forall k | 0 <= k < n ensures RestoreFits(f, moves, k, id) { assert RestoreFits(f, moves[..n], k, id); }
    }
    if forall k | 0 <= k < n :: RestoreFits(f, moves, k, id) {
      forall k | 0 <= k < n ensures RestoreFits(f, moves[..n], k, id) { assert RestoreFits(f, moves, k, id); }
    }
  }

  // ---- What was read, and what is there later ----

  // The call's row was the request after the first n moves.
  ghost predicate WasRow(f: Floor, moves: seq<Move>, n: nat, id: nat, row: Request)
    requires n <= |moves|
  {
    var w := O.Run(f, moves[..n]).desk;
    id in w.requests && w.requests[id] == row
  }

  ghost predicate NewLines(f: Floor, m: Move, id: nat) {
    && id in f.desk.requests && id in O.Next(f, m).desk.requests
    && O.Next(f, m).desk.requests[id].lines != f.desk.requests[id].lines
  }

  // Move k puts new lines on the request.
  ghost predicate Replaced(f: Floor, moves: seq<Move>, k: nat, id: nat)
    requires k < |moves|
  {
    NewLines(O.Run(f, moves[..k]), moves[k], id)
  }

  ghost predicate RowFollows(w: Desk, w': Desk, id: nat) {
    && id in w'.requests && w.nextId <= w'.nextId
    && (id in w.requests ==>
         && w'.requests[id].technician == w.requests[id].technician
         && (I.SameLines(w.requests[id], w'.requests[id])
             || forall i | 0 <= i < |w'.requests[id].lines| :: w'.requests[id].lines[i].id >= w.nextId))
  }

  lemma {:induction false} DeskFollows(w: Desk, s: Step, id: nat)
    requires I.Inv(w) && id in w.requests
    ensures RowFollows(w, D.Next(w, s), id)
  {
    hide PostAll, FinalizePostings, DoRow, AllKnown, I.RowOk, I.SnapshotsOk, I.KeysUnique, NumberLines;
    assert id < w.nextId;
    match s.action
    case OnRow(k, op) =>
      if k in w.requests && DoRow(w.requests[k], s.user, op, w.now, w.nextId, w.catalog.Keys).Put? {
        I.RowOpKeeps(w.requests[k], s.user, op, w.now, w.nextId, w.catalog.Keys);
      }
    case CommitFinalize(call) => I.CommitShape(w, call);
    case BeginFinalize(call, k) => I.BeginOnlyReads(w, call, k);
    case _ =>
  }

  lemma {:induction false} LandFollows(w: Desk, c: RowCall, id: nat)
    requires I.Inv(w) && id in w.requests && WriteOk(c.write)
    ensures RowFollows(w, LandAt(w, c), id)
  {
    hide Land, I.RowOk, I.SnapshotsOk, I.KeysUnique;
    if c.id in w.requests && Lands(w, c) { LandKeeps(w.requests[c.id], c.write, w.now, w.nextId, w.catalog.Keys); }
  }

  lemma {:induction false} MoveFollows(f: Floor, m: Move, id: nat)
    requires O.Inv(f) && id in f.desk.requests
    ensures RowFollows(f.desk, O.Next(f, m).desk, id)
  {
    hide I.Inv, D.Next, LandAt, Decide;
    match m
    case AtDesk(s) => DeskFollows(f.desk, s, id);
    case WriteRow(call) =>
      if call in f.calls {
        assert O.CallOk(f.desk, f.calls[call]);
        LandFollows(f.desk, f.calls[call], id);
      }
    case _ =>
  }

  lemma {:induction false} HasLines(f: Floor, id: nat)
    requires O.Inv(f) && id in f.desk.requests
    ensures var r := f.desk.requests[id];
      && r.lines != [] && (forall i | 0 <= i < |r.lines| :: r.lines[i].id < f.desk.nextId)
      && r.fromScope == FromScope(r.direction, r.technician) && r.toScope == ToScope(r.direction, r.technician)
  {
    assert I.RowOk(f.desk.requests[id], f.desk.now, f.desk.nextId, f.desk.catalog.Keys);
  }

  ghost predicate AllNew(lines: seq<Line>, first: nat) {
    forall i | 0 <= i < |lines| :: lines[i].id >= first
  }

  ghost predicate NoneReplaced(f: Floor, moves: seq<Move>, n: nat, id: nat) {
    forall k | n <= k < |moves| :: !Replaced(f, moves, k, id)
  }

  lemma {:induction false} NoneReplacedStep(f: Floor, moves: seq<Move>, n: nat, id: nat)
    requires n < |moves|
    ensures var m := |moves| - 1;
      NoneReplaced(f, moves, n, id) <==> NoneReplaced(f, moves[..m], n, id) && !NewLines(O.Run(f, moves[..m]), moves[m], id)
  {
    hide Replaced;
    var m := |moves| - 1;
    ReplacedHere(f, moves, id);
    forall k | n <= k < m ensures Replaced(f, moves[..m], k, id) <==> Replaced(f, moves, k, id) { ReplacedExtends(f, moves, m, k, id); }
    if NoneReplaced(f, moves, n, id) {
      forall k | n <= k < m ensures !Replaced(f, moves[..m], k, id) { assert !Replaced(f, moves, k, id); }
      assert !Replaced(f, moves, m, id);
    }
    if NoneReplaced(f, moves[..m], n, id) && !Replaced(f, moves, m, id) {
      forall k | n <= k < |moves| ensures !Replaced(f, moves, k, id) { if k < m { assert !Replaced(f, moves[..m], k, id); } }
    }
  }

  // What a move does to a request of this content, or with only such new lines.
  lemma {:induction false} ContentStep(f: Floor, m: Move, id: nat, c: R.Content, first: nat)
    requires O.Inv(f) && id in f.desk.requests && first <= f.desk.nextId
    ensures id in O.Next(f, m).desk.requests && f.desk.nextId <= O.Next(f, m).desk.nextId
    ensures var r, r' := f.desk.requests[id], O.Next(f, m).desk.requests[id];
      && (!NewLines(f, m, id) && R.ContentOf(r) == c ==> R.ContentOf(r') == c)
      && (NewLines(f, m, id) || AllNew(r.lines, first) ==> AllNew(r'.lines, first))
  {
    hide O.Inv, O.Next;
    O.StepKeeps(f, m);
    MoveFollows(f, m, id);
    HasLines(f, id);
    HasLines(O.Next(f, m), id);
    var r, r' := f.desk.requests[id], O.Next(f, m).desk.requests[id];
    if !I.SameLines(r, r') { NewDiffer(r.lines, r'.lines, f.desk.nextId); }
  }

  lemma {:induction false} NewDiffer(a: seq<Line>, b: seq<Line>, first: nat)
    requires a != [] && forall i | 0 <= i < |a| :: a[i].id < first
    ensures b != [] && AllNew(b, first) ==> a != b
  {
    if b != [] && AllNew(b, first) { assert a[0].id < first <= b[0].id; }
  }

  // Since any moment a request has kept its content, if no move put new lines on it;
  // otherwise all its lines are newer than that moment.
  lemma {:induction false} KeptOrNew(f: Floor, moves: seq<Move>, n: nat, id: nat)
    requires O.Inv(f) && n <= |moves| && id in O.Run(f, moves[..n]).desk.requests
    ensures var a, b := O.Run(f, moves[..n]).desk, O.Run(f, moves).desk;
      && id in b.requests && a.nextId <= b.nextId
      && (if NoneReplaced(f, moves, n, id) then R.ContentOf(b.requests[id]) == R.ContentOf(a.requests[id])
          else AllNew(b.requests[id].lines, a.nextId))
  {
    hide O.Inv, O.Next, NoneReplaced, NewLines, AllNew, R.ContentOf;
    if n == |moves| {
      assert moves[..n] == moves;
      NoneYet(f, moves, id);
    } else {
      var m := |moves| - 1;
      var a, v := O.Run(f, moves[..n]).desk, O.Run(f, moves[..m]);
      assert moves[..m][..n] == moves[..n];
      KeptOrNew(f, moves[..m], n, id);
      O.RunKeeps(f, moves[..m]);
      NoneReplacedStep(f, moves, n, id);
      ContentStep(v, moves[m], id, R.ContentOf(a.requests[id]), a.nextId);
    }
  }

  lemma {:induction false} NoneYet(f: Floor, moves: seq<Move>, id: nat)
    ensures NoneReplaced(f, moves, |moves|, id)
  {}

  lemma {:induction false} ReplacedExtends(f: Floor, moves: seq<Move>, n: nat, k: nat, id: nat)
    requires k < n <= |moves|
    ensures Replaced(f, moves[..n], k, id) <==> Replaced(f, moves, k, id)
  {
    assert moves[..n][..k] == moves[..k];
  }

  lemma {:induction false} ReplacedHere(f: Floor, moves: seq<Move>, id: nat)
    requires moves != []
    ensures Replaced(f, moves, |moves| - 1, id) <==> NewLines(O.Run(f, moves[..|moves| - 1]), moves[|moves| - 1], id)
  {}

  // So a request has the content that was read exactly if no lines were replaced since.
  lemma {:induction false} SameContentIff(f: Floor, moves: seq<Move>, n: nat, id: nat, row: Request)
    requires O.Initial(f) && n <= |moves| && WasRow(f, moves, n, id, row)
    ensures var w := O.Run(f, moves).desk;
      && id in w.requests
      && (R.ContentOf(w.requests[id]) == R.ContentOf(row) <==> NoneReplaced(f, moves, n, id))
      && (w.requests[id].lines == row.lines <==> NoneReplaced(f, moves, n, id))
  {
    hide O.Inv, O.Run, NoneReplaced;
    O.InitialInv(f);
    KeptOrNew(f, moves, n, id);
    O.RunKeeps(f, moves[..n]);
    O.RunKeeps(f, moves);
    HasLines(O.Run(f, moves[..n]), id);
    HasLines(O.Run(f, moves), id);
    NewDiffer(row.lines, O.Run(f, moves).desk.requests[id].lines, O.Run(f, moves[..n]).desk.nextId);
  }

  // Every open row call carries the row as it was at some moment.
  lemma {:induction false} CallWasRead(f: Floor, moves: seq<Move>, call: nat)
    requires O.Initial(f) && call in O.Run(f, moves).calls
    ensures exists n :: 0 <= n <= |moves| && WasRow(f, moves, n, O.Run(f, moves).calls[call].id, O.Run(f, moves).calls[call].read)
  {
    hide LandAt, D.Next, Decide;
    if moves != [] {
      var m := |moves| - 1;
      var v, c := O.Run(f, moves[..m]), O.Run(f, moves).calls[call];
      if call in v.calls && v.calls[call] == c {
        CallWasRead(f, moves[..m], call);
        var n :| 0 <= n <= m && WasRow(f, moves[..m], n, c.id, c.read);
        assert moves[..m][..n] == moves[..n];
        assert WasRow(f, moves, n, c.id, c.read);
      } else {
        assert WasRow(f, moves, m, c.id, c.read);
      }
    }
  }

  // An approval that lands approves exactly what its call read, if and only if no
  // lines were replaced in between.
  lemma {:induction false} ApprovesWhatWasReadIff(f: Floor, moves: seq<Move>, call: nat, n: nat)
    requires O.Initial(f) && n <= |moves| && call in O.Run(f, moves).calls && O.Run(f, moves).calls[call].op.Approve?
    requires WasRow(f, moves, n, O.Run(f, moves).calls[call].id, O.Run(f, moves).calls[call].read)
    ensures var c, w' := O.Run(f, moves).calls[call], O.Run(f, moves + [WriteRow(call)]).desk;
      && c.id in w'.requests && w'.requests[c.id].status == Approved
      && ApprovalAt(f, moves + [WriteRow(call)], |moves|, c.id)
      && (R.ContentOf(w'.requests[c.id]) == R.ContentOf(c.read) <==> NoneReplaced(f, moves, n, c.id))
  {
    hide O.Run, O.Inv, NoneReplaced;
    var c := O.Run(f, moves).calls[call];
    O.InitialInv(f);
    O.RunKeeps(f, moves);
    O.InvCalls(O.Run(f, moves));
    SameContentIff(f, moves, n, c.id, c.read);
    O.RunSnoc(f, moves, WriteRow(call));
    assert (moves + [WriteRow(call)])[..|moves|] == moves;
    ApproveLands(O.Run(f, moves), call);
  }

  lemma {:induction false} ApproveLands(f: Floor, call: nat)
    requires CallsOk(f) && call in f.calls && f.calls[call].op.Approve?
    ensures var c, w' := f.calls[call], O.Next(f, WriteRow(call)).desk;
      && Approves(f, WriteRow(call), c.id)
      && c.id in f.desk.requests && c.id in w'.requests && w'.requests[c.id] == f.desk.requests[c.id].(status := Approved)
  {
    assert O.CallOk(f.desk, f.calls[call]);
  }

  // ---- What a finalize reads and posts ----

  // The finalize call read, at some moment, a row that was due then or had the content
  // of its latest approval.
  ghost predicate ReadWasDue(f: Floor, moves: seq<Move>, n: nat, id: nat, row: Request)
    requires n <= |moves|
  {
    && WasRow(f, moves, n, id, row)
    && (row.pickup <= O.Run(f, moves[..n]).desk.now || LatestApproval(f, moves[..n], id, R.ContentOf(row)))
  }

  lemma {:induction false} ReadDueOrApproved(f: Floor, moves: seq<Move>, call: nat)
    requires O.Initial(f) && call in O.Run(f, moves).desk.inflight
    requires forall k | 0 <= k < |moves| :: RestoreFits(f, moves, k, O.Run(f, moves).desk.inflight[call].id)
    ensures var Snapshot(id, row) := O.Run(f, moves).desk.inflight[call];
      exists n :: 0 <= n <= |moves| && ReadWasDue(f, moves, n, id, row)
  {
    hide LatestApproval, RestoreFits, LandAt, D.Next, Decide;
    if moves != [] {
      var m := |moves| - 1;
      var v, snap := O.Run(f, moves[..m]), O.Run(f, moves).desk.inflight[call];
      LandOnlyRows(v.desk);
      Prefixes(f, moves, m, snap.id);
      if moves[m].AtDesk? { R.SnapshotOrigin(v.desk, moves[m].step, call); }
      if call in v.desk.inflight && v.desk.inflight[call] == snap {
        ReadDueOrApproved(f, moves[..m], call);
        var n :| 0 <= n <= m && ReadWasDue(f, moves[..m], n, snap.id, snap.row);
        assert moves[..m][..n] == moves[..n];
        assert ReadWasDue(f, moves, n, snap.id, snap.row);
      } else {
        ApprovedContentIff(f, moves[..m], snap.id);
        assert moves[..m][..m] == moves[..m];
        assert ClearedAsApproved(f, moves[..m][..m], snap.id);
        assert ReadWasDue(f, moves, m, snap.id, snap.row);
      }
    }
  }

  lemma {:induction false} LandOnlyRows(w: Desk)
    ensures forall c :: LandAt(w, c).inflight == w.inflight
  {
    hide Land;
  }

  // Every commit that goes through posts one pair per line of a row that was due when
  // it was read, or was then exactly the latest approved content; in every run whose
  // late denials and change requests fit.
  lemma {:induction false} FinalizeDueOrApproved(f: Floor, moves: seq<Move>, s: Step, id: nat)
    requires O.Initial(f) && I.Posts(O.Run(f, moves).desk, s, id)
    requires forall k | 0 <= k < |moves| :: RestoreFits(f, moves, k, id)
    ensures var w := O.Run(f, moves).desk;
      var row, before, after := w.inflight[s.action.call].row, I.Moves(w.store, id), I.Moves(D.Next(w, s).store, id);
      && before <= after && I.PairsOf(after[|before|..], id, row, row.lines)
      && exists n :: 0 <= n <= |moves| && ReadWasDue(f, moves, n, id, row)
  {
    hide O.Run, I.Moves, I.Posts, ReadWasDue, RestoreFits, O.Inv;
    O.InitialInv(f);
    O.RunKeeps(f, moves);
    PostsPairs(O.Run(f, moves), s, id);
    ReadDueOrApproved(f, moves, s.action.call);
  }

  lemma {:induction false} PostsPairs(f: Floor, s: Step, id: nat)
    requires O.Inv(f) && I.Posts(f.desk, s, id)
    ensures s.action.CommitFinalize? && s.action.call in f.desk.inflight && f.desk.inflight[s.action.call].id == id
    ensures var row, before, after := f.desk.inflight[s.action.call].row, I.Moves(f.desk.store, id), I.Moves(D.Next(f.desk, s).store, id);
      before <= after && I.PairsOf(after[|before|..], id, row, row.lines)
  {
    hide I.Moves, PostAll, FinalizePostings, I.KeysUnique, I.RowsOk;
    var w, call := f.desk, s.action.call;
    var row := w.inflight[call].row;
    assert I.SnapshotOk(w, w.inflight[call]);
    I.FinalizePairs(id, row, row.lines, w.catalog);
    I.CommitMoves(w.store, id, row, w.catalog, id);
    var ps, before := FinalizePostings(id, row, row.lines, w.catalog), I.Moves(w.store, id);
    assert (before + ps)[|before|..] == ps;
  }

  // The approval of what was read is still the latest one, up to any later moment,
  // exactly if no approval since found other lines.
  lemma {:induction false} ReadStaysLatestIff(f: Floor, moves: seq<Move>, n: nat, id: nat, row: Request)
    requires O.Initial(f) && n <= |moves| && WasRow(f, moves, n, id, row)
    requires LatestApproval(f, moves[..n], id, R.ContentOf(row))
    ensures LatestApproval(f, moves, id, R.ContentOf(row)) <==>
            forall k | n <= k < |moves| && ApprovalAt(f, moves, k, id) :: NoneReplaced(f, moves[..k + 1], n, id)
  {
    hide LatestApproval, ApprovalAt, O.Run, NoneReplaced;
    if n == |moves| {
      assert moves[..n] == moves;
    } else {
      var m := |moves| - 1;
      var front, c := moves[..m], R.ContentOf(row);
      assert front[..n] == moves[..n] && moves[..m + 1] == moves;
      ReadStaysLatestIff(f, front, n, id, row);
      LatestStep(f, moves, id, c);
      forall k | n <= k < m
        ensures (ApprovalAt(f, moves, k, id) <==> ApprovalAt(f, front, k, id)) && moves[..k + 1] == front[..k + 1]
      {
        ApprovalsExtend(f, moves, m, k, id, c);
      }
      SameContentIff(f, moves, n, id, row);
      if ApprovalAt(f, moves, m, id) {
        LastApproved(f, moves, id, c);
        if NoneReplaced(f, moves, n, id) {
          forall k | n <= k < |moves| && ApprovalAt(f, moves, k, id) ensures NoneReplaced(f, moves[..k + 1], n, id) { FewerReplaced(f, moves, n, k + 1, id); }
        }
      } else {
        StillSince(f, moves, n, id);
      }
    }
  }

  lemma {:induction false} LastApproved(f: Floor, moves: seq<Move>, id: nat, c: R.Content)
    requires O.Initial(f) && moves != [] && ApprovalAt(f, moves, |moves| - 1, id)
    ensures id in O.Run(f, moves).desk.requests
    ensures ApprovedAs(f, moves, |moves| - 1, id, c) <==> R.ContentOf(O.Run(f, moves).desk.requests[id]) == c
  {
    hide O.Next, Approves, ByClerk, O.Inv, CallsOk;
    var n := |moves| - 1;
    var v := O.Run(f, moves[..n]);
    O.InitialInv(f);
    O.RunKeeps(f, moves[..n]);
    O.InvCalls(v);
    ApprovingMove(v, moves[n], id);
    assert moves[..n + 1] == moves;
  }

  lemma {:induction false} FewerReplaced(f: Floor, moves: seq<Move>, n: nat, m: nat, id: nat)
    requires m <= |moves| && NoneReplaced(f, moves, n, id)
    ensures NoneReplaced(f, moves[..m], n, id)
  {
    hide Replaced;
    forall k | n <= k < m ensures !Replaced(f, moves[..m], k, id) { ReplacedExtends(f, moves, m, k, id); }
  }

  lemma {:induction false} StillSince(f: Floor, moves: seq<Move>, n: nat, id: nat)
    requires n < |moves| && !ApprovalAt(f, moves, |moves| - 1, id)
    ensures var m := |moves| - 1;
      (forall k | n <= k < |moves| && ApprovalAt(f, moves, k, id) :: NoneReplaced(f, moves[..k + 1], n, id)) <==>
      (forall k | n <= k < m && ApprovalAt(f, moves[..m], k, id) :: NoneReplaced(f, moves[..m][..k + 1], n, id))
  {
    hide ApprovalAt, NoneReplaced;
    var m := |moves| - 1;
    forall k | n <= k < m
      ensures (ApprovalAt(f, moves, k, id) <==> ApprovalAt(f, moves[..m], k, id)) && moves[..m][..k + 1] == moves[..k + 1]
    {
      hide R.ContentOf;
      ApprovalsExtend(f, moves, m, k, id, R.Content(Issue, "", "", 0, []));
    }
    if forall k | n <= k < m && ApprovalAt(f, moves[..m], k, id) :: NoneReplaced(f, moves[..m][..k + 1], n, id) {
      forall k | n <= k < |moves| && ApprovalAt(f, moves, k, id) ensures NoneReplaced(f, moves[..k + 1], n, id) {
        assert k < m && ApprovalAt(f, moves[..m], k, id);
      }
    }
    if forall k | n <= k < |moves| && ApprovalAt(f, moves, k, id) :: NoneReplaced(f, moves[..k + 1], n, id) {
      forall k | n <= k < m && ApprovalAt(f, moves[..m], k, id) ensures NoneReplaced(f, moves[..m][..k + 1], n, id) {
        assert ApprovalAt(f, moves, k, id);
      }
    }
  }

  // ---- Content that nobody approved ----

  const CLEARED_ONCE := [AtDesk(E.AHEAD)] + [AtDesk(E.APPROVE)]
  const EDITED_SINCE := CLEARED_ONCE + [AtDesk(E.CHANGE)] + [ReadRow(0, E.CLERK, 0, DenyChanges)] + [AtDesk(E.EDIT)]
  const UNSEEN := E.PENDING.(lines := [Line(2, "p", 1.0, "oz")])

  lemma {:induction false} OneMore(f: Floor, moves: seq<Move>, m: Move, id: nat, c: R.Content)
    ensures LatestApproval(f, moves + [m], id, c) <==>
      if Approves(O.Run(f, moves), m, id)
      then ByClerk(O.Run(f, moves), m) && id in O.Next(O.Run(f, moves), m).desk.requests && R.ContentOf(O.Next(O.Run(f, moves), m).desk.requests[id]) == c
      else LatestApproval(f, moves, id, c)
  {
    hide O.Next, Approves, ByClerk, LatestApproval;
    var all := moves + [m];
    assert all[..|moves|] == moves && all[..|moves| + 1] == all;
    O.RunSnoc(f, moves, m);
    LatestStep(f, all, id, c);
  }

  lemma {:induction false} ClearsOnce()
    ensures var f := O.Run(START, CLEARED_ONCE);
      f.calls == map[] && f.desk == E.DESK0.(requests := map[0 := E.PENDING.(status := Approved)], nextId := 2)
    ensures forall c :: LatestApproval(START, CLEARED_ONCE, 0, c) ==> c == R.ContentOf(E.PENDING)
  {
    hide O.Run, CreateStep, LatestApproval;
    E.AheadCreates();
    RunNone(START);
    O.RunSnoc(START, [], AtDesk(E.AHEAD));
    assert [] + [AtDesk(E.AHEAD)] == [AtDesk(E.AHEAD)];
    O.RunSnoc(START, [AtDesk(E.AHEAD)], AtDesk(E.APPROVE));
    assert O.Run(START, CLEARED_ONCE).desk.requests[0] == E.PENDING.(status := Approved);
    forall c ensures LatestApproval(START, CLEARED_ONCE, 0, c) ==> c == R.ContentOf(E.PENDING) {
      OneMore(START, [AtDesk(E.AHEAD)], AtDesk(E.APPROVE), 0, c);
    }
  }

  lemma {:induction false} ChangeAsked(f: Floor)
    requires f.calls == map[] && f.desk == E.DESK0.(requests := map[0 := E.PENDING.(status := Approved)], nextId := 2)
    ensures var g := O.Next(f, AtDesk(E.CHANGE));
      && g.desk == f.desk.(requests := g.desk.requests) && g.desk.requests.Keys == {0} && g.calls == map[]
      && g.desk.requests[0] == E.PENDING.(status := ChangeRequested, payload := g.desk.requests[0].payload)
  {
    hide CreateStep;
    var name: string := "t";
    assert name != "";
  }

  lemma {:induction false} EditReplaces(w: Desk)
    requires w == E.DESK0.(requests := w.requests, nextId := 2) && w.requests.Keys == {0}
    requires w.requests[0] == E.PENDING.(status := ChangeRequested, payload := w.requests[0].payload)
    ensures D.Next(w, E.EDIT) == w.(requests := map[0 := UNSEEN], nextId := 3)
  {
    hide CreateStep;
    assert TruckScope("t") == "TRUCK:t";
    assert NumberLines(E.ONE, 2) == [Line(2, "p", 1.0, "oz")];
    assert D.Next(w, E.EDIT).requests[0] == UNSEEN;
  }

  lemma {:induction false} ChangeAndEdit(f: Floor)
    requires f.calls == map[] && f.desk == E.DESK0.(requests := map[0 := E.PENDING.(status := Approved)], nextId := 2)
    ensures var f1 := O.Next(f, AtDesk(E.CHANGE));
      var f2 := O.Next(f1, ReadRow(0, E.CLERK, 0, DenyChanges));
      var f3 := O.Next(f2, AtDesk(E.EDIT));
      && f3.desk.requests == map[0 := UNSEEN] && f3.desk.now == 0 && f3.desk.inflight == map[]
      && 0 in f3.calls && f3.calls[0].id == 0 && f3.calls[0].op == DenyChanges && f3.calls[0].write == ToStatus(Approved, true)
  {
    hide D.Next;
    ChangeAsked(f);
    EditReplaces(O.Next(f, AtDesk(E.CHANGE)).desk);
  }

  lemma {:induction false} EditedSince()
    ensures var f := O.Run(START, EDITED_SINCE);
      && f.desk.requests == map[0 := UNSEEN] && f.desk.now == 0 && f.desk.inflight == map[]
      && 0 in f.calls && f.calls[0].id == 0 && f.calls[0].op == DenyChanges && f.calls[0].write == ToStatus(Approved, true)
    ensures forall c :: LatestApproval(START, EDITED_SINCE, 0, c) ==> c == R.ContentOf(E.PENDING)
  {
    hide O.Run, O.Next, LatestApproval;
    ClearsOnce();
    ChangeAndEdit(O.Run(START, CLEARED_ONCE));
    var read := ReadRow(0, E.CLERK, 0, DenyChanges);
    O.RunSnoc(START, CLEARED_ONCE, AtDesk(E.CHANGE));
    O.RunSnoc(START, CLEARED_ONCE + [AtDesk(E.CHANGE)], read);
    O.RunSnoc(START, CLEARED_ONCE + [AtDesk(E.CHANGE)] + [read], AtDesk(E.EDIT));
    forall c ensures LatestApproval(START, EDITED_SINCE, 0, c) ==> c == R.ContentOf(E.PENDING) {
      OneMore(START, CLEARED_ONCE, AtDesk(E.CHANGE), 0, c);
      OneMore(START, CLEARED_ONCE + [AtDesk(E.CHANGE)], read, 0, c);
      OneMore(START, CLEARED_ONCE + [AtDesk(E.CHANGE)] + [read], AtDesk(E.EDIT), 0, c);
    }
  }

  // A denial of changes reads the request, an edit puts new lines on it, and the
  // denial is written: the request is APPROVED with lines nobody approved, and a
  // finalize call takes it before its pickup.
  lemma {:induction false} DenialOverEdit()
    ensures O.Initial(START)
    ensures var moves := EDITED_SINCE + [WriteRow(0)];
      var w := O.Run(START, moves).desk;
      && w.requests == map[0 := UNSEEN.(status := Approved)] && UNSEEN.pickup > w.now
      && !LatestApproval(START, moves, 0, R.ContentOf(UNSEEN))
      && BeginStep(w, 0, 0).1 == Started
  {
    hide O.Run, LatestApproval;
    EditedSince();
    O.RunSnoc(START, EDITED_SINCE, WriteRow(0));
    OneMore(START, EDITED_SINCE, WriteRow(0), 0, R.ContentOf(UNSEEN));
    assert R.ContentOf(UNSEEN).lines[0] != R.ContentOf(E.PENDING).lines[0];
  }

  const UNREAD := [AtDesk(E.AHEAD)] + [ReadRow(0, E.CLERK, 0, Approve)] + [AtDesk(E.EDIT)]

  lemma {:induction false} EditUnread()
    ensures var f := O.Run(START, UNREAD);
      && f.desk.requests == map[0 := UNSEEN] && 0 in f.calls && f.calls[0].id == 0
      && f.calls[0].read == E.PENDING && f.calls[0].write == ToStatus(Approved, false)
  {
    hide O.Run, CreateStep;
    E.AheadCreates();
    assert TruckScope("t") == "TRUCK:t";
    assert NumberLines(E.ONE, 2) == [Line(2, "p", 1.0, "oz")];
    O.RunThree(START, AtDesk(E.AHEAD), ReadRow(0, E.CLERK, 0, Approve), AtDesk(E.EDIT));
    assert O.Run(START, UNREAD).desk.requests[0] == UNSEEN;
  }

  // An approval reads the request, an edit puts new lines on it, and the approval is
  // written on those.
  lemma {:induction false} ApprovalOfUnread()
    ensures 0 in O.Run(START, UNREAD).calls && O.Run(START, UNREAD).calls[0].read == E.PENDING
    ensures O.Run(START, UNREAD + [WriteRow(0)]).desk.requests == map[0 := UNSEEN.(status := Approved)]
    ensures R.ContentOf(UNSEEN) != R.ContentOf(E.PENDING)
  {
    hide O.Run;
    EditUnread();
    O.RunSnoc(START, UNREAD, WriteRow(0));
    assert R.ContentOf(UNSEEN).lines[0] != R.ContentOf(E.PENDING).lines[0];
  }
}
