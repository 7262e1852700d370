// Any number of identical receiving calls at once, interleaved transaction by
// transaction. A call reads which lines are missing, then posts them one by one
// in the common order, and stops at the first key it finds already taken.
module ReceivingRace {
  import opened Basics
  import opened Ledger
  import opened Batches

  datatype Call =
    | Idle
    | Running(todo: seq<nat>, pos: nat)
    | Stopped(todo: seq<nat>, pos: nat)   // hit a duplicate key
    | Crashed(todo: seq<nat>, pos: nat)
    | Finished

  datatype Race = Race(store: Store, calls: seq<Call>)

  datatype Step =
    | Begin(call: nat)
    | Post(call: nat)
    | Crash(call: nat)
    | Other(postings: seq<Posting>)   // a transaction outside this batch

  // Indices of the batch lines whose keys are not taken, ascending.
  function MissingAt(ps: seq<Posting>, n: nat, posted: set<Key>): seq<nat>
    requires n <= |ps|
  {
    if n == 0 then [] else
      MissingAt(ps, n - 1, posted) + (if ps[n - 1].key in posted then [] else [n - 1])
  }

  function Next(ps: seq<Posting>, w: Race, s: Step): Race {
    match s
    case Begin(c) =>
      if c >= |w.calls| || !w.calls[c].Idle? then w else
        var todo := MissingAt(ps, |ps|, Keys(w.store.ledger));
        w.(calls := w.calls[c := if todo == [] then Finished else Running(todo, 0)])
    case Post(c) =>
      if c >= |w.calls| || !w.calls[c].Running? then w else
        var Running(todo, pos) := w.calls[c];
        if pos >= |todo| || todo[pos] >= |ps| then w
        else
          var p := ps[todo[pos]];
          if p.key in Keys(w.store.ledger) then w.(calls := w.calls[c := Stopped(todo, pos)])
          else Race(Append(w.store, p), w.calls[c := if pos + 1 == |todo| then Finished else Running(todo, pos + 1)])
    case Crash(c) =>
      if c >= |w.calls| || !w.calls[c].Running? then w
      else w.(calls := w.calls[c := Crashed(w.calls[c].todo, w.calls[c].pos)])
    case Other(qs) =>
      if exists q | q in qs :: q.key in PostingKeys(ps) then w else w.(store := Commit(w.store, qs))
  }

  function Run(ps: seq<Posting>, w: Race, steps: seq<Step>): Race {
    if steps == [] then w else Next(ps, Run(ps, w, steps[..|steps| - 1]), steps[|steps| - 1])
  }

  ghost predicate Initial(w: Race) {
    forall c | c in w.calls :: c.Idle?
  }

  // ---- Invariant ----

  predicate Walking(c: Call) { c.Running? || c.Stopped? || c.Crashed? }

  ghost predicate CallOk(ps: seq<Posting>, before: set<Key>, now: set<Key>, c: Call) {
    && (c.Finished? ==> forall i | 0 <= i < |ps| :: ps[i].key in now)
    && (Walking(c) ==>
          && c.pos < |c.todo|
          && (forall k | 0 <= k < |c.todo| :: c.todo[k] < |ps| && ps[c.todo[k]].key !in before)
          && (forall k, m | 0 <= k < m < |c.todo| :: c.todo[k] < c.todo[m])
          && (forall k | 0 <= k < c.pos :: ps[c.todo[k]].key in now)
          && (forall i | 0 <= i < |ps| && i !in c.todo :: ps[i].key in now))
    && (c.Stopped? ==> ps[c.todo[c.pos]].key in now)
  }

  // The call got past line i.
  ghost predicate Passed(c: Call, i: nat) {
    c.Finished? || (Walking(c) && exists k :: 0 <= k < c.pos && k < |c.todo| && c.todo[k] == i)
  }

  ghost predicate SomeonePassed(calls: seq<Call>, i: nat) {
    exists c :: 0 <= c < |calls| && Passed(calls[c], i)
  }

  // Every line posted since the start was posted by a call that moved past it.
  ghost predicate Attributed(ps: seq<Posting>, before: set<Key>, w: Race) {
    forall i | 0 <= i < |ps| && ps[i].key in Keys(w.store.ledger) && ps[i].key !in before :: SomeonePassed(w.calls, i)
  }

  ghost predicate CallsOk(ps: seq<Posting>, before: set<Key>, w: Race) {
    before <= Keys(w.store.ledger) && forall c | c in w.calls :: CallOk(ps, before, Keys(w.store.ledger), c)
  }

  ghost predicate Inv(ps: seq<Posting>, before: set<Key>, w: Race) {
    CallsOk(ps, before, w) && Attributed(ps, before, w) && Agrees(w.store)
  }

  lemma {:induction false} MissingAtSpec(ps: seq<Posting>, n: nat, posted: set<Key>)
    requires n <= |ps|
    ensures var t := MissingAt(ps, n, posted);
      && (forall k | 0 <= k < |t| :: t[k] < n && ps[t[k]].key !in posted)
      && (forall k, m | 0 <= k < m < |t| :: t[k] < t[m])
      && (forall i | 0 <= i < n && i !in t :: ps[i].key in posted)
  {
    if n > 0 { MissingAtSpec(ps, n - 1, posted); }
  }

  lemma {:induction false} CallStaysOk(ps: seq<Posting>, before: set<Key>, now: set<Key>, later: set<Key>, c: Call)
    requires CallOk(ps, before, now, c) && now <= later
    ensures CallOk(ps, before, later, c)
  {}

  lemma {:induction false} OthersStayOk(ps: seq<Posting>, before: set<Key>, w: Race, w': Race, c: nat)
    requires CallsOk(ps, before, w) && Keys(w.store.ledger) <= Keys(w'.store.ledger)
    requires c < |w.calls| && |w'.calls| == |w.calls| && w'.calls == w.calls[c := w'.calls[c]]
    requires CallOk(ps, before, Keys(w'.store.ledger), w'.calls[c])
    ensures CallsOk(ps, before, w')
  {
    forall d | d in w'.calls ensures CallOk(ps, before, Keys(w'.store.ledger), d) {
      var k :| 0 <= k < |w'.calls| && w'.calls[k] == d;
      if k != c {
        assert w.calls[k] in w.calls;
        CallStaysOk(ps, before, Keys(w.store.ledger), Keys(w'.store.ledger), d);
      }
    }
  }

  // A call keeps what it passed, so attribution survives a change of one call.
  lemma {:induction false} PassedKept(calls: seq<Call>, c: nat, call': Call, i: nat)
    requires c < |calls| && SomeonePassed(calls, i)
    requires Passed(calls[c], i) ==> Passed(call', i)
    ensures SomeonePassed(calls[c := call'], i)
  {
    var d :| 0 <= d < |calls| && Passed(calls[d], i);
    assert Passed(calls[c := call'][d], i);
  }

  lemma {:induction false} BeginKeeps(ps: seq<Posting>, before: set<Key>, w: Race, c: nat)
    requires Inv(ps, before, w)
    ensures Inv(ps, before, Next(ps, w, Begin(c)))
  {
    var w' := Next(ps, w, Begin(c));
    if w' != w {
      MissingAtSpec(ps, |ps|, Keys(w.store.ledger));
      OthersStayOk(ps, before, w, w', c);
      forall i | 0 <= i < |ps| && ps[i].key in Keys(w.store.ledger) && ps[i].key !in before ensures SomeonePassed(w'.calls, i) {
        PassedKept(w.calls, c, w'.calls[c], i);
      }
    }
  }

  lemma {:induction false} CrashKeeps(ps: seq<Posting>, before: set<Key>, w: Race, c: nat)
    requires Inv(ps, before, w)
    ensures Inv(ps, before, Next(ps, w, Crash(c)))
  {
    var w' := Next(ps, w, Crash(c));
    if w' != w {
      assert w.calls[c] in w.calls;
      OthersStayOk(ps, before, w, w', c);
      forall i | 0 <= i < |ps| && ps[i].key in Keys(w.store.ledger) && ps[i].key !in before ensures SomeonePassed(w'.calls, i) {
        PassedKept(w.calls, c, w'.calls[c], i);
      }
    }
  }

  // What one line transaction does to the call that makes it.
  lemma {:induction false} AdvanceOk(ps: seq<Posting>, before: set<Key>, now: set<Key>, later: set<Key>, c: Call)
    requires CallOk(ps, before, now, c) && c.Running? && now <= later && ps[c.todo[c.pos]].key in later
    ensures CallOk(ps, before, later, Stopped(c.todo, c.pos))
    ensures CallOk(ps, before, later, if c.pos + 1 == |c.todo| then Finished else Running(c.todo, c.pos + 1))
  {
    if c.pos + 1 == |c.todo| {
      forall i | 0 <= i < |ps| ensures ps[i].key in later {
        if i in c.todo {
          var k :| 0 <= k < |c.todo| && c.todo[k] == i;
          assert k < c.pos || k == c.pos;
        }
      }
    }
  }

  lemma {:induction false} PostKeeps(ps: seq<Posting>, before: set<Key>, w: Race, c: nat)
    requires Inv(ps, before, w) && KeysDistinct(ps)
    ensures Inv(ps, before, Next(ps, w, Post(c)))
  {
    var w' := Next(ps, w, Post(c));
    if w' != w {
      var call, call' := w.calls[c], w'.calls[c];
      assert call in w.calls;
      var j := call.todo[call.pos];
      var p := ps[j];
      if p.key !in Keys(w.store.ledger) {
        AppendEffect(w.store, p);
        AppendAgrees(w.store, p);
      }
      AdvanceOk(ps, before, Keys(w.store.ledger), Keys(w'.store.ledger), call);
      OthersStayOk(ps, before, w, w', c);
      forall i | 0 <= i < |ps| && ps[i].key in Keys(w'.store.ledger) && ps[i].key !in before ensures SomeonePassed(w'.calls, i) {
        PostAttributes(ps, before, w, c, i);
      }
    }
  }

  lemma {:induction false} PostAttributes(ps: seq<Posting>, before: set<Key>, w: Race, c: nat, i: nat)
    requires CallsOk(ps, before, w) && Attributed(ps, before, w) && KeysDistinct(ps) && Next(ps, w, Post(c)) != w
    requires i < |ps| && ps[i].key in Keys(Next(ps, w, Post(c)).store.ledger) && ps[i].key !in before
    ensures SomeonePassed(Next(ps, w, Post(c)).calls, i)
  {
    var w' := Next(ps, w, Post(c));
    var call, call' := w.calls[c], w'.calls[c];
    var j := call.todo[call.pos];
    if ps[i].key in Keys(w.store.ledger) {
      PassedKept(w.calls, c, call', i);
    } else {
      AppendEffect(w.store, ps[j]);
      assert ps[i].key == ps[j].key;
      assert i == j;
      assert Passed(call', i) by { if call'.Running? { assert call'.todo[call.pos] == i; } }
      assert w'.calls[c] == call';
    }
  }

  lemma {:induction false} OtherKeeps(ps: seq<Posting>, before: set<Key>, w: Race, qs: seq<Posting>)
    requires Inv(ps, before, w)
    ensures Inv(ps, before, Next(ps, w, Other(qs)))
  {
    var w' := Next(ps, w, Other(qs));
    if w' != w {
      PostAllEffect(w.store, qs);
      PostAllAgrees(w.store, qs);
      forall c | c in w'.calls ensures CallOk(ps, before, Keys(w'.store.ledger), c) {
        CallStaysOk(ps, before, Keys(w.store.ledger), Keys(w'.store.ledger), c);
      }
      forall i | 0 <= i < |ps| && ps[i].key in Keys(w'.store.ledger) && ps[i].key !in before ensures SomeonePassed(w'.calls, i) {
        assert ps[i] in ps && ps[i].key in PostingKeys(ps);
        assert ps[i].key in Keys(w.store.ledger);
      }
    }
  }

  lemma {:induction false} RunKeeps(ps: seq<Posting>, w: Race, steps: seq<Step>)
    requires KeysDistinct(ps) && Initial(w) && Agrees(w.store)
    ensures Inv(ps, Keys(w.store.ledger), Run(ps, w, steps))
  {
    if steps != [] {
      var v, before := Run(ps, w, steps[..|steps| - 1]), Keys(w.store.ledger);
      RunKeeps(ps, w, steps[..|steps| - 1]);
      match steps[|steps| - 1]
      case Begin(c) => BeginKeeps(ps, before, v, c);
      case Post(c) => PostKeeps(ps, before, v, c);
      case Crash(c) => CrashKeeps(ps, before, v, c);
      case Other(qs) => OtherKeeps(ps, before, v, qs);
    }
  }

  // ---- Completion ----

  // Nobody is left in the middle of the batch except calls that hit a duplicate.
  ghost predicate Settled(w: Race) {
    && (forall c | c in w.calls :: c.Idle? || c.Finished? || c.Stopped?)
    && exists c :: c in w.calls && !c.Idle?
  }

  // The call that a stopped call lost its line to got strictly further.
  lemma {:induction false} FindFinished(ps: seq<Posting>, before: set<Key>, w: Race, c: nat)
    requires Inv(ps, before, w) && Settled(w) && c < |w.calls| && w.calls[c].Stopped?
    ensures exists d :: d in w.calls && d.Finished?
    decreases if w.calls[c].pos < |w.calls[c].todo| then |ps| - w.calls[c].todo[w.calls[c].pos] else 0
  {
    assert w.calls[c] in w.calls;
    var i := w.calls[c].todo[w.calls[c].pos];
    assert SomeonePassed(w.calls, i);
    var d :| 0 <= d < |w.calls| && Passed(w.calls[d], i);
    assert w.calls[d] in w.calls;
    if !w.calls[d].Finished? {
      FindFinished(ps, before, w, d);
    }
  }

  // Overlapping identical calls, no crash: when all have ended, at least one ran
  // to its end and the whole batch is in the ledger.
  lemma {:induction false} OverlappingCallsComplete(ps: seq<Posting>, w: Race, steps: seq<Step>)
    requires KeysDistinct(ps) && Initial(w) && Agrees(w.store) && Settled(Run(ps, w, steps))
    ensures exists d :: d in Run(ps, w, steps).calls && d.Finished?
    ensures forall i | 0 <= i < |ps| :: ps[i].key in Keys(Run(ps, w, steps).store.ledger)
  {
    RunKeeps(ps, w, steps);
    var v := Run(ps, w, steps);
    var c :| c in v.calls && !c.Idle?;
    if c.Stopped? {
      var k :| 0 <= k < |v.calls| && v.calls[k] == c;
      FindFinished(ps, Keys(w.store.ledger), v, k);
    }
  }

  // ---- Exactly once, and the same balances as one call ----

  // Of what was posted, the lines of the batch and the rest.
  function OfBatch(qs: seq<Posting>, keys: set<Key>): seq<Posting> {
    if qs == [] then [] else OfBatch(qs[..|qs| - 1], keys) + (if qs[|qs| - 1].key in keys then [qs[|qs| - 1]] else [])
  }

  function Others(qs: seq<Posting>, keys: set<Key>): seq<Posting> {
    if qs == [] then [] else Others(qs[..|qs| - 1], keys) + (if qs[|qs| - 1].key in keys then [] else [qs[|qs| - 1]])
  }

  lemma {:induction false} OfBatchMembers(qs: seq<Posting>, keys: set<Key>)
    ensures forall q :: q in OfBatch(qs, keys) <==> q in qs && q.key in keys
  {
    if qs != [] {
      OfBatchMembers(qs[..|qs| - 1], keys);
      assert qs == qs[..|qs| - 1] + [qs[|qs| - 1]];
    }
  }

  lemma {:induction false} OfBatchConcat(a: seq<Posting>, b: seq<Posting>, keys: set<Key>)
    ensures OfBatch(a + b, keys) == OfBatch(a, keys) + OfBatch(b, keys)
  {
    if b == [] {
      assert a + b == a;
    } else {
      OfBatchConcat(a, b[..|b| - 1], keys);
      assert (a + b)[..|a + b| - 1] == a + b[..|b| - 1];
    }
  }

  lemma {:induction false} NoneOfBatch(qs: seq<Posting>, keys: set<Key>)
    requires forall q | q in qs :: q.key !in keys
    ensures OfBatch(qs, keys) == []
  {
    OfBatchMembers(qs, keys);
    assert OfBatch(qs, keys) == [] || OfBatch(qs, keys)[0] in OfBatch(qs, keys);
  }

  lemma {:induction false} NetSplit(qs: seq<Posting>, keys: set<Key>, f: Filter)
    ensures Net(qs, f) == Net(OfBatch(qs, keys), f) + Net(Others(qs, keys), f)
  {
    hide Matches;
    if qs != [] {
      var front, last := qs[..|qs| - 1], qs[|qs| - 1];
      NetSplit(front, keys, f);
      NetSnoc(OfBatch(front, keys), last, f);
      NetSnoc(Others(front, keys), last, f);
    }
  }

  lemma {:induction false} NetSnoc(qs: seq<Posting>, q: Posting, f: Filter)
    ensures Net(qs + [q], f) == Net(qs, f) + if Matches(f, q) then q.quantity else 0
    ensures qs + [] == qs
  {
    assert (qs + [q])[..|qs|] == qs;
  }

  // Lines of the batch that were missing at the start, each once.
  ghost predicate Appended(ps: seq<Posting>, before: set<Key>, extra: seq<Posting>) {
    && (forall p | p in extra :: p in ps && p.key !in before)
    && KeysDistinct(extra)
  }

  // What a run added to the ledger.
  ghost predicate Added(st: Store, st': Store, since: seq<Posting>) {
    && st.ledger <= st'.ledger
    && Postings(st'.ledger) == Postings(st.ledger) + since
    && Keys(st'.ledger) == Keys(st.ledger) + PostingKeys(since)
  }

  // And what of it belongs to the batch.
  ghost predicate Grown(ps: seq<Posting>, st: Store, st': Store, since: seq<Posting>) {
    Added(st, st', since) && Appended(ps, Keys(st.ledger), OfBatch(since, PostingKeys(ps)))
  }

  lemma {:induction false} NotGrown(ps: seq<Posting>, st: Store)
    ensures Grown(ps, st, st, [])
  {
    assert Postings(st.ledger) + [] == Postings(st.ledger);
  }

  lemma {:induction false} AddedMore(st: Store, mid: Store, st': Store, since: seq<Posting>, qs: seq<Posting>)
    requires Added(st, mid, since) && mid.ledger <= st'.ledger
    requires Postings(st'.ledger) == Postings(mid.ledger) + qs && Keys(st'.ledger) == Keys(mid.ledger) + PostingKeys(qs)
    ensures Added(st, st', since + qs)
  {
    hide Postings, Keys;
    assert Postings(st.ledger) + since + qs == Postings(st.ledger) + (since + qs);
    assert PostingKeys(since + qs) == PostingKeys(since) + PostingKeys(qs);
  }

  lemma {:induction false} AppendedOne(ps: seq<Posting>, before: set<Key>, mine: seq<Posting>, p: Posting)
    requires Appended(ps, before, mine) && p in ps && p.key !in before && p.key !in PostingKeys(mine)
    ensures Appended(ps, before, mine + [p])
  {
    forall i | 0 <= i < |mine| ensures mine[i].key != p.key { assert mine[i] in mine; }
  }

  lemma {:induction false} GrownByLine(ps: seq<Posting>, st: Store, mid: Store, since: seq<Posting>, p: Posting)
    requires Grown(ps, st, mid, since) && p in ps && p.key !in Keys(mid.ledger)
    ensures Grown(ps, st, Append(mid, p), since + [p])
  {
    hide Postings, Keys, Append, Appended;
    var keys := PostingKeys(ps);
    AppendEffect(mid, p);
    assert PostingKeys([p]) == {p.key};
    AddedMore(st, mid, Append(mid, p), since, [p]);
    OfBatchConcat(since, [p], keys);
    OneOfBatch(p, keys);
    OfBatchMembers(since, keys);
    AppendedOne(ps, Keys(st.ledger), OfBatch(since, keys), p);
  }

  lemma {:induction false} GrownByOthers(ps: seq<Posting>, st: Store, mid: Store, since: seq<Posting>, qs: seq<Posting>)
    requires Grown(ps, st, mid, since) && PostAll(mid, qs).Some? && !exists q | q in qs :: q.key in PostingKeys(ps)
    ensures Grown(ps, st, PostAll(mid, qs).value, since + qs)
  {
    hide Postings, Keys, PostAll, Appended, Added, OfBatch;
    PostAllEffect(mid, qs);
    AddedMore(st, mid, PostAll(mid, qs).value, since, qs);
    OfBatchConcat(since, qs, PostingKeys(ps));
    NoneOfBatch(qs, PostingKeys(ps));
    assert OfBatch(since, PostingKeys(ps)) + [] == OfBatch(since, PostingKeys(ps));
  }

  lemma {:induction false} OneOfBatch(p: Posting, keys: set<Key>)
    requires p.key in keys
    ensures OfBatch([p], keys) == [p]
  {
    assert [p][..0] == [];
  }

  lemma {:induction false} StepGrows(ps: seq<Posting>, st: Store, w: Race, s: Step, since: seq<Posting>) returns (more: seq<Posting>)
    requires Grown(ps, st, w.store, since)
    ensures Grown(ps, st, Next(ps, w, s).store, more)
  {
    hide Grown, PostAll, MissingAt;
    more := since;
    match s
    case Post(c) =>
      if Next(ps, w, s).store != w.store {
        var p := ps[w.calls[c].todo[w.calls[c].pos]];
        GrownByLine(ps, st, w.store, since, p);
        more := since + [p];
      }
    case Other(qs) =>
      if PostAll(w.store, qs).Some? && !exists q | q in qs :: q.key in PostingKeys(ps) {
        GrownByOthers(ps, st, w.store, since, qs);
        more := since + qs;
      }
    case _ =>
  }

  lemma {:induction false} RunGrows(ps: seq<Posting>, w: Race, steps: seq<Step>) returns (since: seq<Posting>)
    ensures Grown(ps, w.store, Run(ps, w, steps).store, since)
  {
    hide Grown, Next;
    if steps == [] {
      since := [];
      NotGrown(ps, w.store);
    } else {
      since := RunGrows(ps, w, steps[..|steps| - 1]);
      since := StepGrows(ps, w.store, Run(ps, w, steps[..|steps| - 1]), steps[|steps| - 1], since);
    }
  }

  lemma {:induction false} CountDistinct(ps: seq<Posting>, x: Posting)
    requires KeysDistinct(ps)
    ensures multiset(ps)[x] == if x in ps then 1 else 0
  {
    if ps != [] {
      var front, last := ps[..|ps| - 1], ps[|ps| - 1];
      assert ps == front + [last];
      CountDistinct(front, x);
    }
  }

  lemma {:induction false} NetWithout(b: seq<Posting>, k: nat, f: Filter)
    requires k < |b|
    ensures Net(b, f) == Net(b[..k] + b[k + 1..], f) + (if Matches(f, b[k]) then b[k].quantity else 0)
    ensures multiset(b) == multiset(b[..k] + b[k + 1..]) + multiset{b[k]}
  {
    assert b == b[..k] + [b[k]] + b[k + 1..];
    NetConcat(b[..k] + [b[k]], b[k + 1..], f);
    NetConcat(b[..k], [b[k]], f);
    NetConcat(b[..k], b[k + 1..], f);
    assert [b[k]][..0] == [];
    assert Net([b[k]], f) == if Matches(f, b[k]) then b[k].quantity else 0;
  }

  lemma {:induction false} NetPermutation(a: seq<Posting>, b: seq<Posting>, f: Filter)
    requires multiset(a) == multiset(b)
    ensures Net(a, f) == Net(b, f)
  {
    assert |a| == |multiset(a)| && |b| == |multiset(b)|;
    if a != [] {
      var n := |a| - 1;
      assert a[n] in multiset(b);
      var k :| 0 <= k < |b| && b[k] == a[n];
      NetWithout(a, n, f);
      NetWithout(b, k, f);
      var a', b' := a[..n] + a[n + 1..], b[..k] + b[k + 1..];
      assert multiset(a') == multiset(a) - multiset{a[n]} && multiset(b') == multiset(b) - multiset{a[n]};
      NetPermutation(a', b', f);
    }
  }

  // A completed race appended exactly the missing lines, in some order.
  lemma {:induction false} CompleteAppends(ps: seq<Posting>, before: set<Key>, extra: seq<Posting>)
    requires KeysDistinct(ps) && Appended(ps, before, extra)
    requires forall i | 0 <= i < |ps| :: ps[i].key in before + PostingKeys(extra)
    ensures multiset(extra) == multiset(Missing(ps, before))
  {
    var ms := Missing(ps, before);
    MissingMembers(ps, before);
    forall x ensures multiset(extra)[x] == multiset(ms)[x] {
      CountDistinct(extra, x);
      CountDistinct(ms, x);
      if x in ms {
        var i :| 0 <= i < |ps| && ps[i] == x;
        var p :| p in extra && p.key == x.key;
        var j :| 0 <= j < |ps| && ps[j] == p;
        assert i == j;
      }
    }
  }

  // Any completed race of identical calls, crashes and other services' postings
  // included, posts each missing line exactly once, and every balance is what a
  // single call leaves plus what the others posted.
  lemma {:induction false} RacePostsOnce(ps: seq<Posting>, w: Race, steps: seq<Step>)
    requires KeysDistinct(ps) && Agrees(w.store) && Initial(w)
    requires forall i | 0 <= i < |ps| :: ps[i].key in Keys(Run(ps, w, steps).store.ledger)
    ensures var v, one := Run(ps, w, steps).store, Complete(w.store, ps);
      var since := Since(w.store, v);
      && w.store.ledger <= v.ledger
      && multiset(OfBatch(since, PostingKeys(ps))) == multiset(Missing(ps, Keys(w.store.ledger)))
      && forall p, s :: OnHand(v.balances, p, s) == OnHand(one.balances, p, s) + Net(Others(since, PostingKeys(ps)), Pair(p, s))
  {
    hide Run, OnHand, Net, OfBatch, Others, Missing, PostAll, CallsOk, Attributed;
    var v, one := Run(ps, w, steps).store, Complete(w.store, ps);
    var ms, keys := Missing(ps, Keys(w.store.ledger)), PostingKeys(ps);
    var since := RunGrows(ps, w, steps);
    assert since == Since(w.store, v) by {
      assert Postings(v.ledger[|w.store.ledger|..]) == Postings(v.ledger)[|w.store.ledger|..];
    }
    OfBatchMembers(since, keys);
    AllThere(ps, Keys(w.store.ledger), since, Keys(v.ledger));
    CompleteAppends(ps, Keys(w.store.ledger), OfBatch(since, keys));
    PrefixCommits(w.store, ps, |ms|);
    assert ms[..|ms|] == ms;
    PostAllEffect(w.store, ms);
    RunKeeps(ps, w, steps);
    forall p, s ensures OnHand(v.balances, p, s) == OnHand(one.balances, p, s) + Net(Others(since, keys), Pair(p, s)) {
      AgreesOn(v, p, s);
      AgreesOn(w.store, p, s);
      NetConcat(Postings(w.store.ledger), since, Pair(p, s));
      NetSplit(since, keys, Pair(p, s));
      NetPermutation(OfBatch(since, keys), ms, Pair(p, s));
    }
  }

  lemma {:induction false} AgreesOn(st: Store, p: ProductId, s: Scope)
    requires Agrees(st)
    ensures OnHand(st.balances, p, s) == Net(Postings(st.ledger), Pair(p, s))
  {}

  lemma {:induction false} AllThere(ps: seq<Posting>, before: set<Key>, since: seq<Posting>, after: set<Key>)
    requires after == before + PostingKeys(since) && forall i | 0 <= i < |ps| :: ps[i].key in after
    ensures forall i | 0 <= i < |ps| :: ps[i].key in before + PostingKeys(OfBatch(since, PostingKeys(ps)))
  {
    OfBatchMembers(since, PostingKeys(ps));
    forall i | 0 <= i < |ps| && ps[i].key !in before ensures ps[i].key in PostingKeys(OfBatch(since, PostingKeys(ps))) {
      assert ps[i] in ps;
      var q :| q in since && q.key == ps[i].key;
      assert q in OfBatch(since, PostingKeys(ps));
    }
  }

  predicate NoOthers(steps: seq<Step>) { forall s | s in steps :: !s.Other? }

  lemma {:induction false} OnlyBatch(ps: seq<Posting>, w: Race, steps: seq<Step>) returns (since: seq<Posting>)
    requires NoOthers(steps)
    ensures Postings(Run(ps, w, steps).store.ledger) == Postings(w.store.ledger) + since
    ensures forall q | q in since :: q in ps
  {
    since := [];
    if steps == [] {
      NotGrown(ps, w.store);
    } else {
      var v, s := Run(ps, w, steps[..|steps| - 1]), steps[|steps| - 1];
      since := OnlyBatch(ps, w, steps[..|steps| - 1]);
      assert s in steps;
      if Next(ps, v, s).store != v.store {
        var p := ps[v.calls[s.call].todo[v.calls[s.call].pos]];
        AppendEffect(v.store, p);
        since := since + [p];
      }
    }
  }

  lemma {:induction false} AllOfBatch(qs: seq<Posting>, keys: set<Key>)
    requires forall q | q in qs :: q.key in keys
    ensures OfBatch(qs, keys) == qs && Others(qs, keys) == []
  {
    if qs != [] {
      AllOfBatch(qs[..|qs| - 1], keys);
      assert qs == qs[..|qs| - 1] + [qs[|qs| - 1]];
    }
  }

  // With nobody else posting, the ledger and balances of a single call, up to order.
  lemma {:induction false} RaceEqualsOneCall(ps: seq<Posting>, w: Race, steps: seq<Step>)
    requires KeysDistinct(ps) && NoOthers(steps)
    requires forall i | 0 <= i < |ps| :: ps[i].key in Keys(Run(ps, w, steps).store.ledger)
    requires Agrees(w.store) && Initial(w)
    ensures var v, one := Run(ps, w, steps).store, Complete(w.store, ps);
      && multiset(Postings(v.ledger)) == multiset(Postings(one.ledger))
      && forall p, s :: OnHand(v.balances, p, s) == OnHand(one.balances, p, s)
  {
    hide Run, OnHand, Net, OfBatch, Others, Missing, PostAll, Agrees;
    var ms := Missing(ps, Keys(w.store.ledger));
    RacePostsOnce(ps, w, steps);
    var since := OnlyBatch(ps, w, steps);
    var v := Run(ps, w, steps).store;
    assert since == Since(w.store, v) by {
      assert Postings(v.ledger[|w.store.ledger|..]) == Postings(v.ledger)[|w.store.ledger|..];
    }
    AllOfBatch(since, PostingKeys(ps));
    assert forall f: Filter :: Net([], f) == 0 by { NothingNet(); }
    PrefixCommits(w.store, ps, |ms|);
    assert ms[..|ms|] == ms;
    PostAllEffect(w.store, ms);
  }

  lemma {:induction false} NothingNet()
    ensures forall f: Filter :: Net([], f) == 0
  {}
}
