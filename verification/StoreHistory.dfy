/** What the session store answers, in terms of its history alone: who wrote a session
    last, and whether it has run out. */
module StoreHistory {
  import opened Wrappers
  import opened Pii
  import opened Store

  // The operation wrote its session under `id`.
  predicate WritesTo(op: Op, outcome: Outcome, id: string) {
    || (op.PutOp? && op.session.Some? && op.session.value.payloadID == id && outcome == Added(true))
    || (op.UpdateOp? && op.session.Some? && op.session.value.payloadID == id && outcome == Done)
  }

  // The session last written under `id` by the first `n` operations, unless deleted since.
  function Written(run: seq<Event>, outs: seq<Outcome>, n: nat, id: string): Option<Session>
    requires n <= |run| && n <= |outs|
  {
    if n == 0 then None
    else if WritesTo(run[n - 1].op, outs[n - 1], id) then run[n - 1].op.session
    else if run[n - 1].op == DeleteOp(id) then None
    else Written(run, outs, n - 1, id)
  }

  predicate Lives(s: Option<Session>, t: int) {
    s.Some? && (s.value.expiresAt.None? || t < s.value.expiresAt.value)
  }

  // ----- the states of a run

  ghost predicate StepsTo(max: int, e: Event, st: State, next: State, outcome: Outcome) {
    (next, outcome) == Lazy(st, max, e.op, e.now)
  }

  // `sts` are the states passed through from `st`, and `outs` the answers on the way.
  ghost predicate PassesThrough(max: int, run: seq<Event>, st: State, sts: seq<State>, outs: seq<Outcome>) {
    && |outs| == |run| && |sts| == |run| + 1 && sts[0] == st
    && forall n {:trigger StepsTo(max, run[n], sts[n], sts[n + 1], outs[n])} :: 0 <= n < |run| ==>
         StepsTo(max, run[n], sts[n], sts[n + 1], outs[n])
  }

  lemma {:induction false} StatesOf(max: int, run: seq<Event>, st: State) returns (sts: seq<State>)
    ensures PassesThrough(max, run, st, sts, LazyRun(st, max, run).0)
    decreases |run|
  {
    if run == [] {
      sts := [st];
    } else {
      var next := Lazy(st, max, run[0].op, run[0].now).0;
      var rest := StatesOf(max, run[1..], next);
      sts := [st] + rest;
      FirstStep(max, run, st, next, rest, LazyRun(next, max, run[1..]).0);
    }
  }

  lemma FirstStep(max: int, run: seq<Event>, st: State, next: State, rest: seq<State>, outs: seq<Outcome>)
    requires run != [] && next == Lazy(st, max, run[0].op, run[0].now).0
    requires PassesThrough(max, run[1..], next, rest, outs)
    ensures PassesThrough(max, run, st, [st] + rest, [Lazy(st, max, run[0].op, run[0].now).1] + outs)
  {
    var sts, all := [st] + rest, [Lazy(st, max, run[0].op, run[0].now).1] + outs;
    forall n | 0 <= n < |run| ensures StepsTo(max, run[n], sts[n], sts[n + 1], all[n]) {
      if n > 0 {
        var m := n - 1;
        assert StepsTo(max, run[1..][m], rest[m], rest[m + 1], outs[m]);
      }
    }
  }

  // ----- one operation and one id

  // An operation that neither writes nor deletes `id` can only drop it when it has run out.
  ghost predicate Leaves(before: map<string, Session>, after: map<string, Session>, id: string, now: int) {
    && (id in after ==> id in before && after[id] == before[id])
    && (id in before && !IsExpired(before[id], now) ==> id in after)
  }

  lemma OthersAreLeft(st: State, max: int, op: Op, now: int, id: string)
    requires !WritesTo(op, Lazy(st, max, op, now).1, id) && op != DeleteOp(id)
    ensures Leaves(st.sessions, Lazy(st, max, op, now).0.sessions, id, now)
  {
  }

  lemma WrittenIsHeld(st: State, max: int, op: Op, now: int, id: string)
    requires WritesTo(op, Lazy(st, max, op, now).1, id)
    ensures var after := Lazy(st, max, op, now).0.sessions; id in after && after[id] == op.session.value
  {
  }

  // What one operation does to one id, and to what was last written there.
  ghost predicate Follows(before: map<string, Session>, after: map<string, Session>, last: Option<Session>,
                          next: Option<Session>, id: string, now: int)
  {
    || (next.Some? && id in after && after[id] == next.value)
    || (next == None && id !in after)
    || (next == last && Leaves(before, after, id, now))
  }

  lemma StepFollows(st: State, max: int, op: Op, now: int, id: string, last: Option<Session>)
    ensures
      var (st', outcome) := Lazy(st, max, op, now);
      Follows(st.sessions, st'.sessions, last,
              if WritesTo(op, outcome, id) then op.session else if op == DeleteOp(id) then None else last, id, now)
  {
    if WritesTo(op, Lazy(st, max, op, now).1, id) {
      WrittenIsHeld(st, max, op, now, id);
    } else if op != DeleteOp(id) {
      OthersAreLeft(st, max, op, now, id);
    }
  }

  lemma RunFollows(max: int, run: seq<Event>, sts: seq<State>, outs: seq<Outcome>, n: nat, id: string)
    requires PassesThrough(max, run, EMPTY, sts, outs) && n < |run|
    ensures Follows(sts[n].sessions, sts[n + 1].sessions,
                    Written(run, outs, n, id), Written(run, outs, n + 1, id), id, run[n].now)
  {
    assert StepsTo(max, run[n], sts[n], sts[n + 1], outs[n]);
    StepFollows(sts[n], max, run[n].op, run[n].now, id, Written(run, outs, n, id));
  }

  // `last` is what `held` holds under `id`, at least as long as it lives.
  ghost predicate Holds(held: map<string, Session>, last: Option<Session>, id: string, t: int) {
    (id in held ==> last == Some(held[id])) && (Lives(last, t) ==> id in held)
  }

  lemma FollowingHolds(before: map<string, Session>, after: map<string, Session>, last: Option<Session>,
                       next: Option<Session>, id: string, now: int, t: int)
    requires Follows(before, after, last, next, id, now) && Holds(before, last, id, t) && now <= t
    ensures Holds(after, next, id, t)
  {
  }

  // The store holds what was written last, at least as long as it lives.
  lemma {:induction false} HoldsTheLast(max: int, run: seq<Event>, sts: seq<State>, outs: seq<Outcome>, n: nat,
                                         id: string, t: int)
    requires PassesThrough(max, run, EMPTY, sts, outs) && n <= |run| && forall k :: 0 <= k < n ==> run[k].now <= t
    ensures Holds(sts[n].sessions, Written(run, outs, n, id), id, t)
  {
    if n > 0 {
      HoldsTheLast(max, run, sts, outs, n - 1, id, t);
      RunFollows(max, run, sts, outs, n - 1, id);
      FollowingHolds(sts[n - 1].sessions, sts[n].sessions,
                     Written(run, outs, n - 1, id), Written(run, outs, n, id), id, run[n - 1].now, t);
    }
  }

  // ----- the answers

  // The ids under which something written by the first `n` operations lives at `t`.
  ghost function LivingIds(run: seq<Event>, outs: seq<Outcome>, n: nat, t: int): set<string>
    requires n <= |run| && n <= |outs|
  {
    set k | 0 <= k < n && run[k].op.PutOp? && run[k].op.session.Some?
            && Lives(Written(run, outs, n, run[k].op.session.value.payloadID), t)
      :: run[k].op.session.value.payloadID
  }

  // Nothing is written under an id that was never inserted.
  lemma {:induction false} FirstInserted(max: int, run: seq<Event>, sts: seq<State>, outs: seq<Outcome>, n: nat,
                                          id: string)
    returns (k: nat)
    requires PassesThrough(max, run, EMPTY, sts, outs) && n <= |run| && Written(run, outs, n, id).Some?
    ensures k < n && run[k].op.PutOp? && run[k].op.session.Some? && run[k].op.session.value.payloadID == id
  {
    if Written(run, outs, n - 1, id).Some? {
      k := FirstInserted(max, run, sts, outs, n - 1, id);
    } else {
      k := n - 1;
      UpdateNeedsWritten(max, run, sts, outs, n - 1);
    }
  }

  lemma UpdateNeedsWritten(max: int, run: seq<Event>, sts: seq<State>, outs: seq<Outcome>, n: nat)
    requires PassesThrough(max, run, EMPTY, sts, outs) && n < |run|
    ensures run[n].op.UpdateOp? && run[n].op.session.Some? && outs[n] == Done ==>
      Written(run, outs, n, run[n].op.session.value.payloadID).Some?
  {
    if run[n].op.UpdateOp? && run[n].op.session.Some? && outs[n] == Done {
      var t := LatestNow(run, n);
      assert StepsTo(max, run[n], sts[n], sts[n + 1], outs[n]);
      HoldsTheLast(max, run, sts, outs, n, run[n].op.session.value.payloadID, t);
    }
  }

  lemma {:induction false} LatestNow(run: seq<Event>, n: nat) returns (t: int)
    requires n <= |run|
    ensures forall k :: 0 <= k < n ==> run[k].now <= t
  {
    if n == 0 {
      t := 0;
    } else {
      t := LatestNow(run, n - 1);
      t := if t < run[n - 1].now then run[n - 1].now else t;
    }
  }

  lemma LivingAreHeld(max: int, run: seq<Event>, sts: seq<State>, outs: seq<Outcome>, n: nat, t: int)
    requires PassesThrough(max, run, EMPTY, sts, outs) && n <= |run| && forall k :: 0 <= k < n ==> run[k].now <= t
    ensures LivingIds(run, outs, n, t) == Live(sts[n].sessions, t).Keys
  {
    var live := Live(sts[n].sessions, t);
    forall id | id in LivingIds(run, outs, n, t) ensures id in live {
      HoldsTheLast(max, run, sts, outs, n, id, t);
    }
    forall id | id in live ensures id in LivingIds(run, outs, n, t) {
      HoldsTheLast(max, run, sts, outs, n, id, t);
      var k := FirstInserted(max, run, sts, outs, n, id);
    }
  }

  // Every answer of a run under a clock that does not go back, from what was answered
  // before it: a look finds the session last written exactly while it lives; an insertion
  // is refused while one lives, and fails when as many live as there may be; an update
  // needs one that lives.
  lemma AnswersFollowHistory(max: int, run: seq<Event>, start: int, n: nat)
    requires Clocked(run, start) && n < |run|
    ensures |LazyRun(EMPTY, max, run).0| == |run|
    ensures run[n].op.GetOp? ==>
      var outs := LazyRun(EMPTY, max, run).0;
      var last := Written(run, outs, n, run[n].op.id);
      outs[n] == if Lives(last, run[n].now) then Found(last.value) else Failure(SessionNotFound)
    ensures run[n].op.PutOp? && run[n].op.session.Some? ==>
      var outs := LazyRun(EMPTY, max, run).0;
      outs[n] == if Lives(Written(run, outs, n, run[n].op.session.value.payloadID), run[n].now) then Added(false)
                 else if |LivingIds(run, outs, n, run[n].now)| >= max then Failure(StoreUnavailable)
                 else Added(true)
    ensures run[n].op.UpdateOp? && run[n].op.session.Some? ==>
      var outs := LazyRun(EMPTY, max, run).0;
      outs[n] == if Lives(Written(run, outs, n, run[n].op.session.value.payloadID), run[n].now) then Done
                 else Failure(SessionNotFound)
    ensures (run[n].op.PutOp? || run[n].op.UpdateOp?) && run[n].op.session.None? ==>
      LazyRun(EMPTY, max, run).0[n] == Failure(StoreUnavailable)
    ensures run[n].op.DeleteOp? ==> LazyRun(EMPTY, max, run).0[n] == Done
  {
    var outs, now := LazyRun(EMPTY, max, run).0, run[n].now;
    var sts := StatesOf(max, run, EMPTY);
    var st := sts[n];
    assert StepsTo(max, run[n], sts[n], sts[n + 1], outs[n]);
    LazyStepIsEager(st, max, run[n].op, now);
    LivingAreHeld(max, run, sts, outs, n, now);
    var live := Live(st.sessions, now);
    assert |live| == |live.Keys|;
    match run[n].op {
      case GetOp(id) => HoldsTheLast(max, run, sts, outs, n, id, now);
      case PutOp(s) =>
        if s.Some? {
          HoldsTheLast(max, run, sts, outs, n, s.value.payloadID, now);
        }
      case UpdateOp(s) =>
        if s.Some? {
          HoldsTheLast(max, run, sts, outs, n, s.value.payloadID, now);
        }
      case DeleteOp(_) =>
    }
  }
}
