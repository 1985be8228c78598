/** What goes wrong when masking outlives its session, and exactly when.

    The runs of `Processor` exclude late final updates. Here they are let in. */
module Overwriting {
  import opened Wrappers
  import opened Pii
  import opened Store
  import opened Requests
  import opened Processor

  // Thread `j`'s live session was in the store, and something else is now.
  ghost predicate OverwrittenAt(w: World, w': World, j: int, id: string, at: int) {
    && 0 <= j < |w.threads| && Claims(w.threads[j].phase)
    && w.threads[j].req.payloadID == id && Alive(w.threads[j].phase.own, at)
    && id in w.store.sessions && w.store.sessions[id] == w.threads[j].phase.own
    && id in w'.store.sessions && w'.store.sessions[id] != w.threads[j].phase.own
  }

  // A final update hits somebody else's live session.
  ghost predicate Overwrites(cfg: Config, w: World, a: Action)
    requires Enabled(w, a)
  {
    && a.Finish?
    && exists j :: && 0 <= j < |w.threads| && j != a.i
                   && OverwrittenAt(w, Step(cfg, w, a), j, w.threads[a.i].req.payloadID, a.at)
  }

  // In a world in which no harm is done yet, that is so exactly for a late update.
  lemma LateFinishOverwrites(cfg: Config, w: World, a: Action)
    requires Inv(w) && Enabled(w, a)
    ensures Overwrites(cfg, w, a) <==> Late(w, a)
  {
    if a.Finish? {
      var w' := Step(cfg, w, a);
      var t := w.threads[a.i];
      var id := t.req.payloadID;
      var session := Stored(t.phase.own, t.phase.outcome);
      assert Keeps(w, a.i);
      LazyOnlyDrops(w.store, cfg.max, UpdateOp(Some(session)), a.at);
      UpdateNeedsLiveSession(w.store, cfg.max, session, a.at);
      forall j | 0 <= j < |w.threads| && j != a.i && OverwrittenAt(w, w', j, id, a.at)
        ensures Late(w, a)
      {
        assert Apart(w, a.i, j) && Keeps(w, j);
      }
      if Late(w, a) {
        assert Owned(w, id);
        var j :| OwnedBy(w, id, j);
        assert OverwrittenAt(w, w', j, id, a.at);
      }
    }
  }

  // ----- all runs

  ghost predicate AnyStep(cfg: Config, w: World, a: Action, w': World) {
    Enabled(w, a) && w' == Step(cfg, w, a)
  }

  ghost predicate IsAnyRun(cfg: Config, ws: seq<World>, acts: seq<Action>) {
    && |ws| == |acts| + 1 && ws[0] == START
    && forall k :: 0 <= k < |acts| ==> AnyStep(cfg, ws[k], acts[k], ws[k + 1])
  }

  ghost predicate LateAt(cfg: Config, ws: seq<World>, acts: seq<Action>, k: nat)
    requires IsAnyRun(cfg, ws, acts)
  {
    k < |acts| && AnyStep(cfg, ws[k], acts[k], ws[k + 1]) && Late(ws[k], acts[k])
  }

  ghost predicate OverwritesAt(cfg: Config, ws: seq<World>, acts: seq<Action>, k: nat)
    requires IsAnyRun(cfg, ws, acts)
  {
    k < |acts| && AnyStep(cfg, ws[k], acts[k], ws[k + 1]) && Overwrites(cfg, ws[k], acts[k])
  }

  // Up to a place before which nothing was late, the protocol's invariant holds.
  lemma {:induction false} InvUntilLate(cfg: Config, ws: seq<World>, acts: seq<Action>, n: nat)
    requires IsAnyRun(cfg, ws, acts) && n <= |acts|
    requires forall k: nat :: k < n ==> !LateAt(cfg, ws, acts, k)
    ensures Inv(ws[n])
  {
    if n > 0 {
      InvUntilLate(cfg, ws, acts, n - 1);
      assert !LateAt(cfg, ws, acts, n - 1);
      NextInv(cfg, ws, acts, n - 1);
    }
  }

  lemma NextInv(cfg: Config, ws: seq<World>, acts: seq<Action>, n: nat)
    requires IsAnyRun(cfg, ws, acts) && n < |acts| && Inv(ws[n]) && !LateAt(cfg, ws, acts, n)
    ensures Inv(ws[n + 1])
  {
    assert AnyStep(cfg, ws[n], acts[n], ws[n + 1]);
    StepKeepsInv(cfg, ws[n], acts[n]);
  }

  lemma {:induction false} FirstLate(cfg: Config, ws: seq<World>, acts: seq<Action>, n: nat) returns (k: nat)
    requires IsAnyRun(cfg, ws, acts) && n <= |acts|
    ensures k <= n && (forall j: nat :: j < k ==> !LateAt(cfg, ws, acts, j))
    ensures k < n ==> LateAt(cfg, ws, acts, k)
  {
    if n == 0 {
      k := 0;
    } else {
      k := FirstLate(cfg, ws, acts, n - 1);
      if k == n - 1 && !LateAt(cfg, ws, acts, k) {
        k := n;
      }
    }
  }

  // In every run whatsoever: a live session is overwritten at some time exactly when
  // some final update is late.
  lemma OverwriteExactlyWhenLate(cfg: Config, ws: seq<World>, acts: seq<Action>)
    requires IsAnyRun(cfg, ws, acts)
    ensures (exists k: nat :: OverwritesAt(cfg, ws, acts, k)) <==> (exists k: nat :: LateAt(cfg, ws, acts, k))
  {
    var first := FirstLate(cfg, ws, acts, |acts|);
    if first < |acts| {
      InvUntilLate(cfg, ws, acts, first);
      LateFinishOverwrites(cfg, ws[first], acts[first]);
      assert OverwritesAt(cfg, ws, acts, first);
    }
    forall k: nat | OverwritesAt(cfg, ws, acts, k) ensures exists n: nat :: LateAt(cfg, ws, acts, n) {
      if first == |acts| {
        InvUntilLate(cfg, ws, acts, k);
        LateFinishOverwrites(cfg, ws[k], acts[k]);
        assert LateAt(cfg, ws, acts, k);
      } else {
        assert LateAt(cfg, ws, acts, first);
      }
    }
  }

  // Without a late update it is a run of the protocol, to which its theorems apply.
  lemma NeverLateIsRun(cfg: Config, ws: seq<World>, acts: seq<Action>)
    requires IsAnyRun(cfg, ws, acts)
    ensures IsRun(cfg, ws, acts) <==> forall k: nat :: !LateAt(cfg, ws, acts, k)
  {
    forall k | 0 <= k < |acts| && IsRun(cfg, ws, acts) ensures !LateAt(cfg, ws, acts, k) {
      assert StepsTo(cfg, ws[k], acts[k], ws[k + 1]);
    }
    if forall k: nat :: !LateAt(cfg, ws, acts, k) {
      forall k | 0 <= k < |acts| ensures StepsTo(cfg, ws[k], acts[k], ws[k + 1]) {
        assert AnyStep(cfg, ws[k], acts[k], ws[k + 1]) && !LateAt(cfg, ws, acts, k);
      }
    }
  }

  // ----- it does happen

  // The first request masks for as long as its session lives; the second claims the
  // id at the moment it is free again; then the masker of the first one fails.
  function LateActions(cfg: Config, req: Request, pol: Policy): seq<Action> {
    [Arrive(req, pol), Look(0, 0), Prepare(0, 0, []), Claim(0, 0),
     Arrive(req, pol), Look(1, cfg.ttl), Prepare(1, cfg.ttl, []), Claim(1, cfg.ttl),
     Mask(0, Err(DetectorUnavailable)), Finish(0, cfg.ttl)]
  }

  // The store holds exactly `s` under its id.
  predicate Holds(w: World, s: Session) {
    w.store.sessions == map[s.payloadID := s]
  }

  // The world after the first `i` of these actions.
  ghost predicate LateRunAt(cfg: Config, req: Request, pol: Policy, w: World, i: nat) {
    var s, t := NewSession(req, cfg, 0, []), NewSession(req, cfg, cfg.ttl, []);
    && w.clock == (if i < 6 then 0 else cfg.ttl)
    && |w.threads| == (if i == 0 then 0 else if i < 5 then 1 else 2)
    && (forall k :: 0 <= k < |w.threads| ==> w.threads[k].req == req)
    && (i < 4 ==> w.store == EMPTY)
    && (i == 1 ==> w.threads[0].phase == Arrived)
    && (i == 2 ==> w.threads[0].phase == Missed)
    && (i == 3 ==> w.threads[0].phase == Prepared(s))
    && (4 <= i < 9 ==> w.threads[0].phase == Claimed(s, 0))
    && (4 <= i < 6 ==> Holds(w, s))
    && (i == 5 ==> w.threads[1].phase == Arrived)
    && (i == 6 ==> w.threads[1].phase == Missed)
    && (i == 7 ==> w.threads[1].phase == Prepared(t))
    && (6 <= i < 8 ==> w.store.sessions == map[])
    && (8 <= i < 10 ==> w.threads[1].phase == Claimed(t, cfg.ttl) && Holds(w, t))
    && (i == 9 ==> w.threads[0].phase == Masking(s, 0, Err(DetectorUnavailable)))
  }

  lemma LateRunStep(cfg: Config, req: Request, pol: Policy, w: World, i: nat) returns (w': World)
    requires cfg.ttl > 0 && cfg.max >= 1 && req.maskKinds == []
    requires i < 10 && LateRunAt(cfg, req, pol, w, i) && (i == 0 ==> w == START)
    ensures AnyStep(cfg, w, LateActions(cfg, req, pol)[i], w')
    ensures i < 9 ==> LateRunAt(cfg, req, pol, w', i + 1)
  {
    assert IsCanonical([], []);
    w' := Step(cfg, w, LateActions(cfg, req, pol)[i]);
  }

  lemma {:induction false} LateRun(cfg: Config, req: Request, pol: Policy, n: nat) returns (ws: seq<World>)
    requires cfg.ttl > 0 && cfg.max >= 1 && req.maskKinds == [] && n <= 10
    ensures IsAnyRun(cfg, ws, LateActions(cfg, req, pol)[..n])
    ensures forall k :: 0 <= k <= n && k < 10 ==> LateRunAt(cfg, req, pol, ws[k], k)
  {
    if n == 0 {
      ws := [START];
    } else {
      var acts := LateActions(cfg, req, pol);
      ws := LateRun(cfg, req, pol, n - 1);
      var w := LateRunStep(cfg, req, pol, ws[n - 1], n - 1);
      forall k | 0 <= k < n ensures AnyStep(cfg, (ws + [w])[k], acts[..n][k], (ws + [w])[k + 1]) {
        if k < n - 1 {
          assert AnyStep(cfg, ws[k], acts[..n - 1][k], ws[k + 1]);
        }
      }
      ws := ws + [w];
    }
  }

  // For any time to live and any capacity there is a run in which a masking that
  // outlived its session overwrites the live session of another request.
  lemma OverwriteHappens(cfg: Config, req: Request, pol: Policy) returns (ws: seq<World>)
    requires cfg.ttl > 0 && cfg.max >= 1 && req.maskKinds == []
    ensures IsAnyRun(cfg, ws, LateActions(cfg, req, pol))
    ensures OverwritesAt(cfg, ws, LateActions(cfg, req, pol), 9)
  {
    var acts := LateActions(cfg, req, pol);
    ws := LateRun(cfg, req, pol, 10);
    assert acts[..10] == acts;
    assert AnyStep(cfg, ws[9], acts[9], ws[10]) && LateRunAt(cfg, req, pol, ws[9], 9);
    assert OverwrittenAt(ws[9], ws[10], 1, req.payloadID, cfg.ttl);
  }
}
