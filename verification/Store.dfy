/** The session store: a TTL map that removes expired sessions lazily. */
module Store {
  import opened Wrappers
  import opened Pii
  import opened Sets

  // SHA-256, of which only injectivity is used.
  datatype Digest = Digest(of: string)

  datatype Status = Processing | Ready | Failed | OtherStatus

  // `expiresAt` is `None` for Go's zero time: a session that never expires.
  datatype Session = Session(
    payloadID: string, payloadHash: Digest, mappings: seq<TokenMapping>, status: Status,
    createdAt: int, expiresAt: Option<int>, maskKindsSet: bool, maskKinds: seq<string>)

  // Times are in nanoseconds.
  const SECOND := 1_000_000_000

  predicate IsExpired(s: Session, now: int) {
    s.expiresAt.Some? && now >= s.expiresAt.value
  }

  // The sessions that are still alive at `now`.
  function Live(sessions: map<string, Session>, now: int): (m: map<string, Session>)
    ensures m.Keys <= sessions.Keys
  {
    map id | id in sessions && !IsExpired(sessions[id], now) :: sessions[id]
  }

  datatype Op =
    | GetOp(id: string)
    | PutOp(session: Option<Session>)
    | UpdateOp(session: Option<Session>)
    | DeleteOp(id: string)

  datatype Outcome = Found(session: Session) | Added(added: bool) | Done | Failure(error: Error)

  // ----- the reference: a map that drops every session at its expiry instant

  function Eager(live: map<string, Session>, max: int, op: Op): (map<string, Session>, Outcome) {
    match op
    case GetOp(id) =>
      (live, if id in live then Found(live[id]) else Failure(SessionNotFound))
    case PutOp(None) => (live, Failure(StoreUnavailable))
    case PutOp(Some(s)) =>
      if s.payloadID in live then (live, Added(false))
      else if |live| >= max then (live, Failure(StoreUnavailable))
      else (live[s.payloadID := s], Added(true))
    case UpdateOp(None) => (live, Failure(StoreUnavailable))
    case UpdateOp(Some(s)) =>
      if s.payloadID in live then (live[s.payloadID := s], Done) else (live, Failure(SessionNotFound))
    case DeleteOp(id) => (live - {id}, Done)
  }

  // ----- the store itself

  datatype State = State(sessions: map<string, Session>, nextPurge: Option<int>)

  const EMPTY := State(map[], None)

  function Lazy(st: State, max: int, op: Op, now: int): (State, Outcome) {
    match op
    case GetOp(id) =>
      if id !in st.sessions then (st, Failure(SessionNotFound))
      else if IsExpired(st.sessions[id], now) then
        (st.(sessions := st.sessions - {id}), Failure(SessionNotFound))
      else (st, Found(st.sessions[id]))
    case PutOp(None) => (st, Failure(StoreUnavailable))
    case PutOp(Some(s)) =>
      if s.payloadID in st.sessions && !IsExpired(st.sessions[s.payloadID], now) then (st, Added(false))
      else
        var st1 := Swept(st.(sessions := st.sessions - {s.payloadID}), max, now);
        if |st1.sessions| >= max then (st1, Failure(StoreUnavailable))
        else (st1.(sessions := st1.sessions[s.payloadID := s]), Added(true))
    case UpdateOp(None) => (st, Failure(StoreUnavailable))
    case UpdateOp(Some(s)) =>
      if s.payloadID !in st.sessions then (st, Failure(SessionNotFound))
      else if IsExpired(st.sessions[s.payloadID], now) then
        (st.(sessions := st.sessions - {s.payloadID}), Failure(SessionNotFound))
      else (st.(sessions := st.sessions[s.payloadID := s]), Done)
    case DeleteOp(id) => (st.(sessions := st.sessions - {id}), Done)
  }

  // The amortised sweep in front of an insertion.
  function Swept(st: State, max: int, now: int): State {
    if st.nextPurge.None? || now >= st.nextPurge.value || |st.sessions| >= max
    then State(Live(st.sessions, now), Some(now + SECOND))
    else st
  }

  class MemoryStore {
    const maxSessions: int
    var sessions: map<string, Session>
    var nextPurge: Option<int>

    function Abs(): State
      reads this
    {
      State(sessions, nextPurge)
    }

    constructor (maxSessions: int)
      ensures this.maxSessions == maxSessions && Abs() == EMPTY
    {
      this.maxSessions := maxSessions;
      sessions := map[];
      nextPurge := None;
    }

    method Get(id: string, now: int) returns (outcome: Outcome)
      modifies this
      ensures (Abs(), outcome) == Lazy(old(Abs()), maxSessions, GetOp(id), now)
    {
      if id !in sessions {
        return Failure(SessionNotFound);
      }
      var session := sessions[id];
      if IsExpired(session, now) {
        sessions := sessions - {id};
        return Failure(SessionNotFound);
      }
      return Found(session);
    }

    method PutIfAbsent(session: Option<Session>, now: int) returns (outcome: Outcome)
      modifies this
      ensures (Abs(), outcome) == Lazy(old(Abs()), maxSessions, PutOp(session), now)
    {
      if session.None? {
        return Failure(StoreUnavailable);
      }
      var id := session.value.payloadID;
      if id in sessions {
        if !IsExpired(sessions[id], now) {
          return Added(false);
        }
        sessions := sessions - {id};
      }
      assert sessions == old(sessions) - {id};
      if nextPurge.None? || now >= nextPurge.value || |sessions| >= maxSessions {
        PurgeExpired(now);
        nextPurge := Some(now + SECOND);
      }
      if |sessions| >= maxSessions {
        return Failure(StoreUnavailable);
      }
      sessions := sessions[id := session.value];
      return Added(true);
    }

    method Update(session: Option<Session>, now: int) returns (outcome: Outcome)
      modifies this
      ensures (Abs(), outcome) == Lazy(old(Abs()), maxSessions, UpdateOp(session), now)
    {
      if session.None? {
        return Failure(StoreUnavailable);
      }
      var id := session.value.payloadID;
      if id !in sessions {
        return Failure(SessionNotFound);
      }
      if IsExpired(sessions[id], now) {
        sessions := sessions - {id};
        return Failure(SessionNotFound);
      }
      sessions := sessions[id := session.value];
      return Done;
    }

    method Delete(id: string) returns (outcome: Outcome)
      modifies this
      ensures forall now :: (Abs(), outcome) == Lazy(old(Abs()), maxSessions, DeleteOp(id), now)
    {
      sessions := sessions - {id};
      return Done;
    }

    // Ranges over the map while deleting from it, in any order.
    method PurgeExpired(now: int)
      modifies `sessions
      ensures sessions == Live(old(sessions), now)
    {
      var todo := sessions.Keys;
      while todo != {}
        invariant todo <= sessions.Keys <= old(sessions).Keys
        invariant forall id :: id in sessions ==> sessions[id] == old(sessions)[id]
        invariant forall id :: id in old(sessions) && id !in todo ==>
          (id in sessions <==> !IsExpired(old(sessions)[id], now))
        decreases todo
      {
        var id :| id in todo;
        if IsExpired(sessions[id], now) {
          sessions := sessions - {id};
        }
        todo := todo - {id};
      }
    }
  }

  // ----- lazy removal cannot be observed

  // From time `now` on, both maps show the same sessions.
  ghost predicate SameFrom(a: map<string, Session>, b: map<string, Session>, now: int) {
    forall t :: t >= now ==> Live(a, t) == Live(b, t)
  }

  lemma LiveOfLive(m: map<string, Session>, now: int, t: int)
    requires now <= t
    ensures Live(Live(m, now), t) == Live(m, t)
  {
  }

  lemma LiveOfUpdate(m: map<string, Session>, id: string, s: Session, t: int)
    ensures Live(m[id := s], t) == if IsExpired(s, t) then Live(m, t) - {id} else Live(m, t)[id := s]
    ensures Live(m - {id}, t) == Live(m, t) - {id}
  {
  }

  lemma SweepIsInvisible(st: State, max: int, now: int, t: int)
    requires now <= t
    ensures Live(Swept(st, max, now).sessions, t) == Live(st.sessions, t)
    ensures |Swept(st, max, now).sessions| >= max <==> |Live(st.sessions, now)| >= max
    ensures |Swept(st, max, now).sessions| <= |st.sessions|
  {
    LiveOfLive(st.sessions, now, t);
    LiveIsSmaller(st.sessions, now);
  }

  lemma LiveIsSmaller(m: map<string, Session>, now: int)
    ensures |Live(m, now)| <= |m|
  {
    SubsetSize(Live(m, now).Keys, m.Keys);
    assert |Live(m, now)| == |Live(m, now).Keys| && |m| == |m.Keys|;
  }

  // One operation of the lazy store answers as the eager map does, and leaves what
  // the eager map leaves, seen from any later moment.
  lemma LazyStepIsEager(st: State, max: int, op: Op, now: int)
    ensures Lazy(st, max, op, now).1 == Eager(Live(st.sessions, now), max, op).1
    ensures SameFrom(Lazy(st, max, op, now).0.sessions, Eager(Live(st.sessions, now), max, op).0, now)
  {
    var live := Live(st.sessions, now);
    var st' := Lazy(st, max, op, now).0;
    var live' := Eager(live, max, op).0;
    if op.PutOp? && op.session.Some? {
      SweepIsInvisible(st.(sessions := st.sessions - {op.session.value.payloadID}), max, now, now);
      LiveOfUpdate(st.sessions, op.session.value.payloadID, op.session.value, now);
    }
    forall t | t >= now ensures Live(st'.sessions, t) == Live(live', t) {
      LiveOfLive(st.sessions, now, t);
      match op {
        case GetOp(id) => LiveAfterGet(st.sessions, id, now, t);
        case PutOp(Some(s)) => LiveAfterPut(st, max, s, now, t);
        case UpdateOp(Some(s)) => LiveAfterUpdate(st.sessions, s, now, t);
        case DeleteOp(id) =>
          LiveOfUpdate(st.sessions, id, AnySession(), t);
          LiveOfUpdate(live, id, AnySession(), t);
        case _ =>
      }
    }
  }

  function AnySession(): Session {
    Session("", Digest(""), [], Processing, 0, None, false, [])
  }

  lemma LiveAfterGet(m: map<string, Session>, id: string, now: int, t: int)
    requires now <= t
    ensures id in m && IsExpired(m[id], now) ==> Live(m - {id}, t) == Live(m, t)
  {
  }

  lemma LiveAfterUpdate(m: map<string, Session>, s: Session, now: int, t: int)
    requires now <= t
    ensures s.payloadID in m && IsExpired(m[s.payloadID], now) ==> Live(m - {s.payloadID}, t) == Live(m, t)
    ensures Live(m[s.payloadID := s], t) == Live(Live(m, now)[s.payloadID := s], t)
  {
    LiveOfLive(m, now, t);
    LiveOfUpdate(m, s.payloadID, s, t);
    LiveOfUpdate(Live(m, now), s.payloadID, s, t);
  }

  lemma LiveAfterPut(st: State, max: int, s: Session, now: int, t: int)
    requires now <= t
    ensures Live(Lazy(st, max, PutOp(Some(s)), now).0.sessions, t)
         == Live(Eager(Live(st.sessions, now), max, PutOp(Some(s))).0, t)
  {
    var id := s.payloadID;
    var live := Live(st.sessions, now);
    LiveOfLive(st.sessions, now, t);
    if id !in live {
      var st0 := st.(sessions := st.sessions - {id});
      NothingRemoved(st.sessions, id, now, now);
      NothingRemoved(st.sessions, id, now, t);
      SweepIsInvisible(st0, max, now, now);
      SweepIsInvisible(st0, max, now, t);
      SameInsertion(Swept(st0, max, now).sessions, live, s, t);
    }
  }

  lemma NothingRemoved(m: map<string, Session>, id: string, now: int, t: int)
    requires id !in Live(m, now) && now <= t
    ensures Live(m - {id}, t) == Live(m, t)
  {
  }

  lemma SameInsertion(a: map<string, Session>, b: map<string, Session>, s: Session, t: int)
    requires Live(a, t) == Live(b, t)
    ensures Live(a[s.payloadID := s], t) == Live(b[s.payloadID := s], t)
  {
    LiveOfUpdate(a, s.payloadID, s, t);
    LiveOfUpdate(b, s.payloadID, s, t);
  }

  // ----- over a whole run

  datatype Event = Event(op: Op, now: int)

  ghost predicate Clocked(run: seq<Event>, start: int) {
    && (forall i :: 0 <= i < |run| ==> start <= run[i].now)
    && (forall i, j :: 0 <= i < j < |run| ==> run[i].now <= run[j].now)
  }

  function LazyRun(st: State, max: int, run: seq<Event>): (seq<Outcome>, State)
    decreases |run|
  {
    if run == [] then ([], st)
    else
      var (st', outcome) := Lazy(st, max, run[0].op, run[0].now);
      var (rest, last) := LazyRun(st', max, run[1..]);
      ([outcome] + rest, last)
  }

  function EagerRun(live: map<string, Session>, max: int, run: seq<Event>): seq<Outcome>
    decreases |run|
  {
    if run == [] then []
    else
      var (live', outcome) := Eager(Live(live, run[0].now), max, run[0].op);
      [outcome] + EagerRun(live', max, run[1..])
  }

  lemma {:induction false} LazyRunIsEagerRun(st: State, live: map<string, Session>, max: int, run: seq<Event>,
                                             start: int)
    requires Clocked(run, start) && SameFrom(st.sessions, live, start)
    ensures LazyRun(st, max, run).0 == EagerRun(live, max, run)
    decreases |run|
  {
    if run != [] {
      var now := run[0].now;
      LazyStepIsEager(st, max, run[0].op, now);
      assert Live(st.sessions, now) == Live(live, now);
      var st' := Lazy(st, max, run[0].op, now).0;
      var live' := Eager(Live(live, now), max, run[0].op).0;
      assert Clocked(run[1..], now);
      LazyRunIsEagerRun(st', live', max, run[1..], now);
    }
  }

  // Under a clock that does not go back, every answer of the store is the answer of
  // a map that drops each session at its expiry instant.
  lemma LazinessIsInvisible(max: int, run: seq<Event>, start: int)
    requires Clocked(run, start)
    ensures LazyRun(EMPTY, max, run).0 == EagerRun(map[], max, run)
  {
    LazyRunIsEagerRun(EMPTY, map[], max, run, start);
  }

  function Bound(max: int): nat {
    if max < 0 then 0 else max
  }

  lemma SweptIsSmaller(st: State, max: int, now: int)
    ensures |Swept(st, max, now).sessions| <= |st.sessions|
  {
    SubsetSize(Swept(st, max, now).sessions.Keys, st.sessions.Keys);
    assert |st.sessions| == |st.sessions.Keys|;
    assert |Swept(st, max, now).sessions| == |Swept(st, max, now).sessions.Keys|;
  }

  lemma PutKeepsBound(st: State, max: int, s: Session, now: int)
    requires |st.sessions| <= Bound(max)
    ensures |Lazy(st, max, PutOp(Some(s)), now).0.sessions| <= Bound(max)
  {
    SmallerWithout(st.sessions, s.payloadID);
    SweptIsSmaller(st.(sessions := st.sessions - {s.payloadID}), max, now);
  }

  lemma StepKeepsBound(st: State, max: int, op: Op, now: int)
    requires |st.sessions| <= Bound(max)
    ensures |Lazy(st, max, op, now).0.sessions| <= Bound(max)
  {
    match op {
      case PutOp(Some(s)) =>
        PutKeepsBound(st, max, s, now);
      case UpdateOp(Some(s)) =>
        SmallerWithout(st.sessions, s.payloadID);
        SameSizeUpdated(st.sessions, s);
      case GetOp(id) => SmallerWithout(st.sessions, id);
      case DeleteOp(id) => SmallerWithout(st.sessions, id);
      case _ =>
    }
  }

  lemma SmallerWithout(m: map<string, Session>, id: string)
    ensures |m - {id}| <= |m|
  {
    SubsetSize((m - {id}).Keys, m.Keys);
    assert |m - {id}| == |(m - {id}).Keys| && |m| == |m.Keys|;
  }

  lemma SameSizeUpdated(m: map<string, Session>, s: Session)
    ensures s.payloadID in m ==> |m[s.payloadID := s]| == |m|
  {
    if s.payloadID in m {
      assert m[s.payloadID := s].Keys == m.Keys;
      assert |m[s.payloadID := s]| == |m[s.payloadID := s].Keys| && |m| == |m.Keys|;
    }
  }

  // The store never holds more than its maximum, expired sessions included.
  lemma {:induction false} RunKeepsBound(st: State, max: int, run: seq<Event>)
    requires |st.sessions| <= Bound(max)
    ensures |LazyRun(st, max, run).1.sessions| <= Bound(max)
    decreases |run|
  {
    if run != [] {
      StepKeepsBound(st, max, run[0].op, run[0].now);
      RunKeepsBound(Lazy(st, max, run[0].op, run[0].now).0, max, run[1..]);
    }
  }

  // An insertion is refused exactly when the id is not live and the live sessions
  // alone fill the store.
  lemma FullMeansFullOfLive(st: State, max: int, s: Session, now: int)
    ensures Lazy(st, max, PutOp(Some(s)), now).1 == Failure(StoreUnavailable) <==>
              s.payloadID !in Live(st.sessions, now) && |Live(st.sessions, now)| >= max
  {
    LazyStepIsEager(st, max, PutOp(Some(s)), now);
  }
}
