/**
 The BackendOnce part of ServeHTTP: requests for one key share a single call to the backend.
 The call group is that of singleflight: the first request for a key starts a call, later ones
 wait for it, and a key that is forgotten, or whose call is finished, starts a new one.
 */
module Coalesce {
  import CacheKey

  type Id = nat

  /** A request waits, or, for a leader after its timer, waits once more, or has returned. */
  datatype Phase = Waiting | WaitingOn | Returned

  /** `answers` counts the responses written for it; `early`: its timer fired before its own call had started. */
  datatype Request = Request(key: string, call: nat, leads: bool, phase: Phase, answers: nat, early: bool)

  datatype Call = Call(key: string, leader: Id, started: bool, finished: bool, forgotten: bool)

  datatype State = State(requests: map<Id, Request>, calls: seq<Call>, group: map<string, nat>)

  function Init(): State {
    State(map[], [], map[])
  }

  datatype Action =
    | Join(r: Id, key: string)
    // The call's function starts; and it ends, having answered its leader.
    | Start(c: nat)
    | Finish(c: nat)
    // A waiting request is told of the result: a leader is done, any other answers from the cache
    // or asks the backend itself.
    | Result(r: Id)
    // The timer of a waiting request: a leader whose call has started forgets the key and waits on.
    | Timer(r: Id)
    // The end of waiting on: with the result or without.
    | GiveUp(r: Id)

  /** Whether the request's own function has started: its firstCall flag. */
  predicate FirstCall(s: State, q: Request) {
    q.leads && q.call < |s.calls| && s.calls[q.call].started
  }

  function Answered(q: Request): Request {
    q.(answers := q.answers + 1)
  }

  function Forget(s: State, key: string): State {
    if key in s.group && s.group[key] < |s.calls| then
      s.(calls := s.calls[s.group[key] := s.calls[s.group[key]].(forgotten := true)], group := s.group - {key})
    else
      s
  }

  function Step(s: State, a: Action): State {
    match a
    case Join(r, key) =>
      if key in s.group then
        s.(requests := s.requests[r := Request(key, s.group[key], false, Waiting, 0, false)])
      else
        s.(requests := s.requests[r := Request(key, |s.calls|, true, Waiting, 0, false)],
           calls := s.calls + [Call(key, r, false, false, false)],
           group := s.group[key := |s.calls|])
    case Start(c) => if c < |s.calls| then s.(calls := s.calls[c := s.calls[c].(started := true)]) else s
    case Finish(c) =>
      if c < |s.calls| && s.calls[c].leader in s.requests then
        var l := s.calls[c].leader;
        var key := s.calls[c].key;
        s.(calls := s.calls[c := s.calls[c].(finished := true)],
           requests := s.requests[l := Answered(s.requests[l])],
           group := if s.calls[c].forgotten then s.group else s.group - {key})
      else s
    case Result(r) =>
      if r in s.requests then
        var q := s.requests[r].(phase := Returned);
        s.(requests := s.requests[r := if FirstCall(s, q) then q else Answered(q)])
      else s
    case Timer(r) =>
      if r in s.requests then
        var q := s.requests[r];
        if FirstCall(s, q) then
          Forget(s.(requests := s.requests[r := q.(phase := WaitingOn)]), q.key)
        else
          s.(requests := s.requests[r := Answered(q.(phase := Returned, early := q.leads))])
      else s
    case GiveUp(r) => if r in s.requests then s.(requests := s.requests[r := s.requests[r].(phase := Returned)]) else s
  }

  predicate Enabled(s: State, a: Action) {
    match a
    case Join(r, _) => r !in s.requests
    case Start(c) => c < |s.calls| && !s.calls[c].started
    case Finish(c) => c < |s.calls| && s.calls[c].started && !s.calls[c].finished
    case Result(r) =>
      && r in s.requests && s.requests[r].phase == Waiting
      && s.requests[r].call < |s.calls| && s.calls[s.requests[r].call].finished
    case Timer(r) => r in s.requests && s.requests[r].phase == Waiting
    case GiveUp(r) => r in s.requests && s.requests[r].phase == WaitingOn
  }

  function Run(s: State, acts: seq<Action>): State {
    if acts == [] then s else Step(Run(s, acts[..|acts| - 1]), acts[|acts| - 1])
  }

  predicate Allowed(s: State, acts: seq<Action>) {
    acts == [] ||
    (Allowed(s, acts[..|acts| - 1]) && Enabled(Run(s, acts[..|acts| - 1]), acts[|acts| - 1]))
  }

  // ---------- Invariants ----------

  /** Calls have their leader, and end only after they began. */
  predicate CallsOk(s: State) {
    forall c :: 0 <= c < |s.calls| ==>
      && s.calls[c].leader in s.requests
      && s.requests[s.calls[c].leader].leads && s.requests[s.calls[c].leader].call == c
      && (s.calls[c].finished ==> s.calls[c].started)
  }

  /** Requests wait for a call of their own key, and are counted right. */
  predicate RequestOk(s: State, r: Id)
    requires r in s.requests
  {
    var q := s.requests[r];
    && q.call < |s.calls| && s.calls[q.call].key == q.key
    && (q.leads ==> s.calls[q.call].leader == r)
    && (q.phase == WaitingOn ==> q.leads)
    && (q.early ==> q.leads && q.phase == Returned)
    && q.answers == (if q.leads then (if s.calls[q.call].finished then 1 else 0) + (if q.early then 1 else 0)
                     else if q.phase == Returned then 1 else 0)
    && (q.leads && q.phase == WaitingOn ==> s.calls[q.call].started)
    && (q.leads && q.phase == Returned && !q.early ==> s.calls[q.call].started)
  }

  /** The group knows exactly the calls that are neither finished nor forgotten. */
  predicate GroupOk(s: State) {
    && (forall k :: k in s.group ==> s.group[k] < |s.calls| && s.calls[s.group[k]].key == k)
    && (forall c :: 0 <= c < |s.calls| ==>
          (!s.calls[c].finished && !s.calls[c].forgotten <==>
           s.calls[c].key in s.group && s.group[s.calls[c].key] == c))
  }

  predicate Inv(s: State) {
    CallsOk(s) && GroupOk(s) && forall r :: r in s.requests ==> RequestOk(s, r)
  }

  lemma FollowKeeps(s: State, r: Id, key: string)
    requires Inv(s) && r !in s.requests && key in s.group
    ensures Inv(Step(s, Join(r, key)))
  {
    var s' := Step(s, Join(r, key));
    forall q | q in s'.requests ensures RequestOk(s', q) {
      assert q != r ==> RequestOk(s, q);
    }
  }

  lemma LeadGroup(s: State, r: Id, key: string)
    requires GroupOk(s) && key !in s.group
    ensures GroupOk(Step(s, Join(r, key)))
  {
  }

  lemma LeadKeeps(s: State, r: Id, key: string)
    requires Inv(s) && r !in s.requests && key !in s.group
    ensures Inv(Step(s, Join(r, key)))
  {
    hide GroupOk;
    var s' := Step(s, Join(r, key));
    LeadGroup(s, r, key);
    forall q | q in s'.requests ensures RequestOk(s', q) {
      assert q != r ==> RequestOk(s, q);
    }
  }

  lemma StartKeeps(s: State, c: nat)
    requires Inv(s) && Enabled(s, Start(c))
    ensures Inv(Step(s, Start(c)))
  {
    var s' := Step(s, Start(c));
    forall q | q in s'.requests ensures RequestOk(s', q) {
      assert RequestOk(s, q);
    }
  }

  lemma FinishGroup(s: State, c: nat)
    requires GroupOk(s) && Enabled(s, Finish(c)) && s.calls[c].leader in s.requests
    ensures GroupOk(Step(s, Finish(c)))
  {
  }

  lemma FinishKeeps(s: State, c: nat)
    requires Inv(s) && Enabled(s, Finish(c))
    ensures Inv(Step(s, Finish(c)))
  {
    hide GroupOk;
    var s' := Step(s, Finish(c));
    FinishGroup(s, c);
    forall q | q in s'.requests ensures RequestOk(s', q) {
      assert RequestOk(s, q);
    }
  }

  /** Forgetting a key changes nothing but the group and the mark on the call it held. */
  lemma ForgetKeeps(s: State, key: string)
    requires Inv(s)
    ensures Inv(Forget(s, key))
  {
    var s' := Forget(s, key);
    forall q | q in s'.requests ensures RequestOk(s', q) {
      assert RequestOk(s, q);
    }
  }

  /** A step of one request that leaves calls and group alone. */
  lemma OneRequestKeeps(s: State, r: Id, q: Request)
    requires Inv(s) && r in s.requests && s.requests[r].leads == q.leads && s.requests[r].call == q.call
    requires RequestOk(s.(requests := s.requests[r := q]), r)
    ensures Inv(s.(requests := s.requests[r := q]))
  {
    var s' := s.(requests := s.requests[r := q]);
    assert CallsOk(s');
    hide RequestOk, CallsOk, GroupOk;
    forall p | p in s'.requests ensures RequestOk(s', p) {
      if p != r {
        OtherStays(s, s', p);
      }
    }
    SameCalls(s, s');
  }

  lemma OtherStays(s: State, s': State, p: Id)
    requires p in s.requests && p in s'.requests && s'.requests[p] == s.requests[p] && s'.calls == s.calls
    requires RequestOk(s, p)
    ensures RequestOk(s', p)
  {
  }

  lemma SameCalls(s: State, s': State)
    requires GroupOk(s) && s'.calls == s.calls && s'.group == s.group
    ensures GroupOk(s')
  {
  }

  lemma RequestKeeps(s: State, a: Action)
    requires Inv(s) && Enabled(s, a) && (a.Result? || a.Timer? || a.GiveUp?)
    ensures Inv(Step(s, a))
  {
    var q := s.requests[a.r];
    assert RequestOk(s, a.r);
    if a.Timer? && FirstCall(s, q) {
      OneRequestKeeps(s, a.r, q.(phase := WaitingOn));
      ForgetKeeps(s.(requests := s.requests[a.r := q.(phase := WaitingOn)]), q.key);
    } else {
      OneRequestKeeps(s, a.r, Step(s, a).requests[a.r]);
      assert Step(s, a) == s.(requests := s.requests[a.r := Step(s, a).requests[a.r]]);
    }
  }

  lemma StepKeeps(s: State, a: Action)
    requires Inv(s) && Enabled(s, a)
    ensures Inv(Step(s, a))
  {
    match a
    case Join(r, key) => if key in s.group { FollowKeeps(s, r, key); } else { LeadKeeps(s, r, key); }
    case Start(c) => StartKeeps(s, c);
    case Finish(c) => FinishKeeps(s, c);
    case _ => RequestKeeps(s, a);
  }

  lemma {:induction false} Reachable(acts: seq<Action>)
    requires Allowed(Init(), acts)
    ensures Inv(Run(Init(), acts))
  {
    if acts != [] {
      Reachable(acts[..|acts| - 1]);
      StepKeeps(Run(Init(), acts[..|acts| - 1]), acts[|acts| - 1]);
    }
  }

  /** At some point of the run the timer of r fired, r leading a call that had not started. */
  ghost predicate TimedEarly(acts: seq<Action>, r: Id) {
    acts != [] &&
    (var s := Run(Init(), acts[..|acts| - 1]);
     || TimedEarly(acts[..|acts| - 1], r)
     || (acts[|acts| - 1] == Timer(r) && r in s.requests && s.requests[r].leads && !FirstCall(s, s.requests[r])))
  }

  lemma EarlyStep(s: State, a: Action, r: Id)
    requires Inv(s) && Enabled(s, a) && r in Step(s, a).requests
    ensures Step(s, a).requests[r].early <==>
            && r in s.requests
            && (s.requests[r].early || (a == Timer(r) && s.requests[r].leads && !FirstCall(s, s.requests[r])))
  {
    assert r in s.requests ==> RequestOk(s, r);
  }

  lemma {:induction false} EarlyIff(acts: seq<Action>, r: Id)
    requires Allowed(Init(), acts)
    ensures TimedEarly(acts, r) <==> r in Run(Init(), acts).requests && Run(Init(), acts).requests[r].early
  {
    if acts != [] {
      var before, a := acts[..|acts| - 1], acts[|acts| - 1];
      EarlyIff(before, r);
      Reachable(before);
      if r in Step(Run(Init(), before), a).requests {
        EarlyStep(Run(Init(), before), a, r);
      }
    }
  }

  /**
   In every interleaving: a request that joined another's call is answered exactly once when it
   returns, and never before. A leader is answered when its call finishes; and a second time
   if and only if its timer fired before that call had started.
   */
  lemma {:induction false} AnsweredOnce(acts: seq<Action>, r: Id)
    requires Allowed(Init(), acts) && r in Run(Init(), acts).requests
    ensures var s := Run(Init(), acts);
            var q := s.requests[r];
            && q.call < |s.calls|
            && (!q.leads ==> q.answers == (if q.phase == Returned then 1 else 0))
            && (q.leads ==> q.answers == (if s.calls[q.call].finished then 1 else 0)
                                       + (if TimedEarly(acts, r) then 1 else 0))
  {
    Reachable(acts);
    EarlyIff(acts, r);
    assert RequestOk(Run(Init(), acts), r);
  }

  /** Whoever shares a call asked for the same key. */
  lemma {:induction false} SharersAgree(acts: seq<Action>, r: Id, q: Id)
    requires Allowed(Init(), acts)
    requires var s := Run(Init(), acts);
             r in s.requests && q in s.requests && s.requests[r].call == s.requests[q].call
    ensures var s := Run(Init(), acts);
            && s.requests[r].key == s.requests[q].key
            && (s.requests[r].leads && s.requests[q].leads ==> r == q)
  {
    Reachable(acts);
    assert RequestOk(Run(Init(), acts), r) && RequestOk(Run(Init(), acts), q);
  }

  /**
   So plain requests that share a call agree on device, method, host, path and query, and, in origin form,
   are the same.
   */
  lemma {:induction false} SharersAskTheSame(acts: seq<Action>, r: Id, q: Id, a: CacheKey.Request, b: CacheKey.Request)
    requires Allowed(Init(), acts) && CacheKey.Plain(a) && CacheKey.Plain(b)
    requires var s := Run(Init(), acts);
             && r in s.requests && q in s.requests && s.requests[r].call == s.requests[q].call
             && s.requests[r].key == CacheKey.Key(a) && s.requests[q].key == CacheKey.Key(b)
    ensures a.device == b.device && a.verb == b.verb && a.host == b.host && a.path == b.path && a.query == b.query
    ensures CacheKey.OriginForm(a) ==> a == b
  {
    SharersAgree(acts, r, q);
    CacheKey.KeyInjective(a, b);
    CacheKey.UniqueIff(a);
  }

  /** At most one unfinished call a key, not counting those whose leader has given them up. */
  lemma {:induction false} OneCallPerKey(acts: seq<Action>, c: nat, d: nat)
    requires Allowed(Init(), acts)
    requires var s := Run(Init(), acts);
             && c < |s.calls| && d < |s.calls| && s.calls[c].key == s.calls[d].key
             && !s.calls[c].finished && !s.calls[d].finished && !s.calls[c].forgotten && !s.calls[d].forgotten
    ensures c == d
  {
    Reachable(acts);
  }

  // ---------- Given up ----------

  /** A leader that waits on after its timer has left its key to others. */
  predicate GivenUp(s: State) {
    forall r :: r in s.requests && s.requests[r].phase == WaitingOn ==> CallLeft(s, s.requests[r].call)
  }

  predicate CallLeft(s: State, c: nat) {
    c < |s.calls| && (s.calls[c].forgotten || s.calls[c].finished)
  }

  /** After its timer the next request of the key starts a call. */
  lemma TimerForgets(s: State, r: Id)
    requires Inv(s) && Enabled(s, Timer(r)) && FirstCall(s, s.requests[r])
    ensures var s' := Step(s, Timer(r));
            s'.requests[r].phase == WaitingOn && CallLeft(s', s.requests[r].call) && s.requests[r].key !in s'.group
    ensures forall c :: CallLeft(s, c) ==> CallLeft(Step(s, Timer(r)), c)
  {
    assert RequestOk(s, r);
  }

  lemma GivenUpStep(s: State, a: Action)
    requires Inv(s) && GivenUp(s) && Enabled(s, a)
    ensures GivenUp(Step(s, a))
  {
    var s' := Step(s, a);
    if a.Timer? && FirstCall(s, s.requests[a.r]) {
      TimerForgets(s, a.r);
    } else {
      hide Inv;
      forall c | CallLeft(s, c) ensures CallLeft(s', c) {
        StaysLeft(s, a, c);
      }
      hide CallLeft;
    }
  }

  lemma StaysLeft(s: State, a: Action, c: nat)
    requires CallLeft(s, c)
    ensures CallLeft(Step(s, a), c)
  {
  }

  /**
   In every interleaving: the call of a leader that has waited out its timer is finished, or forgotten, so that the
   next request of its key does not wait for it but starts another.
   */
  lemma {:induction false} WaitingOnLeaves(acts: seq<Action>, r: Id, p: Id)
    requires Allowed(Init(), acts)
    ensures var s := Run(Init(), acts);
            && GivenUp(s)
            && (r in s.requests && s.requests[r].phase == WaitingOn && Enabled(s, Join(p, s.requests[r].key)) ==>
                  Step(s, Join(p, s.requests[r].key)).requests[p].call != s.requests[r].call)
  {
    Reachable(acts);
    if acts != [] {
      var before, a := acts[..|acts| - 1], acts[|acts| - 1];
      WaitingOnLeaves(before, r, p);
      Reachable(before);
      GivenUpStep(Run(Init(), before), a);
    }
    JoinsAnother(Run(Init(), acts), r, p);
  }

  lemma JoinsAnother(s: State, r: Id, p: Id)
    requires Inv(s) && GivenUp(s)
    ensures r in s.requests && s.requests[r].phase == WaitingOn && Enabled(s, Join(p, s.requests[r].key)) ==>
              Step(s, Join(p, s.requests[r].key)).requests[p].call != s.requests[r].call
  {
  }

  // ---------- Nobody waits for ever ----------

  /** The steps by which a request returns, without a timer: what is left of its call, and its result. */
  function ReturnSteps(s: State, r: Id): seq<Action>
    requires r in s.requests && s.requests[r].call < |s.calls|
  {
    var q := s.requests[r];
    if q.phase == Returned then []
    else if q.phase == WaitingOn then [GiveUp(r)]
    else if s.calls[q.call].finished then [Result(r)]
    else if s.calls[q.call].started then [Finish(q.call), Result(r)]
    else [Start(q.call), Finish(q.call), Result(r)]
  }

  lemma {:induction false} FirstThen(s: State, a: Action, more: seq<Action>)
    ensures Run(s, [a] + more) == Run(Step(s, a), more)
    ensures Allowed(s, [a] + more) <==> Enabled(s, a) && Allowed(Step(s, a), more)
  {
    if more == [] {
      assert [a] + more == [a] && [a][..0] == [] && Run(s, []) == s;
    } else {
      assert ([a] + more)[..|more|] == [a] + more[..|more| - 1];
      FirstThen(s, a, more[..|more| - 1]);
    }
  }

  lemma CallStep(s: State, a: Action, r: Id)
    requires Inv(s) && r in s.requests && Enabled(s, a)
    requires a == Start(s.requests[r].call) || a == Finish(s.requests[r].call)
    ensures var s', q := Step(s, a), s.requests[r];
            && Inv(s') && r in s'.requests && s'.requests[r].phase == q.phase && s'.requests[r].call == q.call
            && q.call < |s'.calls| && s'.calls[q.call].started
            && (a.Finish? <==> s'.calls[q.call].finished)
  {
    assert RequestOk(s, r);
    StepKeeps(s, a);
  }

  lemma {:induction false} ReturnsIn(s: State, r: Id, n: nat)
    requires Inv(s) && r in s.requests && s.requests[r].call < |s.calls| && n == |ReturnSteps(s, r)|
    ensures var acts := ReturnSteps(s, r);
            && Allowed(s, acts) && r in Run(s, acts).requests && Run(s, acts).requests[r].phase == Returned
    decreases n
  {
    var q, acts := s.requests[r], ReturnSteps(s, r);
    assert RequestOk(s, r);
    hide Inv;
    if acts != [] {
      assert acts == [acts[0]] + acts[1..];
      FirstThen(s, acts[0], acts[1..]);
      if q.phase == Waiting && !s.calls[q.call].finished {
        CallStep(s, acts[0], r);
        assert ReturnSteps(Step(s, acts[0]), r) == acts[1..];
        ReturnsIn(Step(s, acts[0]), r, n - 1);
      }
    }
  }

  /** From every reachable state every request can return in three steps: the model's rules leave nobody waiting. */
  lemma CanReturn(s: State, r: Id)
    requires Inv(s) && r in s.requests
    ensures exists acts :: |acts| <= 3 && Allowed(s, acts) && NoTimer(acts) && HasReturned(Run(s, acts), r)
  {
    assert RequestOk(s, r);
    ReturnsIn(s, r, |ReturnSteps(s, r)|);
    assert NoTimer(ReturnSteps(s, r)) && HasReturned(Run(s, ReturnSteps(s, r)), r);
  }

  predicate NoTimer(acts: seq<Action>) {
    forall a :: a in acts ==> !a.Timer?
  }

  predicate HasReturned(s: State, r: Id) {
    r in s.requests && s.requests[r].phase == Returned
  }

  lemma RunOneMore(acts: seq<Action>, a: Action)
    ensures Run(Init(), acts + [a]) == Step(Run(Init(), acts), a)
    ensures Allowed(Init(), acts + [a]) <==> Allowed(Init(), acts) && Enabled(Run(Init(), acts), a)
  {
    assert (acts + [a])[..|acts|] == acts;
  }

  /** The timer before the start: two answers to one request. */
  lemma TimerBeforeStart(key: string)
    ensures var acts := [] + [Join(0, key)] + [Timer(0)] + [Start(0)] + [Finish(0)];
            && Allowed(Init(), acts) && 0 in Run(Init(), acts).requests
            && Run(Init(), acts).requests[0].answers == 2
  {
    hide Step, Enabled, Run, Allowed;
    var empty := NoRun();
    TimerFires(key);
    RunOneMore([], Join(0, key));
    RunOneMore([] + [Join(0, key)], Timer(0));
    RunOneMore([] + [Join(0, key)] + [Timer(0)], Start(0));
    RunOneMore([] + [Join(0, key)] + [Timer(0)] + [Start(0)], Finish(0));
  }

  lemma NoRun() returns (s: State)
    ensures s == Init() == Run(Init(), []) && Allowed(Init(), [])
  {
    s := Init();
  }

  lemma TimerFires(key: string)
    ensures var s1 := Step(Init(), Join(0, key));
            var s2 := Step(s1, Timer(0));
            var s3 := Step(s2, Start(0));
            var s4 := Step(s3, Finish(0));
            && Enabled(Init(), Join(0, key)) && Enabled(s1, Timer(0)) && Enabled(s2, Start(0)) && Enabled(s3, Finish(0))
            && 0 in s4.requests && s4.requests[0].answers == 2
  {
    var s1 := Step(Init(), Join(0, key));
    assert s1 == State(map[0 := Request(key, 0, true, Waiting, 0, false)],
                       [Call(key, 0, false, false, false)], map[key := 0]);
    var s2 := Step(s1, Timer(0));
    assert s2 == s1.(requests := map[0 := Request(key, 0, true, Returned, 1, true)]);
    var s3 := Step(s2, Start(0));
    assert s3 == s2.(calls := [Call(key, 0, true, false, false)]);
  }
}
