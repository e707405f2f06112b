/** The parallel check queue: one master, any number of workers, one mutex and two condition
    variables.  The model is a transition system with one step per critical section and one per
    check executed outside the lock, in any interleaving. */
module CheckQueue {
  import opened Common
  import opened Arith

  /** A verification, with the answer it gives when it is run. */
  datatype Check = Check(id: nat, ok: bool)

  /** Where a thread is.  A `Working` thread owns `batch`, of which the first `ran` are through. */
  datatype Thread =
    | Outside
    | Entering
    | Working(batch: seq<Check>, ran: nat, ok: bool)
    | Asleep(notified: bool)

  const MASTER := 0

  /** `round` collects the checks added since the last `Wait` returned and `merged` those whose
      outcome has been folded into `allOk`; `results` records every answer of `Wait` with its round. */
  datatype State = State(
    queue: seq<Check>, threads: seq<Thread>, nTodo: int, nTotal: int, nIdle: int, allOk: bool,
    batchSize: nat, round: multiset<Check>, merged: multiset<Check>,
    results: seq<(bool, multiset<Check>)>)

  datatype Event =
    | Join(t: nat)
    | RunCheck(t: nat)
    | Lock(t: nat)
    | Wake(t: nat)
    | Add(checks: seq<Check>, woken: nat)

  function Init(workers: nat, batchSize: nat): State {
    State([], seq(workers + 1, i => Outside), 0, 0, 0, true, batchSize, multiset{}, multiset{}, [])
  }

  // ---------- steps ----------

  function SetThread(s: State, t: nat, th: Thread): State
    requires t < |s.threads|
  {
    s.(threads := s.threads[t := th])
  }

  /** Wake the master if it sleeps. */
  function NotifyMaster(s: State): State
    requires MASTER < |s.threads|
  {
    if s.threads[MASTER].Asleep? then SetThread(s, MASTER, Asleep(true)) else s
  }

  /** Wake one sleeping worker, of the scheduler's choice. */
  function NotifyOne(s: State, t: nat): State {
    if 0 < t < |s.threads| && s.threads[t].Asleep? then SetThread(s, t, Asleep(true)) else s
  }

  function NotifyAll(s: State): State {
    s.(threads := seq(|s.threads|, i requires 0 <= i < |s.threads| =>
      if i != MASTER && s.threads[i].Asleep? then Asleep(true) else s.threads[i]))
  }

  /** One new check wakes one worker, several wake all. */
  function NotifyFor(s: State, n: nat, woken: nat): State {
    if n == 1 then NotifyOne(s, woken) else if n > 1 then NotifyAll(s) else s
  }

  function Enlarged(s: State, checks: seq<Check>): State {
    s.(queue := s.queue + checks, nTodo := s.nTodo + |checks|, round := s.round + multiset(checks))
  }

  /** Never empty and never more than there is. */
  function BatchLength(s: State): (n: int)
    requires s.queue != [] && s.nTotal >= 0 && s.nIdle >= 0
    ensures 1 <= n <= |s.queue|
  {
    QuotientBound(|s.queue|, s.nTotal + s.nIdle + 1);
    Max(1, Min(s.batchSize, |s.queue| / (s.nTotal + s.nIdle + 1)))
  }

  /** A batch is the largest that keeps within the batch size and within an equal share for all threads, but at
      least one check. */
  lemma BatchLargest(s: State, m: nat)
    requires s.queue != [] && s.nTotal >= 0 && s.nIdle >= 0
    ensures var n, threads := BatchLength(s), s.nTotal + s.nIdle + 1;
            && (n == 1 || (n <= s.batchSize && n * threads <= |s.queue|))
            && (m <= s.batchSize && m * threads <= |s.queue| ==> m <= n)
  {
    var threads: nat := s.nTotal + s.nIdle + 1;
    var share := |s.queue| / threads;
    DivMod(|s.queue|, threads);
    if m > share { MulLess(share + 1, m, threads); }
    if BatchLength(s) <= share { MulLess(BatchLength(s), share, threads); }
  }

  lemma QuotientBound(a: nat, d: nat)
    requires d > 0
    ensures 0 <= a / d <= a
  {
    var q, r := a / d, a % d;
    assert a == d * q + r;
    if q > a { Grow(q, d); }
  }

  lemma Grow(q: nat, d: nat)
    requires d > 0
    ensures d * q >= q
  {
  }

  /** What a thread that holds the lock does at the head of the inner loop: take a batch from the
      back of the queue, return (the master, when nothing is left to do), or go to sleep. */
  function LoopHead(s: State, t: nat): State
    requires t < |s.threads| && s.nTotal >= 0 && s.nIdle >= 0
  {
    if s.queue == [] then
      if t == MASTER && s.nTodo == 0 then
        SetThread(s, t, Outside).(nTotal := s.nTotal - 1, allOk := true,
          round := multiset{}, merged := multiset{}, results := s.results + [(s.allOk, s.round)])
      else
        SetThread(s, t, Asleep(false)).(nIdle := s.nIdle + 1)
    else
      var keep := |s.queue| - BatchLength(s);
      SetThread(s, t, Working(Reverse(s.queue[keep..]), 0, s.allOk)).(queue := s.queue[..keep])
  }

  function Reverse(q: seq<Check>): (r: seq<Check>)
    ensures |r| == |q| && multiset(r) == multiset(q)
  {
    if q == [] then [] else (assert q == q[..|q| - 1] + [q[|q| - 1]]; [q[|q| - 1]] + Reverse(q[..|q| - 1]))
  }

  lemma {:induction false} ReverseAt(q: seq<Check>, i: nat)
    requires i < |q|
    ensures Reverse(q)[i] == q[|q| - 1 - i]
  {
    if i > 0 { ReverseAt(q[..|q| - 1], i - 1); }
  }

  /** A batch is taken off the back of the queue, the last check first, with the verdict known so far. */
  lemma TakesFromBack(s: State, t: nat, i: nat)
    requires t < |s.threads| && s.nTotal >= 0 && s.nIdle >= 0 && s.queue != [] && i < BatchLength(s)
    ensures var u := LoopHead(s, t);
            && u.threads[t].Working? && |u.threads[t].batch| == BatchLength(s)
            && u.threads[t].ran == 0 && u.threads[t].ok == s.allOk
            && u.threads[t].batch[i] == s.queue[|s.queue| - 1 - i]
            && u.queue == s.queue[..|s.queue| - BatchLength(s)]
  {
    ReverseAt(s.queue[|s.queue| - BatchLength(s)..], i);
  }

  /** Fold a batch in without telling anybody. */
  function Fold(s: State, t: nat): State
    requires t < |s.threads| && s.threads[t].Working?
  {
    var th := s.threads[t];
    SetThread(s, t, Entering).(
      allOk := s.allOk && th.ok, nTodo := s.nTodo - |th.batch|, merged := s.merged + multiset(th.batch))
  }

  /** Fold a finished batch into the shared state; the last one informs the master. */
  function Merge(s: State, t: nat): State
    requires t < |s.threads| && MASTER < |s.threads| && s.threads[t].Working?
  {
    var m := Fold(s, t);
    if m.nTodo == 0 && t != MASTER then NotifyMaster(m) else m
  }

  predicate Enabled(s: State, e: Event) {
    match e
    case Join(t) => t < |s.threads| && s.threads[t].Outside?
    case RunCheck(t) => t < |s.threads| && s.threads[t].Working? && s.threads[t].ran < |s.threads[t].batch|
    case Lock(t) =>
      && t < |s.threads|
      && (s.threads[t].Entering? || (s.threads[t].Working? && s.threads[t].ran == |s.threads[t].batch|))
    case Wake(t) => t < |s.threads| && s.threads[t].Asleep?
    case Add(_, _) => MASTER < |s.threads| && s.threads[MASTER].Outside?
  }

  ghost predicate Ready(s: State, e: Event) {
    Enabled(s, e) && MASTER < |s.threads| && s.nTotal >= 0 && s.nIdle >= 0 && (e.Wake? ==> s.nIdle > 0)
  }

  /** The state in which a thread that has just got the lock reaches the head of the loop. */
  function Arrive(s: State, e: Event): State
    requires Ready(s, e) && (e.Lock? || e.Wake?)
  {
    if e.Wake? then SetThread(s, e.t, Entering).(nIdle := s.nIdle - 1)
    else if s.threads[e.t].Working? then Merge(s, e.t)
    else s.(nTotal := s.nTotal + 1)
  }

  function Step(s: State, e: Event): State
    requires Ready(s, e)
  {
    match e
    case Join(t) => SetThread(s, t, Entering)
    case RunCheck(t) =>
      var th := s.threads[t];
      SetThread(s, t, th.(ran := th.ran + 1, ok := th.ok && th.batch[th.ran].ok))
    case Lock(t) => LoopHead(Arrive(s, e), t)
    case Wake(t) => LoopHead(Arrive(s, e), t)
    case Add(checks, woken) =>
      NotifyFor(Enlarged(s, checks), |checks|, woken)
  }

  // ---------- the invariant ----------

  function BatchOf(th: Thread): multiset<Check> {
    if th.Working? then multiset(th.batch) else multiset{}
  }

  /** All checks in the hands of threads. */
  ghost function Held(ts: seq<Thread>): multiset<Check> {
    if ts == [] then multiset{} else BatchOf(ts[0]) + Held(ts[1..])
  }

  /** The threads counted in `nTotal`, and those counted in `nIdle`. */
  ghost function Looping(ts: seq<Thread>): nat {
    if ts == [] then 0 else Looping(ts[1..]) + (if InLoop(ts[0]) then 1 else 0)
  }

  ghost function Sleeping(ts: seq<Thread>): nat {
    if ts == [] then 0 else Sleeping(ts[1..]) + (if ts[0].Asleep? then 1 else 0)
  }

  predicate InLoop(th: Thread) { th.Working? || th.Asleep? }

  ghost predicate AllPass(m: multiset<Check>) {
    forall c :: c in m ==> c.ok
  }

  /** A thread whose flag is still up has seen only successes; one whose flag is down is right to
      have given up, because some check of this round fails. */
  ghost predicate ThreadOk(s: State, t: int) {
    0 <= t < |s.threads| && s.threads[t].Working? ==>
      var th := s.threads[t];
      && 0 < |th.batch| && th.ran <= |th.batch|
      && (th.ok ==> forall i :: 0 <= i < th.ran ==> th.batch[i].ok)
      && (!th.ok ==> !AllPass(s.round))
  }

  ghost predicate ResultOk(r: (bool, multiset<Check>)) {
    r.0 <==> AllPass(r.1)
  }

  /** Every check of the round is queued, in somebody's hands, or folded in; the counters count. */
  ghost predicate Books(s: State) {
    && MASTER < |s.threads|
    && s.round == multiset(s.queue) + Held(s.threads) + s.merged
    && s.nTodo == |s.queue| + |Held(s.threads)|
    && s.nTotal == Looping(s.threads)
    && s.nIdle == Sleeping(s.threads)
  }

  /** Every verdict reached so far is justified. */
  ghost predicate Verdicts(s: State) {
    && (forall t :: ThreadOk(s, t))
    && (s.allOk ==> AllPass(s.merged))
    && (!s.allOk ==> !AllPass(s.round))
    && (forall i :: 0 <= i < |s.results| ==> ResultOk(s.results[i]))
  }

  /** A master that sleeps has nothing to take; unless it has been notified, somebody else has
      work in hand. */
  ghost predicate MasterOk(s: State) {
    && MASTER < |s.threads|
    && (s.threads[MASTER].Asleep? ==> s.queue == [])
    && (s.threads[MASTER] == Asleep(false) ==> s.nTodo > 0)
  }

  ghost predicate Inv(s: State) {
    Books(s) && Verdicts(s) && MasterOk(s)
  }

  // ---------- every step keeps it ----------

  lemma {:induction false} HeldUpdate(ts: seq<Thread>, t: nat, th: Thread)
    requires t < |ts|
    ensures Held(ts[t := th]) + BatchOf(ts[t]) == Held(ts) + BatchOf(th)
  {
    var us := ts[t := th];
    if t == 0 {
      assert us[1..] == ts[1..];
    } else {
      assert us[1..] == ts[1..][t - 1 := th] && us[0] == ts[0];
      HeldUpdate(ts[1..], t - 1, th);
      AddFront(BatchOf(ts[0]), Held(us[1..]), BatchOf(ts[t]), Held(ts[1..]), BatchOf(th));
    }
  }

  lemma AddFront(b: multiset<Check>, g: multiset<Check>, x: multiset<Check>, h: multiset<Check>, y: multiset<Check>)
    requires g + x == h + y
    ensures (b + g) + x == (b + h) + y
  {
    assert (b + g) + x == b + (g + x);
    assert (b + h) + y == b + (h + y);
  }

  lemma {:induction false} CountsUpdate(ts: seq<Thread>, t: nat, th: Thread)
    requires t < |ts|
    ensures Looping(ts[t := th]) == Looping(ts) + (if InLoop(th) then 1 else 0) - (if InLoop(ts[t]) then 1 else 0)
    ensures Sleeping(ts[t := th]) == Sleeping(ts) + (if th.Asleep? then 1 else 0) - (if ts[t].Asleep? then 1 else 0)
  {
    var us := ts[t := th];
    if t == 0 {
      assert us[1..] == ts[1..];
    } else {
      assert us[1..] == ts[1..][t - 1 := th];
      CountsUpdate(ts[1..], t - 1, th);
    }
  }

  lemma HeldReplace(ts: seq<Thread>, t: nat, th: Thread)
    requires t < |ts|
    ensures !ts[t].Working? ==> Held(ts[t := th]) == Held(ts) + BatchOf(th)
    ensures !th.Working? ==> Held(ts) == Held(ts[t := th]) + BatchOf(ts[t])
    ensures BatchOf(th) == BatchOf(ts[t]) ==> Held(ts[t := th]) == Held(ts)
  {
    HeldUpdate(ts, t, th);
    Balance(Held(ts[t := th]), BatchOf(ts[t]), Held(ts), BatchOf(th));
  }

  lemma Balance(a: multiset<Check>, x: multiset<Check>, b: multiset<Check>, y: multiset<Check>)
    requires a + x == b + y
    ensures x == multiset{} ==> a == b + y
    ensures y == multiset{} ==> b == a + x
    ensures x == y ==> a == b
  {
    assert (a + x) - x == a && (b + y) - y == b;
  }

  /** Waking threads changes nothing that is counted. */
  lemma {:induction false} SameHeld(ts: seq<Thread>, us: seq<Thread>)
    requires |ts| == |us|
    requires forall i :: 0 <= i < |ts| ==> us[i] == ts[i] || (us[i].Asleep? && ts[i].Asleep?)
    ensures Held(us) == Held(ts) && Looping(us) == Looping(ts) && Sleeping(us) == Sleeping(ts)
  {
    if ts != [] {
      SameHeld(ts[1..], us[1..]);
    }
  }

  /** A thread that holds nothing changes places and still holds nothing. */
  lemma BooksIdle(s: State, t: nat, th: Thread, total: int, idle: int)
    requires Books(s) && t < |s.threads| && BatchOf(s.threads[t]) == BatchOf(th)
    requires total == s.nTotal + (if InLoop(th) then 1 else 0) - (if InLoop(s.threads[t]) then 1 else 0)
    requires idle == s.nIdle + (if th.Asleep? then 1 else 0) - (if s.threads[t].Asleep? then 1 else 0)
    ensures Books(SetThread(s, t, th).(nTotal := total, nIdle := idle))
  {
    HeldReplace(s.threads, t, th);
    CountsUpdate(s.threads, t, th);
  }

  /** The other threads do not notice a step that leaves the round alone. */
  lemma OthersOk(s: State, u: State, t: nat)
    requires forall i :: ThreadOk(s, i)
    requires t < |s.threads| == |u.threads| && u.threads == s.threads[t := u.threads[t]] && u.round == s.round
    requires ThreadOk(u, t)
    ensures forall i :: ThreadOk(u, i)
  {
    forall i ensures ThreadOk(u, i) { assert ThreadOk(s, i); }
  }

  /** The invariant while thread `t` holds the lock at the head of the inner loop, counted in
      `nTotal` and with no batch. */
  ghost predicate AtHead(s: State, t: nat) {
    && t < |s.threads| && s.threads[t] == Entering && s.nTotal > 0 && s.nIdle >= 0
    && Books(s.(nTotal := s.nTotal - 1)) && Verdicts(s) && MasterOk(s)
  }

  lemma TakeBooks(s: State, t: nat)
    requires AtHead(s, t) && s.queue != []
    ensures Books(LoopHead(s, t))
  {
    var u := LoopHead(s, t);
    var keep := |s.queue| - BatchLength(s);
    var th := u.threads[t];
    assert s.queue == s.queue[..keep] + s.queue[keep..];
    HeldReplace(s.threads, t, th);
    CountsUpdate(s.threads, t, th);
    var a, b, h := multiset(s.queue[..keep]), multiset(s.queue[keep..]), Held(s.threads);
    assert multiset(s.queue) == a + b;
    assert (a + b) + h + s.merged == a + (h + b) + s.merged;
  }

  lemma HeadTakes(s: State, t: nat)
    requires AtHead(s, t) && s.queue != []
    ensures Inv(LoopHead(s, t))
  {
    TakeBooks(s, t);
    OthersOk(s, LoopHead(s, t), t);
  }

  lemma HeadSleeps(s: State, t: nat)
    requires AtHead(s, t) && s.queue == [] && !(t == MASTER && s.nTodo == 0)
    ensures Inv(LoopHead(s, t))
  {
    var d := s.(nTotal := s.nTotal - 1);
    BooksIdle(d, t, Asleep(false), s.nTotal, s.nIdle + 1);
    assert LoopHead(s, t) == SetThread(d, t, Asleep(false)).(nTotal := s.nTotal, nIdle := s.nIdle + 1);
    OthersOk(s, LoopHead(s, t), t);
  }

  lemma {:induction false} HeldNone(ts: seq<Thread>, t: nat)
    requires t < |ts| && Held(ts) == multiset{}
    ensures BatchOf(ts[t]) == multiset{}
  {
    if t > 0 { HeldNone(ts[1..], t - 1); }
  }

  /** When the master returns nothing is queued or held, so `allOk` speaks for the whole round. */
  lemma HeadReturns(s: State)
    requires AtHead(s, MASTER) && s.queue == [] && s.nTodo == 0
    ensures Inv(LoopHead(s, MASTER))
    ensures s.allOk <==> AllPass(s.round)
  {
    var u := LoopHead(s, MASTER);
    HeldReplace(s.threads, MASTER, Outside);
    CountsUpdate(s.threads, MASTER, Outside);
    assert Held(s.threads) == multiset{};
    assert s.round == s.merged;
    forall i ensures ThreadOk(u, i) {
      assert ThreadOk(s, i);
      if 0 <= i < |u.threads| && u.threads[i].Working? { HeldNone(u.threads, i); }
    }
  }

  lemma HeadKeeps(s: State, t: nat)
    requires AtHead(s, t)
    ensures Inv(LoopHead(s, t))
  {
    if s.queue != [] {
      HeadTakes(s, t);
    } else if t == MASTER && s.nTodo == 0 {
      HeadReturns(s);
    } else {
      HeadSleeps(s, t);
    }
  }

  lemma {:induction false} HeldIncludes(ts: seq<Thread>, t: nat)
    requires t < |ts|
    ensures BatchOf(ts[t]) <= Held(ts)
  {
    if t > 0 { HeldIncludes(ts[1..], t - 1); }
  }

  lemma NotifyKeeps(s: State, u: State)
    requires Books(s) && Verdicts(s) && u == s.(threads := u.threads) && |u.threads| == |s.threads|
    requires forall i :: 0 <= i < |s.threads| ==>
               u.threads[i] == s.threads[i] || (u.threads[i] == Asleep(true) && s.threads[i].Asleep?)
    ensures Books(u) && Verdicts(u)
  {
    SameHeld(s.threads, u.threads);
    forall i ensures ThreadOk(u, i) { assert ThreadOk(s, i); }
  }

  lemma FoldBooks(s: State, t: nat)
    requires Books(s) && t < |s.threads| && s.threads[t].Working?
    ensures Books(Fold(s, t).(nTotal := s.nTotal - 1)) && s.nTotal > 0
  {
    var th := s.threads[t];
    HeldReplace(s.threads, t, Entering);
    CountsUpdate(s.threads, t, Entering);
    var q, h, b := multiset(s.queue), Held(s.threads[t := Entering]), multiset(th.batch);
    assert q + (h + b) + s.merged == q + h + (s.merged + b);
  }

  lemma FoldVerdicts(s: State, t: nat)
    requires Verdicts(s) && Enabled(s, Lock(t)) && s.threads[t].Working?
    ensures Verdicts(Fold(s, t))
  {
    var th := s.threads[t];
    assert ThreadOk(s, t);
    assert th.ok ==> AllPass(multiset(th.batch));
    OthersOk(s, Fold(s, t), t);
  }

  /** A finished batch is folded in: what is left is the invariant of the loop head. */
  lemma MergeKeeps(s: State, t: nat)
    requires Inv(s) && Enabled(s, Lock(t)) && s.threads[t].Working?
    ensures AtHead(Merge(s, t), t)
  {
    FoldBooks(s, t);
    FoldVerdicts(s, t);
    var m := Fold(s, t);
    var d := m.(nTotal := m.nTotal - 1);
    forall i ensures ThreadOk(d, i) { assert ThreadOk(m, i); }
    if m.nTodo == 0 && t != MASTER { MasterTold(m, d); }
  }

  /** Telling the master keeps the books, whether or not a thread at the head is counted. */
  lemma MasterTold(m: State, d: State)
    requires MASTER < |m.threads| && Books(d) && Verdicts(d) && d == m.(nTotal := m.nTotal - 1)
    ensures var n := NotifyMaster(m); Books(n.(nTotal := n.nTotal - 1)) && Verdicts(n)
  {
    NotifyKeeps(d, NotifyMaster(d));
    var n := NotifyMaster(m);
    forall i ensures ThreadOk(n, i) { assert ThreadOk(NotifyMaster(d), i); }
    assert n.(nTotal := n.nTotal - 1) == NotifyMaster(d);
  }

  lemma WakeKeeps(s: State, t: nat)
    requires Inv(s) && Ready(s, Wake(t))
    ensures AtHead(Arrive(s, Wake(t)), t)
  {
    var u := Arrive(s, Wake(t));
    BooksIdle(s, t, Entering, s.nTotal - 1, s.nIdle - 1);
    LoopingPositive(s.threads, t);
    assert u.(nTotal := s.nTotal - 1) == SetThread(s, t, Entering).(nTotal := s.nTotal - 1, nIdle := s.nIdle - 1);
    OthersOk(s, u, t);
  }

  lemma EnterKeeps(s: State, t: nat)
    requires Inv(s) && Ready(s, Lock(t)) && !s.threads[t].Working?
    ensures AtHead(Arrive(s, Lock(t)), t)
  {
    var u := Arrive(s, Lock(t));
    assert u.(nTotal := s.nTotal) == s;
    forall i ensures ThreadOk(u, i) { assert ThreadOk(s, i); }
  }

  lemma ArriveKeeps(s: State, e: Event)
    requires Inv(s) && Ready(s, e) && (e.Lock? || e.Wake?)
    ensures AtHead(Arrive(s, e), e.t)
  {
    if e.Wake? {
      WakeKeeps(s, e.t);
    } else if s.threads[e.t].Working? {
      MergeKeeps(s, e.t);
    } else {
      EnterKeeps(s, e.t);
    }
  }

  lemma {:induction false} LoopingPositive(ts: seq<Thread>, t: nat)
    requires t < |ts|
    ensures InLoop(ts[t]) ==> Looping(ts) > 0
    ensures ts[t].Asleep? ==> Sleeping(ts) > 0
  {
    if t > 0 { LoopingPositive(ts[1..], t - 1); }
  }

  lemma RunKeeps(s: State, t: nat)
    requires Inv(s) && Ready(s, RunCheck(t))
    ensures Inv(Step(s, RunCheck(t)))
  {
    var th, u := s.threads[t], Step(s, RunCheck(t));
    BooksIdle(s, t, u.threads[t], s.nTotal, s.nIdle);
    assert u == SetThread(s, t, u.threads[t]).(nTotal := s.nTotal, nIdle := s.nIdle);
    RunVerdict(s, t);
    OthersOk(s, u, t);
  }

  lemma RunVerdict(s: State, t: nat)
    requires Inv(s) && Ready(s, RunCheck(t))
    ensures ThreadOk(Step(s, RunCheck(t)), t)
  {
    var th := s.threads[t];
    assert ThreadOk(s, t);
    var c := th.batch[th.ran];
    HeldIncludes(s.threads, t);
    assert c in multiset(th.batch) && c in s.round;
  }

  lemma JoinKeeps(s: State, t: nat)
    requires Inv(s) && Ready(s, Join(t))
    ensures Inv(Step(s, Join(t)))
  {
    BooksIdle(s, t, Entering, s.nTotal, s.nIdle);
    assert Step(s, Join(t)) == SetThread(s, t, Entering).(nTotal := s.nTotal, nIdle := s.nIdle);
    OthersOk(s, Step(s, Join(t)), t);
  }

  lemma Regroup(q: multiset<Check>, h: multiset<Check>, m: multiset<Check>, b: multiset<Check>)
    ensures q + h + m + b == (q + b) + h + m
  {
  }

  lemma PassedBefore(r: multiset<Check>, b: multiset<Check>)
    ensures AllPass(r + b) ==> AllPass(r)
  {
    assert r <= r + b;
  }

  lemma EnlargedKeeps(s: State, checks: seq<Check>)
    requires Inv(s) && Ready(s, Add(checks, 0))
    ensures Inv(Enlarged(s, checks))
  {
    var a := Enlarged(s, checks);
    Regroup(multiset(s.queue), Held(s.threads), s.merged, multiset(checks));
    PassedBefore(s.round, multiset(checks));
    forall i ensures ThreadOk(a, i) { assert ThreadOk(s, i); }
  }

  lemma AddKeeps(s: State, checks: seq<Check>, woken: nat)
    requires Inv(s) && Ready(s, Add(checks, woken))
    ensures Inv(Step(s, Add(checks, woken)))
  {
    EnlargedKeeps(s, checks);
    NotifyForKeeps(Enlarged(s, checks), |checks|, woken);
  }

  lemma NotifyForKeeps(s: State, n: nat, woken: nat)
    requires Inv(s)
    ensures Inv(NotifyFor(s, n, woken))
  {
    var u := NotifyFor(s, n, woken);
    assert forall i :: 0 <= i < |s.threads| ==>
        u.threads[i] == s.threads[i] || (u.threads[i] == Asleep(true) && s.threads[i].Asleep?);
    NotifyKeeps(s, u);
  }

  /** No step of any thread breaks the invariant, and every enabled step can be taken. */
  lemma StepKeeps(s: State, e: Event)
    requires Inv(s) && Enabled(s, e)
    ensures Ready(s, e) && Inv(Step(s, e))
  {
    if e.Wake? { LoopingPositive(s.threads, e.t); }
    match e
    case Join(t) => JoinKeeps(s, t);
    case RunCheck(t) => RunKeeps(s, t);
    case Lock(t) => ArriveKeeps(s, e); HeadKeeps(Arrive(s, e), t);
    case Wake(t) => ArriveKeeps(s, e); HeadKeeps(Arrive(s, e), t);
    case Add(checks, woken) => AddKeeps(s, checks, woken);
  }

  // ---------- who is woken ----------

  /** Adding one check wakes the sleeping worker that the scheduler chooses; adding several wakes all sleeping
      workers; nobody else notices. */
  lemma AddWakes(s: State, checks: seq<Check>, woken: nat, t: nat)
    requires Enabled(s, Add(checks, woken)) && Ready(s, Add(checks, woken)) && t < |s.threads|
    ensures var u := Step(s, Add(checks, woken));
            && |u.threads| == |s.threads| && u.queue == s.queue + checks
            && u.threads[t] ==
               if t != 0 && s.threads[t].Asleep? && (|checks| > 1 || (|checks| == 1 && t == woken))
               then Asleep(true) else s.threads[t]
  {
  }

  /** When there is something in the queue, some worker is not fast asleep. */
  ghost predicate SomebodyUp(s: State) {
    s.queue != [] ==> exists t :: 0 < t < |s.threads| && s.threads[t] != Asleep(false)
  }

  /** As a condition variable does: a single notification goes to a thread that sleeps, when there is one. */
  ghost predicate Delivered(s: State, e: Event) {
    e.Add? && |e.checks| == 1 ==>
      (exists t :: 0 < t < |s.threads| && s.threads[t].Asleep?) ==>
        0 < e.woken < |s.threads| && s.threads[e.woken].Asleep?
  }

  lemma AddRouses(s: State, e: Event)
    requires Ready(s, e) && e.Add? && |s.threads| > 1 && SomebodyUp(s) && Delivered(s, e)
    ensures SomebodyUp(Step(s, e)) && |Step(s, e).threads| == |s.threads|
  {
    var u := Step(s, e);
    if u.queue != [] {
      var t: nat := 1;
      if e.checks == [] {
        t :| 0 < t < |s.threads| && s.threads[t] != Asleep(false);
      } else if |e.checks| == 1 && s.threads[1].Asleep? {
        t := e.woken;
      }
      AddWakes(s, e.checks, e.woken, t);
      assert u.threads[t] != Asleep(false);
    }
  }

  /** Who takes something from the queue is at work, and who goes to sleep leaves an empty queue. */
  lemma HeadRouses(s: State, t: nat)
    requires t < |s.threads| && s.nTotal >= 0 && s.nIdle >= 0 && s.threads[t] == Entering && SomebodyUp(s)
    ensures SomebodyUp(LoopHead(s, t)) && |LoopHead(s, t).threads| == |s.threads|
  {
    var u := LoopHead(s, t);
    if u.queue != [] {
      var w :| 0 < w < |s.threads| && s.threads[w] != Asleep(false);
      assert u.threads[w] != Asleep(false);
    }
  }

  lemma ArriveRouses(s: State, e: Event)
    requires Inv(s) && Ready(s, e) && (e.Lock? || e.Wake?) && SomebodyUp(s)
    ensures SomebodyUp(Arrive(s, e)) && |Arrive(s, e).threads| == |s.threads|
  {
    var u := Arrive(s, e);
    if u.queue != [] {
      var w :| 0 < w < |s.threads| && s.threads[w] != Asleep(false);
      assert u.threads[w] != Asleep(false);
    }
  }

  lemma LoopRouses(s: State, e: Event)
    requires Inv(s) && Ready(s, e) && (e.Lock? || e.Wake?) && SomebodyUp(s)
    ensures SomebodyUp(Step(s, e)) && |Step(s, e).threads| == |s.threads|
  {
    ArriveKeeps(s, e);
    ArriveRouses(s, e);
    HeadRouses(Arrive(s, e), e.t);
  }

  lemma OwnRouses(s: State, e: Event)
    requires Ready(s, e) && (e.Join? || e.RunCheck?) && SomebodyUp(s)
    ensures SomebodyUp(Step(s, e)) && |Step(s, e).threads| == |s.threads|
  {
    if s.queue != [] {
      var w :| 0 < w < |s.threads| && s.threads[w] != Asleep(false);
      assert Step(s, e).threads[w] != Asleep(false);
    }
  }

  lemma StepRouses(s: State, e: Event)
    requires Inv(s) && Ready(s, e) && |s.threads| > 1 && SomebodyUp(s) && Delivered(s, e)
    ensures SomebodyUp(Step(s, e)) && |Step(s, e).threads| == |s.threads|
  {
    match e
    case Add(_, _) => AddRouses(s, e);
    case Lock(_) => LoopRouses(s, e);
    case Wake(_) => LoopRouses(s, e);
    case _ => OwnRouses(s, e);
  }

  // ---------- what this means for every run ----------

  lemma {:induction false} AllOutside(ts: seq<Thread>)
    requires forall i :: 0 <= i < |ts| ==> ts[i] == Outside
    ensures Held(ts) == multiset{} && Looping(ts) == 0 && Sleeping(ts) == 0
  {
    if ts != [] { AllOutside(ts[1..]); }
  }

  lemma InitInv(workers: nat, batchSize: nat)
    ensures Inv(Init(workers, batchSize))
  {
    var s := Init(workers, batchSize);
    AllOutside(s.threads);
    forall t ensures ThreadOk(s, t) {}
  }

  /** An event that is not enabled does nothing. */
  ghost function After(m: State, e: Event): (u: State)
    requires Inv(m)
    ensures Inv(u)
  {
    if Enabled(m, e) then (StepKeeps(m, e); Step(m, e)) else m
  }

  /** The state after the events `es`, in that order. */
  ghost function Play(s: State, es: seq<Event>): (u: State)
    requires Inv(s)
    ensures Inv(u)
  {
    if es == [] then s else After(Play(s, es[..|es| - 1]), es[|es| - 1])
  }

  /** The master is not in `Wait`. */
  predicate Returned(s: State) {
    MASTER < |s.threads| && s.threads[MASTER].Outside?
  }

  ghost predicate AllDelivered(s: State, es: seq<Event>)
    requires Inv(s)
  {
    forall i :: 0 <= i < |es| ==> Delivered(Play(s, es[..i]), es[i])
  }

  /** In every interleaving in which no notification goes astray, a queue with something in it has a worker who
      can do something about it: no check waits for the master. */
  lemma {:induction false} QueueAttended(s: State, es: seq<Event>)
    requires Inv(s) && |s.threads| > 1 && SomebodyUp(s) && AllDelivered(s, es)
    ensures SomebodyUp(Play(s, es)) && |Play(s, es).threads| == |s.threads|
  {
    if es != [] {
      var front, e := es[..|es| - 1], es[|es| - 1];
      forall i | 0 <= i < |front| ensures Delivered(Play(s, front[..i]), front[i]) {
        assert front[..i] == es[..i];
        assert Delivered(Play(s, es[..i]), es[i]);
      }
      QueueAttended(s, front);
      var m := Play(s, front);
      if Enabled(m, e) {
        StepKeeps(m, e);
        assert Delivered(m, e);
        StepRouses(m, e);
      }
    }
  }

  /** The step with which the master leaves `Wait`. */
  ghost predicate IsReturn(m: State, e: Event)
    requires Inv(m)
  {
    !Returned(m) && Returned(After(m, e))
  }

  /** The checks of the `Add` events of a schedule since `Wait` last returned in it. */
  ghost function AddedSince(s: State, es: seq<Event>): multiset<Check>
    requires Inv(s)
  {
    if es == [] then multiset{}
    else
      var front, e := es[..|es| - 1], es[|es| - 1];
      var m, added := Play(s, front), AddedSince(s, front);
      if IsReturn(m, e) then multiset{} else if Enabled(m, e) && e.Add? then added + multiset(e.checks) else added
  }

  /** The checks added between one return of `Wait` and the next, for every return in the schedule. */
  ghost function Rounds(s: State, es: seq<Event>): seq<multiset<Check>>
    requires Inv(s)
  {
    if es == [] then []
    else
      var front, e := es[..|es| - 1], es[|es| - 1];
      Rounds(s, front) + if IsReturn(Play(s, front), e) then [AddedSince(s, front)] else []
  }

  /** A return closes the round; nothing else touches it. */
  ghost predicate Closes(m: State, u: State, returns_: bool) {
    if returns_ then
      && u.round == multiset{} && |u.results| == |m.results| + 1
      && u.results[..|m.results|] == m.results && u.results[|m.results|].1 == m.round
    else
      u.round == m.round && u.results == m.results
  }

  lemma HeadCloses(s: State, t: nat)
    requires t < |s.threads| && MASTER < |s.threads| && s.nTotal >= 0 && s.nIdle >= 0 && s.threads[t] == Entering
    ensures Closes(s, LoopHead(s, t), !Returned(s) && Returned(LoopHead(s, t)))
    ensures t != MASTER ==> Returned(LoopHead(s, t)) == Returned(s)
  {
  }

  lemma ArriveSame(m: State, e: Event)
    requires Ready(m, e) && (e.Lock? || e.Wake?)
    ensures var u := Arrive(m, e); u.round == m.round && u.results == m.results && Returned(u) == Returned(m)
  {
  }

  lemma StepCloses(m: State, e: Event)
    requires Inv(m) && Ready(m, e) && (e.Lock? || e.Wake?)
    ensures Closes(m, Step(m, e), !Returned(m) && Returned(Step(m, e)))
  {
    ArriveSame(m, e);
    ArriveKeeps(m, e);
    HeadCloses(Arrive(m, e), e.t);
  }

  lemma AddOpens(m: State, e: Event)
    requires Ready(m, e) && e.Add?
    ensures var u := Step(m, e); u.round == m.round + multiset(e.checks) && u.results == m.results && Returned(m)
  {
  }

  lemma AfterCloses(m: State, e: Event)
    requires Inv(m)
    ensures !(Enabled(m, e) && e.Add?) ==> Closes(m, After(m, e), IsReturn(m, e))
    ensures Enabled(m, e) && e.Add? ==>
              After(m, e).round == m.round + multiset(e.checks) && After(m, e).results == m.results && !IsReturn(m, e)
  {
    if Enabled(m, e) {
      StepKeeps(m, e);
      if e.Add? { AddOpens(m, e); } else if e.Lock? || e.Wake? { StepCloses(m, e); }
    }
  }

  ghost predicate Recorded(u: State, added: multiset<Check>, rounds: seq<multiset<Check>>) {
    u.round == added && |u.results| == |rounds| && forall i :: 0 <= i < |rounds| ==> u.results[i].1 == rounds[i]
  }

  lemma RecordedNext(m: State, u: State, added: multiset<Check>, rounds: seq<multiset<Check>>, returns_: bool)
    requires Recorded(m, added, rounds) && Closes(m, u, returns_)
    ensures if returns_ then Recorded(u, multiset{}, rounds + [added]) else Recorded(u, added, rounds + [])
  {
    if returns_ {
      forall i | 0 <= i < |rounds| ensures u.results[i].1 == rounds[i] {
        assert u.results[i] == u.results[..|m.results|][i];
      }
    }
  }

  lemma {:induction false} RoundsRecorded(s: State, es: seq<Event>)
    requires Inv(s) && s.round == multiset{} && s.results == []
    ensures Recorded(Play(s, es), AddedSince(s, es), Rounds(s, es))
  {
    if es != [] {
      var front, e := es[..|es| - 1], es[|es| - 1];
      var m := Play(s, front);
      RoundsRecorded(s, front);
      AfterCloses(m, e);
      if !(Enabled(m, e) && e.Add?) {
        RecordedNext(m, After(m, e), AddedSince(s, front), Rounds(s, front), IsReturn(m, e));
      }
    }
  }

  /** In every interleaving, `Wait` has given as many answers as the schedule has returns, and each answer is
      the conjunction of all checks added since the answer before it; no check is lost or counted twice on the
      way. */
  lemma WaitAnswersConjunction(workers: nat, batchSize: nat, es: seq<Event>)
    ensures (InitInv(workers, batchSize);
             var s0 := Init(workers, batchSize);
             var s, rounds := Play(s0, es), Rounds(s0, es);
             && |s.results| == |rounds|
             && (forall i :: 0 <= i < |rounds| ==> (s.results[i].0 <==> AllPass(rounds[i])))
             && AddedSince(s0, es) == multiset(s.queue) + Held(s.threads) + s.merged
             && s.nTodo == |s.queue| + |Held(s.threads)|)
  {
    InitInv(workers, batchSize);
    var s := Play(Init(workers, batchSize), es);
    RoundsRecorded(Init(workers, batchSize), es);
    forall i | 0 <= i < |s.results| ensures s.results[i].0 <==> AllPass(s.results[i].1) {
      assert ResultOk(s.results[i]);
    }
  }

  lemma {:induction false} SomeoneHolds(ts: seq<Thread>) returns (t: nat)
    requires |Held(ts)| > 0
    ensures t < |ts| && ts[t].Working? && ts[t].batch != []
  {
    if BatchOf(ts[0]) != multiset{} {
      t := 0;
    } else {
      t := SomeoneHolds(ts[1..]);
      t := t + 1;
    }
  }

  /** A master that sleeps and has not been notified waits for a batch in some worker's hands. */
  lemma NoLostWakeup(s: State) returns (t: nat)
    requires Inv(s) && s.threads[MASTER] == Asleep(false)
    ensures s.queue == [] && s.nTodo > 0
    ensures t != MASTER && t < |s.threads| && s.threads[t].Working? && s.threads[t].batch != []
  {
    t := SomeoneHolds(s.threads);
  }

  /** `IsIdle` holds whenever nothing is left to do and the master is outside, so the assertion in
      the constructor of `CCheckQueueControl` never fails. */
  predicate IsIdle(s: State) {
    s.nTotal == s.nIdle && s.nTodo == 0 && s.allOk
  }

  lemma IdleBetweenRounds(s: State)
    requires Inv(s) && s.threads[MASTER].Outside? && s.round == multiset{}
    ensures IsIdle(s)
  {
    assert Held(s.threads) <= s.round && multiset(s.queue) <= s.round;
    assert Held(s.threads) == multiset{};
    forall i | 0 <= i < |s.threads| ensures !s.threads[i].Working? {
      assert ThreadOk(s, i);
      HeldNone(s.threads, i);
    }
    NobodyWorks(s.threads);
  }

  lemma {:induction false} NobodyWorks(ts: seq<Thread>)
    requires forall i :: 0 <= i < |ts| ==> !ts[i].Working?
    ensures Looping(ts) == Sleeping(ts)
  {
    if ts != [] { NobodyWorks(ts[1..]); }
  }

  // ---------- Wait comes to an end ----------

  /** The work a thread still has before it: to join, to get the lock, to run its batch. */
  function Weight(th: Thread, master: bool): nat
    requires th.Working? ==> th.ran <= |th.batch|
  {
    match th
    case Outside => if master then 0 else 4
    case Entering => 3
    case Working(batch, ran, _) => 4 * (|batch| - ran) + 3 * ran
    case Asleep(notified) => if notified then 2 else 0
  }

  ghost predicate Sane(ts: seq<Thread>) {
    forall i :: 0 <= i < |ts| && ts[i].Working? ==> ts[i].ran <= |ts[i].batch|
  }

  ghost function Weights(ts: seq<Thread>): nat
    requires Sane(ts)
  {
    if ts == [] then 0 else Weights(ts[..|ts| - 1]) + Weight(ts[|ts| - 1], |ts| == 1)
  }

  ghost function Potential(s: State): nat
    requires Sane(s.threads)
  {
    6 * |s.queue| + Weights(s.threads)
  }

  lemma {:induction false} WeightsUpdate(ts: seq<Thread>, t: nat, th: Thread)
    requires t < |ts| && Sane(ts) && (th.Working? ==> th.ran <= |th.batch|)
    ensures Sane(ts[t := th])
    ensures Weights(ts[t := th]) == Weights(ts) + Weight(th, t == MASTER) - Weight(ts[t], t == MASTER)
  {
    var us, n := ts[t := th], |ts| - 1;
    if t == n {
      assert us[..n] == ts[..n];
    } else {
      assert us[..n] == ts[..n][t := th];
      WeightsUpdate(ts[..n], t, th);
    }
  }

  lemma InvSane(s: State)
    requires Inv(s)
    ensures Sane(s.threads)
  {
    forall i | 0 <= i < |s.threads| && s.threads[i].Working? ensures s.threads[i].ran <= |s.threads[i].batch| {
      assert ThreadOk(s, i);
    }
  }

  /** Everything but adding checks, starting a `Wait` and waking up without being notified. */
  predicate Productive(s: State, e: Event) {
    Enabled(s, e) &&
    match e
    case Join(t) => t != MASTER
    case RunCheck(_) => true
    case Lock(_) => true
    case Wake(t) => s.threads[t].notified
    case Add(_, _) => false
  }

  lemma HeadDescends(s: State, t: nat)
    requires AtHead(s, t) && Sane(s.threads)
    ensures Sane(LoopHead(s, t).threads) && Potential(LoopHead(s, t)) + 3 <= Potential(s)
  {
    var u := LoopHead(s, t);
    WeightsUpdate(s.threads, t, u.threads[t]);
    if s.queue != [] { assert |u.queue| + |u.threads[t].batch| == |s.queue|; }
  }

  lemma ArriveDescends(s: State, e: Event)
    requires Inv(s) && Ready(s, e) && (e.Lock? || e.Wake?) && Productive(s, e) && Sane(s.threads)
    ensures Sane(Arrive(s, e).threads) && Potential(Arrive(s, e)) <= Potential(s) + 2
  {
    var t := e.t;
    assert ThreadOk(s, t);
    WeightsUpdate(s.threads, t, Entering);
    if e.Lock? && s.threads[t].Working? {
      var m := Fold(s, t);
      if m.threads[MASTER].Asleep? { WeightsUpdate(m.threads, MASTER, Asleep(true)); }
    }
  }

  /** Every productive step brings the round closer to its end ... */
  lemma StepDescends(s: State, e: Event)
    requires Inv(s) && Productive(s, e)
    ensures Ready(s, e) && Inv(Step(s, e)) && Sane(s.threads) && Sane(Step(s, e).threads)
    ensures Potential(Step(s, e)) < Potential(s)
  {
    StepKeeps(s, e);
    InvSane(s);
    match e
    case Join(t) => WeightsUpdate(s.threads, t, Entering);
    case RunCheck(t) => WeightsUpdate(s.threads, t, Step(s, e).threads[t]);
    case Lock(t) => ArriveKeeps(s, e); ArriveDescends(s, e); HeadDescends(Arrive(s, e), t);
    case Wake(t) => ArriveKeeps(s, e); ArriveDescends(s, e); HeadDescends(Arrive(s, e), t);
  }

  /** ... and as long as the master has not returned, one can be taken. */
  lemma AlwaysProductive(s: State) returns (e: Event)
    requires Inv(s) && !s.threads[MASTER].Outside?
    ensures Productive(s, e)
  {
    var t := MASTER;
    if s.threads[MASTER] == Asleep(false) { t := NoLostWakeup(s); }
    assert ThreadOk(s, t);
    match s.threads[t]
    case Entering => e := Lock(t);
    case Working(batch, ran, _) => e := if ran < |batch| then RunCheck(t) else Lock(t);
    case Asleep(_) => e := Wake(t);
  }

  /** A thread that wakes up without being notified does no harm. */
  lemma SpuriousFlat(s: State, t: nat)
    requires Inv(s) && Enabled(s, Wake(t))
    ensures Ready(s, Wake(t)) && Inv(Step(s, Wake(t))) && Sane(s.threads) && Sane(Step(s, Wake(t)).threads)
    ensures Potential(Step(s, Wake(t))) <= Potential(s)
  {
    StepKeeps(s, Wake(t));
    InvSane(s);
    ArriveKeeps(s, Wake(t));
    WeightsUpdate(s.threads, t, Entering);
    HeadDescends(Arrive(s, Wake(t)), t);
  }

  /** What can happen during a `Wait`: the master neither adds checks nor starts another one. */
  predicate Calm(es: seq<Event>) {
    forall i :: 0 <= i < |es| ==> !es[i].Add? && es[i] != Join(MASTER)
  }

  /** The productive ones among the events of a schedule. */
  ghost function ProductiveSteps(s: State, es: seq<Event>): nat
    requires Inv(s)
  {
    if es == [] then 0
    else
      var front := es[..|es| - 1];
      ProductiveSteps(s, front) + if Productive(Play(s, front), es[|es| - 1]) then 1 else 0
  }

  lemma CalmStep(m: State, e: Event)
    requires Inv(m) && Calm([e])
    ensures Sane(m.threads)
    ensures Enabled(m, e) ==>
              && Ready(m, e) && Sane(Step(m, e).threads)
              && Potential(Step(m, e)) + (if Productive(m, e) then 1 else 0) <= Potential(m)
  {
    InvSane(m);
    assert [e][0] == e;
    if Enabled(m, e) {
      if Productive(m, e) { StepDescends(m, e); } else { SpuriousFlat(m, e.t); }
    }
  }

  /** In any schedule of a `Wait`, whatever other events are in it, the productive steps are bounded: each of
      them is paid for, and no event gives anything back. */
  lemma {:induction false} WaitTerminates(s: State, es: seq<Event>)
    requires Inv(s) && Calm(es)
    ensures Sane(s.threads) && Sane(Play(s, es).threads)
    ensures ProductiveSteps(s, es) + Potential(Play(s, es)) <= Potential(s)
  {
    InvSane(s);
    if es != [] {
      WaitTerminates(s, es[..|es| - 1]);
      CalmStep(Play(s, es[..|es| - 1]), es[|es| - 1]);
    }
  }

  /** A worker who is not fast asleep can take a productive step. */
  lemma WorkerGoesOn(s: State) returns (e: Event)
    requires Inv(s) && SomebodyUp(s) && s.queue != []
    ensures Productive(s, e) && !e.Add? && e.t != MASTER
  {
    var t :| 0 < t < |s.threads| && s.threads[t] != Asleep(false);
    assert ThreadOk(s, t);
    match s.threads[t]
    case Outside => e := Join(t);
    case Entering => e := Lock(t);
    case Working(batch, ran, _) => e := if ran < |batch| then RunCheck(t) else Lock(t);
    case Asleep(_) => e := Wake(t);
  }

  // ---------- Wait returns ----------

  lemma ReturnedStep(s: State, e: Event)
    requires Inv(s) && Ready(s, e) && Returned(s) && Calm([e])
    ensures Returned(Step(s, e))
  {
    assert [e][0] == e;
    if e.Lock? || e.Wake? {
      ArriveSame(s, e);
      ArriveKeeps(s, e);
      HeadCloses(Arrive(s, e), e.t);
    }
  }

  lemma {:induction false} ReturnedStays(s: State, es: seq<Event>)
    requires Inv(s) && Returned(s) && Calm(es)
    ensures Returned(Play(s, es))
  {
    if es != [] {
      var m, e := Play(s, es[..|es| - 1]), es[|es| - 1];
      ReturnedStays(s, es[..|es| - 1]);
      if Enabled(m, e) {
        StepKeeps(m, e);
        ReturnedStep(m, e);
      }
    }
  }

  /** One stretch of a schedule after the other. */
  ghost function PlayAll(s: State, stretches: seq<seq<Event>>): (u: State)
    requires Inv(s)
    ensures Inv(u)
    decreases |stretches|
  {
    if stretches == [] then s else PlayAll(Play(s, stretches[0]), stretches[1..])
  }

  /** As long as the master waits, every stretch takes at least one of the productive steps, of which there is
      always one to take. */
  ghost predicate Fair(s: State, stretches: seq<seq<Event>>)
    requires Inv(s)
    decreases |stretches|
  {
    stretches != [] ==>
      && Calm(stretches[0]) && (Returned(s) || ProductiveSteps(s, stretches[0]) > 0)
      && Fair(Play(s, stretches[0]), stretches[1..])
  }

  /** `Wait` returns under every fair schedule, within a number of stretches that its first state bounds. */
  lemma {:induction false} WaitReturns(s: State, stretches: seq<seq<Event>>)
    requires Inv(s) && Fair(s, stretches)
    ensures Sane(s.threads) && (|stretches| > Potential(s) ==> Returned(PlayAll(s, stretches)))
    ensures Returned(s) ==> Returned(PlayAll(s, stretches))
    decreases |stretches|
  {
    InvSane(s);
    if stretches != [] {
      var u := Play(s, stretches[0]);
      WaitTerminates(s, stretches[0]);
      WaitReturns(u, stretches[1..]);
      if Returned(s) { ReturnedStays(s, stretches[0]); }
    }
  }
}
