/** Invariants of the recovery scheduler over every interleaved run, and what follows
    from them: one owner per service, at most three tasks, and bounds on attempts. */
module ServiceRecoveryRuns {
  import opened Prelude
  import opened ServiceRecovery
  import opened ServiceRecoveryProofs

  /******* Bookkeeping for the statements *******/

  // One started attempt: when, and its number within the life of its action.
  datatype Entry = Entry(time: int, ordinal: nat)

  datatype Book = Book(log: seq<Entry>, successes: nat, failures: nat)

  datatype Ledger = Ledger(books: map<string, Book>, clock: int)

  function EmptyLedger(s: State, now: int): Ledger {
    Ledger(map name | name in s.services :: Book([], 0, 0), now)
  }

  function TimeOf(e: Event, clock: int): int {
    match e
    case DetectPass(now) => now
    case Begin(_, now) => now
    case Failure(_, now) => now
    case Wake(_, now) => now
    case CleanOld(now) => now
    case _ => clock
  }

  // What an event adds to the books.
  function Record(s: State, l: Ledger, e: Event): Ledger
    requires Enabled(s, e)
  {
    var books :=
      match e
      case Begin(t, now) =>
        var a := s.tasks[t].action;
        if a.target !in l.books then l.books else
          var b := l.books[a.target];
          l.books[a.target := b.(log := b.log + [Entry(now, a.attempts + 1)])]
      case Success(t) =>
        var a := s.tasks[t].action;
        if a.target !in l.books then l.books else
          l.books[a.target := l.books[a.target].(successes := l.books[a.target].successes + 1)]
      case Failure(t, now) =>
        var a := s.tasks[t].action;
        if a.target !in l.books || !LastTry(a) then l.books else
          l.books[a.target := l.books[a.target].(failures := l.books[a.target].failures + 1)]
      case _ => l.books;
    Ledger(books, TimeOf(e, l.clock))
  }

  // Events happen one after another, each enabled where it happens, as time passes.
  ghost predicate ValidRun(s: State, l: Ledger, es: seq<Event>)
    decreases |es|
  {
    es == [] ||
    (Enabled(s, es[0]) && l.clock <= TimeOf(es[0], l.clock) &&
     ValidRun(Next(s, es[0]), Record(s, l, es[0]), es[1..]))
  }

  ghost function After(s: State, l: Ledger, es: seq<Event>): (State, Ledger)
    requires ValidRun(s, l, es)
    decreases |es|
  {
    if es == [] then (s, l) else After(Next(s, es[0]), Record(s, l, es[0]), es[1..])
  }

  /******* The invariant *******/

  predicate Queued(q: seq<Action>, name: string) {
    exists i :: 0 <= i < |q| && q[i].target == name
  }

  ghost predicate DistinctTargets(q: seq<Action>) {
    forall i, j :: 0 <= i < j < |q| ==> q[i].target != q[j].target
  }

  // The tables agree: each running task is the one `active` names for its target.
  ghost predicate Tables(s: State) {
    && (forall t :: t in s.tasks ==>
          && t < s.nextTask
          && s.tasks[t].action.target in s.active
          && s.active[s.tasks[t].action.target] == t)
    && (forall name :: name in s.active ==>
          s.active[name] in s.tasks && s.tasks[s.active[name]].action.target == name)
    && |s.active| == |s.tasks| <= MAX_CONCURRENT
  }

  ghost predicate Owners(s: State) {
    && DistinctTargets(s.queue)
    && (forall i :: 0 <= i < |s.queue| ==> s.queue[i].target in s.services && s.queue[i].target !in s.active)
    && (forall name :: name in s.active ==> name in s.services)
    && (forall name :: name in s.services ==>
          (s.services[name].inProgress <==> Queued(s.queue, name) || name in s.active))
  }

  ghost predicate Ordered(log: seq<Entry>) {
    forall i, j :: 0 <= i < j < |log| ==> log[i].time <= log[j].time
  }

  // How one entry continues the log before it.
  ghost predicate Follows(log: seq<Entry>, k: nat, max: nat)
    requires k < |log|
  {
    var o := log[k].ordinal;
    && 1 <= o <= max
    && (o == 1 ==> k >= 3 ==> log[k].time - log[k - 1].time >= COOL_DOWN)
    && (o > 1 ==> k > 0 && log[k - 1].ordinal == o - 1 && log[k].time - log[k - 1].time >= BackoffAfter(o - 1))
  }

  ghost predicate LogOk(log: seq<Entry>, max: nat) {
    && Ordered(log)
    && forall k :: 0 <= k < |log| ==> Follows(log, k, max)
  }

  // Attempts that n complete actions may take together.
  function Budget(max: nat, n: nat): nat {
    if n == 0 then 0 else max + Budget(max, n - 1)
  }

  ghost predicate BookOk(v: Service, b: Book, clock: int) {
    && v.recoveryAttempts == |b.log|
    && v.lastAttempt == (if b.log == [] then None else Some(b.log[|b.log| - 1].time))
    && (b.log != [] ==> b.log[|b.log| - 1].time <= clock)
    && b.failures <= 1
    && (b.failures == 1 ==> v.escalated && !v.inProgress)
    && (!v.inProgress ==> |b.log| <= Budget(MaxAttemptsFor(v.kind), b.successes + b.failures))
  }

  // An action in flight, with the given number of attempts behind it.
  ghost predicate CarriedBy(a: Action, v: Service, b: Book) {
    && a.maxAttempts == MaxAttemptsFor(v.kind) && !a.success && a.attempts <= a.maxAttempts
    && |b.log| <= Budget(a.maxAttempts, b.successes) + a.attempts
    && (a.attempts > 0 ==> b.log != [] && b.log[|b.log| - 1].ordinal == a.attempts)
  }

  // The action may begin an attempt at any time from `ready` on.
  ghost predicate ReadyAt(a: Action, b: Book, ready: int) {
    && a.attempts < a.maxAttempts
    && (a.attempts == 0 ==> |b.log| >= 3 ==> ready - b.log[|b.log| - 1].time >= COOL_DOWN)
    && (a.attempts > 0 ==> b.log != [] ==> ready - b.log[|b.log| - 1].time >= BackoffAfter(a.attempts))
  }

  ghost predicate TaskOk(k: Task, v: Service, b: Book, clock: int) {
    && CarriedBy(k.action, v, b)
    && match k.phase
       case Created => ReadyAt(k.action, b, clock)
       case Executing => k.action.attempts > 0
       case Backoff(wakeAt) => k.action.attempts > 0 && ReadyAt(k.action, b, wakeAt)
  }

  // One service, its books, and the action in flight for it.
  ghost predicate Booked(s: State, l: Ledger, name: string)
    requires name in s.services && name in l.books
  {
    var v, b := s.services[name], l.books[name];
    && BookOk(v, b, l.clock)
    && (forall a :: a in s.queue && a.target == name ==> CarriedBy(a, v, b) && ReadyAt(a, b, l.clock))
    && (forall t :: t in s.tasks && s.tasks[t].action.target == name ==> TaskOk(s.tasks[t], v, b, l.clock))
  }

  ghost predicate Books(s: State, l: Ledger) {
    && s.services.Keys == l.books.Keys
    && forall name :: name in s.services ==> Booked(s, l, name)
  }

  ghost predicate Logs(s: State, l: Ledger) {
    && s.services.Keys == l.books.Keys
    && forall name :: name in s.services ==> LogOk(l.books[name].log, MaxAttemptsFor(s.services[name].kind))
  }

  ghost predicate Inv(s: State, l: Ledger) {
    Tables(s) && Owners(s) && Books(s, l) && Logs(s, l)
  }

  lemma InitialInv(s: State, now: int)
    requires Initial(s)
    ensures Inv(s, EmptyLedger(s, now))
  {
    forall name | name in s.services ensures Booked(s, EmptyLedger(s, now), name) {
    }
  }

  /******* The tables and the owners *******/

  lemma EndTaskKeepsTables(s: State, t: nat)
    requires Tables(s) && t in s.tasks
    ensures Tables(EndTask(s, t))
  {
    RemoveKey(s.tasks, t);
    RemoveKey(s.active, s.tasks[t].action.target);
  }

  lemma EndedLeaves(s: State, t: nat)
    requires Tables(s) && Owners(s) && t in s.tasks
    ensures var name := s.tasks[t].action.target;
      name in s.services && s.services[name].inProgress && !Queued(s.queue, name) && name !in EndTask(s, t).active
  {
  }

  lemma SuccessKeepsTables(s: State, t: nat)
    requires Tables(s) && Owners(s) && InPhase(s, t, Executing)
    ensures Tables(Succeed(s, t)) && Owners(Succeed(s, t))
  {
    EndTaskKeepsTables(s, t);
    EndedLeaves(s, t);
  }

  lemma FailureKeepsTables(s: State, t: nat, now: int)
    requires Tables(s) && Owners(s) && InPhase(s, t, Executing) && s.tasks[t].action.attempts > 0
    ensures Tables(Fail(s, t, now)) && Owners(Fail(s, t, now))
  {
    if LastTry(s.tasks[t].action) {
      EndTaskKeepsTables(s, t);
      EndedLeaves(s, t);
    }
  }

  lemma QueuedAppend(q: seq<Action>, a: Action)
    ensures DistinctTargets(q) && !Queued(q, a.target) ==> DistinctTargets(q + [a])
    ensures forall name :: Queued(q + [a], name) <==> Queued(q, name) || name == a.target
  {
    forall name ensures Queued(q + [a], name) <==> Queued(q, name) || name == a.target {
      assert (q + [a])[|q|] == a;
      if Queued(q, name) {
        var i :| 0 <= i < |q| && q[i].target == name;
        assert (q + [a])[i].target == name;
      }
    }
  }

  lemma QueuedRest(q: seq<Action>)
    requires q != []
    ensures forall name :: Queued(q, name) <==> Queued(q[1..], name) || name == q[0].target
  {
    QueuedAppend([], q[0]);
    forall name ensures Queued(q, name) <==> Queued(q[1..], name) || name == q[0].target {
      if Queued(q, name) && name != q[0].target {
        var i :| 0 <= i < |q| && q[i].target == name;
        assert q[1..][i - 1].target == name;
      }
    }
  }

  lemma WakeKeepsTables(s: State, t: nat)
    requires Tables(s) && Owners(s) && t in s.tasks && s.tasks[t].phase.Backoff?
    ensures Tables(Requeue(s, t)) && Owners(Requeue(s, t))
  {
    EndTaskKeepsTables(s, t);
    EndedLeaves(s, t);
    QueuedAppend(s.queue, s.tasks[t].action);
  }

  lemma BeginKeepsTables(s: State, t: nat, now: int)
    requires Tables(s) && Owners(s) && InPhase(s, t, Created)
    ensures Tables(BeginAttempt(s, t, now)) && Owners(BeginAttempt(s, t, now))
  {
  }

  // Nothing is ever left for the sweep over finished tasks: a task takes its own entry
  // along when it ends.
  lemma SweepFindsNothing(s: State)
    requires Tables(s)
    ensures DropFinished(s) == s
  {
    assert DropFinished(s).active == s.active;
  }

  lemma DetectOneKeepsTables(s: State, name: string, now: int)
    requires Tables(s) && Owners(s)
    ensures Tables(DetectOne(s, name, now)) && Owners(DetectOne(s, name, now))
  {
    if name in s.services && NeedsRecovery(s.services[name], now) {
      assert !Queued(s.queue, name);
      QueuedAppend(s.queue, NewAction(name, s.services[name], now));
    }
  }

  lemma StartOneKeepsTables(s: State)
    requires Tables(s) && Owners(s) && s.queue != [] && |s.active| < MAX_CONCURRENT
    ensures Tables(StartOne(s)) && Owners(StartOne(s))
  {
    assert s.nextTask !in s.tasks && s.queue[0].target !in s.active;
    QueuedRest(s.queue);
  }

  /******* The books *******/

  // A step that leaves the record of a service alone: its attempts and its ownership do
  // not change, and its action is where it was or has just been handed to a task.
  ghost predicate Untouched(s: State, s': State, name: string)
    requires name in s.services && name in s'.services
  {
    var v, v' := s.services[name], s'.services[name];
    && v'.kind == v.kind && v'.recoveryAttempts == v.recoveryAttempts && v'.lastAttempt == v.lastAttempt
    && v'.inProgress == v.inProgress && (v.escalated ==> v'.escalated)
    && (forall a :: a in s'.queue && a.target == name ==> a in s.queue)
    && (forall t :: t in s'.tasks && s'.tasks[t].action.target == name ==>
          || (t in s.tasks && s'.tasks[t] == s.tasks[t])
          || (s'.tasks[t].phase == Created && s'.tasks[t].action in s.queue))
  }

  lemma UntouchedKeepsBooked(s: State, l: Ledger, s': State, l': Ledger, name: string)
    requires name in s.services && name in l.books && name in s'.services && name in l'.books
    requires Booked(s, l, name) && Untouched(s, s', name)
    requires l'.books[name] == l.books[name] && l.clock <= l'.clock
    ensures Booked(s', l', name)
  {
  }

  // Begin, success, failure and wake-up concern the service of one task only.
  predicate ForTask(s: State, e: Event) {
    (e.Begin? || e.Success? || e.Failure? || e.Wake?) && e.task in s.tasks
  }

  lemma OthersUntouched(s: State, e: Event, name: string)
    requires Enabled(s, e) && ForTask(s, e)
    requires name in s.services && name != s.tasks[e.task].action.target
    ensures name in Next(s, e).services && Untouched(s, Next(s, e), name)
  {
  }

  // If a step touches one service only, it is enough to look at that one.
  lemma TargetSuffices(s: State, l: Ledger, s': State, l': Ledger, target: string)
    requires Books(s, l) && l.clock <= l'.clock
    requires s'.services.Keys == s.services.Keys && l'.books.Keys == l.books.Keys
    requires forall name :: name in s.services && name != target ==>
      Untouched(s, s', name) && l'.books[name] == l.books[name]
    requires target in s'.services && Booked(s', l', target)
    ensures Books(s', l')
  {
    forall name | name in s'.services ensures Booked(s', l', name) {
      if name != target {
        UntouchedKeepsBooked(s, l, s', l', name);
      }
    }
  }

  lemma UntouchedKeepsBooks(s: State, l: Ledger, s': State, l': Ledger)
    requires Books(s, l) && Logs(s, l) && l.clock <= l'.clock && l'.books == l.books
    requires s'.services.Keys == s.services.Keys
    requires forall name :: name in s.services ==> Untouched(s, s', name)
    ensures Books(s', l') && Logs(s', l')
  {
    forall name | name in s'.services ensures Booked(s', l', name) {
      UntouchedKeepsBooked(s, l, s', l', name);
    }
  }

  // A task and its service: the action is nowhere else, and it carries on the books.
  ghost predicate InHand(s: State, l: Ledger, t: nat) {
    && t in s.tasks
    && var a := s.tasks[t].action;
       && a.target in s.services && a.target in l.books
       && s.services[a.target].inProgress
       && BookOk(s.services[a.target], l.books[a.target], l.clock)
       && TaskOk(s.tasks[t], s.services[a.target], l.books[a.target], l.clock)
       && LogOk(l.books[a.target].log, a.maxAttempts)
       && (forall x :: x in s.queue ==> x.target != a.target)
       && (forall u :: u in s.tasks && s.tasks[u].action.target == a.target ==> u == t)
  }

  lemma RunningInHand(s: State, l: Ledger, t: nat)
    requires Inv(s, l) && t in s.tasks
    ensures InHand(s, l, t)
  {
    EndedLeaves(s, t);
    assert Booked(s, l, s.tasks[t].action.target);
  }

  lemma ExtendLog(log: seq<Entry>, e: Entry, max: nat)
    requires LogOk(log, max)
    requires forall k :: 0 <= k < |log| ==> log[k].time <= e.time
    requires Follows(log + [e], |log|, max)
    ensures LogOk(log + [e], max)
  {
    forall k | 0 <= k < |log + [e]| ensures Follows(log + [e], k, max) {
      if k < |log| { assert Follows(log, k, max); }
    }
  }

  // Beginning an attempt extends the log of a service as the invariant demands.
  lemma BeginEntry(a: Action, v: Service, b: Book, clock: int, now: int)
    requires BookOk(v, b, clock) && CarriedBy(a, v, b) && ReadyAt(a, b, clock) && clock <= now
    requires v.inProgress && LogOk(b.log, a.maxAttempts)
    ensures
      var v' := v.(recoveryAttempts := v.recoveryAttempts + 1, lastAttempt := Some(now));
      var b' := b.(log := b.log + [Entry(now, a.attempts + 1)]);
      var a' := a.(attempts := a.attempts + 1, lastAttempt := Some(now));
      BookOk(v', b', now) && CarriedBy(a', v', b') && LogOk(b'.log, a.maxAttempts)
  {
    ExtendLog(b.log, Entry(now, a.attempts + 1), a.maxAttempts);
  }

  lemma BeginTarget(s: State, l: Ledger, t: nat, now: int)
    requires InHand(s, l, t) && InPhase(s, t, Created) && l.clock <= now
    ensures var name, l' := s.tasks[t].action.target, Record(s, l, Begin(t, now));
      && name in BeginAttempt(s, t, now).services && name in l'.books
      && Booked(BeginAttempt(s, t, now), l', name)
      && LogOk(l'.books[name].log, MaxAttemptsFor(s.services[name].kind))
  {
    var a := s.tasks[t].action;
    BeginEntry(a, s.services[a.target], l.books[a.target], l.clock, now);
  }

  lemma SuccessTarget(s: State, l: Ledger, t: nat)
    requires InHand(s, l, t) && InPhase(s, t, Executing)
    ensures var name, l' := s.tasks[t].action.target, Record(s, l, Success(t));
      && name in Succeed(s, t).services && name in l'.books
      && Booked(Succeed(s, t), l', name)
  {
    var a := s.tasks[t].action;
    var b := l.books[a.target];
    assert Budget(a.maxAttempts, b.successes + 1) == a.maxAttempts + Budget(a.maxAttempts, b.successes);
  }

  lemma FailureTarget(s: State, l: Ledger, t: nat, now: int)
    requires InHand(s, l, t) && InPhase(s, t, Executing) && s.tasks[t].action.attempts > 0 && l.clock <= now
    ensures var name, l' := s.tasks[t].action.target, Record(s, l, Failure(t, now));
      && name in Fail(s, t, now).services && name in l'.books
      && Booked(Fail(s, t, now), l', name)
  {
    var a := s.tasks[t].action;
    var b := l.books[a.target];
    assert Budget(a.maxAttempts, b.successes + 1) == a.maxAttempts + Budget(a.maxAttempts, b.successes);
  }

  lemma WakeTarget(s: State, l: Ledger, t: nat, now: int)
    requires InHand(s, l, t) && s.tasks[t].phase.Backoff? && s.tasks[t].phase.wakeAt <= now && l.clock <= now
    ensures var name, l' := s.tasks[t].action.target, Record(s, l, Wake(t, now));
      && name in Requeue(s, t).services && name in l'.books
      && Booked(Requeue(s, t), l', name)
  {
  }

  // The same for the service a detection pass queues.
  lemma DetectTarget(s: State, l: Ledger, name: string)
    requires name in s.services && name in l.books && NeedsRecovery(s.services[name], l.clock)
    requires Booked(s, l, name)
    requires (forall x :: x in s.queue ==> x.target != name)
    requires (forall u :: u in s.tasks ==> s.tasks[u].action.target != name)
    ensures name in DetectOne(s, name, l.clock).services && Booked(DetectOne(s, name, l.clock), l, name)
  {
  }

  lemma IdleNowhere(s: State, name: string)
    requires Tables(s) && Owners(s) && name in s.services && !s.services[name].inProgress
    ensures (forall x :: x in s.queue ==> x.target != name)
    ensures (forall u :: u in s.tasks ==> s.tasks[u].action.target != name)
  {
    assert !Queued(s.queue, name);
  }

  lemma DetectUntouched(s: State, name: string, now: int)
    requires name in s.services
    ensures DetectOne(s, name, now).services.Keys == s.services.Keys
    ensures forall other :: other in s.services ==>
      DetectOne(s, name, now).services[other].kind == s.services[other].kind
    ensures forall other :: other in s.services && other != name ==> Untouched(s, DetectOne(s, name, now), other)
  {
  }

  lemma DetectOneKeeps(s: State, l: Ledger, name: string)
    requires Inv(s, l)
    ensures Inv(DetectOne(s, name, l.clock), l)
  {
    if name in s.services && NeedsRecovery(s.services[name], l.clock) {
      DetectOneKeepsTables(s, name, l.clock);
      IdleNowhere(s, name);
      assert Booked(s, l, name);
      DetectTarget(s, l, name);
      DetectUntouched(s, name, l.clock);
      TargetSuffices(s, l, DetectOne(s, name, l.clock), l, name);
    }
  }

  // What looking at any one service keeps, looking at all of them keeps.
  lemma {:induction false} DetectInduction(s: State, n: nat, now: int, p: State -> bool)
    requires n <= |s.order| && p(s)
    requires forall s1, name :: p(s1) ==> p(DetectOne(s1, name, now))
    ensures p(DetectFirst(s, n, now))
    decreases n
  {
    if n > 0 { DetectInduction(s, n - 1, now, p); }
  }

  lemma DetectKeepsTables(s: State, now: int)
    requires Tables(s) && Owners(s)
    ensures Tables(Detect(s, now)) && Owners(Detect(s, now))
  {
    forall s1, name | Tables(s1) && Owners(s1)
      ensures Tables(DetectOne(s1, name, now)) && Owners(DetectOne(s1, name, now))
    {
      DetectOneKeepsTables(s1, name, now);
    }
    DetectInduction(s, |s.order|, now, s1 => Tables(s1) && Owners(s1));
  }

  /******* The queue pass *******/

  lemma {:induction false} InsertDistinct(a: Action, q: seq<Action>)
    requires DistinctTargets(q) && forall x :: x in q ==> x.target != a.target
    ensures DistinctTargets(Insert(a, q))
    ensures forall x :: x in Insert(a, q) <==> x == a || x in q
  {
    if q != [] && Rank(a.priority) > Rank(q[0].priority) {
      InsertDistinct(a, q[1..]);
      assert forall x :: x in q[1..] ==> x.target != q[0].target;
    }
  }

  lemma {:induction false} SortDistinct(q: seq<Action>)
    requires DistinctTargets(q)
    ensures DistinctTargets(StableSort(q))
    ensures forall x :: x in StableSort(q) <==> x in q
  {
    if q != [] {
      SortDistinct(q[1..]);
      assert forall x :: x in q[1..] ==> x.target != q[0].target;
      InsertDistinct(q[0], StableSort(q[1..]));
    }
  }

  lemma QueuedIsMembership(q: seq<Action>, name: string)
    ensures Queued(q, name) <==> exists x :: x in q && x.target == name
  {
  }

  lemma SortKeepsTables(s: State)
    requires Tables(s) && Owners(s)
    ensures Tables(s.(queue := StableSort(s.queue))) && Owners(s.(queue := StableSort(s.queue)))
  {
    var s' := s.(queue := StableSort(s.queue));
    SortDistinct(s.queue);
    forall name ensures Queued(s'.queue, name) <==> Queued(s.queue, name) {
      QueuedIsMembership(s.queue, name);
      QueuedIsMembership(s'.queue, name);
    }
    assert forall x :: x in s.queue ==> x.target in s.services && x.target !in s.active;
  }

  lemma SortKeeps(s: State, l: Ledger)
    requires Inv(s, l)
    ensures Inv(s.(queue := StableSort(s.queue)), l)
  {
    SortKeepsTables(s);
    SortDistinct(s.queue);
    UntouchedKeepsBooks(s, l, s.(queue := StableSort(s.queue)), l);
  }

  lemma StartOneTouchesNone(s: State, name: string)
    requires s.queue != [] && name in s.services
    ensures Untouched(s, StartOne(s), name)
  {
  }

  lemma StartOneKeeps(s: State, l: Ledger)
    requires Inv(s, l) && s.queue != [] && |s.active| < MAX_CONCURRENT
    ensures Inv(StartOne(s), l)
  {
    StartOneKeepsTables(s);
    forall name | name in s.services ensures Untouched(s, StartOne(s), name) {
      StartOneTouchesNone(s, name);
    }
    UntouchedKeepsBooks(s, l, StartOne(s), l);
  }

  lemma {:induction false} StartWhileFreeKeeps(s: State, l: Ledger)
    requires Inv(s, l)
    ensures Inv(StartWhileFree(s), l)
    decreases |s.queue|
  {
    if |s.active| < MAX_CONCURRENT && s.queue != [] {
      StartOneKeeps(s, l);
      StartWhileFreeKeeps(StartOne(s), l);
    }
  }

  /******* Every step, every run *******/

  lemma TaskEventTables(s: State, e: Event)
    requires Tables(s) && Owners(s) && Enabled(s, e) && ForTask(s, e)
    ensures Tables(Next(s, e)) && Owners(Next(s, e))
  {
    match e
    case Begin(t, now) => BeginKeepsTables(s, t, now);
    case Success(t) => SuccessKeepsTables(s, t);
    case Failure(t, now) => FailureKeepsTables(s, t, now);
    case Wake(t, now) => WakeKeepsTables(s, t);
  }

  lemma TaskEventTarget(s: State, l: Ledger, e: Event)
    requires Enabled(s, e) && ForTask(s, e) && InHand(s, l, e.task) && l.clock <= TimeOf(e, l.clock)
    ensures var target := s.tasks[e.task].action.target;
      && target in Next(s, e).services && target in Record(s, l, e).books
      && Booked(Next(s, e), Record(s, l, e), target)
      && LogOk(Record(s, l, e).books[target].log, MaxAttemptsFor(s.services[target].kind))
  {
    match e
    case Begin(t, now) => BeginTarget(s, l, t, now);
    case Success(t) => SuccessTarget(s, l, t);
    case Failure(t, now) => FailureTarget(s, l, t, now);
    case Wake(t, now) => WakeTarget(s, l, t, now);
  }

  lemma TaskEventFrame(s: State, l: Ledger, e: Event)
    requires Enabled(s, e) && ForTask(s, e) && s.services.Keys == l.books.Keys
    requires s.tasks[e.task].action.target in s.services
    ensures Next(s, e).services.Keys == s.services.Keys && Record(s, l, e).books.Keys == l.books.Keys
    ensures forall name :: name in s.services && name != s.tasks[e.task].action.target ==>
      Untouched(s, Next(s, e), name) && Record(s, l, e).books[name] == l.books[name]
    ensures forall name :: name in s.services ==> Next(s, e).services[name].kind == s.services[name].kind
  {
    forall name | name in s.services && name != s.tasks[e.task].action.target
      ensures Untouched(s, Next(s, e), name)
    {
      OthersUntouched(s, e, name);
    }
  }

  lemma TargetLogSuffices(s: State, l: Ledger, s': State, l': Ledger, target: string)
    requires Logs(s, l)
    requires s'.services.Keys == s.services.Keys && l'.books.Keys == l.books.Keys
    requires forall name :: name in s.services ==> s'.services[name].kind == s.services[name].kind
    requires forall name :: name in s.services && name != target ==> l'.books[name] == l.books[name]
    requires target in s.services && LogOk(l'.books[target].log, MaxAttemptsFor(s.services[target].kind))
    ensures Logs(s', l')
  {
  }

  lemma TaskEventStep(s: State, l: Ledger, e: Event)
    requires Inv(s, l) && Enabled(s, e) && ForTask(s, e) && l.clock <= TimeOf(e, l.clock)
    ensures Inv(Next(s, e), Record(s, l, e))
  {
    RunningInHand(s, l, e.task);
    TaskEventTables(s, e);
    TaskEventTarget(s, l, e);
    TaskEventFrame(s, l, e);
    TargetSuffices(s, l, Next(s, e), Record(s, l, e), s.tasks[e.task].action.target);
    TargetLogSuffices(s, l, Next(s, e), Record(s, l, e), s.tasks[e.task].action.target);
  }

  lemma PassKeeps(s: State, l: Ledger)
    requires Inv(s, l)
    ensures Inv(ProcessQueue(s), l)
  {
    if s.queue != [] {
      SortKeeps(s, l);
      StartWhileFreeKeeps(s.(queue := StableSort(s.queue)), l);
    }
  }

  lemma DetectKeeps(s: State, l: Ledger, now: int)
    requires Inv(s, l) && l.clock <= now
    ensures Inv(Detect(s, now), l.(clock := now))
  {
    var l1 := l.(clock := now);
    UntouchedKeepsBooks(s, l, s, l1);
    forall s1, name | Inv(s1, l1) ensures Inv(DetectOne(s1, name, now), l1) {
      DetectOneKeeps(s1, l1, name);
    }
    DetectInduction(s, |s.order|, now, s1 => Inv(s1, l1));
  }

  // A step that writes nothing of one service but its health, failure count and flags.
  ghost predicate Quiet(s: State, s': State) {
    && s'.(services := s.services, history := s.history) == s
    && s'.services.Keys == s.services.Keys
    && forall name :: name in s.services ==> QuietChange(s.services[name], s'.services[name])
  }

  // The same of one service.
  predicate QuietChange(v: Service, v': Service) {
    && v' == v.(healthy := v'.healthy, failureCount := v'.failureCount,
                degraded := v'.degraded, escalated := v'.escalated)
    && (v.escalated ==> v'.escalated)
  }

  lemma EffectIsQuiet(s: State, t: nat)
    requires InPhase(s, t, Executing)
    ensures Quiet(s, RecoveryEffect(s, t))
  {
    assert forall v, strategy :: QuietChange(v, Affected(v, strategy));
  }

  lemma QuietEvents(s: State, e: Event)
    requires Enabled(s, e) && (e.Health? || e.Effect? || e.CleanOld?)
    ensures Quiet(s, Next(s, e))
  {
    if e.Effect? { EffectIsQuiet(s, e.task); }
  }

  lemma QuietKeepsTables(s: State, s': State)
    requires Tables(s) && Owners(s) && Quiet(s, s')
    ensures Tables(s') && Owners(s')
  {
    assert s'.queue == s.queue && s'.tasks == s.tasks && s'.active == s.active && s'.nextTask == s.nextTask;
  }

  lemma QuietKeeps(s: State, l: Ledger, s': State, l': Ledger)
    requires Inv(s, l) && Quiet(s, s') && l.clock <= l'.clock && l'.books == l.books
    ensures Inv(s', l')
  {
    QuietKeepsTables(s, s');
    forall name | name in s.services ensures Untouched(s, s', name) {
      assert s'.queue == s.queue && s'.tasks == s.tasks;
    }
    UntouchedKeepsBooks(s, l, s', l');
  }

  lemma StepKeeps(s: State, l: Ledger, e: Event)
    requires Inv(s, l) && Enabled(s, e) && l.clock <= TimeOf(e, l.clock)
    ensures Inv(Next(s, e), Record(s, l, e))
  {
    if e.DetectPass? {
      DetectKeeps(s, l, e.now);
    } else if e.QueuePass? {
      PassKeeps(s, l);
    } else if e.CleanTasks? {
      SweepFindsNothing(s);
    } else if ForTask(s, e) {
      TaskEventStep(s, l, e);
    } else {
      QuietEvents(s, e);
      QuietKeeps(s, l, Next(s, e), Record(s, l, e));
    }
  }

  lemma {:induction false} RunKeeps(s: State, l: Ledger, es: seq<Event>)
    requires Inv(s, l) && ValidRun(s, l, es)
    ensures var (s', l') := After(s, l, es); Inv(s', l')
    decreases |es|
  {
    if es != [] {
      StepKeeps(s, l, es[0]);
      RunKeeps(Next(s, es[0]), Record(s, l, es[0]), es[1..]);
    }
  }

  // What some interleaved run from a fresh manager leads to.
  ghost predicate Reachable(s: State, l: Ledger) {
    exists start: State, now: int, es: seq<Event> ::
      Initial(start) && ValidRun(start, EmptyLedger(start, now), es)
        && After(start, EmptyLedger(start, now), es) == (s, l)
  }

  lemma ReachableInv(s: State, l: Ledger)
    requires Reachable(s, l)
    ensures Inv(s, l)
  {
    var start: State, now: int, es: seq<Event> :|
      Initial(start) && ValidRun(start, EmptyLedger(start, now), es)
        && After(start, EmptyLedger(start, now), es) == (s, l);
    InitialInv(start, now);
    RunKeeps(start, EmptyLedger(start, now), es);
  }

  /******* What the invariant means *******/

  // Places where an action for a service is: in the queue, or in the hands of a task.
  function QueuePlaces(s: State, name: string): set<nat> {
    set i: nat | i < |s.queue| && s.queue[i].target == name
  }

  function TaskPlaces(s: State, name: string): set<nat> {
    set t | t in s.tasks && s.tasks[t].action.target == name
  }

  lemma SingletonSize(places: set<nat>, x: nat)
    requires x in places && forall y :: y in places ==> y == x
    ensures |places| == 1
  {
    assert places == {x};
  }

  lemma PlacesOf(s: State, name: string)
    requires Tables(s) && Owners(s)
    ensures |QueuePlaces(s, name)| == (if Queued(s.queue, name) then 1 else 0)
    ensures |TaskPlaces(s, name)| == (if name in s.active then 1 else 0)
    ensures !(Queued(s.queue, name) && name in s.active)
  {
    if Queued(s.queue, name) {
      var i :| 0 <= i < |s.queue| && s.queue[i].target == name;
      SingletonSize(QueuePlaces(s, name), i);
    } else {
      assert QueuePlaces(s, name) == {};
    }
    if name in s.active {
      SingletonSize(TaskPlaces(s, name), s.active[name]);
    } else {
      assert TaskPlaces(s, name) == {};
    }
  }

  // On every interleaved run from a fresh manager: a service is marked as being
  // recovered exactly when one action for it is queued or running, no service is
  // recovered twice at once, at most three tasks run, `active` counts them, and every
  // queued action has attempts left.
  lemma SingleOwner(s: State, l: Ledger)
    requires Reachable(s, l)
    ensures forall name :: name in s.services ==>
      |QueuePlaces(s, name)| + |TaskPlaces(s, name)| == (if s.services[name].inProgress then 1 else 0)
    ensures |s.tasks| == |s.active| <= 3
    ensures forall a :: a in s.queue ==> a.attempts < a.maxAttempts
  {
    ReachableInv(s, l);
    forall name | name in s.services
      ensures |QueuePlaces(s, name)| + |TaskPlaces(s, name)| == (if s.services[name].inProgress then 1 else 0)
    {
      PlacesOf(s, name);
    }
    forall a | a in s.queue ensures a.attempts < a.maxAttempts {
      assert Booked(s, l, a.target);
    }
  }

  lemma {:induction false} BudgetIsProduct(max: nat, n: nat)
    ensures Budget(max, n) == max * n
  {
    if n > 0 { BudgetIsProduct(max, n - 1); }
  }

  lemma InProgressSomewhere(s: State, name: string)
    requires Tables(s) && Owners(s) && name in s.services && s.services[name].inProgress
    ensures (exists a :: a in s.queue && a.target == name) ||
            (exists t :: t in s.tasks && s.tasks[t].action.target == name)
  {
    if Queued(s.queue, name) {
      QueuedIsMembership(s.queue, name);
    } else {
      assert s.tasks[s.active[name]].action.target == name;
    }
  }

  lemma BookedWithinBudget(s: State, l: Ledger, name: string)
    requires name in s.services && name in l.books && Booked(s, l, name)
    requires s.services[name].inProgress ==>
      (exists a :: a in s.queue && a.target == name) || (exists t :: t in s.tasks && s.tasks[t].action.target == name)
    ensures |l.books[name].log| <= MaxAttemptsFor(s.services[name].kind) * (l.books[name].successes + 1)
    ensures s.services[name].recoveryAttempts == |l.books[name].log|
  {
    var max, b := MaxAttemptsFor(s.services[name].kind), l.books[name];
    BudgetIsProduct(max, b.successes + 1);
    assert Budget(max, b.successes + 1) == max + Budget(max, b.successes);
    if s.services[name].inProgress && exists a :: a in s.queue && a.target == name {
      var a :| a in s.queue && a.target == name;
    } else if s.services[name].inProgress {
      var t :| t in s.tasks && s.tasks[t].action.target == name;
      assert TaskOk(s.tasks[t], s.services[name], b, l.clock);
    }
  }

  lemma InvWithinBudget(s: State, l: Ledger, name: string)
    requires Inv(s, l) && name in s.services
    ensures name in l.books && s.services[name].recoveryAttempts == |l.books[name].log|
    ensures |l.books[name].log| <= MaxAttemptsFor(s.services[name].kind) * (l.books[name].successes + 1)
  {
    if s.services[name].inProgress { InProgressSomewhere(s, name); }
    assert Booked(s, l, name);
    BookedWithinBudget(s, l, name);
  }

  // Attempts on a service never outnumber max_attempts for each success and once more.
  lemma AttemptsBounded(s: State, l: Ledger, name: string)
    requires Reachable(s, l) && name in s.services
    ensures name in l.books && s.services[name].recoveryAttempts == |l.books[name].log|
    ensures |l.books[name].log| <= MaxAttemptsFor(s.services[name].kind) * (l.books[name].successes + 1)
  {
    ReachableInv(s, l);
    InvWithinBudget(s, l, name);
  }

  // The entry that opened the action of entry k, and all ordinals up to it.
  lemma {:induction false} ChainStart(log: seq<Entry>, max: nat, k: nat)
    requires LogOk(log, max) && k < |log|
    ensures 1 <= log[k].ordinal <= k + 1
    ensures log[k + 1 - log[k].ordinal].ordinal == 1
  {
    assert Follows(log, k, max);
    if log[k].ordinal > 1 {
      ChainStart(log, max, k - 1);
    }
  }

  // Attempts less than five minutes apart number at most max_attempts + 2.
  lemma WindowBounded(log: seq<Entry>, max: nat, i: nat, j: nat)
    requires LogOk(log, max) && i <= j < |log|
    requires log[j].time - log[i].time < COOL_DOWN
    ensures j - i + 1 <= max + 2
  {
    assert Follows(log, j, max);
    ChainStart(log, max, j);
    var start := j + 1 - log[j].ordinal;
    assert Follows(log, start, max);
    assert i < start ==> log[i].time <= log[start - 1].time;
    assert start < j ==> log[start].time <= log[j].time;
  }

  lemma BurstBounded(log: seq<Entry>, max: nat, i: nat, j: nat)
    requires LogOk(log, max) && i <= j < |log|
    ensures log[j].time - log[i].time < COOL_DOWN ==> j - i + 1 <= max + 2
    ensures log[j].ordinal > 1 ==> j > 0 && log[j].time - log[j - 1].time >= BackoffAfter(log[j].ordinal - 1)
  {
    assert Follows(log, j, max);
    if log[j].time - log[i].time < COOL_DOWN {
      WindowBounded(log, max, i, j);
    }
  }

  lemma ReachableLog(s: State, l: Ledger, name: string)
    requires Reachable(s, l) && name in s.services
    ensures name in l.books && LogOk(l.books[name].log, MaxAttemptsFor(s.services[name].kind))
  {
    ReachableInv(s, l);
  }

  // On every run, attempts on a service come in bounded bursts, and a retry waits for
  // the backoff of the attempt before it.
  lemma BurstsBounded(s: State, l: Ledger, name: string, i: nat, j: nat)
    requires Reachable(s, l) && name in s.services && name in l.books && i <= j < |l.books[name].log|
    ensures var log, max := l.books[name].log, MaxAttemptsFor(s.services[name].kind);
      && (log[j].time - log[i].time < COOL_DOWN ==> j - i + 1 <= max + 2)
      && (log[j].ordinal > 1 ==> j > 0 && log[j].time - log[j - 1].time >= BackoffAfter(log[j].ordinal - 1))
  {
    ReachableLog(s, l, name);
    BurstBounded(l.books[name].log, MaxAttemptsFor(s.services[name].kind), i, j);
  }

  /******* A service given up stays given up *******/

  ghost predicate GivenUp(s: State, name: string) {
    name in s.services && s.services[name].escalated && !s.services[name].inProgress
  }

  lemma {:induction false} DetectLeaves(s: State, n: nat, now: int, name: string)
    requires GivenUp(s, name) && n <= |s.order|
    ensures GivenUp(DetectFirst(s, n, now), name)
    ensures DetectFirst(s, n, now).services[name] == s.services[name]
  {
    if n > 0 { DetectLeaves(s, n - 1, now, name); }
  }

  lemma {:induction false} StartLeaves(s: State)
    ensures StartWhileFree(s).services == s.services
    decreases |s.queue|
  {
    if |s.active| < MAX_CONCURRENT && s.queue != [] { StartLeaves(StartOne(s)); }
  }

  lemma GivenUpStep(s: State, e: Event, name: string)
    requires Tables(s) && Owners(s) && Enabled(s, e) && GivenUp(s, name)
    ensures GivenUp(Next(s, e), name)
    ensures Next(s, e).services[name].recoveryAttempts == s.services[name].recoveryAttempts
  {
    if e.DetectPass? {
      DetectLeaves(s, |s.order|, e.now, name);
    } else if e.QueuePass? {
      StartLeaves(s.(queue := StableSort(s.queue)));
    } else if ForTask(s, e) {
      IdleNowhere(s, name);
      OthersUntouched(s, e, name);
    } else if !e.CleanTasks? {
      QuietEvents(s, e);
    }
  }

  // After its attempts ran out, or its recovery escalated it, no run ever tries a
  // service again.
  lemma {:induction false} GivenUpForGood(s: State, l: Ledger, es: seq<Event>, name: string)
    requires Inv(s, l) && ValidRun(s, l, es) && GivenUp(s, name)
    ensures var s' := After(s, l, es).0;
      GivenUp(s', name) && s'.services[name].recoveryAttempts == s.services[name].recoveryAttempts
    decreases |es|
  {
    if es != [] {
      StepKeeps(s, l, es[0]);
      GivenUpStep(s, es[0], name);
      GivenUpForGood(Next(s, es[0]), Record(s, l, es[0]), es[1..], name);
    }
  }

  /******* What one queue pass does *******/

  lemma OneStarted(s: State)
    requires Tables(s) && Owners(s) && s.queue != [] && |s.active| < MAX_CONCURRENT
    ensures s.nextTask !in s.tasks && s.queue[0].target !in s.active
    ensures FreeToStart(StartOne(s)) == FreeToStart(s) - 1
  {
    assert |StartOne(s).active| == |s.active| + 1 && |StartOne(s).queue| == |s.queue| - 1;
  }

  // The first k queued actions were handed to fresh tasks, in queue order.
  ghost predicate StartedFirst(s: State, s': State, k: nat) {
    && k <= |s.queue|
    && s' == s.(queue := s.queue[k..], tasks := s'.tasks, active := s'.active, nextTask := s.nextTask + k)
    && (forall t :: t in s'.tasks <==> t in s.tasks || s.nextTask <= t < s.nextTask + k)
    && (forall t :: t in s.tasks ==> s'.tasks[t] == s.tasks[t])
    && (forall i :: 0 <= i < k ==> s'.tasks[s.nextTask + i] == Task(s.queue[i], Created))
    && (forall i :: 0 <= i < k ==> s.queue[i].target in s'.active && s'.active[s.queue[i].target] == s.nextTask + i)
    && (forall name :: name in s.active ==> name in s'.active && s'.active[name] == s.active[name])
  }

  lemma StartedNone(s: State)
    ensures StartedFirst(s, s, 0)
  {
    assert s.queue[0..] == s.queue;
  }

  function FreeToStart(s: State): int {
    Min(MAX_CONCURRENT - |s.active|, |s.queue|)
  }

  lemma {:induction false} StartedWhileFree(s: State)
    requires Tables(s) && Owners(s)
    ensures StartedFirst(s, StartWhileFree(s), FreeToStart(s))
    decreases |s.queue|
  {
    if |s.active| >= MAX_CONCURRENT || s.queue == [] {
      StartedNone(s);
    } else {
      OneStarted(s);
      StartOneKeepsTables(s);
      StartedWhileFree(StartOne(s));
      StartedMore(s);
    }
  }

  lemma StartedMore(s: State)
    requires |s.active| < MAX_CONCURRENT && s.queue != []
    requires s.nextTask !in s.tasks && s.queue[0].target !in s.active
    requires FreeToStart(StartOne(s)) == FreeToStart(s) - 1
    requires StartedFirst(StartOne(s), StartWhileFree(StartOne(s)), FreeToStart(StartOne(s)))
    ensures StartedFirst(s, StartWhileFree(s), FreeToStart(s))
  {
    StartedJoin(s, StartOne(s), StartWhileFree(StartOne(s)), FreeToStart(s) - 1);
  }

  lemma StartedJoin(s: State, s1: State, s2: State, k: nat)
    requires s.queue != [] && s1 == StartOne(s) && StartedFirst(s1, s2, k)
    requires s.nextTask !in s.tasks && s.queue[0].target !in s.active
    ensures StartedFirst(s, s2, k + 1)
  {
    assert s1.queue[k..] == s.queue[k + 1..];
    assert forall i :: 0 < i < k + 1 ==> s1.queue[i - 1] == s.queue[i];
    forall i | 0 < i < k + 1 ensures s2.tasks[s.nextTask + i] == Task(s.queue[i], Created) {
      assert s2.tasks[s1.nextTask + (i - 1)] == Task(s1.queue[i - 1], Created);
    }
    forall i | 0 < i < k + 1
      ensures s.queue[i].target in s2.active && s2.active[s.queue[i].target] == s.nextTask + i
    {
      assert s2.active[s1.queue[i - 1].target] == s1.nextTask + (i - 1);
    }
  }

  lemma {:induction false} SplitOrders(q: seq<Action>, k: nat, p: Priority)
    requires k <= |q|
    ensures OfPriority(q[..k], p) + OfPriority(q[k..], p) == OfPriority(q, p)
  {
    if k == 0 {
      assert q[..0] == [] && q[0..] == q;
    } else {
      SplitOrders(q[1..], k - 1, p);
      assert q[..k][1..] == q[1..][..k - 1] && q[1..][k - 1..] == q[k..];
    }
  }

  // Taking k actions off a sorted queue leaves nothing more urgent behind, loses and
  // repeats nothing, and takes the earliest of each priority.
  lemma SplitSorted(queue: seq<Action>, k: nat)
    requires k <= |StableSort(queue)|
    ensures var q := StableSort(queue);
      && (forall i, j :: 0 <= i < k <= j < |q| ==> Rank(q[i].priority) <= Rank(q[j].priority))
      && multiset(q[..k]) + multiset(q[k..]) == multiset(queue)
      && (forall p :: OfPriority(q[..k], p) + OfPriority(q[k..], p) == OfPriority(queue, p))
  {
    var q := StableSort(queue);
    SortIsStable(queue);
    assert q == q[..k] + q[k..];
    forall p ensures OfPriority(q[..k], p) + OfPriority(q[k..], p) == OfPriority(queue, p) {
      SplitOrders(q, k, p);
    }
  }

  lemma PassStartsFirst(s: State)
    requires Tables(s) && Owners(s)
    ensures StartedFirst(s.(queue := StableSort(s.queue)), ProcessQueue(s), FreeToStart(s))
    ensures 0 <= FreeToStart(s) <= |s.queue| == |StableSort(s.queue)|
  {
    SortIsStable(s.queue);
    assert |StableSort(s.queue)| == |multiset(s.queue)| == |s.queue|;
    SortKeepsTables(s);
    StartedWhileFree(s.(queue := StableSort(s.queue)));
  }

  // One queue pass starts min(free slots, queue length) actions. None of them is less
  // urgent than one left behind; together they are the queue, and within each priority
  // the started ones come first, in arrival order.
  lemma QueuePassStartsMostUrgent(s: State)
    requires Tables(s) && Owners(s)
    ensures var q, k := StableSort(s.queue), FreeToStart(s);
      && 0 <= k <= |q|
      && StartedFirst(s.(queue := q), ProcessQueue(s), k)
      && (forall i, j :: 0 <= i < k <= j < |q| ==> Rank(q[i].priority) <= Rank(q[j].priority))
      && multiset(q[..k]) + multiset(q[k..]) == multiset(s.queue)
      && (forall p :: OfPriority(q[..k], p) + OfPriority(q[k..], p) == OfPriority(s.queue, p))
  {
    PassStartsFirst(s);
    SplitSorted(s.queue, FreeToStart(s));
  }
}
