/** The per-user critical section built from chained promises (src/utils/userLock.ts), at the grain of its
    synchronous segments: the call up to its await, the start of the section, and the release. */
module UserLock {
  import opened Prelude

  datatype Phase = Waiting | Inside | Released

  /** One call that had to queue: whose lock it wants, the call whose tail it awaits (none when the lock was
      free), and the section it was made from. Calls are numbered in arrival order. */
  datatype Ticket = Ticket(user: int, prev: Option<nat>, context: Option<nat>, phase: Phase)

  /** All calls so far, and the tails map: the newest call of every user who has one pending. */
  datatype Lock = Lock(tickets: seq<Ticket>, tails: map<int, nat>)

  const FREE: Lock := Lock([], map[])

  predicate Is(l: Lock, i: nat, phase: Phase) {
    i < |l.tickets| && l.tickets[i].phase == phase
  }

  /** The tail of call i is prev.then(() => mine): resolved once it and everything it chains to is released. */
  predicate TailDone(l: Lock, i: nat)
    decreases i
  {
    Is(l, i, Released) &&
    match l.tickets[i].prev
    case None => true
    case Some(p) => p < i && TailDone(l, p)
  }

  predicate CanEnter(l: Lock, i: nat) {
    Is(l, i, Waiting) && (l.tickets[i].prev.Some? ==> TailDone(l, l.tickets[i].prev.value))
  }

  /** The users whose locks a section holds: its own and those of the sections around it. */
  function Held(l: Lock, context: Option<nat>): set<int>
    decreases if context.Some? then context.value + 1 else 0
  {
    match context
    case None => {}
    case Some(i) =>
      if i >= |l.tickets| then {}
      else
        var t := l.tickets[i];
        {t.user} + if t.context.Some? && t.context.value < i then Held(l, t.context) else {}
  }

  datatype Event = Call(user: int, context: Option<nat>) | Enter(i: nat) | Leave(i: nat)

  /** Calls made from i that have not finished. */
  predicate HasPending(l: Lock, i: nat) {
    exists j :: 0 <= j < |l.tickets| && l.tickets[j].context == Some(i) && l.tickets[j].phase != Released
  }

  /** What can happen next. A call is made outside any section or from one that is running; a section ends only
      when the calls it made have ended, since it awaits them. */
  ghost predicate Enabled(l: Lock, e: Event) {
    match e
    case Call(_, context) => context.Some? ==> Is(l, context.value, Inside)
    case Enter(i) => CanEnter(l, i)
    case Leave(i) => Is(l, i, Inside) && !HasPending(l, i)
  }

  function Arrive(l: Lock, user: int, context: Option<nat>): Lock {
    var prev := if user in l.tails then Some(l.tails[user]) else None;
    Lock(l.tickets + [Ticket(user, prev, context, Waiting)], l.tails[user := |l.tickets|])
  }

  function WithPhase(l: Lock, i: nat, phase: Phase): Lock
    requires i < |l.tickets|
  {
    l.(tickets := l.tickets[i := l.tickets[i].(phase := phase)])
  }

  function Release(l: Lock, i: nat): Lock
    requires i < |l.tickets|
  {
    var user := l.tickets[i].user;
    WithPhase(l, i, Released)
      .(tails := if user in l.tails && l.tails[user] == i then l.tails - {user} else l.tails)
  }

  /** A call by code that already holds the user's lock runs straight through and leaves no trace. */
  function Step(l: Lock, e: Event): Lock {
    match e
    case Call(user, context) => if user in Held(l, context) then l else Arrive(l, user, context)
    case Enter(i) => if i < |l.tickets| then WithPhase(l, i, Inside) else l
    case Leave(i) => if i < |l.tickets| then Release(l, i) else l
  }

  ghost predicate IsRun(es: seq<Event>)
    decreases |es|
  {
    |es| == 0 || (IsRun(es[..|es| - 1]) && Enabled(Run(es[..|es| - 1]), es[|es| - 1]))
  }

  ghost function Run(es: seq<Event>): Lock
    decreases |es|
  {
    if |es| == 0 then FREE else Step(Run(es[..|es| - 1]), es[|es| - 1])
  }

  // ---- The invariant ----

  /** Every earlier call of the same user has released. */
  ghost predicate IsFirst(l: Lock, i: nat)
    requires i < |l.tickets|
  {
    forall j :: 0 <= j < i && l.tickets[j].user == l.tickets[i].user ==> l.tickets[j].phase == Released
  }

  /** A call awaits the call of its user just before it, unless all of those had released. */
  ghost predicate Chained(l: Lock, i: nat)
    requires i < |l.tickets|
  {
    var t := l.tickets[i];
    match t.prev
    case None => IsFirst(l, i)
    case Some(p) =>
      && p < i && l.tickets[p].user == t.user
      && forall j :: p < j < i ==> l.tickets[j].user != t.user
  }

  predicate Nested(l: Lock, i: nat)
    requires i < |l.tickets|
  {
    var t := l.tickets[i];
    t.context.Some? ==>
      && t.context.value < i
      && t.user !in Held(l, t.context)
      && (t.phase != Released ==> Is(l, t.context.value, Inside))
  }

  ghost predicate TailsOk(l: Lock) {
    && (forall u :: u in l.tails ==>
          && l.tails[u] < |l.tickets| && l.tickets[l.tails[u]].user == u && l.tickets[l.tails[u]].phase != Released
          && forall j :: l.tails[u] < j < |l.tickets| ==> l.tickets[j].user != u)
    && (forall i :: 0 <= i < |l.tickets| && l.tickets[i].phase != Released ==> l.tickets[i].user in l.tails)
  }

  ghost predicate AllChained(l: Lock) {
    forall i :: 0 <= i < |l.tickets| ==> Chained(l, i)
  }

  /** Only a call with none before it has entered. */
  ghost predicate InOrder(l: Lock) {
    forall i :: 0 <= i < |l.tickets| && l.tickets[i].phase != Waiting ==> IsFirst(l, i)
  }

  ghost predicate AllNested(l: Lock) {
    forall i :: 0 <= i < |l.tickets| ==> Nested(l, i)
  }

  ghost predicate Inv(l: Lock) {
    AllChained(l) && InOrder(l) && AllNested(l) && TailsOk(l)
  }

  /** The tail of a call is resolved exactly when the call and all before it of its user have released. */
  lemma {:induction false} TailMeansReleased(l: Lock, i: nat)
    requires AllChained(l) && i < |l.tickets|
    ensures TailDone(l, i) <==> l.tickets[i].phase == Released && IsFirst(l, i)
    decreases i
  {
    assert Chained(l, i);
    match l.tickets[i].prev
    case None =>
    case Some(p) => TailMeansReleased(l, p);
  }

  /** A call can enter exactly when none of its user's before it is unreleased. */
  lemma EnterMeansFirst(l: Lock, i: nat)
    requires Inv(l) && Is(l, i, Waiting)
    ensures CanEnter(l, i) <==> IsFirst(l, i)
  {
    assert Chained(l, i);
    match l.tickets[i].prev
    case None =>
    case Some(p) =>
      TailMeansReleased(l, p);
      assert l.tickets[p].phase != Released ==> !IsFirst(l, i);
  }

  // ---- Every step keeps it ----

  /** The sections around a call do not depend on later calls or on phases. */
  lemma {:induction false} HeldStays(l: Lock, l': Lock, context: Option<nat>)
    requires |l.tickets| <= |l'.tickets| && (context.Some? ==> context.value < |l.tickets|)
    requires forall i :: 0 <= i < |l.tickets| ==>
               l'.tickets[i].user == l.tickets[i].user && l'.tickets[i].context == l.tickets[i].context
    ensures Held(l', context) == Held(l, context)
    decreases if context.Some? then context.value + 1 else 0
  {
    if context.Some? && l.tickets[context.value].context.Some? && l.tickets[context.value].context.value < context.value {
      HeldStays(l, l', l.tickets[context.value].context);
    }
  }

  lemma ArriveKeeps(l: Lock, user: int, context: Option<nat>)
    requires Inv(l) && Enabled(l, Call(user, context)) && user !in Held(l, context)
    ensures Inv(Arrive(l, user, context))
  {
    var l', n := Arrive(l, user, context), |l.tickets|;
    assert forall i :: 0 <= i < n ==> l'.tickets[i] == l.tickets[i];
    forall i | 0 <= i < n ensures Chained(l', i) {
      assert Chained(l, i);
    }
    assert Chained(l', n);
    forall i | 0 <= i < n && l'.tickets[i].phase != Waiting ensures IsFirst(l', i) {
      assert IsFirst(l, i);
    }
    assert InOrder(l');
    forall i | 0 <= i < n ensures Nested(l', i) {
      assert Nested(l, i);
      HeldStays(l, l', l.tickets[i].context);
    }
    HeldStays(l, l', context);
    assert Nested(l', n);
  }

  lemma EnterKeeps(l: Lock, i: nat)
    requires Inv(l) && CanEnter(l, i)
    ensures Inv(WithPhase(l, i, Inside))
  {
    var l' := WithPhase(l, i, Inside);
    EnterMeansFirst(l, i);
    PhaseKeepsShape(l, i, Inside);
    forall j | 0 <= j < |l'.tickets| && l'.tickets[j].phase != Waiting ensures IsFirst(l', j) {
      assert IsFirst(l, j);
      assert j > i ==> l.tickets[j].user != l.tickets[i].user;
    }
    forall j | 0 <= j < |l'.tickets| ensures Nested(l', j) {
      assert Nested(l, j);
      HeldStays(l, l', l.tickets[j].context);
    }
  }

  lemma PhaseKeepsShape(l: Lock, i: nat, phase: Phase)
    requires AllChained(l) && i < |l.tickets| && l.tickets[i].phase != Released
    ensures AllChained(WithPhase(l, i, phase))
  {
    var l' := WithPhase(l, i, phase);
    forall j | 0 <= j < |l'.tickets| ensures Chained(l', j) {
      assert Chained(l, j);
    }
  }

  lemma LeaveKeeps(l: Lock, i: nat)
    requires Inv(l) && Enabled(l, Leave(i))
    ensures Inv(Release(l, i))
  {
    var l' := Release(l, i);
    PhaseKeepsShape(l, i, Released);
    forall j | 0 <= j < |l'.tickets| ensures Chained(l', j) {
      assert Chained(WithPhase(l, i, Released), j);
    }
    forall j | 0 <= j < |l'.tickets| && l'.tickets[j].phase != Waiting ensures IsFirst(l', j) {
      assert IsFirst(l, j);
    }
    forall j | 0 <= j < |l'.tickets| ensures Nested(l', j) {
      assert Nested(l, j);
      HeldStays(l, l', l.tickets[j].context);
      assert l.tickets[j].context == Some(i) ==> l.tickets[j].phase == Released;
    }
    ReleaseKeepsTails(l, i);
  }

  lemma ReleaseKeepsTails(l: Lock, i: nat)
    requires Inv(l) && Is(l, i, Inside)
    ensures TailsOk(Release(l, i))
  {
    var l', user := Release(l, i), l.tickets[i].user;
    assert IsFirst(l, i);
    forall j | 0 <= j < |l'.tickets| && l'.tickets[j].phase != Released ensures l'.tickets[j].user in l'.tails {
      assert l.tickets[j].user in l.tails;
      assert j < i ==> l.tickets[j].user != user;
    }
  }

  lemma StepKeeps(l: Lock, e: Event)
    requires Inv(l) && Enabled(l, e)
    ensures Inv(Step(l, e))
  {
    match e
    case Call(user, context) =>
      if user !in Held(l, context) {
        ArriveKeeps(l, user, context);
      }
    case Enter(i) => EnterKeeps(l, i);
    case Leave(i) => LeaveKeeps(l, i);
  }

  lemma {:induction false} RunKeeps(es: seq<Event>)
    requires IsRun(es)
    ensures Inv(Run(es))
    decreases |es|
  {
    if |es| > 0 {
      RunKeeps(es[..|es| - 1]);
      StepKeeps(Run(es[..|es| - 1]), es[|es| - 1]);
      hide Step, Inv;
    } else {
      assert Inv(FREE);
    }
  }

  // ---- What it guarantees ----

  /** In every run at most one queued section of a user is running. */
  lemma MutualExclusion(es: seq<Event>, i: nat, j: nat)
    requires IsRun(es) && Is(Run(es), i, Inside) && Is(Run(es), j, Inside)
    requires Run(es).tickets[i].user == Run(es).tickets[j].user
    ensures i == j
  {
    RunKeeps(es);
    hide Run;
    assert IsFirst(Run(es), i) && IsFirst(Run(es), j);
  }

  /** Sections of a user start in the order their calls arrived, each after all earlier ones have ended. */
  lemma FirstComeFirstServed(es: seq<Event>, i: nat, j: nat)
    requires IsRun(es) && i < j < |Run(es).tickets|
    requires Run(es).tickets[i].user == Run(es).tickets[j].user && Run(es).tickets[j].phase != Waiting
    ensures Run(es).tickets[i].phase == Released
  {
    RunKeeps(es);
    hide Run;
    assert IsFirst(Run(es), j);
  }

  /** No wakeup is lost: the earliest unreleased call of a user is running or may start now; and a later one may
      not. */
  lemma NoLostWakeup(es: seq<Event>, i: nat)
    requires IsRun(es) && i < |Run(es).tickets| && Run(es).tickets[i].phase != Released
    ensures IsFirst(Run(es), i) <==> Is(Run(es), i, Inside) || Enabled(Run(es), Enter(i))
  {
    RunKeeps(es);
    hide Run;
    var l := Run(es);
    if l.tickets[i].phase == Waiting {
      EnterMeansFirst(l, i);
    } else {
      assert IsFirst(l, i);
    }
  }

  /** The tails map has an entry for a user exactly while a call of that user is unreleased. */
  lemma TailsArePending(es: seq<Event>, user: int)
    requires IsRun(es)
    ensures user in Run(es).tails
       <==> exists i :: 0 <= i < |Run(es).tickets| && Run(es).tickets[i].user == user && Run(es).tickets[i].phase != Released
  {
    RunKeeps(es);
    hide Run;
    var l := Run(es);
    if user in l.tails {
      assert l.tickets[l.tails[user]].user == user;
    }
  }

  /** The section, among this one and those around it, that holds a user's lock. */
  ghost function HolderOf(l: Lock, i: nat, user: int): (h: nat)
    requires i < |l.tickets| && user in Held(l, Some(i))
    ensures h < |l.tickets| && l.tickets[h].user == user
    decreases i
  {
    if l.tickets[i].user == user then i else HolderOf(l, l.tickets[i].context.value, user)
  }

  lemma {:induction false} HolderIsInside(l: Lock, i: nat, user: int)
    requires Inv(l) && Is(l, i, Inside) && user in Held(l, Some(i))
    ensures Is(l, HolderOf(l, i, user), Inside)
    decreases i
  {
    if l.tickets[i].user != user {
      assert Nested(l, i);
      HolderIsInside(l, l.tickets[i].context.value, user);
    }
  }

  /** A call from a section that holds the user's lock never queues: nothing changes, so nothing can block it.
      Whatever runs with that lock, through however many nested calls, runs inside one and the same queued
      section. */
  lemma ReentryNeverBlocks(es: seq<Event>, i: nat, j: nat, user: int)
    requires IsRun(es) && Is(Run(es), i, Inside) && Is(Run(es), j, Inside)
    requires user in Held(Run(es), Some(i)) && user in Held(Run(es), Some(j))
    ensures IsRun(es + [Call(user, Some(i))]) && Run(es + [Call(user, Some(i))]) == Run(es)
    ensures HolderOf(Run(es), i, user) == HolderOf(Run(es), j, user)
  {
    var more := es + [Call(user, Some(i))];
    assert more[..|more| - 1] == es;
    RunKeeps(es);
    HolderIsInside(Run(es), i, user);
    HolderIsInside(Run(es), j, user);
    MutualExclusion(es, HolderOf(Run(es), i, user), HolderOf(Run(es), j, user));
  }

  /** Call i was made inside the section of call j, directly or through calls made in it. */
  predicate Encloses(l: Lock, j: nat, i: nat)
    decreases i
  {
    i < |l.tickets| && l.tickets[i].context.Some?
    && var c := l.tickets[i].context.value;
       c == j || (c < i && Encloses(l, j, c))
  }

  /** The locks a section holds are those of the calls around it, its own among them. */
  lemma {:induction false} HeldIsEnclosing(l: Lock, i: nat, user: int)
    requires AllNested(l) && i < |l.tickets|
    ensures user in Held(l, Some(i))
       <==> l.tickets[i].user == user || exists j :: 0 <= j < i && Encloses(l, j, i) && l.tickets[j].user == user
    decreases i
  {
    assert Nested(l, i);
    if l.tickets[i].context.Some? {
      var c := l.tickets[i].context.value;
      HeldIsEnclosing(l, c, user);
      if user in Held(l, Some(c)) {
        var j :| 0 <= j <= c && l.tickets[j].user == user && (j == c || Encloses(l, j, c));
        assert Encloses(l, j, i);
      }
      if j :| 0 <= j < i && Encloses(l, j, i) && l.tickets[j].user == user {
        if j != c {
          EnclosesEarlier(l, j, c);
        }
      }
    }
  }

  lemma {:induction false} EnclosesEarlier(l: Lock, j: nat, i: nat)
    requires AllNested(l) && Encloses(l, j, i)
    ensures j < i
    decreases i
  {
    assert Nested(l, i);
    var c := l.tickets[i].context.value;
    if c != j {
      EnclosesEarlier(l, j, c);
    }
  }

  /** No call that queues was made, however deep, inside a section of its own user: nothing waits for itself. */
  lemma NothingWaitsForItself(es: seq<Event>, i: nat, j: nat)
    requires IsRun(es) && i < |Run(es).tickets| && j < i && Encloses(Run(es), j, i)
    ensures Run(es).tickets[j].user != Run(es).tickets[i].user
  {
    RunKeeps(es);
    var l := Run(es);
    assert Nested(l, i);
    var c := l.tickets[i].context.value;
    hide Run, IsRun, Held;
    HeldIsEnclosing(l, c, l.tickets[j].user);
    if j != c {
      EnclosesEarlier(l, j, c);
    }
  }

  // ---- Deadlock ----

  /** Every nested call is for a greater user than the section it is made from; in particular, no nested calls. */
  ghost predicate Ordered(l: Lock) {
    forall i {:trigger l.tickets[i]} :: 0 <= i < |l.tickets| && l.tickets[i].context.Some? && l.tickets[i].context.value < |l.tickets| ==>
      l.tickets[l.tickets[i].context.value].user < l.tickets[i].user
  }

  ghost predicate IsPending(l: Lock, i: int) {
    0 <= i < |l.tickets| && l.tickets[i].phase != Released
  }

  /** Some pending call of the greatest user, the earliest of them. */
  ghost predicate IsTop(l: Lock, i: int) {
    && IsPending(l, i)
    && forall j :: IsPending(l, j) ==>
         l.tickets[j].user < l.tickets[i].user || (l.tickets[j].user == l.tickets[i].user && i <= j)
  }

  lemma {:induction false} SomeTop(l: Lock, i: nat)
    requires IsPending(l, i)
    ensures exists k :: IsTop(l, k)
  {
    var k := TopAmong(l, |l.tickets|, i);
    assert forall j :: IsPending(l, j) ==> j < |l.tickets|;
    assert IsTop(l, k);
  }

  lemma {:induction false} TopAmong(l: Lock, n: nat, i: nat) returns (k: nat)
    requires IsPending(l, i) && n <= |l.tickets|
    ensures IsPending(l, k)
    ensures forall j :: IsPending(l, j) && (j < n || j == i) ==>
              l.tickets[j].user < l.tickets[k].user || (l.tickets[j].user == l.tickets[k].user && k <= j)
    decreases n
  {
    if n == 0 {
      k := i;
    } else {
      k := TopAmong(l, n - 1, i);
      if l.tickets[n - 1].phase != Released
         && (l.tickets[k].user < l.tickets[n - 1].user
             || (l.tickets[n - 1].user == l.tickets[k].user && n - 1 < k)) {
        k := n - 1;
      }
    }
  }

  /** With nested calls in one order of users, the lock is never stuck: while any call is pending, some section
      may start or end. */
  lemma NeverStuck(es: seq<Event>, i: nat)
    requires IsRun(es) && IsPending(Run(es), i) && Ordered(Run(es))
    ensures exists k :: Enabled(Run(es), Enter(k)) || Enabled(Run(es), Leave(k))
  {
    var l := Run(es);
    RunKeeps(es);
    SomeTop(l, i);
    hide Run;
    var k :| IsTop(l, k);
    assert forall j :: 0 <= j < |l.tickets| && l.tickets[j].phase != Released ==> IsPending(l, j);
    if l.tickets[k].phase == Waiting {
      EnterMeansFirst(l, k);
      assert Enabled(l, Enter(k));
    } else {
      forall j | 0 <= j < |l.tickets| && l.tickets[j].context == Some(k) ensures l.tickets[j].phase == Released {
        assert l.tickets[k].user < l.tickets[j].user;
        assert !IsPending(l, j);
      }
      assert Enabled(l, Leave(k));
    }
  }

  /** Two sections that each call for the other's user. */
  function Crossed(u: int, v: int): seq<Event> {
    [Call(u, None), Enter(0), Call(v, None), Enter(1), Call(v, Some(0)), Call(u, Some(1))]
  }

  function CrossedLock(u: int, v: int): Lock {
    Lock([Ticket(u, None, None, Inside), Ticket(v, None, None, Inside),
          Ticket(v, Some(1), Some(0), Waiting), Ticket(u, Some(0), Some(1), Waiting)],
         map[u := 3, v := 2])
  }

  lemma EmptyRun()
    ensures IsRun([]) && Run([]) == FREE
  {
  }

  lemma BothInside(u: int, v: int)
    requires u != v
    ensures
      var es := [Call(u, None), Enter(0), Call(v, None), Enter(1)];
      && IsRun(es)
      && Run(es) == Lock([Ticket(u, None, None, Inside), Ticket(v, None, None, Inside)], map[u := 0, v := 1])
  {
    hide Run, IsRun;
    EmptyRun();
    var es1 := [Call(u, None)];
    assert [] + es1 == es1;
    var es2 := es1 + [Enter(0)];
    var es3 := es2 + [Call(v, None)];
    RunOn([], Call(u, None));
    RunOn(es1, Enter(0));
    assert Run(es2) == Lock([Ticket(u, None, None, Inside)], map[u := 0]);
    RunOn(es2, Call(v, None));
    RunOn(es3, Enter(1));
    assert es3 + [Enter(1)] == [Call(u, None), Enter(0), Call(v, None), Enter(1)];
  }

  lemma CrossedRun(u: int, v: int)
    requires u != v
    ensures IsRun(Crossed(u, v)) && Run(Crossed(u, v)) == CrossedLock(u, v)
  {
    hide Run, IsRun;
    BothInside(u, v);
    var es4 := [Call(u, None), Enter(0), Call(v, None), Enter(1)];
    var es5 := es4 + [Call(v, Some(0))];
    assert Held(Run(es4), Some(0)) == {u};
    RunOn(es4, Call(v, Some(0)));
    assert Held(Run(es5), Some(1)) == {v};
    RunOn(es5, Call(u, Some(1)));
    assert es5 + [Call(u, Some(1))] == Crossed(u, v);
  }

  /** Without an order the two wait for each other for ever: for any two users, one order of nesting is needed. */
  lemma CrossedCallsAreStuck(u: int, v: int)
    requires u != v
    ensures IsRun(Crossed(u, v)) && IsPending(Run(Crossed(u, v)), 0)
    ensures forall k :: !Enabled(Run(Crossed(u, v)), Enter(k)) && !Enabled(Run(Crossed(u, v)), Leave(k))
  {
    CrossedRun(u, v);
    hide Run, IsRun;
    var l := CrossedLock(u, v);
    assert l.tickets[2].context == Some(0) && l.tickets[3].context == Some(1);
  }

  lemma RunOn(es: seq<Event>, e: Event)
    requires IsRun(es) && Enabled(Run(es), e)
    ensures IsRun(es + [e]) && Run(es + [e]) == Step(Run(es), e)
  {
    assert (es + [e])[..|es|] == es;
  }

  // ---- The map in place ----

  /** The module's tails map, with the calls whose promises it chains. */
  class UserLocks {
    var tickets: seq<Ticket>
    var tails: map<int, nat>

    constructor ()
      ensures State() == FREE
    {
      tickets, tails := [], map[];
    }

    ghost function State(): Lock
      reads this
    {
      Lock(tickets, tails)
    }

    /** The segment up to the await: a call from inside the user's own section goes straight on, any other
        puts its tail in the map. */
    method Arrive(user: int, context: Option<nat>, held: set<int>) returns (queued: Option<nat>)
      requires held == Held(State(), context)
      modifies this
      ensures State() == Step(old(State()), Call(user, context))
      ensures queued.None? <==> user in held
      ensures queued.Some? ==> Is(State(), queued.value, Waiting) && tails == old(tails)[user := queued.value]
    {
      if user in held {
        return None;
      }
      var prev := if user in tails then Some(tails[user]) else None;
      queued := Some(|tickets|);
      tickets, tails := tickets + [Ticket(user, prev, context, Waiting)], tails[user := |tickets|];
    }

    method Start(i: nat)
      requires CanEnter(State(), i)
      modifies this`tickets
      ensures State() == Step(old(State()), Enter(i))
    {
      tickets := tickets[i := tickets[i].(phase := Inside)];
    }

    /** The finally block: release, and drop the map entry if no later call has taken it over. */
    method Finish(i: nat)
      requires Is(State(), i, Inside)
      modifies this
      ensures State() == Step(old(State()), Leave(i))
    {
      var user := tickets[i].user;
      tickets := tickets[i := tickets[i].(phase := Released)];
      if user in tails && tails[user] == i {
        tails := tails - {user};
      }
    }
  }
}
