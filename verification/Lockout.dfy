/**
The login lockout: a counter and lock per email address, the gate in front of a login,
and the sweeper that forgets old entries. Times are nanoseconds after Go's zero time, so
0 is the zero time and every clock reading is positive.
*/
module Lockout {
  import opened Wrappers

  const MAX_FAILED_ATTEMPTS: int := 5
  const MINUTE: int := 60 * 1_000_000_000
  const LOCKOUT: int := 15 * MINUTE
  const ENTRY_TTL: int := 30 * MINUTE

  // ---------- the tracker as a value ----------

  datatype Entry = Entry(count: int, lockedUntil: int, updatedAt: int)

  type Entries = map<string, Entry>

  const FRESH: Entry := Entry(0, 0, 0)

  /** The critical section of loginLockedUntil. */
  function GateEntry(e: Entry, now: int): (Entry, bool) {
    if e.lockedUntil > now then (e.(updatedAt := now), true)
    else if e.lockedUntil != 0 then (e.(lockedUntil := 0, count := 0), false)
    else (e, false)
  }

  /** The critical section of recordFailedLoginAttempt. */
  function RecordEntry(e: Entry, now: int): Entry {
    if e.lockedUntil > now then e.(updatedAt := now)
    else if e.count + 1 >= MAX_FAILED_ATTEMPTS then Entry(0, now + LOCKOUT, now)
    else Entry(e.count + 1, e.lockedUntil, now)
  }

  predicate Stale(e: Entry, now: int) {
    now - e.updatedAt > ENTRY_TTL && e.lockedUntil < now
  }

  function Gate(s: Entries, email: string, now: int): (Entries, bool) {
    if email !in s then (s, false)
    else
      var (e, locked) := GateEntry(s[email], now);
      (s[email := e], locked)
  }

  function RecordFailure(s: Entries, email: string, now: int): Entries {
    s[email := RecordEntry(if email in s then s[email] else FRESH, now)]
  }

  function Forget(s: Entries, email: string): Entries {
    s - {email}
  }

  function Swept(s: Entries, now: int): Entries {
    map email | email in s && !Stale(s[email], now) :: s[email]
  }

  // ---------- one login ----------

  /** What the database and the password check say. */
  datatype Verdict = UnknownUser | NoPassword | WrongPassword | DatabaseError | Correct

  datatype Response = TooManyRequests | Unauthorized | ServerError | Accepted

  /** A login as one atomic step. */
  function Login(s: Entries, email: string, now: int, verdict: Verdict): (Entries, Response) {
    var (s1, locked) := Gate(s, email, now);
    if locked then (s1, TooManyRequests)
    else
      match verdict
      case DatabaseError => (s1, ServerError)
      case Correct => (Forget(s1, email), Accepted)
      case _ => (RecordFailure(s1, email, now), Unauthorized)
  }

  // ---------- the tracker as an object ----------

  class AttemptState {
    var count: int
    var lockedUntil: int
    var updatedAt: int

    constructor ()
      ensures Value() == FRESH
    {
      count, lockedUntil, updatedAt := 0, 0, 0;
    }

    ghost function Value(): Entry
      reads this
    {
      Entry(count, lockedUntil, updatedAt)
    }
  }

  class Tracker {
    var states: map<string, AttemptState>

    /** No two addresses share a state. */
    ghost predicate Valid()
      reads this
    {
      forall a, b :: a in states && b in states && a != b ==> states[a] != states[b]
    }

    ghost function Entries(): Entries
      reads this, states.Values
    {
      map email | email in states :: states[email].Value()
    }

    constructor ()
      ensures Valid() && Entries() == map[]
    {
      states := map[];
    }

    method StateFor(email: string) returns (state: AttemptState)
      requires Valid()
      modifies this
      ensures Valid() && email in states && state == states[email]
      ensures if email in old(states) then states == old(states)
              else fresh(state) && states == old(states)[email := state] && state.Value() == FRESH
      ensures Entries() == if email in old(states) then old(Entries()) else old(Entries())[email := FRESH]
    {
      if email in states {
        return states[email];
      }
      state := new AttemptState();
      states := states[email := state];
    }

    /** Writing to the state of one address changes no other entry. */
    twostate lemma OnlyThisChanged(email: string)
      requires old(Valid()) && email in old(states) && states == old(states)
      requires forall e :: e in states && e != email ==> unchanged(states[e])
      ensures Entries() == old(Entries())[email := states[email].Value()]
    {
    }

    method LoginLockedUntil(email: string, now: int) returns (until: int, locked: bool)
      requires Valid()
      modifies this, states.Values
      ensures Valid() && states == old(states)
      ensures (Entries(), locked) == Gate(old(Entries()), email, now)
      ensures locked ==> email in Entries() && until == Entries()[email].lockedUntil
    {
      if email !in states {
        return 0, false;
      }
      var state := states[email];
      if state.lockedUntil > now {
        state.updatedAt := now;
        OnlyThisChanged(email);
        return state.lockedUntil, true;
      }
      if state.lockedUntil != 0 {
        state.lockedUntil := 0;
        state.count := 0;
      }
      OnlyThisChanged(email);
      return 0, false;
    }

    method RecordFailedLoginAttempt(email: string, now: int)
      requires Valid()
      modifies this, states.Values
      ensures Valid() && fresh(states.Values - old(states.Values))
      ensures Entries() == RecordFailure(old(Entries()), email, now)
    {
      var state := StateFor(email);
      label created:
      ghost var created := Entries();
      assert created[email] == state.Value();
      CountFailure(state, now);
      OnlyThisChanged@created(email);
    }

    method CountFailure(state: AttemptState, now: int)
      modifies state
      ensures state.Value() == RecordEntry(old(state.Value()), now)
    {
      if state.lockedUntil > now {
        state.updatedAt := now;
        return;
      }
      state.count := state.count + 1;
      state.updatedAt := now;
      if state.count >= MAX_FAILED_ATTEMPTS {
        state.lockedUntil := now + LOCKOUT;
        state.count := 0;
      }
    }

    method ResetLoginAttempts(email: string)
      requires Valid()
      modifies this
      ensures Valid() && states == old(states) - {email}
      ensures Entries() == Forget(old(Entries()), email)
    {
      states := states - {email};
    }

    /** One tick of the sweeper; the map is visited in any order. */
    method Sweep(now: int)
      requires Valid()
      modifies this
      ensures Valid() && states.Values <= old(states.Values)
      ensures Entries() == Swept(old(Entries()), now)
    {
      var todo := states.Keys;
      while todo != {}
        invariant Valid() && todo <= states.Keys <= old(states.Keys)
        invariant forall e :: e in states ==> states[e] == old(states)[e]
        invariant forall e :: e in old(states) ==>
          (e in states <==> e in todo || !Stale(old(states)[e].Value(), now))
        decreases |todo|
      {
        var email :| email in todo;
        todo := todo - {email};
        var state := states[email];
        if now - state.updatedAt > ENTRY_TTL && state.lockedUntil < now {
          states := states - {email};
        }
      }
    }

    /** The gate, the verdict, and what is recorded, in the order of the login handler. */
    method Attempt(email: string, now: int, verdict: Verdict) returns (response: Response)
      requires Valid()
      modifies this, states.Values
      ensures Valid() && fresh(states.Values - old(states.Values))
      ensures (Entries(), response) == Login(old(Entries()), email, now, verdict)
    {
      var _, locked := LoginLockedUntil(email, now);
      if locked {
        return TooManyRequests;
      }
      match verdict {
        case DatabaseError => return ServerError;
        case Correct =>
          ResetLoginAttempts(email);
          return Accepted;
        case _ =>
          RecordFailedLoginAttempt(email, now);
          return Unauthorized;
      }
    }
  }

  // ---------- runs ----------

  datatype Step = Try(email: string, now: int, verdict: Verdict) | Tick(now: int)

  /** The entries after a step, and the response if it was a login. */
  function Apply(s: Entries, step: Step): (Entries, Option<Response>) {
    match step
    case Try(email, now, verdict) =>
      var (s', response) := Login(s, email, now, verdict);
      (s', Some(response))
    case Tick(now) => (Swept(s, now), None)
  }

  /** The entries after the first `k` steps of a run that starts with an empty tracker. */
  function EntriesAt(run: seq<Step>, k: nat): Entries
    requires k <= |run|
  {
    if k == 0 then map[] else Apply(EntriesAt(run, k - 1), run[k - 1]).0
  }

  /** Step `k` is a login for `email` that got this response. */
  predicate Answers(run: seq<Step>, k: nat, email: string, response: Response)
    requires k < |run|
  {
    run[k].Try? && run[k].email == email && Apply(EntriesAt(run, k), run[k]).1 == Some(response)
  }

  /** Recorded failures for `email` among steps i..j. */
  function Failures(run: seq<Step>, i: nat, j: nat, email: string): nat
    requires i <= j <= |run|
  {
    if i == j then 0
    else Failures(run, i, j - 1, email) + (if Answers(run, j - 1, email, Unauthorized) then 1 else 0)
  }

  /** Clock readings are positive and never go back. */
  predicate Timed(run: seq<Step>) {
    && (forall k :: 0 <= k < |run| ==> run[k].now > 0)
    && forall i, j :: 0 <= i < j < |run| ==> run[i].now <= run[j].now
  }

  // ---------- invariants ----------

  predicate EntryOk(e: Entry) {
    0 <= e.count < MAX_FAILED_ATTEMPTS && e.lockedUntil >= 0 && (e.lockedUntil != 0 ==> e.count == 0)
  }

  predicate Ok(s: Entries) {
    forall email :: email in s ==> EntryOk(s[email])
  }

  lemma ApplyKeepsOk(s: Entries, step: Step)
    requires Ok(s) && step.now > 0
    ensures Ok(Apply(s, step).0)
  {
  }

  lemma {:induction false} AlwaysOk(run: seq<Step>, k: nat)
    requires k <= |run| && Timed(run)
    ensures Ok(EntriesAt(run, k))
  {
    if k > 0 {
      AlwaysOk(run, k - 1);
      ApplyKeepsOk(EntriesAt(run, k - 1), run[k - 1]);
    }
  }

  // ---------- the sliding window ----------

  /**
  After `n` failures recorded since time `t`: either the counter has reached at least n, or
  a lock that outlasts the window was set with at most five of them.
  */
  predicate Holds(s: Entries, email: string, t: int, n: nat) {
    n == 0 || (email in s && s[email].updatedAt >= t
               && ((s[email].lockedUntil == 0 && s[email].count >= n)
                   || (s[email].lockedUntil >= t + LOCKOUT && n <= MAX_FAILED_ATTEMPTS)))
  }

  lemma StepHolds(s: Entries, step: Step, email: string, t: int, n: nat)
    requires Ok(s) && Holds(s, email, t, n)
    requires 0 < step.now && t <= step.now < t + LOCKOUT
    requires step.Try? && step.email == email ==> Apply(s, step).1 != Some(Accepted)
    ensures var (s', response) := Apply(s, step);
      Holds(s', email, t, if step.Try? && step.email == email && response == Some(Unauthorized) then n + 1 else n)
  {
  }

  lemma {:induction false} WindowHolds(run: seq<Step>, i: nat, j: nat, email: string, t: int)
    requires i <= j <= |run| && Timed(run)
    requires forall k :: i <= k < j ==> t <= run[k].now < t + LOCKOUT
    requires forall k :: i <= k < j ==> !Answers(run, k, email, Accepted)
    ensures Holds(EntriesAt(run, j), email, t, Failures(run, i, j, email))
    decreases j
  {
    if i < j {
      WindowHolds(run, i, j - 1, email, t);
      AlwaysOk(run, j - 1);
      assert !Answers(run, j - 1, email, Accepted);
      StepHolds(EntriesAt(run, j - 1), run[j - 1], email, t, Failures(run, i, j - 1, email));
    }
  }

  predicate LockedAt(s: Entries, email: string, now: int) {
    email in s && s[email].lockedUntil > now
  }

  /**
  Over every run: fifteen minutes without a successful login contain at most five recorded
  failures, and after the fifth the address is locked for the rest of them.
  */
  lemma SlidingWindow(run: seq<Step>, i: nat, j: nat, email: string, t: int)
    requires i <= j <= |run| && Timed(run)
    requires forall k :: i <= k < j ==> t <= run[k].now < t + LOCKOUT
    requires forall k :: i <= k < j ==> !Answers(run, k, email, Accepted)
    ensures Failures(run, i, j, email) <= MAX_FAILED_ATTEMPTS
    ensures Failures(run, i, j, email) == MAX_FAILED_ATTEMPTS
      ==> forall now :: now < t + LOCKOUT ==> LockedAt(EntriesAt(run, j), email, now)
  {
    WindowHolds(run, i, j, email, t);
    AlwaysOk(run, j);
  }

  // ---------- no lock without cause ----------

  /** Recorded failures since the last successful login. */
  function Streak(run: seq<Step>, k: nat, email: string): nat
    requires k <= |run|
  {
    if k == 0 then 0
    else if Answers(run, k - 1, email, Accepted) then 0
    else Streak(run, k - 1, email) + (if Answers(run, k - 1, email, Unauthorized) then 1 else 0)
  }

  /** A lock was set by a recorded failure, fifteen minutes before it ends. */
  ghost predicate SetByFailure(run: seq<Step>, k: nat, email: string, until: int)
    requires k <= |run|
  {
    exists j :: 0 <= j < k && Answers(run, j, email, Unauthorized) && until == run[j].now + LOCKOUT
  }

  predicate Caused(e: Entry, streak: nat) {
    e.count <= streak && (e.lockedUntil != 0 ==> streak >= MAX_FAILED_ATTEMPTS)
  }

  lemma StepCaused(s: Entries, step: Step, email: string, streak: nat)
    requires Ok(s) && step.now > 0
    requires email in s ==> Caused(s[email], streak)
    ensures var (s', response) := Apply(s, step);
      var mine := step.Try? && step.email == email;
      email in s' ==>
        !(mine && response == Some(Accepted))
        && Caused(s'[email], if mine && response == Some(Unauthorized) then streak + 1 else streak)
  {
  }

  lemma StepSetsLock(s: Entries, step: Step, email: string)
    requires Ok(s) && step.now > 0
    ensures var (s', response) := Apply(s, step);
      email in s' && s'[email].lockedUntil != 0 ==>
        || (email in s && s[email].lockedUntil == s'[email].lockedUntil)
        || (step.Try? && step.email == email && response == Some(Unauthorized)
            && s'[email].lockedUntil == step.now + LOCKOUT)
  {
  }

  /**
  An address is locked only after five recorded failures with no success between them, and
  for fifteen minutes from a recorded failure.
  */
  lemma {:induction false} LockHasCause(run: seq<Step>, k: nat, email: string)
    requires k <= |run| && Timed(run) && email in EntriesAt(run, k)
    ensures var e := EntriesAt(run, k)[email];
      && Caused(e, Streak(run, k, email))
      && (e.lockedUntil != 0 ==> SetByFailure(run, k, email, e.lockedUntil))
  {
    if k > 0 {
      var s, step := EntriesAt(run, k - 1), run[k - 1];
      AlwaysOk(run, k - 1);
      if email in s {
        LockHasCause(run, k - 1, email);
      }
      StepCaused(s, step, email, if email in s then Streak(run, k - 1, email) else 0);
      StepSetsLock(s, step, email);
      var e := EntriesAt(run, k)[email];
      if e.lockedUntil != 0 {
        if email in s && s[email].lockedUntil == e.lockedUntil {
          var j :| 0 <= j < k - 1 && Answers(run, j, email, Unauthorized) && e.lockedUntil == run[j].now + LOCKOUT;
          assert Answers(run, j, email, Unauthorized);
        } else {
          assert Answers(run, k - 1, email, Unauthorized);
        }
      }
    }
  }

  // ---------- what a login does ----------

  /** Failures that count against an address that is not locked; an ended lock has wiped them. */
  function Counted(s: Entries, email: string): int {
    if email in s && s[email].lockedUntil == 0 then s[email].count else 0
  }

  predicate IsFailure(verdict: Verdict) {
    verdict in {UnknownUser, NoPassword, WrongPassword}
  }

  /** The entry after the n-th counted failure. */
  function AfterFailure(n: int, now: int): Entry {
    if n == MAX_FAILED_ATTEMPTS then Entry(0, now + LOCKOUT, now) else Entry(n, 0, now)
  }

  /** A login is refused exactly while the address is locked, whatever the password, and only marked as seen. */
  lemma RefusedIffLocked(s: Entries, email: string, now: int, verdict: Verdict)
    ensures var (s', response) := Login(s, email, now, verdict);
      && (response == TooManyRequests <==> LockedAt(s, email, now))
      && (LockedAt(s, email, now) ==> s' == s[email := s[email].(updatedAt := now)])
  {
  }

  /** Without a lock the verdict decides the answer. */
  lemma VerdictDecides(s: Entries, email: string, now: int, verdict: Verdict)
    requires !LockedAt(s, email, now)
    ensures var response := Login(s, email, now, verdict).1;
      && (response == Accepted <==> verdict == Correct)
      && (response == ServerError <==> verdict == DatabaseError)
      && (response == Unauthorized <==> IsFailure(verdict))
  {
  }

  /**
  Without a lock: a success forgets the address, a failure is counted and the fifth locks,
  and a database error counts nothing. Other addresses are not touched.
  */
  lemma LoginUpdates(s: Entries, email: string, now: int, verdict: Verdict)
    requires Ok(s) && now > 0 && !LockedAt(s, email, now)
    ensures var s' := Login(s, email, now, verdict).0;
      var n := Counted(s, email);
      && (verdict == Correct ==> email !in s')
      && (verdict == DatabaseError ==> (email in s' <==> email in s) && Counted(s', email) == n)
      && (IsFailure(verdict) ==> email in s' && s'[email] == AfterFailure(n + 1, now))
      && (forall other :: other != email ==>
            (other in s' <==> other in s) && (other in s ==> s'[other] == s[other]))
  {
  }

  // ---------- locks over runs ----------

  /** The lock on `email` that ends at `until`. */
  predicate LockIs(s: Entries, email: string, until: int) {
    email in s && s[email].lockedUntil == until
  }

  lemma StepKeepsLock(s: Entries, step: Step, email: string, until: int)
    requires LockIs(s, email, until) && step.now < until
    ensures LockIs(Apply(s, step).0, email, until)
  {
  }

  /**
  A lock stands to its end. Until then no login of anybody and no sweep removes it, extends
  it or shortens it, and every login for the address is refused, whatever the password.
  */
  lemma {:induction false} LockStands(run: seq<Step>, i: nat, j: nat, email: string, until: int)
    requires i <= j <= |run| && LockIs(EntriesAt(run, i), email, until)
    requires forall k :: i <= k < j ==> run[k].now < until
    ensures LockIs(EntriesAt(run, j), email, until)
    ensures forall k :: i <= k < j && run[k].Try? && run[k].email == email ==> Answers(run, k, email, TooManyRequests)
    decreases j
  {
    if i < j {
      var s, step := EntriesAt(run, j - 1), run[j - 1];
      LockStands(run, i, j - 1, email, until);
      StepKeepsLock(s, step, email, until);
      if step.Try? && step.email == email {
        RefusedIffLocked(s, email, step.now, step.verdict);
      }
    }
  }

  /**
  No login is refused without cause: five failures have been recorded since the last
  success, and the last fifteen minutes hold one of them.
  */
  lemma RefusalHasCause(run: seq<Step>, k: nat, email: string)
    requires k < |run| && Timed(run) && Answers(run, k, email, TooManyRequests)
    ensures Streak(run, k, email) >= MAX_FAILED_ATTEMPTS
    ensures exists j :: 0 <= j < k && Answers(run, j, email, Unauthorized) && run[k].now < run[j].now + LOCKOUT
  {
    var s := EntriesAt(run, k);
    RefusedIffLocked(s, email, run[k].now, run[k].verdict);
    LockHasCause(run, k, email);
    var until := s[email].lockedUntil;
    var j :| 0 <= j < k && Answers(run, j, email, Unauthorized) && until == run[j].now + LOCKOUT;
    assert Answers(run, j, email, Unauthorized) && run[k].now < run[j].now + LOCKOUT;
  }

  /**
  Whoever has the right password gets in and starts afresh, unless five failures have been
  recorded since the last success and one of them in the last fifteen minutes.
  */
  lemma RightPasswordGetsIn(run: seq<Step>, k: nat, email: string)
    requires k < |run| && Timed(run) && run[k].Try? && run[k].email == email && run[k].verdict == Correct
    requires || Streak(run, k, email) < MAX_FAILED_ATTEMPTS
             || forall j :: 0 <= j < k && Answers(run, j, email, Unauthorized) ==> run[j].now + LOCKOUT <= run[k].now
    ensures Answers(run, k, email, Accepted) && email !in EntriesAt(run, k + 1)
  {
    var s, now := EntriesAt(run, k), run[k].now;
    AlwaysOk(run, k);
    RefusedIffLocked(s, email, now, Correct);
    if LockedAt(s, email, now) {
      assert Answers(run, k, email, TooManyRequests);
      RefusalHasCause(run, k, email);
    } else {
      VerdictDecides(s, email, now, Correct);
      LoginUpdates(s, email, now, Correct);
    }
  }

  /** A login attempt for `email` at time `at` among the first k steps. */
  ghost predicate SeenAt(run: seq<Step>, k: nat, email: string, at: int)
    requires k <= |run|
  {
    exists j :: 0 <= j < k && run[j].Try? && run[j].email == email && run[j].now == at
  }

  lemma StepTouches(s: Entries, step: Step, email: string)
    ensures var s' := Apply(s, step).0;
      email in s' ==>
        || (email in s && s'[email].updatedAt == s[email].updatedAt)
        || (step.Try? && step.email == email && s'[email].updatedAt == step.now)
  {
  }

  lemma {:induction false} EntriesAreSeen(run: seq<Step>, k: nat, email: string)
    requires k <= |run| && email in EntriesAt(run, k)
    ensures SeenAt(run, k, email, EntriesAt(run, k)[email].updatedAt)
  {
    if k > 0 {
      var s := EntriesAt(run, k - 1);
      StepTouches(s, run[k - 1], email);
      if email in s && s[email].updatedAt == EntriesAt(run, k)[email].updatedAt {
        EntriesAreSeen(run, k - 1, email);
      }
    }
  }

  /** After a sweep only addresses are left that are locked or had a login attempt in the last half hour. */
  lemma SweepLeavesRecent(run: seq<Step>, k: nat, email: string)
    requires k < |run| && run[k].Tick? && email in EntriesAt(run, k + 1)
    ensures var e := EntriesAt(run, k + 1)[email];
      e.lockedUntil >= run[k].now || (run[k].now - e.updatedAt <= ENTRY_TTL && SeenAt(run, k, email, e.updatedAt))
  {
    EntriesAreSeen(run, k, email);
  }

  // ---------- all interleavings ----------

  /**
  The critical sections of concurrent logins, in any order: states are created, gated and
  counted through references that may have left the map since.
  */
  datatype Action =
    | Create(email: string)
    | GateState(id: nat, at: int)
    | RecordState(id: nat, at: int)
    | Drop(email: string)

  datatype Shared = Shared(states: seq<Entry>, index: map<string, nat>)

  function Act(s: Shared, a: Action): Shared {
    match a
    case Create(email) =>
      if email in s.index then s else Shared(s.states + [FRESH], s.index[email := |s.states|])
    case GateState(id, at) =>
      if id < |s.states| then s.(states := s.states[id := GateEntry(s.states[id], at).0]) else s
    case RecordState(id, at) =>
      if id < |s.states| then s.(states := s.states[id := RecordEntry(s.states[id], at)]) else s
    case Drop(email) => s.(index := s.index - {email})
  }

  function ActAll(s: Shared, actions: seq<Action>): Shared {
    if actions == [] then s else Act(ActAll(s, actions[..|actions| - 1]), actions[|actions| - 1])
  }

  predicate CountersOk(s: Shared) {
    forall id :: 0 <= id < |s.states| ==> 0 <= s.states[id].count < MAX_FAILED_ATTEMPTS
  }

  /** Whatever the order of the critical sections and their clocks, no counter leaves 0..4. */
  lemma {:induction false} CountersBounded(actions: seq<Action>)
    ensures CountersOk(ActAll(Shared([], map[]), actions))
  {
    if actions != [] {
      var n := |actions| - 1;
      CountersBounded(actions[..n]);
      ActKeepsCounters(ActAll(Shared([], map[]), actions[..n]), actions[n]);
    }
  }

  lemma ActKeepsCounters(s: Shared, a: Action)
    requires CountersOk(s)
    ensures CountersOk(Act(s, a))
  {
    var s' := Act(s, a);
    forall id | 0 <= id < |s'.states|
      ensures 0 <= s'.states[id].count < MAX_FAILED_ATTEMPTS
    {
      if id < |s.states| {
        assert 0 <= s.states[id].count < MAX_FAILED_ATTEMPTS;
      }
    }
  }
}
