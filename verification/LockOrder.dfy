/**
 * The locking of the voting path: any number of AddVote, scheduleEnd and status calls, in any interleaving,
 * never wait on each other in a circle, never race on what a lock protects, and never hold a lock while sending.
 *
 * Locks are reader/writer locks. A waiting writer may hold back new readers, as with sync.RWMutex; the proofs cover
 * both a writer that already does and one that does not yet.
 */
module LockOrder {
  import opened Foundations

  datatype Lock = VotingLock | BoxesLock(id: ID) | BoxLock(boxID: ID, hash: nat) | LimiterLock | WalletLock | VotersLock

  datatype Mode = Read | Write

  /** What a call still has to do: take locks, use what they protect, release them, and send actions. */
  datatype Program =
    | Done
    | Acquire(lock: Lock, mode: Mode, next: Program)
    | Access(lock: Lock, mode: Mode, next: Program)
    | Unlock(lock: Lock, next: Program)
    | Send(next: Program)

  datatype Thread = Thread(held: map<Lock, Mode>, rest: Program)

  function Rank(l: Lock): (r: nat)
    ensures r <= 3
  {
    match l
    case VotingLock => 0
    case BoxesLock(_) => 1
    case BoxLock(_, _) => 2
    case _ => 3
  }

  ghost predicate Above(held: map<Lock, Mode>, l: Lock) {
    forall k :: k in held ==> Rank(k) < Rank(l)
  }

  /**
   * Locks are taken in rising rank, released once, and never held across a send or at the end; what a lock protects is
   * used only with the lock held, and written only with it held for writing.
   */
  ghost predicate Ordered(held: map<Lock, Mode>, p: Program)
    decreases p
  {
    match p
    case Done => held == map[]
    case Acquire(l, m, next) => Above(held, l) && Ordered(held[l := m], next)
    case Access(l, m, next) => l in held && (m == Write ==> held[l] == Write) && Ordered(held, next)
    case Unlock(l, next) => l in held && Ordered(held - {l}, next)
    case Send(next) => held == map[] && Ordered(held, next)
  }

  // ---------------------------------------------------------------- scheduling

  predicate Conflicts(a: Mode, b: Mode) {
    a == Write || b == Write
  }

  /** Thread i waits for j: j holds the lock in a conflicting mode, or is a writer that holds back reader i. */
  ghost predicate WaitsFor(s: seq<Thread>, i: nat, j: nat) {
    && i < |s| && j < |s| && i != j && s[i].rest.Acquire?
    && var l, m := s[i].rest.lock, s[i].rest.mode;
       || (l in s[j].held && Conflicts(s[j].held[l], m))
       || (m == Read && s[j].rest.Acquire? && s[j].rest.lock == l && s[j].rest.mode == Write)
  }

  ghost predicate Blocked(s: seq<Thread>, i: nat) {
    exists j: nat :: WaitsFor(s, i, j)
  }

  ghost predicate Enabled(s: seq<Thread>, i: nat) {
    i < |s| && !s[i].rest.Done? && !Blocked(s, i)
  }

  /**
   * Thread i can be scheduled: no other thread holds its lock in a conflicting mode. Writer preference is left out
   * here, since a writer holds readers back only once it has called Lock; so the runs include all of sync.RWMutex's.
   */
  ghost predicate CanMove(s: seq<Thread>, i: nat) {
    && i < |s| && !s[i].rest.Done?
    && (s[i].rest.Acquire? ==>
          forall j :: 0 <= j < |s| && j != i && s[i].rest.lock in s[j].held ==>
            !Conflicts(s[j].held[s[i].rest.lock], s[i].rest.mode))
  }

  ghost function Advance(t: Thread): (r: Thread) {
    match t.rest
    case Done => t
    case Acquire(l, m, next) => Thread(t.held[l := m], next)
    case Access(_, _, next) => Thread(t.held, next)
    case Unlock(l, next) => Thread(t.held - {l}, next)
    case Send(next) => Thread(t.held, next)
  }

  /** A run: at each point some thread that can move performs its next instruction. */
  ghost predicate Run(s: seq<Thread>, schedule: seq<nat>, s': seq<Thread>)
    decreases |schedule|
  {
    if schedule == [] then s' == s
    else CanMove(s, schedule[0]) && Run(s[schedule[0] := Advance(s[schedule[0]])], schedule[1..], s')
  }

  /** Every thread keeps the discipline, and no lock is held in conflicting modes. */
  ghost predicate Disciplined(s: seq<Thread>) {
    && (forall i :: 0 <= i < |s| ==> Ordered(s[i].held, s[i].rest))
    && (forall i, j, l :: 0 <= i < |s| && 0 <= j < |s| && i != j && l in s[i].held && l in s[j].held ==>
          !Conflicts(s[i].held[l], s[j].held[l]))
  }

  lemma StepDisciplined(s: seq<Thread>, i: nat)
    requires Disciplined(s) && CanMove(s, i)
    ensures Disciplined(s[i := Advance(s[i])])
  {
    assert Ordered(s[i].held, s[i].rest);
  }

  lemma {:induction false} RunDisciplined(s: seq<Thread>, schedule: seq<nat>, s': seq<Thread>)
    requires Disciplined(s) && Run(s, schedule, s')
    ensures Disciplined(s')
    decreases |schedule|
  {
    hide Disciplined;
    if schedule != [] {
      StepDisciplined(s, schedule[0]);
      RunDisciplined(s[schedule[0] := Advance(s[schedule[0]])], schedule[1..], s');
    }
  }

  // ---------------------------------------------------------------- no circular wait

  function Level(p: Program): (r: nat)
    requires p.Acquire?
    ensures r <= 7
  {
    2 * Rank(p.lock) + if p.mode == Write then 1 else 0
  }

  /** Waiting only ever points upwards. */
  lemma WaitsRise(s: seq<Thread>, i: nat, j: nat)
    requires Disciplined(s) && WaitsFor(s, i, j)
    ensures !s[j].rest.Done? && !s[j].rest.Send?
    ensures s[j].rest.Acquire? ==> Level(s[i].rest) < Level(s[j].rest)
  {
    assert Ordered(s[j].held, s[j].rest);
    var l := s[i].rest.lock;
    if l in s[j].held && s[j].rest.Acquire? {
      assert Rank(l) < Rank(s[j].rest.lock);
    }
  }

  ghost predicate Circle(s: seq<Thread>, c: seq<nat>) {
    |c| > 0 && forall k :: 0 <= k < |c| ==> WaitsFor(s, c[k], c[if k + 1 == |c| then 0 else k + 1])
  }

  lemma {:induction false} LevelsRise(s: seq<Thread>, c: seq<nat>, k: nat)
    requires Disciplined(s) && Circle(s, c) && k < |c|
    ensures c[0] < |s| && s[c[0]].rest.Acquire? && c[k] < |s| && s[c[k]].rest.Acquire?
    ensures Level(s[c[0]].rest) + k <= Level(s[c[k]].rest)
  {
    assert WaitsFor(s, c[k], c[if k + 1 == |c| then 0 else k + 1]);
    assert WaitsFor(s, c[0], c[if 0 + 1 == |c| then 0 else 1]);
    if k > 0 {
      LevelsRise(s, c, k - 1);
      assert WaitsFor(s, c[k - 1], c[k]);
      WaitsRise(s, c[k - 1], c[k]);
    }
  }

  /** In no reachable state is there a circle of threads each waiting for the next. */
  lemma NoCircularWait(s: seq<Thread>, schedule: seq<nat>, s': seq<Thread>, c: seq<nat>)
    requires Disciplined(s) && Run(s, schedule, s')
    ensures !Circle(s', c)
  {
    RunDisciplined(s, schedule, s');
    if Circle(s', c) {
      var n := |c| - 1;
      LevelsRise(s', c, n);
      assert WaitsFor(s', c[n], c[0]);
      WaitsRise(s', c[n], c[0]);
    }
  }

  ghost predicate Chain(s: seq<Thread>, path: seq<nat>) {
    |path| > 0 && forall k :: 0 <= k < |path| - 1 ==> WaitsFor(s, path[k], path[k + 1])
  }

  /**
   * Every waiting thread's wait leads to a thread that can take its next step at once. That thread is not
   * sending, so a full action channel blocks no lock.
   */
  lemma {:induction false} WaitLeadsToEnabled(s: seq<Thread>, i: nat) returns (path: seq<nat>)
    requires Disciplined(s) && i < |s| && s[i].rest.Acquire?
    ensures Chain(s, path) && path[0] == i && path[|path| - 1] < |s|
    ensures Enabled(s, path[|path| - 1]) && !s[path[|path| - 1]].rest.Send?
    decreases 7 - Level(s[i].rest)
  {
    if !Blocked(s, i) {
      return [i];
    }
    var j: nat :| WaitsFor(s, i, j);
    WaitsRise(s, i, j);
    if s[j].rest.Acquire? {
      var tail := WaitLeadsToEnabled(s, j);
      path := [i] + tail;
    } else {
      path := [i, j];
    }
    forall k | 0 <= k < |path| - 1 ensures WaitsFor(s, path[k], path[k + 1]) {
      if k > 0 && s[j].rest.Acquire? { assert path[k] == path[1..][k - 1]; }
    }
  }

  // ---------------------------------------------------------------- the calls of the voting path

  /** How startVoteBox goes: not needed, too early, refused, failed to build, or built. */
  datatype Opening = BoxExists | TooEarly | NotAdmitted | BuildFailed(asksWallet: bool) | BuiltBox(asksWallet: bool)

  datatype Ending = Refused | Accepted(finalizes: bool, restore: bool, sends: bool, provider: bool, started: bool)

  datatype VotePath = VotePath(id: ID, hash: nat, newID: bool, opening: Opening, ending: Ending)

  /** One use of what a lock protects, with the lock taken for it alone. */
  function Guarded(l: Lock, m: Mode, next: Program): (r: Program) {
    Acquire(l, m, Access(l, m, Unlock(l, next)))
  }

  function Optional(b: bool, l: Lock, m: Mode, next: Program): (r: Program) {
    if b then Guarded(l, m, next) else next
  }

  /** Deferred unlocks, in the reverse of their order of acquisition. */
  function Leave(v: VotePath, next: Program): (r: Program) {
    Unlock(BoxesLock(v.id), if v.newID then Unlock(VotingLock, next) else next)
  }

  /** After the closure: participant marks, then the send, with no lock of the voting path held. */
  function Afterwards(e: Ending): (r: Program)
    requires e.Accepted?
  {
    Optional(e.provider, VotersLock, Write,
      Optional(e.provider, VotersLock, Write,
        Optional(e.started, VotersLock, Write,
          if e.sends then Send(Done) else Done)))
  }

  /** The vote is written; a new box enters its table, and a new table the round's. */
  function StoreSection(v: VotePath, next: Program): (r: Program) {
    var entered := if v.newID then Access(VotingLock, Write, next) else next;
    var stored := if v.opening.BuiltBox? then Access(BoxesLock(v.id), Write, entered) else entered;
    Access(BoxLock(v.id, v.hash), Write, stored)
  }

  /** A finalizing vote frees the slot; unless it is a restore, the first winner is set and the action built. */
  function FinalizeSection(v: VotePath, restore: bool, next: Program): (r: Program) {
    Guarded(LimiterLock, Write,
      if restore then next else Access(BoxesLock(v.id), Write, Access(BoxLock(v.id, v.hash), Read, next)))
  }

  function CastSection(v: VotePath): (r: Program) {
    var box := BoxLock(v.id, v.hash);
    Acquire(box, Write, Access(box, Read,
      if v.ending.Refused? then Unlock(box, Leave(v, Done))
      else
        var leave := Unlock(box, Leave(v, Afterwards(v.ending)));
        StoreSection(v, if v.ending.finalizes then FinalizeSection(v, v.ending.restore, leave) else leave)))
  }

  function OpenSection(v: VotePath): (r: Program) {
    match v.opening
    case BoxExists => CastSection(v)
    case TooEarly => Leave(v, Done)
    case NotAdmitted => Guarded(LimiterLock, Write, Leave(v, Done))
    case BuildFailed(asks) =>
      Guarded(LimiterLock, Write, Optional(asks, WalletLock, Read, Guarded(LimiterLock, Write, Leave(v, Done))))
    case BuiltBox(asks) => Guarded(LimiterLock, Write, Optional(asks, WalletLock, Read, CastSection(v)))
  }

  function AddVoteProgram(v: VotePath): (r: Program) {
    var inner := Acquire(BoxesLock(v.id), Write, Access(BoxesLock(v.id), Read, OpenSection(v)));
    Acquire(VotingLock, Write, Access(VotingLock, Read, if v.newID then inner else Unlock(VotingLock, inner)))
  }

  function Sends(n: nat): (r: Program) {
    if n == 0 then Done else Send(Sends(n - 1))
  }

  /** The box and the first winner are read, actions built, and the box deleted. */
  function ScheduleEndProgram(id: ID, hash: nat, actions: nat): (r: Program) {
    var box := BoxLock(id, hash);
    Acquire(BoxesLock(id), Read, Acquire(box, Write,
      Access(box, Read, Access(BoxesLock(id), Read, Access(box, Write,
        Unlock(box, Unlock(BoxesLock(id), Sends(actions))))))))
  }

  function StatusOfBoxes(id: ID, hashes: seq<nat>): (r: Program) {
    if hashes == [] then Unlock(BoxesLock(id), Done)
    else Guarded(BoxLock(id, hashes[0]), Read, StatusOfBoxes(id, hashes[1..]))
  }

  function StatusesProgram(id: ID, known: bool, hashes: seq<nat>): (r: Program) {
    Guarded(VotingLock, Read,
      if known then Acquire(BoxesLock(id), Read, Access(BoxesLock(id), Read, StatusOfBoxes(id, hashes))) else Done)
  }

  /** A lock taken and released on its own: wallet writers, limiter readers, participant gauges. */
  function LoneProgram(l: Lock, m: Mode): (r: Program) {
    Guarded(l, m, Done)
  }

  lemma GuardedOrdered(held: map<Lock, Mode>, l: Lock, m: Mode, next: Program)
    requires Above(held, l) && Ordered(held, next)
    ensures Ordered(held, Guarded(l, m, next))
  {
    assert l !in held;
    assert held[l := m] - {l} == held;
  }

  ghost function BoxesHeld(v: VotePath): (r: map<Lock, Mode>) {
    if v.newID then map[VotingLock := Write, BoxesLock(v.id) := Write] else map[BoxesLock(v.id) := Write]
  }

  lemma LeaveOrdered(v: VotePath, next: Program)
    requires Ordered(map[], next)
    ensures Ordered(BoxesHeld(v), Leave(v, next))
  {
    if v.newID {
      assert BoxesHeld(v) - {BoxesLock(v.id)} == map[VotingLock := Write];
      assert map[VotingLock := Write] - {VotingLock} == map[];
    } else {
      assert BoxesHeld(v) - {BoxesLock(v.id)} == map[];
    }
  }

  lemma AfterwardsOrdered(e: Ending)
    requires e.Accepted?
    ensures Ordered(map[], Afterwards(e))
  {
    var tail := if e.sends then Send(Done) else Done;
    assert Ordered(map[], tail);
    GuardedOrdered(map[], VotersLock, Write, tail);
    var marked := Optional(e.started, VotersLock, Write, tail);
    GuardedOrdered(map[], VotersLock, Write, marked);
    GuardedOrdered(map[], VotersLock, Write, Optional(e.provider, VotersLock, Write, marked));
  }

  lemma StoreOrdered(v: VotePath, next: Program)
    requires Ordered(BoxesHeld(v)[BoxLock(v.id, v.hash) := Write], next)
    ensures Ordered(BoxesHeld(v)[BoxLock(v.id, v.hash) := Write], StoreSection(v, next))
  {
    var held := BoxesHeld(v)[BoxLock(v.id, v.hash) := Write];
    var entered := if v.newID then Access(VotingLock, Write, next) else next;
    assert Ordered(held, entered);
    assert Ordered(held, if v.opening.BuiltBox? then Access(BoxesLock(v.id), Write, entered) else entered);
  }

  lemma FinalizeOrdered(v: VotePath, restore: bool, next: Program)
    requires Ordered(BoxesHeld(v)[BoxLock(v.id, v.hash) := Write], next)
    ensures Ordered(BoxesHeld(v)[BoxLock(v.id, v.hash) := Write], FinalizeSection(v, restore, next))
  {
    var held, box := BoxesHeld(v)[BoxLock(v.id, v.hash) := Write], BoxLock(v.id, v.hash);
    assert Ordered(held, Access(box, Read, next));
    var settled := if restore then next else Access(BoxesLock(v.id), Write, Access(box, Read, next));
    GuardedOrdered(held, LimiterLock, Write, settled);
  }

  lemma CastOrdered(v: VotePath)
    ensures Ordered(BoxesHeld(v), CastSection(v))
  {
    var box := BoxLock(v.id, v.hash);
    var held := BoxesHeld(v)[box := Write];
    assert held - {box} == BoxesHeld(v);
    if v.ending.Refused? {
      LeaveOrdered(v, Done);
      assert Ordered(held, Unlock(box, Leave(v, Done)));
    } else {
      AfterwardsOrdered(v.ending);
      LeaveOrdered(v, Afterwards(v.ending));
      var leave := Unlock(box, Leave(v, Afterwards(v.ending)));
      FinalizeOrdered(v, v.ending.restore, leave);
      var rest := if v.ending.finalizes then FinalizeSection(v, v.ending.restore, leave) else leave;
      StoreOrdered(v, rest);
      assert Ordered(held, Access(box, Read, StoreSection(v, rest)));
    }
  }

  lemma OpenOrdered(v: VotePath)
    ensures Ordered(BoxesHeld(v), OpenSection(v))
  {
    var held := BoxesHeld(v);
    CastOrdered(v);
    LeaveOrdered(v, Done);
    var leave, cast := Leave(v, Done), CastSection(v);
    GuardedOrdered(held, LimiterLock, Write, leave);
    var release := Guarded(LimiterLock, Write, leave);
    GuardedOrdered(held, WalletLock, Read, release);
    GuardedOrdered(held, WalletLock, Read, cast);
    hide Ordered, Guarded, Leave, CastSection;
    if v.opening.BuildFailed? {
      GuardedOrdered(held, LimiterLock, Write, Optional(v.opening.asksWallet, WalletLock, Read, release));
    }
    if v.opening.BuiltBox? {
      GuardedOrdered(held, LimiterLock, Write, Optional(v.opening.asksWallet, WalletLock, Read, cast));
    }
  }

  /** Every path through AddVote keeps the lock order, on any branch outcome. */
  lemma AddVoteOrdered(v: VotePath)
    ensures Ordered(map[], AddVoteProgram(v))
  {
    OpenOrdered(v);
    assert Ordered(BoxesHeld(v), Access(BoxesLock(v.id), Read, OpenSection(v)));
    assert map[VotingLock := Write] - {VotingLock} == map[];
    var open: map<Lock, Mode> := map[];
    assert open[VotingLock := Write] == map[VotingLock := Write];
    assert map[VotingLock := Write][BoxesLock(v.id) := Write] == map[VotingLock := Write, BoxesLock(v.id) := Write];
    assert open[BoxesLock(v.id) := Write] == map[BoxesLock(v.id) := Write];
    var inner := Acquire(BoxesLock(v.id), Write, Access(BoxesLock(v.id), Read, OpenSection(v)));
    var outer := if v.newID then inner else Unlock(VotingLock, inner);
    assert Ordered(map[VotingLock := Write], outer);
    assert Ordered(map[VotingLock := Write], Access(VotingLock, Read, outer));
  }

  lemma {:induction false} SendsOrdered(n: nat)
    ensures Ordered(map[], Sends(n))
  {
    if n > 0 { SendsOrdered(n - 1); }
  }

  lemma ScheduleEndOrdered(id: ID, hash: nat, actions: nat)
    ensures Ordered(map[], ScheduleEndProgram(id, hash, actions))
  {
    SendsOrdered(actions);
    var h0: map<Lock, Mode> := map[];
    var h1 := h0[BoxesLock(id) := Read];
    var h2 := h1[BoxLock(id, hash) := Write];
    assert h2 - {BoxLock(id, hash)} == h1 && h1 - {BoxesLock(id)} == h0;
    var box := BoxLock(id, hash);
    var last := Unlock(BoxesLock(id), Sends(actions));
    assert Ordered(h1, last);
    assert Ordered(h2, Access(box, Write, Unlock(box, last)));
    assert Ordered(h2, Access(box, Read, Access(BoxesLock(id), Read, Access(box, Write, Unlock(box, last)))));
  }

  lemma {:induction false} StatusOfBoxesOrdered(id: ID, hashes: seq<nat>)
    ensures Ordered(map[BoxesLock(id) := Read], StatusOfBoxes(id, hashes))
    decreases |hashes|
  {
    if hashes == [] {
      assert map[BoxesLock(id) := Read] - {BoxesLock(id)} == map[];
    } else {
      StatusOfBoxesOrdered(id, hashes[1..]);
      GuardedOrdered(map[BoxesLock(id) := Read], BoxLock(id, hashes[0]), Read, StatusOfBoxes(id, hashes[1..]));
    }
  }

  lemma StatusesOrdered(id: ID, known: bool, hashes: seq<nat>)
    ensures Ordered(map[], StatusesProgram(id, known, hashes))
  {
    StatusOfBoxesOrdered(id, hashes);
    var h0: map<Lock, Mode> := map[];
    assert h0[BoxesLock(id) := Read] == map[BoxesLock(id) := Read];
    var next := if known then Acquire(BoxesLock(id), Read, Access(BoxesLock(id), Read, StatusOfBoxes(id, hashes)))
        else Done;
    GuardedOrdered(h0, VotingLock, Read, next);
  }

  /** The calls that use these locks. */
  datatype Task =
    | AddVoteTask(path: VotePath)
    | ScheduleEndTask(id: ID, hash: nat, actions: nat)
    | StatusesTask(id: ID, known: bool, hashes: seq<nat>)
    | LoneTask(lock: Lock, mode: Mode)

  function ProgramOf(t: Task): (r: Program) {
    match t
    case AddVoteTask(v) => AddVoteProgram(v)
    case ScheduleEndTask(id, hash, actions) => ScheduleEndProgram(id, hash, actions)
    case StatusesTask(id, known, hashes) => StatusesProgram(id, known, hashes)
    case LoneTask(l, m) => LoneProgram(l, m)
  }

  function Spawn(tasks: seq<Task>): (r: seq<Thread>) {
    seq(|tasks|, i requires 0 <= i < |tasks| => Thread(map[], ProgramOf(tasks[i])))
  }

  lemma SpawnDisciplined(tasks: seq<Task>)
    ensures Disciplined(Spawn(tasks))
  {
    forall i | 0 <= i < |tasks| ensures Ordered(map[], ProgramOf(tasks[i])) {
      match tasks[i]
      case AddVoteTask(v) => AddVoteOrdered(v);
      case ScheduleEndTask(id, hash, actions) => ScheduleEndOrdered(id, hash, actions);
      case StatusesTask(id, known, hashes) => StatusesOrdered(id, known, hashes);
      case LoneTask(l, m) => GuardedOrdered(map[], l, m, Done);
    }
  }

  /** Moving under writer preference is one of the moves of a run. */
  lemma EnabledCanMove(s: seq<Thread>, i: nat)
    requires Enabled(s, i)
    ensures CanMove(s, i)
  {
    forall j | 0 <= j < |s| && j != i && s[i].rest.Acquire? && s[i].rest.lock in s[j].held
      ensures !Conflicts(s[j].held[s[i].rest.lock], s[i].rest.mode)
    {
      assert !WaitsFor(s, i, j);
    }
  }

  /** A status query may take the Voting lock before an AddVote calls Lock, and the AddVote then waits for it. */
  lemma ReaderFirst(v: VotePath, id: ID)
    ensures var s := Spawn([AddVoteTask(v), StatusesTask(id, false, [])]);
            CanMove(s, 1) && WaitsFor(s[1 := Advance(s[1])], 0, 1)
  {
  }

  /**
   * Whatever calls run and however they interleave: no circular wait, no lock held in conflicting modes, no
   * lock held while sending, and every waiting call is behind one that can move now.
   */
  lemma VotingPathDeadlockFree(tasks: seq<Task>, schedule: seq<nat>, s: seq<Thread>, i: nat) returns (path: seq<nat>)
    requires Run(Spawn(tasks), schedule, s) && i < |s|
    ensures forall c :: !Circle(s, c)
    ensures s[i].rest.Send? || s[i].rest.Done? ==> s[i].held == map[]
    ensures forall j, l :: 0 <= j < |s| && j != i && l in s[i].held && l in s[j].held ==>
              s[i].held[l] == Read && s[j].held[l] == Read
    ensures s[i].rest.Acquire? ==>
              && Chain(s, path) && path[0] == i && path[|path| - 1] < |s|
              && Enabled(s, path[|path| - 1]) && CanMove(s, path[|path| - 1]) && !s[path[|path| - 1]].rest.Send?
  {
    SpawnDisciplined(tasks);
    forall c ensures !Circle(s, c) { NoCircularWait(Spawn(tasks), schedule, s, c); }
    RunDisciplined(Spawn(tasks), schedule, s);
    assert Ordered(s[i].held, s[i].rest);
    path := [];
    if s[i].rest.Acquire? {
      path := WaitLeadsToEnabled(s, i);
      EnabledCanMove(s, path[|path| - 1]);
    }
  }

  /** No data race: two calls about to use what one lock protects both only read, and each holds the lock. */
  lemma VotingPathRaceFree(tasks: seq<Task>, schedule: seq<nat>, s: seq<Thread>, i: nat, j: nat)
    requires Run(Spawn(tasks), schedule, s) && i < |s| && j < |s| && i != j
    requires s[i].rest.Access? && s[j].rest.Access? && s[i].rest.lock == s[j].rest.lock
    ensures s[i].rest.mode == Read && s[j].rest.mode == Read
    ensures s[i].rest.lock in s[i].held && s[j].rest.lock in s[j].held
  {
    SpawnDisciplined(tasks);
    RunDisciplined(Spawn(tasks), schedule, s);
    assert Ordered(s[i].held, s[i].rest) && Ordered(s[j].held, s[j].rest);
  }
}
