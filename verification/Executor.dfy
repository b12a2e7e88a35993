/**
 `ExecuteRunners` of `hack/installtest/run.go` as interleaved processes: the main goroutine,
 one goroutine per runner, and the status goroutine.  A step is one blocking operation or one
 visible write of one process; a process that cannot take its next step is blocked.
 */
module Executor {

  /** `leaves(i)` says whether runner i's `Run` leaves `ProcessState` set: it stays nil when the
      process could not be started. */
  datatype Config = Config(n: nat, maxConcurrency: int, leaves: nat -> bool) {
    function Limit(): nat {
      if maxConcurrency <= 0 then n else maxConcurrency
    }

    ghost predicate AllLeave() {
      forall i: nat :: i < n ==> leaves(i)
    }
  }

  datatype Main =
    | Fill(k: nat)        // k tokens are in the channel
    | Dispatch(i: nat)    // about to receive the token for runner i
    | Spawn(i: nat)       // holds a token, about to start runner i's goroutine
    | WaitGroup
    | Join                // about to receive from the status channel
    | Finished

  /** A runner's goroutine.  Deferred calls run last in, first out: the wait group is released
      before the token goes back. */
  datatype Phase = Idle | Ready | Running | Exited | Ran | Released | Gone

  datatype Poller = Off | Scan(j: nat, numDone: nat) | Sleep | Send | Ended

  datatype State = State(
    main: Main,
    tokens: nat,          // filled slots of the channel, whose capacity is the limit
    wg: int,
    phases: seq<Phase>,
    runs: seq<nat>,       // how often each runner's Run was entered
    exited: seq<bool>,    // ProcessState != nil
    poller: Poller)

  datatype Process = MainProcess | Runner(i: nat) | StatusProcess

  function Init(c: Config): State {
    State(Fill(0), 0, c.n, seq(c.n, _ => Idle), seq(c.n, _ => 0), seq(c.n, _ => false), Off)
  }

  predicate Shaped(c: Config, s: State) {
    |s.phases| == |s.runs| == |s.exited| == c.n
  }

  /** Can process p take its next step? */
  predicate Enabled(c: Config, s: State, p: Process)
    requires Shaped(c, s)
  {
    match p
    case MainProcess =>
      (match s.main
       case Fill(k) => k < c.Limit() ==> s.tokens < c.Limit()
       case Dispatch(i) => i < c.n ==> s.tokens > 0
       case Spawn(i) => i < c.n
       case WaitGroup => s.wg == 0
       case Join => s.poller.Send?
       case Finished => false)
    case Runner(i) =>
      i < c.n && !s.phases[i].Idle? && !s.phases[i].Gone? && (s.phases[i].Released? ==> s.tokens < c.Limit())
    case StatusProcess =>
      s.poller.Sleep? || (s.poller.Scan? && s.poller.j <= c.n)
  }

  function Step(c: Config, s: State, p: Process): (s': State)
    requires Shaped(c, s) && Enabled(c, s, p)
    ensures Shaped(c, s')
  {
    match p
    case MainProcess =>
      (match s.main
       case Fill(k) =>
         if k < c.Limit() then s.(main := Fill(k + 1), tokens := s.tokens + 1)
         else s.(main := Dispatch(0), poller := Scan(0, 0))
       case Dispatch(i) =>
         if i < c.n then s.(main := Spawn(i), tokens := s.tokens - 1) else s.(main := WaitGroup)
       case Spawn(i) => s.(main := Dispatch(i + 1), phases := s.phases[i := Ready])
       case WaitGroup => s.(main := Join)
       case Join => s.(main := Finished, poller := Ended))
    case Runner(i) =>
      (match s.phases[i]
       case Ready => s.(phases := s.phases[i := Running], runs := s.runs[i := s.runs[i] + 1])
       case Running => s.(phases := s.phases[i := Exited], exited := s.exited[i := c.leaves(i)])
       case Exited => s.(phases := s.phases[i := Ran])
       case Ran => s.(phases := s.phases[i := Released], wg := s.wg - 1)
       case Released => s.(phases := s.phases[i := Gone], tokens := s.tokens + 1))
    case StatusProcess =>
      (match s.poller
       case Sleep => s.(poller := Scan(0, 0))
       case Scan(j, d) =>
         if j < c.n then s.(poller := Scan(j + 1, if s.exited[j] then d + 1 else d))
         else if d >= c.n then s.(poller := Send)
         else s.(poller := Sleep))
  }

  // ---------------------------------------------------------------- counting runners

  /** Dispatched, token not yet returned. */
  predicate InFlight(ph: Phase) {
    !ph.Idle? && !ph.Gone?
  }

  /** Inside `Run`, its process not yet waited for. */
  predicate AtWork(ph: Phase) {
    ph.Running?
  }

  /** Still counted by the wait group. */
  predicate Pending(ph: Phase) {
    !ph.Released? && !ph.Gone?
  }

  /** Its process was waited for. */
  predicate PastExit(ph: Phase) {
    ph.Exited? || ph.Ran? || ph.Released? || ph.Gone?
  }

  function Count(f: Phase -> bool, phases: seq<Phase>): (n: nat)
    ensures n <= |phases|
  {
    if phases == [] then 0 else (if f(phases[0]) then 1 else 0) + Count(f, phases[1..])
  }

  lemma {:induction false} CountUpdate(f: Phase -> bool, phases: seq<Phase>, i: nat, ph: Phase)
    requires i < |phases|
    ensures Count(f, phases[i := ph])
         == Count(f, phases) + (if f(ph) then 1 else 0) - (if f(phases[i]) then 1 else 0)
  {
    if i == 0 {
      assert phases[0 := ph][1..] == phases[1..];
    } else {
      assert phases[i := ph][1..] == phases[1..][i - 1 := ph];
      CountUpdate(f, phases[1..], i - 1, ph);
    }
  }

  lemma {:induction false} CountAll(f: Phase -> bool, phases: seq<Phase>, b: bool)
    requires forall i :: 0 <= i < |phases| ==> f(phases[i]) == b
    ensures Count(f, phases) == if b then |phases| else 0
  {
    if phases != [] {
      CountAll(f, phases[1..], b);
    }
  }

  lemma {:induction false} CountPositive(f: Phase -> bool, phases: seq<Phase>, i: nat)
    requires i < |phases| && f(phases[i])
    ensures Count(f, phases) > 0
  {
    if i > 0 {
      CountPositive(f, phases[1..], i - 1);
    }
  }

  lemma {:induction false} CountZero(f: Phase -> bool, phases: seq<Phase>)
    requires Count(f, phases) == 0
    ensures forall i :: 0 <= i < |phases| ==> !f(phases[i])
  {
    if phases != [] {
      CountZero(f, phases[1..]);
      assert forall i :: 1 <= i < |phases| ==> phases[i] == phases[1..][i - 1];
    }
  }

  lemma {:induction false} CountMonotone(f: Phase -> bool, g: Phase -> bool, phases: seq<Phase>)
    requires forall ph :: f(ph) ==> g(ph)
    ensures Count(f, phases) <= Count(g, phases)
  {
    if phases != [] {
      CountMonotone(f, g, phases[1..]);
    }
  }

  // ---------------------------------------------------------------- the invariant

  /** Tokens in the channel, in the main goroutine's hand, and out with runners make up the limit. */
  ghost predicate Conserved(c: Config, s: State) {
    match s.main
    case Fill(k) => s.tokens == k && Count(InFlight, s.phases) == 0
    case Spawn(_) => s.tokens + 1 + Count(InFlight, s.phases) == c.Limit()
    case _ => s.tokens + Count(InFlight, s.phases) == c.Limit()
  }

  /** How many runners the main goroutine has started. */
  function Started(c: Config, m: Main): nat {
    match m
    case Fill(_) => 0
    case Dispatch(i) => i
    case Spawn(i) => i
    case _ => c.n
  }

  ghost predicate MainAndRunners(c: Config, s: State)
    requires Shaped(c, s)
  {
    && Started(c, s.main) <= c.n
    && (s.main.Fill? ==> s.main.k <= c.Limit())
    && (s.main.Spawn? ==> s.main.i < c.n)
    && (s.main.Join? || s.main.Finished? ==> s.wg == 0)
    && s.wg == Count(Pending, s.phases)
    && (forall i :: 0 <= i < c.n ==> (s.phases[i].Idle? <==> i >= Started(c, s.main)))
    && (forall i :: 0 <= i < c.n ==> s.runs[i] == if s.phases[i].Idle? || s.phases[i].Ready? then 0 else 1)
    && (forall i :: 0 <= i < c.n ==> (s.exited[i] <==> c.leaves(i) && PastExit(s.phases[i])))
  }

  ghost predicate PollerTruthful(c: Config, s: State)
    requires Shaped(c, s)
  {
    && (s.main.Fill? <==> s.poller.Off?)
    && (s.main.Finished? <==> s.poller.Ended?)
    && (s.poller.Scan? ==>
          && s.poller.numDone <= s.poller.j <= c.n
          && (s.poller.numDone == s.poller.j ==> forall i :: 0 <= i < s.poller.j ==> s.exited[i]))
    && (s.poller.Send? || s.poller.Ended? ==> forall i :: 0 <= i < c.n ==> s.exited[i])
  }

  ghost predicate Inv(c: Config, s: State) {
    Shaped(c, s) && Conserved(c, s) && MainAndRunners(c, s) && PollerTruthful(c, s)
  }

  lemma {:induction false} InitInv(c: Config)
    ensures Inv(c, Init(c))
  {
    CountAll(InFlight, Init(c).phases, false);
    CountAll(Pending, Init(c).phases, true);
  }

  lemma {:induction false} MainRecounts(c: Config, s: State)
    requires Inv(c, s) && Enabled(c, s, MainProcess)
    ensures var s' := Step(c, s, MainProcess); Conserved(c, s') && s'.wg == Count(Pending, s'.phases)
  {
    if s.main.Spawn? {
      CountUpdate(InFlight, s.phases, s.main.i, Ready);
      CountUpdate(Pending, s.phases, s.main.i, Ready);
    }
  }

  lemma {:induction false} RunnerRecounts(c: Config, s: State, i: nat)
    requires Inv(c, s) && Enabled(c, s, Runner(i))
    ensures var s' := Step(c, s, Runner(i)); Conserved(c, s') && s'.wg == Count(Pending, s'.phases)
  {
    CountUpdate(InFlight, s.phases, i, Step(c, s, Runner(i)).phases[i]);
    CountUpdate(Pending, s.phases, i, Step(c, s, Runner(i)).phases[i]);
    assert !s.main.Fill?;
  }

  lemma {:induction false} MainStepKeeps(c: Config, s: State)
    requires Inv(c, s) && Enabled(c, s, MainProcess)
    ensures MainAndRunners(c, Step(c, s, MainProcess))
  {
    MainRecounts(c, s);
    match s.main
    case Fill(_) =>
    case Dispatch(_) =>
    case Spawn(_) =>
    case WaitGroup =>
    case Join =>
  }

  lemma {:induction false} RunnerStepKeeps(c: Config, s: State, i: nat)
    requires Inv(c, s) && Enabled(c, s, Runner(i))
    ensures MainAndRunners(c, Step(c, s, Runner(i)))
  {
    RunnerRecounts(c, s, i);
    match s.phases[i]
    case Ready =>
    case Running =>
    case Exited =>
    case Ran => CountPositive(Pending, s.phases, i);
    case Released =>
  }

  lemma {:induction false} StatusStepKeeps(c: Config, s: State)
    requires Inv(c, s) && Enabled(c, s, StatusProcess)
    ensures Inv(c, Step(c, s, StatusProcess))
  {
  }

  lemma {:induction false} PollerStaysTruthful(c: Config, s: State, p: Process)
    requires Inv(c, s) && Enabled(c, s, p) && !p.StatusProcess?
    ensures PollerTruthful(c, Step(c, s, p))
  {
  }

  lemma {:induction false} StepKeepsInv(c: Config, s: State, p: Process)
    requires Inv(c, s) && Enabled(c, s, p)
    ensures Inv(c, Step(c, s, p))
  {
    match p
    case MainProcess =>
      MainRecounts(c, s);
      MainStepKeeps(c, s);
      PollerStaysTruthful(c, s, p);
    case Runner(i) =>
      RunnerRecounts(c, s, i);
      RunnerStepKeeps(c, s, i);
      PollerStaysTruthful(c, s, p);
    case StatusProcess => StatusStepKeeps(c, s);
  }

  // ---------------------------------------------------------------- safety over every interleaving

  /** An infinite interleaving: who is given the turn at each moment, and the states passed
      through.  A process that is given the turn while blocked does nothing. */
  datatype Execution = Execution(state: nat -> State, turn: nat -> Process)

  ghost predicate IsExecution(c: Config, x: Execution) {
    && x.state(0) == Init(c)
    && (forall k: nat :: Shaped(c, x.state(k)))
    && (forall k: nat :: x.state(k + 1) ==
                           if Enabled(c, x.state(k), x.turn(k)) then Step(c, x.state(k), x.turn(k)) else x.state(k))
  }

  lemma {:induction false} ExecutionKeepsInv(c: Config, x: Execution, k: nat)
    requires IsExecution(c, x)
    ensures Inv(c, x.state(k))
  {
    if k == 0 {
      InitInv(c);
    } else {
      ExecutionKeepsInv(c, x, k - 1);
      assert x.state(k - 1 + 1) == x.state(k);
      if Enabled(c, x.state(k - 1), x.turn(k - 1)) {
        StepKeepsInv(c, x.state(k - 1), x.turn(k - 1));
      }
    }
  }

  /** Tokens are conserved once the channel is filled, no more runners than the limit are ever
      in flight, let alone running, and a runner handing its token back is never blocked. */
  lemma {:induction false} TokensBoundConcurrency(c: Config, x: Execution, k: nat)
    requires IsExecution(c, x)
    ensures var s := x.state(k);
            && (!s.main.Fill? ==>
                  s.tokens + Count(InFlight, s.phases) + (if s.main.Spawn? then 1 else 0) == c.Limit())
            && Count(AtWork, s.phases) <= Count(InFlight, s.phases) <= c.Limit()
            && (c.maxConcurrency > 0 ==> Count(InFlight, s.phases) <= c.maxConcurrency)
            && (forall i: nat :: i < c.n && s.phases[i].Released? ==> Enabled(c, s, Runner(i)))
  {
    ExecutionKeepsInv(c, x, k);
    var s := x.state(k);
    CountMonotone(AtWork, InFlight, s.phases);
    forall i: nat | i < c.n && s.phases[i].Released?
      ensures Enabled(c, s, Runner(i))
    {
      CountPositive(InFlight, s.phases, i);
    }
  }

  /** No runner is ever entered twice, and once `ExecuteRunners` has returned every runner has
      run exactly once, to its end, and been seen to exit. */
  lemma {:induction false} EachRunnerRunsOnce(c: Config, x: Execution, k: nat, i: nat)
    requires IsExecution(c, x) && i < c.n
    ensures var s := x.state(k);
            && s.runs[i] <= 1
            && (s.main.Finished? ==>
                  s.runs[i] == 1 && s.exited[i] && (s.phases[i].Released? || s.phases[i].Gone?))
  {
    ExecutionKeepsInv(c, x, k);
    var s := x.state(k);
    if s.main.Finished? {
      CountZero(Pending, s.phases);
    }
  }

  /** The states passed through when the processes get these turns. */
  function Played(c: Config, turn: nat -> Process, k: nat): (s: State)
    ensures Shaped(c, s)
  {
    if k == 0 then Init(c)
    else
      var s := Played(c, turn, k - 1);
      if Enabled(c, s, turn(k - 1)) then Step(c, s, turn(k - 1)) else s
  }

  function Playing(c: Config, turn: nat -> Process): Execution {
    Execution((k: nat) => Played(c, turn, k), turn)
  }

  lemma {:induction false} PlayingIsExecution(c: Config, turn: nat -> Process)
    ensures IsExecution(c, Playing(c, turn))
  {
  }

  // ---------------------------------------------------------------- the limit is used up

  /** As many runners at work as there ever can be: all of them without a limit, and no more than
      the limit otherwise. */
  function FullHouse(c: Config): nat {
    if c.maxConcurrency <= 0 || c.n <= c.maxConcurrency then c.n else c.maxConcurrency
  }

  /** The main goroutine first, until the house is full; then the runners' first steps. */
  function Filling(c: Config): nat -> Process {
    (k: nat) =>
      var start := c.Limit() + 1 + 2 * FullHouse(c);
      if start <= k < start + FullHouse(c) then Runner(k - start) else MainProcess
  }

  lemma {:induction false} ChannelFills(c: Config, k: nat)
    requires k <= c.Limit()
    ensures Played(c, Filling(c), k) == Init(c).(main := Fill(k), tokens := k)
  {
    if k > 0 {
      ChannelFills(c, k - 1);
    }
  }

  /** The first j runners have been started and the next one is up. */
  ghost predicate Spawned(c: Config, s: State, j: nat) {
    && Shaped(c, s) && s.main == Dispatch(j) && s.tokens == c.Limit() - j
    && forall i :: 0 <= i < c.n ==> s.phases[i] == if i < j then Ready else Idle
  }

  lemma {:induction false} RunnersSpawn(c: Config, j: nat)
    requires j <= FullHouse(c)
    ensures Spawned(c, Played(c, Filling(c), c.Limit() + 1 + 2 * j), j)
  {
    if j == 0 {
      ChannelFills(c, c.Limit());
    } else {
      var k := c.Limit() + 1 + 2 * (j - 1);
      RunnersSpawn(c, j - 1);
      assert Filling(c)(k) == MainProcess && Filling(c)(k + 1) == MainProcess;
      MainSpawns(c, Filling(c), k, j - 1);
    }
  }

  lemma {:induction false} MainSpawns(c: Config, turn: nat -> Process, k: nat, j: nat)
    requires turn(k) == MainProcess && turn(k + 1) == MainProcess && j < FullHouse(c)
    requires Spawned(c, Played(c, turn, k), j)
    ensures Spawned(c, Played(c, turn, k + 2), j + 1)
  {
    var s, t := Played(c, turn, k), Played(c, turn, k + 1);
    assert t == s.(main := Spawn(j), tokens := s.tokens - 1);
    assert Played(c, turn, k + 2) == t.(main := Dispatch(j + 1), phases := t.phases[j := Ready]);
  }

  /** The first r runners of a full house are inside `Run`, the others are about to enter it. */
  ghost predicate Entered(c: Config, s: State, r: nat) {
    Shaped(c, s) && forall i :: 0 <= i < c.n ==>
      s.phases[i] == if i < r then Running else if i < FullHouse(c) then Ready else Idle
  }

  lemma {:induction false} RunnersEnter(c: Config, r: nat)
    requires r <= FullHouse(c)
    ensures Entered(c, Played(c, Filling(c), c.Limit() + 1 + 2 * FullHouse(c) + r), r)
  {
    var k := c.Limit() + 1 + 2 * FullHouse(c) + r;
    if r == 0 {
      RunnersSpawn(c, FullHouse(c));
    } else {
      RunnersEnter(c, r - 1);
      assert Filling(c)(k - 1) == Runner(r - 1);
    }
  }

  lemma {:induction false} CountPrefix(f: Phase -> bool, phases: seq<Phase>, m: nat)
    requires m <= |phases| && forall i :: 0 <= i < |phases| ==> (f(phases[i]) <==> i < m)
    ensures Count(f, phases) == m
  {
    if phases != [] {
      CountPrefix(f, phases[1..], if m > 0 then m - 1 else 0);
    }
  }

  /** The bound is tight: some interleaving has n runners at work at once when there is no limit,
      and otherwise as many as the limit and n allow. */
  lemma {:induction false} LimitIsReached(c: Config) returns (x: Execution, k: nat)
    ensures IsExecution(c, x)
    ensures Count(AtWork, x.state(k).phases)
         == if c.maxConcurrency <= 0 || c.n <= c.maxConcurrency then c.n else c.maxConcurrency
    ensures forall i :: 0 <= i < Count(AtWork, x.state(k).phases) ==> x.state(k).phases[i] == Running
  {
    x, k := HouseFills(c);
    EnteredAreAtWork(c, x.state(k));
  }

  lemma {:induction false} HouseFills(c: Config) returns (x: Execution, k: nat)
    ensures IsExecution(c, x) && Entered(c, x.state(k), FullHouse(c))
  {
    x, k := Playing(c, Filling(c)), c.Limit() + 1 + 2 * FullHouse(c) + FullHouse(c);
    assert Entered(c, x.state(k), FullHouse(c)) by {
      RunnersEnter(c, FullHouse(c));
    }
    assert IsExecution(c, x) by {
      PlayingIsExecution(c, Filling(c));
    }
  }

  lemma {:induction false} EnteredAreAtWork(c: Config, s: State)
    requires Entered(c, s, FullHouse(c))
    ensures Count(AtWork, s.phases) == FullHouse(c)
    ensures forall i :: 0 <= i < FullHouse(c) ==> s.phases[i] == Running
  {
    CountPrefix(AtWork, s.phases, FullHouse(c));
  }

  // ---------------------------------------------------------------- liveness

  ghost predicate Served(c: Config, x: Execution, p: Process, m: nat)
    requires IsExecution(c, x)
  {
    x.turn(m) == p || !Enabled(c, x.state(m), p)
  }

  ghost predicate ServedFrom(c: Config, x: Execution, p: Process, k: nat)
    requires IsExecution(c, x)
  {
    exists m: nat :: k <= m && Served(c, x, p, m)
  }

  /** Every process that stays able to move is eventually given a turn. */
  ghost predicate Fair(c: Config, x: Execution)
    requires IsExecution(c, x)
  {
    forall p, k: nat :: ServedFrom(c, x, p, k)
  }

  function MainWork(c: Config, m: Main): int {
    match m
    case Fill(k) => (c.Limit() - k) + 2 * c.n + 4
    case Dispatch(i) => 2 * (c.n - i) + 3
    case Spawn(i) => 2 * (c.n - i) + 2
    case WaitGroup => 2
    case Join => 1
    case Finished => 0
  }

  function PhaseWork(ph: Phase): nat {
    match ph
    case Idle => 5
    case Ready => 5
    case Running => 4
    case Exited => 3
    case Ran => 2
    case Released => 1
    case Gone => 0
  }

  function PhasesWork(phases: seq<Phase>): nat {
    if phases == [] then 0 else PhaseWork(phases[0]) + PhasesWork(phases[1..])
  }

  lemma {:induction false} PhasesWorkUpdate(phases: seq<Phase>, i: nat, ph: Phase)
    requires i < |phases|
    ensures PhasesWork(phases[i := ph]) == PhasesWork(phases) + PhaseWork(ph) - PhaseWork(phases[i])
  {
    if i == 0 {
      assert phases[0 := ph][1..] == phases[1..];
    } else {
      assert phases[i := ph][1..] == phases[1..][i - 1 := ph];
      PhasesWorkUpdate(phases[1..], i - 1, ph);
    }
  }

  /** The steps the main goroutine and the runners still have to take. */
  ghost function Work(c: Config, s: State): (w: int)
  {
    MainWork(c, s.main) + PhasesWork(s.phases)
  }

  lemma {:induction false} WorkIsCounted(c: Config, s: State, p: Process)
    requires Inv(c, s) && Enabled(c, s, p)
    ensures Work(c, s) >= 0
    ensures Work(c, Step(c, s, p)) == if p.StatusProcess? then Work(c, s) else Work(c, s) - 1
  {
    match p
    case MainProcess =>
      if s.main.Spawn? {
        PhasesWorkUpdate(s.phases, s.main.i, Ready);
        assert s.phases[s.main.i].Idle?;
      }
    case Runner(i) =>
      PhasesWorkUpdate(s.phases, i, Step(c, s, p).phases[i]);
      assert PhaseWork(Step(c, s, p).phases[i]) == PhaseWork(s.phases[i]) - 1;
    case StatusProcess =>
  }

  /** The main goroutine or a runner, once able to move, stays able until it does. */
  lemma {:induction false} WorkersStayEnabled(c: Config, s: State, p: Process, q: Process)
    requires Inv(c, s) && Enabled(c, s, p) && !p.StatusProcess?
    requires Enabled(c, s, q) && q != p
    ensures Enabled(c, Step(c, s, q), p)
  {
    var s' := Step(c, s, q);
    StepKeepsInv(c, s, q);
    if p.Runner? {
      assert s'.phases[p.i] == s.phases[p.i];
      if s'.phases[p.i].Released? {
        CountPositive(InFlight, s'.phases, p.i);
      }
    } else if s.main.WaitGroup? {
      CountZero(Pending, s.phases);
    }
  }

  /** Under fairness a worker able to move does move, and meanwhile no work is added. */
  lemma {:induction false} WorkerMoves(c: Config, x: Execution, p: Process, k: nat, horizon: nat) returns (m: nat)
    requires IsExecution(c, x) && !p.StatusProcess? && Enabled(c, x.state(k), p)
    requires k <= horizon && Served(c, x, p, horizon)
    ensures k < m && Work(c, x.state(m)) < Work(c, x.state(k))
    decreases horizon - k
  {
    ExecutionKeepsInv(c, x, k);
    var q := x.turn(k);
    m := k + 1;
    if Enabled(c, x.state(k), q) {
      WorkIsCounted(c, x.state(k), q);
    }
    if q != p {
      if Enabled(c, x.state(k), q) {
        WorkersStayEnabled(c, x.state(k), p, q);
      }
      m := WorkerMoves(c, x, p, k + 1, horizon);
    }
  }

  /** Nothing is left but the join with the status goroutine. */
  ghost predicate Quiet(c: Config, s: State)
    requires Shaped(c, s)
  {
    s.main.Join? && forall i :: 0 <= i < c.n ==> s.phases[i].Gone?
  }

  /** While runners or dispatching remain, some worker is able to move. */
  lemma {:induction false} SomeWorkerEnabled(c: Config, s: State) returns (p: Process)
    requires Inv(c, s) && !s.main.Finished? && !Quiet(c, s)
    ensures !p.StatusProcess? && Enabled(c, s, p)
  {
    if i: nat :| i < c.n && InFlight(s.phases[i]) {
      p := Runner(i);
      CountPositive(InFlight, s.phases, i);
    } else {
      p := MainProcess;
      CountAll(InFlight, s.phases, false);
      if !s.main.Fill? && !s.main.Dispatch? && !s.main.Spawn? {
        CountAll(Pending, s.phases, false);
      }
    }
  }

  /** How many more moves the status goroutine needs once every runner has exited. */
  function PollerRank(c: Config, poller: Poller): int {
    match poller
    case Scan(j, d) => if d == j then c.n - j + 1 else (c.n - j) + c.n + 3
    case Sleep => c.n + 2
    case _ => 0
  }

  /** In a quiet state only the status goroutine moves, and it gets nearer to its send. */
  lemma {:induction false} PollerMoves(c: Config, x: Execution, k: nat, horizon: nat) returns (m: nat)
    requires IsExecution(c, x) && c.AllLeave() && Quiet(c, x.state(k)) && !x.state(k).poller.Send?
    requires k <= horizon && Served(c, x, StatusProcess, horizon)
    ensures k < m && Quiet(c, x.state(m)) && Work(c, x.state(m)) == Work(c, x.state(k))
    ensures 0 <= PollerRank(c, x.state(m).poller) < PollerRank(c, x.state(k).poller)
    decreases horizon - k
  {
    ExecutionKeepsInv(c, x, k);
    m := k + 1;
    if x.turn(k) != StatusProcess {
      assert !Enabled(c, x.state(k), x.turn(k));
      m := PollerMoves(c, x, k + 1, horizon);
    } else {
      StepKeepsInv(c, x.state(k), StatusProcess);
    }
  }

  lemma {:induction false} EventuallyFinishes(c: Config, x: Execution, k: nat) returns (m: nat)
    requires IsExecution(c, x) && Fair(c, x) && c.AllLeave()
    ensures k <= m && x.state(m).main.Finished?
    decreases Work(c, x.state(k)), PollerRank(c, x.state(k).poller)
  {
    ExecutionKeepsInv(c, x, k);
    var s := x.state(k);
    if s.main.Finished? {
      m := k;
    } else if Quiet(c, s) && !s.poller.Send? {
      assert ServedFrom(c, x, StatusProcess, k);
      var horizon: nat :| k <= horizon && Served(c, x, StatusProcess, horizon);
      var next := PollerMoves(c, x, k, horizon);
      m := EventuallyFinishes(c, x, next);
    } else {
      var p := MainProcess;
      if !Quiet(c, s) { p := SomeWorkerEnabled(c, s); }
      assert ServedFrom(c, x, p, k);
      var horizon: nat :| k <= horizon && Served(c, x, p, horizon);
      var next := WorkerMoves(c, x, p, k, horizon);
      WorkNonNegative(c, s);
      m := EventuallyFinishes(c, x, next);
    }
  }

  lemma {:induction false} WorkNonNegative(c: Config, s: State)
    requires Inv(c, s)
    ensures Work(c, s) >= 0
  {
  }

  /** Exactly when `ExecuteRunners` returns: under every fair interleaving if every `Run` leaves
      `ProcessState` set, and under none if a single one does not. */
  lemma {:induction false} ReturnsIffEveryRunLeavesProcessState(c: Config, x: Execution)
    requires IsExecution(c, x) && Fair(c, x)
    ensures (exists m: nat :: x.state(m).main.Finished?) <==> c.AllLeave()
  {
    if c.AllLeave() {
      var m := EventuallyFinishes(c, x, 0);
    }
    forall m: nat | x.state(m).main.Finished?
      ensures c.AllLeave()
    {
      ExecutionKeepsInv(c, x, m);
      assert forall i: nat :: i < c.n ==> x.state(m).exited[i];
    }
  }

  /** A round-robin schedule over the n runners, the main goroutine and the status goroutine. */
  function RoundRobinIndex(c: Config, k: nat): (i: nat)
    ensures i < c.n + 2
  {
    if k == 0 || RoundRobinIndex(c, k - 1) == c.n + 1 then 0 else RoundRobinIndex(c, k - 1) + 1
  }

  function RoundRobin(c: Config, k: nat): Process {
    var i := RoundRobinIndex(c, k);
    if i < c.n then Runner(i) else if i == c.n then MainProcess else StatusProcess
  }

  lemma {:induction false} TurnComes(c: Config, i: nat, k: nat) returns (m: nat)
    requires i < c.n + 2
    ensures k <= m && RoundRobinIndex(c, m) == i
    decreases if RoundRobinIndex(c, k) <= i then i - RoundRobinIndex(c, k) else c.n + 2 - RoundRobinIndex(c, k) + i
  {
    if RoundRobinIndex(c, k) == i {
      m := k;
    } else {
      m := TurnComes(c, i, k + 1);
    }
  }

  /** Fair interleavings exist for every configuration, so the theorem above is never vacuous. */
  lemma {:induction false} FairExecutionExists(c: Config)
    ensures exists x :: IsExecution(c, x) && Fair(c, x)
  {
    var x := Playing(c, (k: nat) => RoundRobin(c, k));
    PlayingIsExecution(c, x.turn);
    forall p, k: nat
      ensures ServedFrom(c, x, p, k)
    {
      if p.Runner? && p.i >= c.n {
        assert Served(c, x, p, k);
      } else {
        var m := TurnComes(c, if p.Runner? then p.i else if p.MainProcess? then c.n else c.n + 1, k);
        assert Served(c, x, p, m);
      }
    }
  }
  /** A single script that cannot be started is enough: the status goroutine waits for its process
      state for ever, and the function for the status goroutine, however fairly both are served. */
  lemma {:induction false} UnstartableScriptHangs(c: Config)
    requires c.n == 1 && c.maxConcurrency == 1 && !c.leaves(0)
    ensures exists x :: IsExecution(c, x) && Fair(c, x) && forall m: nat :: !x.state(m).main.Finished?
  {
    FairExecutionExists(c);
    var x :| IsExecution(c, x) && Fair(c, x);
    assert !c.AllLeave();
    ReturnsIffEveryRunLeavesProcessState(c, x);
    assert IsExecution(c, x) && Fair(c, x) && forall m: nat :: !x.state(m).main.Finished?;
  }
}
