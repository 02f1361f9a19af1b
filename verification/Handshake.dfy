/**
  The command handshake between the UI thread (`UiThread::run`) and the main thread
  (the endless loop at the end of `main`), as a transition system.

  Both threads share `ready` and `cmdline`, two mutexes and ONE condition variable.  The UI
  thread publishes under `cmdlock` and waits under `execlock`; the main thread waits under
  `cmdlock` and acknowledges under `execlock`.  A condition variable may only be waited on with
  two different mutexes if the two waits never overlap, so most of what the protocol promises
  rests on that fact.
 */
module Handshake {
  import opened Basics

  datatype Thread = Ui | Main

  datatype Lock = Free | HeldBy(holder: Thread)

  /** Program points of `UiThread::run`, with `Wait` inlined. */
  datatype UiPc =
    | UiLockCmd      // about to take cmdlock
    | UiReadCommand  // shell.HandleCommand(), cmdlock held
    | UiSetReady     // ready = true, cmdlock held
    | UiUnlockCmd    // leave the block that holds cmdlock
    | UiNotify       // cond.notify_one(), no lock held
    | UiLockExec     // Wait(): about to take execlock
    | UiCheck        // Wait(): evaluate !ready, execlock held
    | UiWaiting      // Wait(): in the wait set
    | UiRelock       // Wait(): woken, about to take execlock again
    | UiUnlockExec   // Wait(): predicate holds, leave

  /** Program points of the loop in `main`, with `GetCommand` and `Wake` inlined. */
  datatype MainPc =
    | MainLockCmd    // GetCommand(): about to take cmdlock
    | MainCheck      // GetCommand(): evaluate ready, cmdlock held
    | MainWaiting    // GetCommand(): in the wait set
    | MainRelock     // GetCommand(): woken, about to take cmdlock again
    | MainCopy       // GetCommand(): result->append(cmdline), cmdlock held
    | MainUnlockCmd  // GetCommand(): leave
    | MainWork       // WorkThread runs the command and is joined
    | MainLockExec   // Wake(): about to take execlock
    | MainClear      // Wake(): ready = false, execlock held
    | MainNotify     // Wake(): cond.notify_one(), execlock held
    | MainUnlockExec // Wake(): leave

  /** `entered` and `executed` are history: the commands typed and the commands run, in order. */
  datatype State<Cmd> = State(
    ui: UiPc,
    main: MainPc,
    ready: bool,
    cmdline: Cmd,
    result: Cmd,
    cmdlock: Lock,
    execlock: Lock,
    entered: seq<Cmd>,
    executed: seq<Cmd>)

  /** One scheduling decision.  `pick` resolves `notify_one` when it has a choice. */
  datatype Choice<Cmd> =
    | UiStep(typed: Cmd, pick: Thread)
    | MainStep(pick: Thread)
    | UiSpurious
    | MainSpurious

  function Init<Cmd>(blank: Cmd): (s: State<Cmd>)
  {
    State(UiLockCmd, MainLockCmd, false, blank, blank, Free, Free, [], [])
  }

  function WakeUi<Cmd>(s: State<Cmd>): State<Cmd> { s.(ui := UiRelock) }

  function WakeMain<Cmd>(s: State<Cmd>): State<Cmd> { s.(main := MainRelock) }

  /** `cond.notify_one()`: wakes one thread of the wait set, if there is one. */
  function NotifyOne<Cmd>(s: State<Cmd>, pick: Thread): State<Cmd>
  {
    match (s.ui, s.main)
    case (UiWaiting, MainWaiting) => if pick == Ui then WakeUi(s) else WakeMain(s)
    case (UiWaiting, _) => WakeUi(s)
    case (_, MainWaiting) => WakeMain(s)
    case (_, _) => s
  }

  /** The UI thread's next action; `None` when it is blocked. */
  function UiNext<Cmd>(s: State<Cmd>, typed: Cmd, pick: Thread): Option<State<Cmd>>
  {
    match s.ui
    case UiLockCmd =>
      if s.cmdlock == Free then Some(s.(cmdlock := HeldBy(Ui), ui := UiReadCommand)) else None
    case UiReadCommand =>
      Some(s.(cmdline := typed, entered := s.entered + [typed], ui := UiSetReady))
    case UiSetReady => Some(s.(ready := true, ui := UiUnlockCmd))
    case UiUnlockCmd => Some(s.(cmdlock := Free, ui := UiNotify))
    case UiNotify => Some(NotifyOne(s, pick).(ui := UiLockExec))
    case UiLockExec =>
      if s.execlock == Free then Some(s.(execlock := HeldBy(Ui), ui := UiCheck)) else None
    case UiCheck =>
      if !s.ready then Some(s.(ui := UiUnlockExec))
      else Some(s.(execlock := Free, ui := UiWaiting))
    case UiWaiting => None
    case UiRelock =>
      if s.execlock == Free then Some(s.(execlock := HeldBy(Ui), ui := UiCheck)) else None
    case UiUnlockExec => Some(s.(execlock := Free, ui := UiLockCmd))
  }

  /** The main thread's next action; `None` when it is blocked. */
  function MainNext<Cmd>(s: State<Cmd>, pick: Thread): Option<State<Cmd>>
  {
    match s.main
    case MainLockCmd =>
      if s.cmdlock == Free then Some(s.(cmdlock := HeldBy(Main), main := MainCheck)) else None
    case MainCheck =>
      if s.ready then Some(s.(main := MainCopy))
      else Some(s.(cmdlock := Free, main := MainWaiting))
    case MainWaiting => None
    case MainRelock =>
      if s.cmdlock == Free then Some(s.(cmdlock := HeldBy(Main), main := MainCheck)) else None
    case MainCopy => Some(s.(result := s.cmdline, main := MainUnlockCmd))
    case MainUnlockCmd => Some(s.(cmdlock := Free, main := MainWork))
    case MainWork => Some(s.(executed := s.executed + [s.result], main := MainLockExec))
    case MainLockExec =>
      if s.execlock == Free then Some(s.(execlock := HeldBy(Main), main := MainClear)) else None
    case MainClear => Some(s.(ready := false, main := MainNotify))
    case MainNotify => Some(NotifyOne(s, pick).(main := MainUnlockExec))
    case MainUnlockExec => Some(s.(execlock := Free, main := MainLockCmd))
  }

  function Next<Cmd>(s: State<Cmd>, c: Choice<Cmd>): Option<State<Cmd>>
  {
    match c
    case UiStep(typed, pick) => UiNext(s, typed, pick)
    case MainStep(pick) => MainNext(s, pick)
    case UiSpurious => if s.ui == UiWaiting then Some(WakeUi(s)) else None
    case MainSpurious => if s.main == MainWaiting then Some(WakeMain(s)) else None
  }

  /** The state after a whole schedule; `None` if some choice was not possible. */
  function Run<Cmd>(s: State<Cmd>, schedule: seq<Choice<Cmd>>): Option<State<Cmd>>
    decreases |schedule|
  {
    if schedule == [] then Some(s)
    else
      match Run(s, schedule[..|schedule| - 1])
      case None => None
      case Some(t) => Next(t, schedule[|schedule| - 1])
  }

  // ---------------------------------------------------------------------------------------------
  // The inductive invariant
  // ---------------------------------------------------------------------------------------------

  predicate UiHoldsCmd(pc: UiPc) { pc in {UiReadCommand, UiSetReady, UiUnlockCmd} }
  predicate UiHoldsExec(pc: UiPc) { pc in {UiCheck, UiUnlockExec} }
  predicate MainHoldsCmd(pc: MainPc) { pc in {MainCheck, MainCopy, MainUnlockCmd} }
  predicate MainHoldsExec(pc: MainPc) { pc in {MainClear, MainNotify, MainUnlockExec} }

  predicate LocksMatch<Cmd>(s: State<Cmd>)
  {
    && (s.cmdlock == HeldBy(Ui) <==> UiHoldsCmd(s.ui))
    && (s.cmdlock == HeldBy(Main) <==> MainHoldsCmd(s.main))
    && (s.execlock == HeldBy(Ui) <==> UiHoldsExec(s.ui))
    && (s.execlock == HeldBy(Main) <==> MainHoldsExec(s.main))
  }

  /** Main holds a command it has not acknowledged. */
  predicate MainBusy(pc: MainPc)
  {
    pc in {MainCopy, MainUnlockCmd, MainWork, MainLockExec, MainClear}
  }

  /** `ready` tells which thread owns the turn; each clause says where the other may be. */
  predicate TurnsMatch<Cmd>(s: State<Cmd>)
  {
    && (MainBusy(s.main) ==> s.ready)
    && (s.main in {MainNotify, MainUnlockExec} ==>
          !s.ready && s.ui in {UiNotify, UiLockExec, UiWaiting, UiRelock})
    && (s.ui in {UiLockCmd, UiReadCommand, UiSetReady, UiUnlockExec} ==> !s.ready)
    && (s.ui == UiUnlockCmd ==> s.ready && !MainBusy(s.main))
    && (s.ui == UiWaiting && !s.ready ==> s.main == MainNotify)
    && (s.main == MainWaiting && s.ready ==> s.ui in {UiUnlockCmd, UiNotify})
  }

  /** A typed command that has not been run yet. */
  predicate Outstanding<Cmd>(s: State<Cmd>)
  {
    s.ui == UiSetReady || (s.ready && s.main !in {MainLockExec, MainClear})
  }

  predicate HistoryMatches<Cmd(==)>(s: State<Cmd>)
  {
    && s.entered == s.executed + (if Outstanding(s) then [s.cmdline] else [])
    && (s.main in {MainUnlockCmd, MainWork} ==> s.result == s.cmdline)
  }

  predicate Inv<Cmd(==)>(s: State<Cmd>)
  {
    LocksMatch(s) && TurnsMatch(s) && HistoryMatches(s)
  }

  lemma NextKeepsInv<Cmd>(s: State<Cmd>, c: Choice<Cmd>)
    requires Inv(s) && Next(s, c).Some?
    ensures Inv(Next(s, c).value)
  {
  }

  lemma {:induction false} RunKeepsInv<Cmd>(blank: Cmd, schedule: seq<Choice<Cmd>>)
    requires Run(Init(blank), schedule).Some?
    ensures Inv(Run(Init(blank), schedule).value)
    decreases |schedule|
  {
    if schedule != [] {
      var shorter := schedule[..|schedule| - 1];
      RunKeepsInv(blank, shorter);
      NextKeepsInv(Run(Init(blank), shorter).value, schedule[|schedule| - 1]);
    }
  }

  // ---------------------------------------------------------------------------------------------
  // Safety over every schedule
  // ---------------------------------------------------------------------------------------------

  /** Both threads are about to touch `ready` or `cmdline` and at least one access is a write. */
  predicate Race<Cmd>(s: State<Cmd>)
  {
    || (s.ui == UiReadCommand && s.main == MainCopy)
    || (s.ui == UiSetReady && s.main in {MainCheck, MainClear})
    || (s.ui == UiCheck && s.main == MainClear)
  }

  /** Commands run exactly once, in the order entered, and at most the newest is unfinished. */
  lemma {:induction false} CommandsRunInOrder<Cmd>(blank: Cmd, schedule: seq<Choice<Cmd>>)
    requires Run(Init(blank), schedule).Some?
    ensures
      var s := Run(Init(blank), schedule).value;
      s.executed <= s.entered && |s.entered| <= |s.executed| + 1
  {
    RunKeepsInv(blank, schedule);
  }

  /** The UI thread writes `cmdline` only when every earlier command has been run. */
  lemma {:induction false} NeverOverwritten<Cmd>(blank: Cmd, schedule: seq<Choice<Cmd>>)
    requires Run(Init(blank), schedule).Some?
    requires Run(Init(blank), schedule).value.ui == UiReadCommand
    ensures
      var s := Run(Init(blank), schedule).value;
      s.executed == s.entered
  {
    RunKeepsInv(blank, schedule);
  }

  /** The two threads are never both in the wait set, never hold one lock together, never race. */
  lemma {:induction false} MutualExclusion<Cmd>(blank: Cmd, schedule: seq<Choice<Cmd>>)
    requires Run(Init(blank), schedule).Some?
    ensures
      var s := Run(Init(blank), schedule).value;
      && !(s.ui == UiWaiting && s.main == MainWaiting)
      && !(UiHoldsCmd(s.ui) && MainHoldsCmd(s.main))
      && !(UiHoldsExec(s.ui) && MainHoldsExec(s.main))
      && !Race(s)
  {
    RunKeepsInv(blank, schedule);
  }

  /** No deadlock: some thread can act without waiting for a spurious wakeup. */
  lemma {:induction false} NoDeadlock<Cmd>(blank: Cmd, schedule: seq<Choice<Cmd>>, typed: Cmd, pick: Thread)
    requires Run(Init(blank), schedule).Some?
    ensures
      var s := Run(Init(blank), schedule).value;
      UiNext(s, typed, pick).Some? || MainNext(s, pick).Some?
  {
    RunKeepsInv(blank, schedule);
  }

  // ---------------------------------------------------------------------------------------------
  // No lost wakeup, quantitatively: every schedule keeps finishing commands
  // ---------------------------------------------------------------------------------------------

  /** Steps the main thread can still take before it clears `ready`, if nobody wakes it again. */
  function MainCredit(pc: MainPc): (n: nat)
  {
    match pc
    case MainNotify => 10
    case MainUnlockExec => 9
    case MainLockCmd => 8
    case MainRelock => 8
    case MainCheck => 7
    case MainWaiting => 6
    case MainCopy => 5
    case MainUnlockCmd => 4
    case MainWork => 3
    case MainLockExec => 2
    case MainClear => 1
  }

  /** The same for the UI thread; a pending `notify_one` also pays for the steps it causes. */
  function UiCredit(pc: UiPc, ready: bool): (n: nat)
  {
    match pc
    case UiNotify => if ready then 5 else 15
    case UiLockExec => if ready then 2 else 12
    case UiRelock => if ready then 2 else 12
    case UiWaiting => if ready then 0 else 12
    case UiCheck => if ready then 1 else 11
    case UiUnlockExec => 10
    case UiLockCmd => 9
    case UiReadCommand => 8
    case UiSetReady => 7
    case UiUnlockCmd => 6
  }

  function Credit<Cmd>(s: State<Cmd>): (n: nat)
    ensures n <= 25
  {
    MainCredit(s.main) + UiCredit(s.ui, s.ready)
  }

  predicate IsAck<Cmd>(s: State<Cmd>, c: Choice<Cmd>) { c.MainStep? && s.main == MainClear }

  predicate IsSpurious<Cmd>(c: Choice<Cmd>) { c.UiSpurious? || c.MainSpurious? }

  /** Every step spends credit, except the acknowledgement of a command and spurious wakeups. */
  lemma StepSpendsCredit<Cmd>(s: State<Cmd>, c: Choice<Cmd>)
    requires Inv(s) && Next(s, c).Some?
    ensures
      var t := Next(s, c).value;
      Credit(t) + 1 <=
      Credit(s) + (if IsAck(s, c) then 26 else 0) + (if IsSpurious(c) then 3 else 0)
  {
  }

  function SpuriousCount<Cmd>(schedule: seq<Choice<Cmd>>): nat
    decreases |schedule|
  {
    if schedule == [] then 0
    else SpuriousCount(schedule[..|schedule| - 1]) +
         (if IsSpurious(schedule[|schedule| - 1]) then 1 else 0)
  }

  /** Acknowledged commands: all that ran, except one whose `Wake` has not cleared `ready` yet. */
  function Acked<Cmd>(s: State<Cmd>): int
  {
    |s.executed| - (if s.main in {MainLockExec, MainClear} then 1 else 0)
  }

  lemma StepCountsAcks<Cmd>(s: State<Cmd>, c: Choice<Cmd>)
    requires Next(s, c).Some?
    ensures Acked(Next(s, c).value) == Acked(s) + (if IsAck(s, c) then 1 else 0)
  {
  }

  lemma {:induction false} RunSpendsCredit<Cmd>(blank: Cmd, schedule: seq<Choice<Cmd>>)
    requires Run(Init(blank), schedule).Some?
    ensures
      var s := Run(Init(blank), schedule).value;
      |schedule| + Credit(s) <= 17 + 26 * Acked(s) + 3 * SpuriousCount(schedule)
    decreases |schedule|
  {
    if schedule != [] {
      var shorter := schedule[..|schedule| - 1];
      var s := Run(Init(blank), shorter).value;
      RunSpendsCredit(blank, shorter);
      RunKeepsInv(blank, shorter);
      StepSpendsCredit(s, schedule[|schedule| - 1]);
      StepCountsAcks(s, schedule[|schedule| - 1]);
    }
  }

  /**
    Progress without any fairness assumption: a schedule of `n` steps with `k` spurious wakeups
    has run at least `(n - 17 - 3k) / 26` commands.  A lost wakeup would let the threads step for
    ever without finishing another command; here 26 steps always finish one.
   */
  lemma {:induction false} EveryScheduleMakesProgress<Cmd>(blank: Cmd, schedule: seq<Choice<Cmd>>)
    requires Run(Init(blank), schedule).Some?
    ensures
      |schedule| <=
      17 + 26 * |Run(Init(blank), schedule).value.executed| + 3 * SpuriousCount(schedule)
  {
    RunSpendsCredit(blank, schedule);
  }
}
