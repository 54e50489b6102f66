/** The register of the hello device (drivers/helloDev/hello.c): four ways to access an int, each behind the
    semaphore, for any number of processes.

    The register is copied byte by byte, as copy_to_user and copy_from_user may do, and other processes can
    move between any two bytes. */
module HelloRegister {
  import opened CInts
  import opened Runs

  type Pid = nat

  /** The four bytes of the int. */
  type Word = w: seq<Byte> | |w| == 4 witness [0, 0, 0, 0]

  const ZERO: Word := [0, 0, 0, 0]

  /** A call: hello_read and hello_write with the caller's count, show, and store of a parsed number. */
  datatype Job = Read(count: nat) | Write(count: nat, word: Word) | Show | StoreVal(word: Word)

  predicate IsWrite(job: Job) {
    job.Write? || job.StoreVal?
  }

  /** The size checks of hello_read and hello_write. */
  predicate SizeOk(job: Job) {
    match job
    case Read(count) => count >= 4
    case Write(count, _) => count == 4
    case _ => true
  }

  /** -ERESTARTSYS; 0 without access; -EFAULT from copy_to_user; -EFAULT from copy_from_user, and the word it
      left in the register; or success with the word read or written. */
  datatype Answer = Interrupted | Refused | Fault | Scribbled(left: Word) | Success(word: Word)

  /** The word that the call has read from the register, or put there. */
  function Effect(answer: Answer): Option<Word> {
    match answer
    case Success(word) => Some(word)
    case Scribbled(left) => Some(left)
    case _ => None
  }

  /** `from` and `to` count the accesses that had taken effect when the call began and when it returned;
      `at` is the place of its own. */
  datatype Call = Call(pid: Pid, job: Job, from: nat, answer: Answer, at: nat, to: nat)

  datatype Proc =
    | Waiting(job: Job, from: nat)                   // before down_interruptible
    | Entered(job: Job, from: nat)                   // holds the semaphore
    | Copying(job: Job, from: nat, got: seq<Byte>)   // the bytes copied so far
    | Leaving(job: Job, from: nat, answer: Answer, at: nat)

  datatype Access = Access(pid: Pid, write: bool, word: Word)

  datatype Shared = Shared(
    val: Word,
    count: nat,             // the semaphore
    owner: Option<Pid>,     // who took it
    accesses: seq<Access>,  // in the order they took effect
    calls: seq<Call>)       // returned calls

  datatype State = State(shared: Shared, procs: map<Pid, Proc>)

  function Init(): State {
    State(Shared(ZERO, 1, None, [], []), map[])
  }

  datatype Action = Down | Signal | Check | CopyByte | CopyFault(junk: Word) | Up

  datatype Step = Begin(pid: Pid, job: Job) | Go(pid: Pid, action: Action)

  /** The next byte crosses; the fourth completes the access. */
  function CopyNext(p: Pid, job: Job, from: nat, got: seq<Byte>, s: Shared): (Proc, Shared)
    requires |got| < 4
  {
    var k := |got|;
    var b := if IsWrite(job) then job.word[k] else s.val[k];
    var val := if IsWrite(job) then s.val[k := b] else s.val;
    if k < 3 then (Copying(job, from, got + [b]), s.(val := val))
    else
      (Leaving(job, from, Success(got + [b]), |s.accesses|),
       s.(val := val, accesses := s.accesses + [Access(p, IsWrite(job), got + [b])]))
  }

  /** What a process does next: None where it cannot, otherwise its new place, or None when it returns. */
  function Move(p: Pid, proc: Proc, s: Shared, action: Action): Option<(Option<Proc>, Shared)> {
    match (action, proc)
    case (Down, Waiting(job, from)) =>
      if s.count > 0 then Some((Some(Entered(job, from)), s.(count := s.count - 1, owner := Some(p)))) else None
    case (Signal, Waiting(job, from)) =>
      Some((None, s.(calls := s.calls + [Call(p, job, from, Interrupted, 0, |s.accesses|)])))
    case (Check, Entered(job, from)) =>
      Some((Some(if SizeOk(job) then Copying(job, from, []) else Leaving(job, from, Refused, 0)), s))
    case (CopyByte, Copying(job, from, got)) =>
      if |got| < 4 then
        var (proc', s') := CopyNext(p, job, from, got, s);
        Some((Some(proc'), s'))
      else None
    case (CopyFault(junk), Copying(job, from, got)) =>
      if job.Read? then Some((Some(Leaving(job, from, Fault, 0)), s))
      else if job.Write? then
        Some((Some(Leaving(job, from, Scribbled(junk), |s.accesses|)),
              s.(val := junk, accesses := s.accesses + [Access(p, true, junk)])))
      else None
    case (Up, Leaving(job, from, answer, at)) =>
      Some((None, s.(count := s.count + 1, owner := None,
                     calls := s.calls + [Call(p, job, from, answer, at, |s.accesses|)])))
    case _ => None
  }

  function Next(s: State, step: Step): Option<State> {
    match step
    case Begin(p, job) =>
      if p in s.procs then None
      else Some(s.(procs := s.procs[p := Waiting(job, |s.shared.accesses|)]))
    case Go(p, action) =>
      if p !in s.procs then None
      else
        (match Move(p, s.procs[p], s.shared, action)
         case None => None
         case Some(m) =>
           Some(State(m.1, if m.0.None? then s.procs - {p} else s.procs[p := m.0.value])))
  }

  // ----- the semaphore

  predicate Holds(proc: Proc) {
    !proc.Waiting?
  }

  function Holders(s: State): set<Pid> {
    set p | p in s.procs && Holds(s.procs[p])
  }

  ghost predicate Guarded(s: State) {
    && s.shared.count == (if s.shared.owner.None? then 1 else 0)
    && (forall p :: p in s.procs ==> (Holds(s.procs[p]) <==> s.shared.owner == Some(p)))
    && (s.shared.owner.Some? ==> s.shared.owner.value in s.procs)
  }

  lemma MoveGuarded(p: Pid, proc: Proc, s: Shared, action: Action)
    requires Move(p, proc, s, action).Some?
    requires s.count == (if s.owner.None? then 1 else 0)
    requires Holds(proc) <==> s.owner == Some(p)
    ensures var (proc', s') := Move(p, proc, s, action).value;
            && s'.count == (if s'.owner.None? then 1 else 0)
            && (proc'.Some? && Holds(proc'.value) <==> s'.owner == Some(p))
            && (s'.owner == s.owner || (s.owner.None? && s'.owner == Some(p)) || (s.owner == Some(p) && s'.owner.None?))
  {}

  lemma GuardedStep(s: State, step: Step)
    requires Guarded(s) && Next(s, step).Some?
    ensures Guarded(Next(s, step).value)
  {
    if step.Go? {
      MoveGuarded(step.pid, s.procs[step.pid], s.shared, step.action);
    }
  }

  lemma GuardedRun(steps: seq<Step>, s: State)
    requires Run(Next, Init(), steps) == Some(s)
    ensures Guarded(s)
  {
    forall t, l | Guarded(t) && Next(t, l).Some? ensures Guarded(Next(t, l).value) { GuardedStep(t, l); }
    Invariant(Next, Guarded, Init(), steps);
  }

  /** The semaphore's count and its holders always add up to one, whichever way the calls leave:
      interrupted, refused, faulted or done. */
  lemma SemaphoreBalance(steps: seq<Step>, s: State)
    requires Run(Next, Init(), steps) == Some(s)
    ensures s.shared.count + |Holders(s)| == 1
  {
    GuardedRun(steps, s);
    if s.shared.owner.Some? {
      assert Holders(s) == {s.shared.owner.value};
    } else {
      assert Holders(s) == {};
    }
  }

  // ----- the device data in place

  class HelloDev {
    var shared: Shared
    var procs: map<Pid, Proc>

    function View(): State
      reads this
    {
      State(shared, procs)
    }

    /** __hello_setup_dev: a free semaphore and a zero register. */
    constructor ()
      ensures View() == Init()
    {
      shared, procs := Shared(ZERO, 1, None, [], []), map[];
    }

    method Enter(p: Pid, job: Job)
      requires p !in procs
      modifies this
      ensures Next(old(View()), Begin(p, job)) == Some(View())
    {
      procs := procs[p := Waiting(job, |shared.accesses|)];
    }

    /** down_interruptible: takes the semaphore, or gives up on a signal, or has to wait on. */
    method DownInterruptible(p: Pid, signal: bool) returns (waits: bool)
      requires p in procs && procs[p].Waiting?
      modifies this
      ensures waits <==> Next(old(View()), Go(p, if signal then Signal else Down)).None?
      ensures if waits then View() == old(View())
              else Next(old(View()), Go(p, if signal then Signal else Down)) == Some(View())
    {
      waits := false;
      var proc := procs[p];
      if signal {
        shared := shared.(calls := shared.calls + [Call(p, proc.job, proc.from, Interrupted, 0, |shared.accesses|)]);
        procs := procs - {p};
      } else if shared.count > 0 {
        shared := shared.(count := shared.count - 1, owner := Some(p));
        procs := procs[p := Entered(proc.job, proc.from)];
      } else {
        waits := true;
      }
    }

    method CheckCount(p: Pid)
      requires p in procs && procs[p].Entered?
      modifies this
      ensures Next(old(View()), Go(p, Check)) == Some(View())
    {
      var proc := procs[p];
      if SizeOk(proc.job) {
        procs := procs[p := Copying(proc.job, proc.from, [])];
      } else {
        procs := procs[p := Leaving(proc.job, proc.from, Refused, 0)];
      }
    }

    /** The next byte of the copy between the register and the caller. */
    method CopyOne(p: Pid)
      requires p in procs && procs[p].Copying? && |procs[p].got| < 4
      modifies this
      ensures Next(old(View()), Go(p, CopyByte)) == Some(View())
    {
      var Copying(job, from, got) := procs[p];
      var k := |got|;
      var b := if IsWrite(job) then job.word[k] else shared.val[k];
      if IsWrite(job) {
        shared := shared.(val := shared.val[k := b]);
      }
      if k < 3 {
        procs := procs[p := Copying(job, from, got + [b])];
      } else {
        procs := procs[p := Leaving(job, from, Success(got + [b]), |shared.accesses|)];
        shared := shared.(accesses := shared.accesses + [Access(p, IsWrite(job), got + [b])]);
      }
    }

    /** The copy fails; a failing copy_from_user leaves `junk` in the register. */
    method CopyFails(p: Pid, junk: Word)
      requires p in procs && procs[p].Copying? && (procs[p].job.Read? || procs[p].job.Write?)
      modifies this
      ensures Next(old(View()), Go(p, CopyFault(junk))) == Some(View())
    {
      var proc := procs[p];
      if proc.job.Write? {
        procs := procs[p := Leaving(proc.job, proc.from, Scribbled(junk), |shared.accesses|)];
        shared := shared.(val := junk, accesses := shared.accesses + [Access(p, true, junk)]);
      } else {
        procs := procs[p := Leaving(proc.job, proc.from, Fault, 0)];
      }
    }

    /** The way out shared by all paths that hold the semaphore. */
    method UpAndReturn(p: Pid) returns (answer: Answer)
      requires p in procs && procs[p].Leaving?
      modifies this
      ensures Next(old(View()), Go(p, Up)) == Some(View())
      ensures answer == old(procs[p].answer)
    {
      var Leaving(job, from, a, at) := procs[p];
      answer := a;
      shared := shared.(count := shared.count + 1, owner := None,
                        calls := shared.calls + [Call(p, job, from, a, at, |shared.accesses|)]);
      procs := procs - {p};
    }
  }
}
