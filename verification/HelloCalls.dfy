/** Whole calls on the hello register that nobody disturbs, and what each step of a call leaves alone. */
module HelloCalls {
  import opened CInts
  import opened Runs
  import opened HelloRegister
  import opened HelloLinear

  // ----- one call

  const FOUR_BYTES: seq<Action> := [CopyByte, CopyByte, CopyByte, CopyByte]

  /** A read of fewer than four bytes, and a write of other than four, get no access. */
  predicate Serves(job: Job) {
    match job
    case Read(count) => count >= 4
    case Write(count, _) => count == 4
    case Show => true
    case StoreVal(_) => true
  }

  function Steps(p: Pid, actions: seq<Action>): seq<Step> {
    if actions == [] then [] else [Go(p, actions[0])] + Steps(p, actions[1..])
  }

  function CallActions(job: Job): seq<Action> {
    [Down, Check] + (if Serves(job) then FOUR_BYTES else []) + [Up]
  }

  /** The word that a served call returns or leaves. */
  function WordOfJob(job: Job, val: Word): Word {
    match job
    case Write(_, word) => word
    case StoreVal(word) => word
    case _ => val
  }

  predicate Writes(job: Job) {
    job.Write? || job.StoreVal?
  }

  /** A call on its own: a read hands out the register, a write replaces it, a call that is not served does neither;
      the semaphore is free again, and other processes are where they were. */
  function AfterCall(s: State, p: Pid, job: Job): State {
    var sh, n := s.shared, |s.shared.accesses|;
    if !Serves(job) then s.(shared := sh.(calls := sh.calls + [Call(p, job, n, Refused, 0, n)]))
    else
      var word := WordOfJob(job, sh.val);
      s.(shared := sh.(val := word, accesses := sh.accesses + [Access(p, Writes(job), word)],
                       calls := sh.calls + [Call(p, job, n, Success(word), n, n + 1)]))
  }

  /** With process p at a given place. */
  function At(s: State, p: Pid, proc: Proc, shared: Shared): State {
    State(shared, s.procs[p := proc])
  }

  lemma GoAt(s: State, p: Pid, proc: Proc, sh: Shared, action: Action)
    requires Move(p, proc, sh, action).Some?
    ensures var (proc', sh') := Move(p, proc, sh, action).value;
            && (proc'.Some? ==> Next(At(s, p, proc, sh), Go(p, action)) == Some(At(s, p, proc'.value, sh')))
            && (proc'.None? && p !in s.procs ==> Next(At(s, p, proc, sh), Go(p, action)) == Some(State(sh', s.procs)))
  {
    var (proc', sh') := Move(p, proc, sh, action).value;
    if proc'.Some? {
      assert s.procs[p := proc][p := proc'.value] == s.procs[p := proc'.value];
    } else if p !in s.procs {
      assert s.procs[p := proc] - {p} == s.procs;
    }
  }

  lemma StepsFirst(p: Pid, a: Action, rest: seq<Action>)
    ensures Steps(p, [a] + rest) == [Go(p, a)] + Steps(p, rest)
  {
    assert ([a] + rest)[1..] == rest;
  }

  /** One step of a call, and then the rest. */
  lemma RunFirst(s: State, p: Pid, a: Action, rest: seq<Action>, t: State)
    requires Next(s, Go(p, a)) == Some(t)
    ensures Run(Next, s, Steps(p, [a] + rest)) == Run(Next, t, Steps(p, rest))
  {
    StepsFirst(p, a, rest);
    assert ([Go(p, a)] + Steps(p, rest))[1..] == Steps(p, rest);
  }

  /** The last steps of a call. */
  lemma LeaveRun(s: State, p: Pid, job: Job, from: nat, answer: Answer, at: nat, sh: Shared)
    requires p !in s.procs
    ensures Run(Next, At(s, p, Leaving(job, from, answer, at), sh), Steps(p, [Up])) ==
            Some(State(sh.(count := sh.count + 1, owner := None,
                           calls := sh.calls + [Call(p, job, from, answer, at, |sh.accesses|)]), s.procs))
  {
    GoAt(s, p, Leaving(job, from, answer, at), sh, Up);
    var t := Next(At(s, p, Leaving(job, from, answer, at), sh), Go(p, Up)).value;
    assert [Up] + [] == [Up];
    RunFirst(At(s, p, Leaving(job, from, answer, at), sh), p, Up, [], t);
  }

  /** The register and the bytes in hand when k bytes have crossed. */
  function Crossed(job: Job, val: Word, k: nat): Word
    requires k <= 4
  {
    if Writes(job) then WordOfJob(job, val)[..k] + val[k..] else val
  }

  lemma CrossOne(p: Pid, job: Job, from: nat, k: nat, val: Word, sh: Shared)
    requires k < 4 && sh.val == Crossed(job, val, k)
    ensures var word := WordOfJob(job, val);
            var (proc', sh') := CopyNext(p, job, from, word[..k], sh);
            && word[..k] + [word[k]] == word[..k + 1]
            && sh' == (if k < 3 then sh.(val := Crossed(job, val, k + 1))
                       else sh.(val := word, accesses := sh.accesses + [Access(p, Writes(job), word)]))
            && proc' == (if k < 3 then Copying(job, from, word[..k + 1])
                         else Leaving(job, from, Success(word), |sh.accesses|))
  {
    var word := WordOfJob(job, val);
    assert word[..k] + [word[k]] == word[..k + 1];
    assert word[..4] == word;
    if Writes(job) {
      assert sh.val[k := word[k]] == word[..k + 1] + val[k + 1..];
    }
  }

  /** From k bytes copied to the return. */
  lemma {:induction false} CopyRun(s: State, p: Pid, job: Job, from: nat, k: nat, val: Word, sh: Shared)
    requires p !in s.procs && k < 4 && sh.val == Crossed(job, val, k)
    ensures var word, n := WordOfJob(job, val), |sh.accesses|;
            Run(Next, At(s, p, Copying(job, from, word[..k]), sh), Steps(p, FOUR_BYTES[k..] + [Up])) ==
            Some(State(sh.(val := word, accesses := sh.accesses + [Access(p, Writes(job), word)],
                           count := sh.count + 1, owner := None,
                           calls := sh.calls + [Call(p, job, from, Success(word), n, n + 1)]), s.procs))
    decreases 4 - k
  {
    var word := WordOfJob(job, val);
    CrossOne(p, job, from, k, val, sh);
    var proc := Copying(job, from, word[..k]);
    var (proc', sh') := CopyNext(p, job, from, word[..k], sh);
    GoAt(s, p, proc, sh, CopyByte);
    assert FOUR_BYTES[k..] + [Up] == [CopyByte] + (FOUR_BYTES[k + 1..] + [Up]);
    RunFirst(At(s, p, proc, sh), p, CopyByte, FOUR_BYTES[k + 1..] + [Up], At(s, p, proc', sh'));
    if k < 3 {
      CopyRun(s, p, job, from, k + 1, val, sh');
    } else {
      assert FOUR_BYTES[4..] + [Up] == [Up];
      LeaveRun(s, p, job, from, Success(word), |sh.accesses|, sh');
    }
  }

  /** The steps of an undisturbed call. */
  lemma CallRun(s: State, p: Pid, job: Job)
    requires p !in s.procs && s.shared.count == 1 && s.shared.owner.None?
    ensures Run(Next, s, [Begin(p, job)] + Steps(p, CallActions(job))) == Some(AfterCall(s, p, job))
  {
    var from := |s.shared.accesses|;
    var held := s.shared.(count := 0, owner := Some(p));
    var a, b := At(s, p, Waiting(job, from), s.shared), At(s, p, Entered(job, from), held);
    var rest := (if Serves(job) then FOUR_BYTES else []) + [Up];
    assert CallActions(job) == [Down] + ([Check] + rest);
    assert ([Begin(p, job)] + Steps(p, CallActions(job)))[1..] == Steps(p, CallActions(job));
    GoAt(s, p, Waiting(job, from), s.shared, Down);
    RunFirst(a, p, Down, [Check] + rest, b);
    GoAt(s, p, Entered(job, from), held, Check);
    if Serves(job) {
      var word := WordOfJob(job, s.shared.val);
      assert word[..0] == [] && FOUR_BYTES[0..] == FOUR_BYTES;
      RunFirst(b, p, Check, rest, At(s, p, Copying(job, from, []), held));
      CopyRun(s, p, job, from, 0, s.shared.val, held);
    } else {
      RunFirst(b, p, Check, rest, At(s, p, Leaving(job, from, Refused, 0), held));
      assert rest == [Up];
      LeaveRun(s, p, job, from, Refused, 0, held);
    }
  }

  /** A copy that fails, wherever it has got to: a read leaves the register as it is, a write leaves what it left. */
  lemma FaultEffect(s: State, p: Pid, junk: Word)
    requires Next(s, Go(p, CopyFault(junk))).Some?
    ensures p in s.procs && s.procs[p].Copying? && (s.procs[p].job.Read? || s.procs[p].job.Write?)
    ensures var t, n := Next(s, Go(p, CopyFault(junk))).value, |s.shared.accesses|;
            var job, from := s.procs[p].job, s.procs[p].from;
            if job.Read? then t == At(s, p, Leaving(job, from, Fault, 0), s.shared)
            else t == At(s, p, Leaving(job, from, Scribbled(junk), n),
                         s.shared.(val := junk, accesses := s.shared.accesses + [Access(p, true, junk)]))
  {}

  // ----- what a step leaves alone, and where it is possible

  /** A process moves by its own steps only. */
  lemma OthersStay(s: State, step: Step, q: Pid)
    requires Next(s, step).Some? && step.pid != q
    ensures var t := Next(s, step).value;
            (q in t.procs <==> q in s.procs) && (q in s.procs ==> t.procs[q] == s.procs[q])
  {}

  predicate Allows(s: State, step: Step) {
    match step
    case Begin(p, _) => p !in s.procs
    case Go(p, action) =>
      && p in s.procs
      && var proc := s.procs[p];
         match action
         case Down => proc.Waiting? && s.shared.count > 0
         case Signal => proc.Waiting?
         case Check => proc.Entered?
         case CopyByte => proc.Copying? && |proc.got| < 4
         case CopyFault(_) => proc.Copying? && (proc.job.Read? || proc.job.Write?)
         case Up => proc.Leaving?
  }

  lemma StepPossible(s: State, step: Step)
    ensures Next(s, step).Some? <==> Allows(s, step)
  {}

  /** A call returns by its last step, or interrupted while it waits for the semaphore: one that has held it is never
      answered as interrupted, and one that has not is never answered otherwise. */
  lemma Returns(steps: seq<Step>, s: State, step: Step)
    requires Run(Next, Init(), steps) == Some(s) && Next(s, step).Some?
    ensures var t := Next(s, step).value;
            || t.shared.calls == s.shared.calls
            || (step.Go? && step.pid in s.procs
                && exists c :: t.shared.calls == s.shared.calls + [c] && c.pid == step.pid
                               && c.job == s.procs[step.pid].job && c.from == s.procs[step.pid].from
                               && c.to == |s.shared.accesses|
                               && (c.answer == Interrupted <==> s.procs[step.pid].Waiting?))
  {
    CallsOkRun(steps, s);
    var t := Next(s, step).value;
    if t.shared.calls != s.shared.calls {
      var c := t.shared.calls[|s.shared.calls|];
      assert t.shared.calls == s.shared.calls + [c];
      assert ProcOk(s.shared.accesses, step.pid, s.procs[step.pid]);
    }
  }

  lemma {:induction false} NothingWritten(accesses: seq<Access>)
    requires forall a :: a in accesses ==> !a.write
    ensures Register(accesses) == [0, 0, 0, 0]
  {
    if accesses != [] {
      NothingWritten(accesses[..|accesses| - 1]);
    }
  }

  /** What is read before anything has been written is four zero bytes. */
  lemma FirstReadsAreZero(steps: seq<Step>, s: State, i: nat)
    requires Run(Next, Init(), steps) == Some(s) && i < |s.shared.accesses|
    requires forall j :: 0 <= j <= i ==> !s.shared.accesses[j].write
    ensures s.shared.accesses[i].word == [0, 0, 0, 0]
  {
    SoundRun(steps, s);
    NothingWritten(s.shared.accesses[..i]);
  }
}
