/** The hello register is linearizable: although it is copied byte by byte, every completed call looks as if
    it had read or written the whole int at one instant between its start and its return.  A write whose copy
    fails is a write of what it left. */
module HelloLinear {
  import opened CInts
  import opened Runs
  import opened HelloRegister

  // ----- the atomic register

  /** The register after the accesses. */
  function Register(accesses: seq<Access>): Word {
    if accesses == [] then ZERO
    else
      var last := accesses[|accesses| - 1];
      if last.write then last.word else Register(accesses[..|accesses| - 1])
  }

  /** Each read returns what the accesses before it left. */
  ghost predicate Atomic(accesses: seq<Access>) {
    forall i :: 0 <= i < |accesses| && !accesses[i].write ==> accesses[i].word == Register(accesses[..i])
  }

  lemma AtomicSnoc(accesses: seq<Access>, a: Access)
    requires Atomic(accesses)
    requires !a.write ==> a.word == Register(accesses)
    ensures Atomic(accesses + [a])
    ensures Register(accesses + [a]) == if a.write then a.word else Register(accesses)
  {
    var all := accesses + [a];
    assert all[..|accesses|] == accesses;
    forall i | 0 <= i < |all| && !all[i].write ensures all[i].word == Register(all[..i]) {
      if i < |accesses| {
        assert all[..i] == accesses[..i];
      }
    }
  }

  // ----- the bytes in memory are the register, but for those of a write under way

  ghost predicate Intact(s: Shared, proc: Option<Proc>) {
    var r := Register(s.accesses);
    match proc
    case Some(Copying(job, _, got)) =>
      && |got| < 4
      && (if IsWrite(job) then s.val == got + r[|got|..] else s.val == r && got == r[..|got|])
    case _ => s.val == r
  }

  function OwnerProc(s: State): Option<Proc> {
    if s.shared.owner.Some? && s.shared.owner.value in s.procs then Some(s.procs[s.shared.owner.value]) else None
  }

  ghost predicate Sound(s: State) {
    && Guarded(s)
    && Atomic(s.shared.accesses)
    && Intact(s.shared, OwnerProc(s))
  }

  lemma PutNext(got: seq<Byte>, r: Word, b: Byte)
    requires |got| < 4
    ensures (got + r[|got|..])[|got| := b] == (got + [b]) + r[|got| + 1..]
  {}

  lemma WriteNext(p: Pid, job: Job, from: nat, got: seq<Byte>, s: Shared)
    requires IsWrite(job) && |got| < 4 && Atomic(s.accesses) && Intact(s, Some(Copying(job, from, got)))
    ensures var (proc', s') := CopyNext(p, job, from, got, s);
            Atomic(s'.accesses) && Intact(s', Some(proc'))
  {
    var r, b := Register(s.accesses), job.word[|got|];
    PutNext(got, r, b);
    if |got| == 3 {
      AtomicSnoc(s.accesses, Access(p, true, got + [b]));
      assert r[4..] == [];
    }
  }

  lemma ReadNext(p: Pid, job: Job, from: nat, got: seq<Byte>, s: Shared)
    requires !IsWrite(job) && |got| < 4 && Atomic(s.accesses) && Intact(s, Some(Copying(job, from, got)))
    ensures var (proc', s') := CopyNext(p, job, from, got, s);
            Atomic(s'.accesses) && Intact(s', Some(proc'))
  {
    var r := Register(s.accesses);
    assert got + [r[|got|]] == r[..|got| + 1];
    if |got| == 3 {
      assert got + [r[3]] == r;
      AtomicSnoc(s.accesses, Access(p, false, r));
    }
  }

  lemma MoveSound(p: Pid, proc: Proc, s: Shared, action: Action)
    requires Move(p, proc, s, action).Some?
    requires Atomic(s.accesses) && Intact(s, Some(proc))
    ensures var (proc', s') := Move(p, proc, s, action).value;
            Atomic(s'.accesses) && Intact(s', proc')
  {
    match (action, proc)
    case (CopyByte, Copying(job, from, got)) =>
      if |got| < 4 {
        if IsWrite(job) { WriteNext(p, job, from, got, s); } else { ReadNext(p, job, from, got, s); }
      }
    case (CopyFault(junk), Copying(job, from, got)) =>
      if job.Write? { AtomicSnoc(s.accesses, Access(p, true, junk)); }
    case _ =>
  }

  lemma SoundGo(s: State, p: Pid, action: Action)
    requires Sound(s) && Next(s, Go(p, action)).Some?
    ensures Sound(Next(s, Go(p, action)).value)
  {
    GuardedStep(s, Go(p, action));
    var t := Next(s, Go(p, action)).value;
    var proc := s.procs[p];
    if Holds(proc) {
      assert OwnerProc(s) == Some(proc);
      MoveSound(p, proc, s.shared, action);
      assert OwnerProc(t) == Move(p, proc, s.shared, action).value.0;
    } else if action.Down? {
      assert s.shared.owner.None? && OwnerProc(s).None?;
      assert OwnerProc(t) == Some(Entered(proc.job, proc.from));
    } else {
      assert OwnerProc(t) == OwnerProc(s);
    }
  }

  lemma SoundStep(s: State, step: Step)
    requires Sound(s) && Next(s, step).Some?
    ensures Sound(Next(s, step).value)
  {
    match step
    case Begin(p, job) =>
      GuardedStep(s, step);
      assert OwnerProc(Next(s, step).value) == OwnerProc(s);
    case Go(p, action) => SoundGo(s, p, action);
  }

  lemma SoundRun(steps: seq<Step>, s: State)
    requires Run(Next, Init(), steps) == Some(s)
    ensures Sound(s)
  {
    forall t, l | Sound(t) && Next(t, l).Some? ensures Sound(Next(t, l).value) { SoundStep(t, l); }
    Invariant(Next, Sound, Init(), steps);
  }

  // ----- every call and its access

  /** A call with an effect, that began after `from` accesses and returned, or is about to, after `to`: it has made
      access number `at`, of the word it read or left, which for a successful write is the word it was given. */
  ghost predicate TookEffect(accesses: seq<Access>, p: Pid, job: Job, from: nat, answer: Answer, at: nat, to: nat) {
    && Effect(answer).Some?
    && from <= at < to <= |accesses|
    && accesses[at] == Access(p, IsWrite(job), Effect(answer).value)
    && (answer.Success? && IsWrite(job) ==> answer.word == job.word)
  }

  /** A call is refused exactly for its count, and only copies to and from user space can fault. */
  ghost predicate Fits(job: Job, answer: Answer) {
    match answer
    case Interrupted => true
    case Refused => (job.Read? && job.count < 4) || (job.Write? && job.count != 4)
    case Fault => job.Read? && job.count >= 4
    case Scribbled(_) => job.Write? && job.count == 4
    case Success(_) => (job.Read? ==> job.count >= 4) && (job.Write? ==> job.count == 4)
  }

  ghost predicate CallOk(accesses: seq<Access>, c: Call) {
    && c.from <= c.to <= |accesses|
    && Fits(c.job, c.answer)
    && (Effect(c.answer).Some? ==> TookEffect(accesses, c.pid, c.job, c.from, c.answer, c.at, c.to))
  }

  ghost predicate ProcOk(accesses: seq<Access>, p: Pid, proc: Proc) {
    && proc.from <= |accesses|
    && match proc
       case Copying(job, _, got) => |got| < 4 && SizeOk(job) && (IsWrite(job) ==> got == job.word[..|got|])
       case Leaving(job, from, answer, at) =>
         && answer != Interrupted && Fits(job, answer)
         && (Effect(answer).Some? ==> TookEffect(accesses, p, job, from, answer, at, |accesses|))
       case _ => true
  }

  ghost predicate CallsOk(s: State) {
    var sh := s.shared;
    && (forall i :: 0 <= i < |sh.calls| ==> CallOk(sh.accesses, sh.calls[i]))
    && (forall p :: p in s.procs ==> ProcOk(sh.accesses, p, s.procs[p]))
    && (forall i, j :: 0 <= i < j < |sh.calls| && sh.calls[i].pid == sh.calls[j].pid ==>
          sh.calls[i].to <= sh.calls[j].from)
    && (forall i :: 0 <= i < |sh.calls| && sh.calls[i].pid in s.procs ==>
          sh.calls[i].to <= s.procs[sh.calls[i].pid].from)
  }

  lemma MoveCalls(p: Pid, proc: Proc, s: Shared, action: Action)
    requires Move(p, proc, s, action).Some?
    requires ProcOk(s.accesses, p, proc)
    ensures var (proc', s') := Move(p, proc, s, action).value;
            && s.accesses <= s'.accesses
            && (proc'.Some? ==> s'.calls == s.calls && proc'.value.from == proc.from
                                && ProcOk(s'.accesses, p, proc'.value))
            && (proc'.None? ==> s'.accesses == s.accesses
                                && exists c :: s'.calls == s.calls + [c] && CallOk(s.accesses, c)
                                               && c.pid == p && c.from == proc.from && c.to == |s.accesses|)
  {}

  lemma CallsOkGo(s: State, p: Pid, action: Action)
    requires CallsOk(s) && Next(s, Go(p, action)).Some?
    ensures CallsOk(Next(s, Go(p, action)).value)
  {
    var t := Next(s, Go(p, action)).value;
    MoveCalls(p, s.procs[p], s.shared, action);
    var a, b := s.shared.accesses, t.shared.accesses;
    forall q | q in t.procs ensures ProcOk(b, q, t.procs[q]) {
      if q != p {
        assert t.procs[q] == s.procs[q] && ProcOk(a, q, s.procs[q]);
      }
    }
    forall i | 0 <= i < |t.shared.calls| ensures CallOk(b, t.shared.calls[i]) {
      if i < |s.shared.calls| {
        assert t.shared.calls[i] == s.shared.calls[i] && CallOk(a, s.shared.calls[i]);
      }
    }
  }

  lemma CallsOkStep(s: State, step: Step)
    requires CallsOk(s) && Next(s, step).Some?
    ensures CallsOk(Next(s, step).value)
  {
    match step
    case Begin(p, job) =>
      forall i | 0 <= i < |s.shared.calls| ensures s.shared.calls[i].to <= |s.shared.accesses| {
        assert CallOk(s.shared.accesses, s.shared.calls[i]);
      }
    case Go(p, action) => CallsOkGo(s, p, action);
  }

  lemma CallsOkRun(steps: seq<Step>, s: State)
    requires Run(Next, Init(), steps) == Some(s)
    ensures CallsOk(s)
  {
    forall t, l | CallsOk(t) && Next(t, l).Some? ensures CallsOk(Next(t, l).value) { CallsOkStep(t, l); }
    Invariant(Next, CallsOk, Init(), steps);
  }

  // ----- no access without a call

  /** Access number k was made by a returned call or by one about to return. */
  ghost predicate Claimed(s: State, k: nat) {
    || (exists c :: c in s.shared.calls && Effect(c.answer).Some? && c.at == k)
    || (exists p :: p in s.procs && s.procs[p].Leaving? && Effect(s.procs[p].answer).Some? && s.procs[p].at == k)
  }

  ghost predicate AllClaimed(s: State) {
    forall k: nat :: k < |s.shared.accesses| ==> Claimed(s, k)
  }

  lemma MoveClaims(p: Pid, proc: Proc, s: Shared, action: Action)
    requires Move(p, proc, s, action).Some?
    ensures var (proc', s') := Move(p, proc, s, action).value;
            && s.calls <= s'.calls
            && (|s'.accesses| == |s.accesses| ||
                (|s'.accesses| == |s.accesses| + 1 && !proc.Leaving? && proc'.Some? && proc'.value.Leaving?
                 && Effect(proc'.value.answer).Some? && proc'.value.at == |s.accesses|))
            && (proc.Leaving? && Effect(proc.answer).Some? ==>
                  |s'.calls| == |s.calls| + 1 && Effect(s'.calls[|s.calls|].answer).Some?
                  && s'.calls[|s.calls|].at == proc.at)
  {}

  lemma ClaimedGo(s: State, p: Pid, action: Action, k: nat)
    requires AllClaimed(s) && Next(s, Go(p, action)).Some?
    requires k < |Next(s, Go(p, action)).value.shared.accesses|
    ensures Claimed(Next(s, Go(p, action)).value, k)
  {
    var t := Next(s, Go(p, action)).value;
    MoveClaims(p, s.procs[p], s.shared, action);
    if k == |s.shared.accesses| {
      assert p in t.procs && t.procs[p].at == k;
    } else {
      assert Claimed(s, k);
      if c :| c in s.shared.calls && Effect(c.answer).Some? && c.at == k {
        assert c in t.shared.calls;
      } else {
        var q :| q in s.procs && s.procs[q].Leaving? && Effect(s.procs[q].answer).Some? && s.procs[q].at == k;
        if q == p {
          assert t.shared.calls[|s.shared.calls|] in t.shared.calls;
        } else {
          assert t.procs[q] == s.procs[q];
        }
      }
    }
  }

  lemma AllClaimedStep(s: State, step: Step)
    requires AllClaimed(s) && Next(s, step).Some?
    ensures AllClaimed(Next(s, step).value)
  {
    var t := Next(s, step).value;
    forall k: nat | k < |t.shared.accesses| ensures Claimed(t, k) {
      match step
      case Go(p, action) => ClaimedGo(s, p, action, k);
      case Begin(p, job) =>
        assert Claimed(s, k);
        if q :| q in s.procs && s.procs[q].Leaving? && Effect(s.procs[q].answer).Some? && s.procs[q].at == k {
          assert t.procs[q] == s.procs[q];
        }
    }
  }

  /** Calls that are interrupted, refused or fail to copy out leave no trace: every access was made by a call that
      succeeded or failed to copy in, returned or about to return. */
  lemma NoStrayAccess(steps: seq<Step>, s: State)
    requires Run(Next, Init(), steps) == Some(s)
    ensures forall k: nat :: k < |s.shared.accesses| ==> Claimed(s, k)
  {
    forall t, l | AllClaimed(t) && Next(t, l).Some? ensures AllClaimed(Next(t, l).value) { AllClaimedStep(t, l); }
    Invariant(Next, AllClaimed, Init(), steps);
  }

  // ----- linearizability

  /** In every run the accesses, in the order they took effect, are those of an atomic register; each successful call
      made one of them, with the word it returned or was given, and each failing write one, with the word it left,
      between its start and its return; no two calls share one; and a call that returned before another began also
      took effect before it. */
  lemma Linearizable(steps: seq<Step>, s: State)
    requires Run(Next, Init(), steps) == Some(s)
    ensures Atomic(s.shared.accesses)
    ensures s.shared.owner.None? ==> s.shared.val == Register(s.shared.accesses)
    ensures forall c :: c in s.shared.calls && Effect(c.answer).Some? ==>
              TookEffect(s.shared.accesses, c.pid, c.job, c.from, c.answer, c.at, c.to)
    ensures forall i, j :: 0 <= i < j < |s.shared.calls| ==>
              Effect(s.shared.calls[i].answer).Some? && Effect(s.shared.calls[j].answer).Some? ==>
              s.shared.calls[i].at != s.shared.calls[j].at
    ensures forall c :: c in s.shared.calls ==> Fits(c.job, c.answer)
    ensures forall c, d :: c in s.shared.calls && d in s.shared.calls ==>
              Effect(c.answer).Some? && Effect(d.answer).Some? && c.to <= d.from ==> c.at < d.at
  {
    SoundRun(steps, s);
    CallsOkRun(steps, s);
    var a, calls := s.shared.accesses, s.shared.calls;
    forall i, j | 0 <= i < j < |calls| && Effect(calls[i].answer).Some? && Effect(calls[j].answer).Some?
      ensures calls[i].at != calls[j].at
    {
      assert CallOk(a, calls[i]) && CallOk(a, calls[j]);
      assert calls[i].pid == calls[j].pid ==> calls[i].to <= calls[j].from;
    }
    forall c | c in calls ensures CallOk(a, c) {}
  }
}
