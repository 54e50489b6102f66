/** Loading and unloading the hello module (drivers/helloDev/hello.c): a ladder of stages, each undone in
    reverse order when a later one fails. */
module HelloInit {
  import opened Runs

  datatype Event<R> = Acquire(resource: R) | Release(resource: R)

  // ----- resources as a stack

  /** What is held after the events, newest last; None if something is acquired twice, or released while
      not held or before what was acquired after it. */
  function Replay<R(==)>(held: seq<R>, log: seq<Event<R>>): Option<seq<R>>
    decreases |log|
  {
    if log == [] then Some(held)
    else match log[0]
      case Acquire(r) => if r in held then None else Replay(held + [r], log[1..])
      case Release(r) =>
        if held != [] && held[|held| - 1] == r then Replay(held[..|held| - 1], log[1..]) else None
  }

  lemma {:induction false} ReplayConcat<R>(held: seq<R>, a: seq<Event<R>>, b: seq<Event<R>>)
    ensures Replay(held, a + b) == match Replay(held, a) case None => None case Some(h) => Replay(h, b)
    decreases |a|
  {
    if a == [] {
      assert a + b == b;
    } else {
      assert (a + b)[0] == a[0] && (a + b)[1..] == a[1..] + b;
      match a[0]
      case Acquire(r) => if r !in held { ReplayConcat(held + [r], a[1..], b); }
      case Release(r) =>
        if held != [] && held[|held| - 1] == r {
          ReplayConcat(held[..|held| - 1], a[1..], b);
        }
    }
  }

  function Acquires<R>(stages: seq<R>): seq<Event<R>> {
    if stages == [] then [] else [Acquire(stages[0])] + Acquires(stages[1..])
  }

  /** Releases in reverse order. */
  function Releases<R>(stages: seq<R>): seq<Event<R>> {
    if stages == [] then [] else Releases(stages[1..]) + [Release(stages[0])]
  }

  ghost predicate Distinct<R>(xs: seq<R>) {
    forall i, j :: 0 <= i < j < |xs| ==> xs[i] != xs[j]
  }

  lemma {:induction false} AcquiresReplay<R>(held: seq<R>, stages: seq<R>)
    requires Distinct(held + stages)
    ensures Replay(held, Acquires(stages)) == Some(held + stages)
    decreases |stages|
  {
    if stages == [] {
      assert held + stages == held;
    } else {
      var r := stages[0];
      assert held + stages == (held + [r]) + stages[1..];
      forall i | 0 <= i < |held| ensures held[i] != r {
        assert (held + stages)[i] == held[i] && (held + stages)[|held|] == r;
      }
      AcquiresReplay(held + [r], stages[1..]);
      assert Acquires(stages)[1..] == Acquires(stages[1..]);
    }
  }

  lemma {:induction false} ReleasesReplay<R>(held: seq<R>, stages: seq<R>)
    ensures Replay(held + stages, Releases(stages)) == Some(held)
    decreases |stages|
  {
    if stages == [] {
      assert held + stages == held;
    } else {
      var r := stages[0];
      assert held + stages == (held + [r]) + stages[1..];
      ReleasesReplay(held + [r], stages[1..]);
      ReplayConcat(held + stages, Releases(stages[1..]), [Release(r)]);
      assert (held + [r])[..|held|] == held;
      assert [Release(r)][1..] == [];
    }
  }

  /** What a ladder does when its stages up to number `reached` succeed: everything, or the successful part
      and back down. */
  function Ladder<R>(stages: seq<R>, reached: nat): seq<Event<R>>
    requires reached <= |stages|
  {
    if reached == |stages| then Acquires(stages) else Acquires(stages[..reached]) + Releases(stages[..reached])
  }

  lemma {:induction false} AcquiresExactly<R>(stages: seq<R>, r: R)
    ensures Acquire(r) in Acquires(stages) <==> r in stages
    ensures Release(r) !in Acquires(stages)
  {
    if stages != [] {
      AcquiresExactly(stages[1..], r);
      assert stages == [stages[0]] + stages[1..];
    }
  }

  lemma {:induction false} ReleasesExactly<R>(stages: seq<R>, r: R)
    ensures Release(r) in Releases(stages) <==> r in stages
    ensures Acquire(r) !in Releases(stages)
  {
    if stages != [] {
      ReleasesExactly(stages[1..], r);
      assert stages == [stages[0]] + stages[1..];
    }
  }

  /** A ladder over distinct stages, on top of whatever is held: success holds every stage, failure at any
      stage leaves what was held before, and no release is out of order. */
  lemma LadderBalance<R>(held: seq<R>, stages: seq<R>, reached: nat)
    requires Distinct(held + stages) && reached <= |stages|
    ensures Replay(held, Ladder(stages, reached)) == Some(if reached == |stages| then held + stages else held)
  {
    var part := stages[..reached];
    assert held + part == (held + stages)[..|held| + reached];
    AcquiresReplay(held, part);
    ReleasesReplay(held, part);
    ReplayConcat(held, Acquires(part), Releases(part));
    assert stages[..|stages|] == stages;
  }

  // ----- hello_init and hello_exit

  datatype Resource = Region | Memory | Cdev | Class | Node | Attribute

  const STAGES: seq<Resource> := [Region, Memory, Cdev, Class, Node, Attribute]

  /** The answers of the six kernel calls of one hello_init. */
  datatype Answers = Answers(region: bool, memory: bool, cdev: bool, cls: bool, node: bool, attribute: bool)

  /** How many stages succeed before the first failure. */
  function Reached(a: Answers): (n: nat)
    ensures n <= |STAGES|
  {
    if !a.region then 0
    else if !a.memory then 1
    else if !a.cdev then 2
    else if !a.cls then 3
    else if !a.node then 4
    else if !a.attribute then 5
    else 6
  }

  /** Everything succeeds. */
  predicate AllSucceed(a: Answers) {
    a.region && a.memory && a.cdev && a.cls && a.node && a.attribute
  }

  /** A stage is acquired: its call and all before it succeed. */
  predicate Acquired(a: Answers, r: Resource) {
    match r
    case Region => a.region
    case Memory => a.region && a.memory
    case Cdev => a.region && a.memory && a.cdev
    case Class => a.region && a.memory && a.cdev && a.cls
    case Node => a.region && a.memory && a.cdev && a.cls && a.node
    case Attribute => AllSucceed(a)
  }

  function Up(k: nat): seq<Event<Resource>>
    requires k <= 6
  {
    [Acquire(Region), Acquire(Memory), Acquire(Cdev), Acquire(Class), Acquire(Node), Acquire(Attribute)][..k]
  }

  function Down(k: nat): seq<Event<Resource>>
    requires k <= 6
  {
    [Release(Attribute), Release(Node), Release(Class), Release(Cdev), Release(Memory), Release(Region)][6 - k..]
  }

  lemma {:induction false} LadderSnoc<R>(stages: seq<R>, r: R)
    ensures Acquires(stages + [r]) == Acquires(stages) + [Acquire(r)]
    ensures Releases(stages + [r]) == [Release(r)] + Releases(stages)
  {
    if stages == [] {
      assert [r][1..] == [];
    } else {
      assert (stages + [r])[1..] == stages[1..] + [r];
      LadderSnoc(stages[1..], r);
    }
  }

  lemma {:induction false} PartialLadder(k: nat)
    requires k <= 6
    ensures Acquires(STAGES[..k]) == Up(k) && Releases(STAGES[..k]) == Down(k)
  {
    if k > 0 {
      PartialLadder(k - 1);
      assert STAGES[..k] == STAGES[..k - 1] + [STAGES[k - 1]];
      LadderSnoc(STAGES[..k - 1], STAGES[k - 1]);
    }
  }

  lemma LadderEvents(reached: nat)
    requires reached <= 6
    ensures Ladder(STAGES, reached) == if reached == 6 then Up(6) else Up(reached) + Down(reached)
  {
    PartialLadder(reached);
    assert STAGES[..6] == STAGES;
  }

  lemma ReachedStages(a: Answers, r: Resource)
    ensures r in STAGES[..Reached(a)] <==> Acquired(a, r)
  {
    assert STAGES[0] == Region && STAGES[1] == Memory && STAGES[2] == Cdev;
    assert STAGES[3] == Class && STAGES[4] == Node && STAGES[5] == Attribute;
  }

  /** What the ladder does for given answers: it acquires just the stages whose calls and all before them succeed, and
      unless all do it releases the same again. */
  lemma LadderAnswers(a: Answers, r: Resource)
    ensures var log := Ladder(STAGES, Reached(a));
            && (Acquire(r) in log <==> Acquired(a, r))
            && (Release(r) in log <==> Acquired(a, r) && !AllSucceed(a))
  {
    var part := STAGES[..Reached(a)];
    AcquiresExactly(part, r);
    ReleasesExactly(part, r);
    ReachedStages(a, r);
    assert STAGES[..|STAGES|] == STAGES;
  }

  /** Just the stages whose calls and all before them succeed are acquired, and unless all are they are released. */
  ghost predicate EventsOf(log: seq<Event<Resource>>, a: Answers) {
    && (forall r: Resource :: Acquire(r) in log <==> Acquired(a, r))
    && (forall r: Resource :: Release(r) in log <==> Acquired(a, r) && !AllSucceed(a))
  }

  lemma LadderEventsOf(a: Answers)
    ensures EventsOf(Ladder(STAGES, Reached(a)), a)
  {
    forall r: Resource
      ensures Acquire(r) in Ladder(STAGES, Reached(a)) <==> Acquired(a, r)
      ensures Release(r) in Ladder(STAGES, Reached(a)) <==> Acquired(a, r) && !AllSucceed(a)
    {
      LadderAnswers(a, r);
    }
  }

  lemma ReleasesEvents()
    ensures Releases(STAGES) == Down(6)
  {
    PartialLadder(6);
    assert STAGES[..6] == STAGES;
  }

  /** On the way up with k stages done, and on the way down from n stages to k. */
  ghost predicate Climbed(events: seq<Event<Resource>>, k: nat) {
    k <= 6 && events == Up(k)
  }

  ghost predicate Descended(events: seq<Event<Resource>>, n: nat, k: nat) {
    k <= n <= 6 && events == Up(n) + Down(n)[..n - k]
  }

  lemma Climb(events: seq<Event<Resource>>, k: nat)
    requires k < 6 && Climbed(events, k)
    ensures Climbed(events + [Acquire(STAGES[k])], k + 1)
  {}

  lemma TurnBack(events: seq<Event<Resource>>, n: nat)
    requires Climbed(events, n)
    ensures Descended(events, n, n)
  {}

  lemma Descend(events: seq<Event<Resource>>, n: nat, k: nat)
    requires Descended(events, n, k + 1)
    ensures Descended(events + [Release(STAGES[k])], n, k)
  {}

  lemma Bottom(events: seq<Event<Resource>>, n: nat)
    requires n < 6 && Descended(events, n, 0)
    ensures events == Ladder(STAGES, n)
  {
    LadderEvents(n);
    assert Down(n)[..n] == Down(n);
  }

  /** hello_exit skips what stands behind a null pointer. */
  function ExitEvents(helloDev: bool, helloClass: bool): seq<Event<Resource>> {
    (if helloClass then [Release(Attribute), Release(Node), Release(Class)] else [])
    + (if helloDev then [Release(Cdev), Release(Memory)] else [])
    + [Release(Region)]
  }

  /** hello_exit releases the region always, class, node and attribute if there is a class, cdev and memory if there
      is a device, and acquires nothing. */
  lemma ExitReleases(helloDev: bool, helloClass: bool, r: Resource)
    ensures Acquire(r) !in ExitEvents(helloDev, helloClass)
    ensures Release(r) in ExitEvents(helloDev, helloClass) <==>
            r.Region? || (helloClass && (r.Attribute? || r.Node? || r.Class?)) || (helloDev && (r.Cdev? || r.Memory?))
  {
    var es := ExitEvents(helloDev, helloClass);
    assert es[|es| - 1] == Release(Region);
    if helloClass { assert es[0] == Release(Attribute) && es[1] == Release(Node) && es[2] == Release(Class); }
    if helloDev { assert es[|es| - 3] == Release(Cdev) && es[|es| - 2] == Release(Memory); }
  }

  /** Exactly when neither pointer is null does hello_exit release every stage. */
  lemma ExitReleasesAll(helloDev: bool, helloClass: bool)
    ensures ExitEvents(helloDev, helloClass) == Releases(STAGES) <==> helloDev && helloClass
  {
    ReleasesEvents();
    assert |ExitEvents(helloDev, helloClass)| == 6 <==> helloDev && helloClass;
  }

  class HelloModule {
    var helloDev: bool             // the pointers are not NULL
    var helloClass: bool
    ghost var log: seq<Event<Resource>>

    constructor ()
      ensures log == [] && !helloDev && !helloClass
    {
      helloDev, helloClass, log := false, false, [];
    }

    /** The labels are those of the C function: leaving a block early undoes what was acquired before it. */
    method HelloInit(a: Answers) returns (ok: bool)
      modifies this
      ensures log == old(log) + Ladder(STAGES, Reached(a))
      ensures ok <==> a.region && a.memory && a.cdev && a.cls && a.node && a.attribute
      ensures helloDev == (if a.region then a.memory else old(helloDev))
      ensures helloClass == (Acquired(a, Cdev) || old(helloClass))
    {
      ghost var n := Reached(a);
      ghost var events: seq<Event<Resource>> := [];
      label fail: {
        if !a.region { TurnBack(events, 0); break fail; }
        Climb(events, 0);
        events := events + [Acquire(Region)];
        label unregister: {
          helloDev := a.memory;
          if !a.memory { TurnBack(events, 1); break unregister; }
          Climb(events, 1);
          events := events + [Acquire(Memory)];
          label cleanup: {
            if !a.cdev { TurnBack(events, 2); break cleanup; }
            Climb(events, 2);
            events := events + [Acquire(Cdev)];
            label destroyCdev: {
              helloClass := true;   // an error pointer on failure
              if !a.cls { TurnBack(events, 3); break destroyCdev; }
              Climb(events, 3);
              events := events + [Acquire(Class)];
              label destroyClass: {
                if !a.node { TurnBack(events, 4); break destroyClass; }
                Climb(events, 4);
                events := events + [Acquire(Node)];
                label destroyDevice: {
                  if !a.attribute { TurnBack(events, 5); break destroyDevice; }
                  Climb(events, 5);
                  events := events + [Acquire(Attribute)];
                  LadderEvents(6);
                  log := log + events;
                  return true;
                }
                Descend(events, n, 4);
                events := events + [Release(Node)];
              }
              Descend(events, n, 3);
              events := events + [Release(Class)];
            }
            Descend(events, n, 2);
            events := events + [Release(Cdev)];
          }
          Descend(events, n, 1);
          events := events + [Release(Memory)];
        }
        Descend(events, n, 0);
        events := events + [Release(Region)];
      }
      Bottom(events, n);
      log := log + events;
      ok := false;
    }

    /** device_destroy takes the attribute away with the node. */
    method HelloExit()
      modifies this`log
      ensures log == old(log) + ExitEvents(helloDev, helloClass)
    {
      if helloClass {
        log := log + [Release(Attribute), Release(Node)];
        log := log + [Release(Class)];
      }
      if helloDev {
        log := log + [Release(Cdev)];
        log := log + [Release(Memory)];
      }
      log := log + [Release(Region)];
    }
  }

  // ----- any number of insmod and rmmod

  /** The module's globals, which loading clears and hello_init sets. */
  datatype Module = Module(loaded: bool, helloDev: bool, helloClass: bool, log: seq<Event<Resource>>)

  const ABSENT := Module(false, false, false, [])

  datatype Cycle = Insmod(a: Answers) | Rmmod

  function Next(m: Module, cycle: Cycle): Option<Module> {
    match cycle
    case Insmod(a) =>
      if m.loaded then None
      else
        var n := Reached(a);
        Some(Module(n == |STAGES|, a.region && a.memory, n >= 3, m.log + Ladder(STAGES, n)))
    case Rmmod =>
      if m.loaded then Some(m.(loaded := false, log := m.log + ExitEvents(m.helloDev, m.helloClass))) else None
  }

  /** A load succeeds exactly if its six calls do; otherwise the module is not there. */
  lemma InsmodLoads(m: Module, a: Answers)
    requires !m.loaded
    ensures Next(m, Insmod(a)).Some?
    ensures Next(m, Insmod(a)).value.loaded <==> a.region && a.memory && a.cdev && a.cls && a.node && a.attribute
  {}

  ghost predicate Balanced(m: Module) {
    && (m.loaded ==> m.helloDev && m.helloClass)
    && Replay([], m.log) == Some(if m.loaded then STAGES else [])
  }

  lemma InsmodReplay(reached: nat)
    requires reached <= 6
    ensures Replay([], Ladder(STAGES, reached)) == Some(if reached == 6 then STAGES else [])
  {
    assert [] + STAGES == STAGES;
    LadderBalance([], STAGES, reached);
  }

  lemma InsmodBalanced(m: Module, a: Answers)
    requires Balanced(m) && !m.loaded
    ensures Balanced(Next(m, Insmod(a)).value)
  {
    InsmodReplay(Reached(a));
    ReplayConcat([], m.log, Ladder(STAGES, Reached(a)));
  }

  lemma RmmodBalanced(m: Module)
    requires Balanced(m) && m.loaded
    ensures Balanced(Next(m, Rmmod).value)
  {
    assert [] + STAGES == STAGES;
    ExitReleasesAll(m.helloDev, m.helloClass);
    ReleasesReplay([], STAGES);
    ReplayConcat([], m.log, Releases(STAGES));
  }

  lemma BalancedStep(m: Module, cycle: Cycle)
    requires Balanced(m) && Next(m, cycle).Some?
    ensures Balanced(Next(m, cycle).value)
  {
    match cycle
    case Insmod(a) => InsmodBalanced(m, a);
    case Rmmod => RmmodBalanced(m);
  }

  /** Over any number of load and unload cycles with any failures, the events are a legal use of a stack:
      nothing is acquired twice, released twice, or released before what depends on it; a loaded module holds
      every stage, and hello_exit will find neither pointer null; an unloaded one holds nothing. */
  lemma CyclesBalance(cycles: seq<Cycle>, m: Module)
    requires Run(Next, ABSENT, cycles) == Some(m)
    ensures Replay([], m.log) == Some(if m.loaded then STAGES else [])
    ensures m.loaded ==> m.helloDev && m.helloClass
  {
    forall n, c | Balanced(n) && Next(n, c).Some? ensures Balanced(Next(n, c).value) { BalancedStep(n, c); }
    Invariant(Next, Balanced, ABSENT, cycles);
  }

  /** hello_init, and hello_exit if it succeeded: `acquired` is what the load did, whatever was done before. */
  method LoadAndUnload(a: Answers, ghost m: Module)
    returns (ok: bool, ghost acquired: seq<Event<Resource>>, ghost cycles: seq<Cycle>, ghost after: Module)
    requires !m.loaded
    ensures ok <==> a.region && a.memory && a.cdev && a.cls && a.node && a.attribute
    ensures EventsOf(acquired, a)
    ensures after.log == m.log + acquired + if ok then ExitEvents(true, true) else []
    ensures Run(Next, m, cycles) == Some(after) && !after.loaded
  {
    var driver := new HelloModule();
    ok := driver.HelloInit(a);
    acquired := driver.log;
    LadderEventsOf(a);
    assert acquired == Ladder(STAGES, Reached(a));
    after := Module(ok, driver.helloDev, driver.helloClass, m.log + acquired);
    cycles := [Insmod(a)];
    RunOne(Next, m, Insmod(a));
    if ok {
      driver.HelloExit();
      assert driver.log[|acquired|..] == ExitEvents(driver.helloDev, driver.helloClass);
      RunSnoc(Next, m, cycles, Rmmod);
      cycles := cycles + [Rmmod];
      after := after.(loaded := false, log := after.log + driver.log[|acquired|..]);
    } else {
      assert m.log + acquired + [] == m.log + acquired;
    }
  }

  /** Load after load, whatever the kernel answers: at the end nothing is held. */
  method LoadsAndUnloads(loads: seq<Answers>) returns (succeeded: nat, ghost m: Module)
    ensures succeeded == Count(AllSucceed, loads)
    ensures exists cycles :: Run(Next, ABSENT, cycles) == Some(m)
    ensures !m.loaded && Replay([], m.log) == Some([])
  {
    succeeded, m := 0, ABSENT;
    ghost var cycles: seq<Cycle> := [];
    var i := 0;
    while i < |loads|
      invariant 0 <= i <= |loads|
      invariant succeeded + Count(AllSucceed, loads[i..]) == Count(AllSucceed, loads)
      invariant Run(Next, ABSENT, cycles) == Some(m) && !m.loaded
    {
      var ok, acquired, more, after := LoadAndUnload(loads[i], m);
      RunJoin(Next, ABSENT, cycles, m, more, after);
      cycles, m := cycles + more, after;
      succeeded := succeeded + if ok then 1 else 0;
      i := i + 1;
    }
    CyclesBalance(cycles, m);
  }
}
