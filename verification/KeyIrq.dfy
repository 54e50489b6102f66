/** The key driver without wait queue (13_irq/keyirq.c): interrupt, tasklet, debounce timer and the
    one-slot status that read consumes.

    A pin edge latches an interrupt; the interrupt schedules the tasklet; the tasklet re-arms the
    timer; the timer callback samples the pin.  The machine interleaves these with reads, with the
    clock and with further edges in any order. */
module KeyIrq {
  import opened Runs

  type Level = n: int | n == 0 || n == 1 witness 1

  type Pid = nat

  datatype Status = KeyPress | KeyRelease | KeyNone

  datatype Timer = Unarmed | Armed(deadline: nat)

  /** The timer callback: not running; entered; inside its critical section with the level it read,
      and when, but the result not stored yet. */
  datatype Handler = Idle | Entered | HasRead(cur: Level, at: nat)

  datatype Delivery = Delivery(serial: nat, value: Status, reader: Pid)

  /** Everything ever written to the status slot, in order. */
  datatype Write = StoredEvent(serial: nat) | StoredNone | Cleared(reader: Pid)

  /** What happened so far.  No step looks at it to decide anything. */
  datatype History = History(
    lastRun: nat,             // when the tasklet body last ran
    expiries: seq<nat>,       // when the timer fired
    levels: seq<Level>,       // for every completed callback: the level it read,
    sampled: seq<nat>,        //   when it read it,
    stored: seq<nat>,         //   when it stored the result
    events: seq<Status>,      // the non-NONE results; the index is the event's serial number
    eventTimes: seq<nat>,     //   and when each was stored
    tag: nat,                 // serial of the event last put in the slot
    delivered: seq<Delivery>, // events handed out by successful reads
    erased: set<nat>,         // serials of the events overwritten before any read
    writes: seq<Write>)

  datatype State = State(
    delay: nat,               // msecs_to_jiffies(15)
    now: nat,                 // jiffies
    pin: Level,
    irq: bool,                // an edge is latched, its interrupt not taken yet
    scheduled: bool,          // the tasklet's scheduled flag
    running: bool,            // the tasklet left the queue, its body has not finished
    timer: Timer,
    handler: Handler,
    last: Level,              // static last_value
    status: Status,
    h: History)

  const NO_HISTORY := History(0, [], [], [], [], [], [], 0, [], {}, [])

  /** The state mykey_init leaves. */
  function Init(delay: nat): State {
    State(delay, 0, 1, false, false, false, Unarmed, Idle, 1, KeyNone, NO_HISTORY)
  }

  datatype Step =
    | Edge
    | Tick
    | TakeIrq
    | TaskletStart
    | TaskletRun
    | Expire
    | ReadGpio
    | Store
    | KeryRead(reader: Pid, fault: bool)

  /** The three-way branch of timer_function. */
  function Detect(cur: Level, last: Level): Status {
    if cur == 0 && cur != last then KeyPress
    else if cur == 1 && cur != last then KeyRelease
    else KeyNone
  }

  function RecordStore(h: History, before: Status, after: Status, level: Level, at: nat, now: nat): History {
    var h' := h.(levels := h.levels + [level],
                 sampled := h.sampled + [at],
                 stored := h.stored + [now],
                 erased := if before == KeyNone then h.erased else h.erased + {h.tag});
    if after == KeyNone then h'.(writes := h.writes + [StoredNone])
    else h'.(writes := h.writes + [StoredEvent(|h.events|)],
             events := h.events + [after],
             eventTimes := h.eventTimes + [now],
             tag := |h.events|)
  }

  function RecordClear(h: History, before: Status, reader: Pid): History {
    h.(writes := h.writes + [Cleared(reader)],
       delivered := if before == KeyNone then h.delivered
                    else h.delivered + [Delivery(h.tag, before, reader)])
  }

  function Next(s: State, step: Step): Option<State> {
    match step
    case Edge => Some(s.(pin := 1 - s.pin, irq := true))
    case Tick => Some(s.(now := s.now + 1))
    case TakeIrq =>
      if s.irq then Some(s.(irq := false, scheduled := true)) else None
    case TaskletStart =>
      if s.scheduled && !s.running then Some(s.(scheduled := false, running := true)) else None
    case TaskletRun =>
      if s.running
      then Some(s.(running := false, timer := Armed(s.now + s.delay), h := s.h.(lastRun := s.now)))
      else None
    case Expire =>
      if s.timer.Armed? && s.timer.deadline <= s.now && s.handler.Idle?
      then Some(s.(timer := Unarmed, handler := Entered, h := s.h.(expiries := s.h.expiries + [s.now])))
      else None
    case ReadGpio =>
      if s.handler.Entered? then Some(s.(handler := HasRead(s.pin, s.now))) else None
    case Store =>
      if s.handler.HasRead?
      then
        var after := Detect(s.handler.cur, s.last);
        Some(s.(handler := Idle, status := after, last := s.handler.cur,
                h := RecordStore(s.h, s.status, after, s.handler.cur, s.handler.at, s.now)))
      else None
    case KeryRead(reader, fault) =>
      // the critical sections of read and of the callback exclude each other
      if s.handler.HasRead? then None
      else if fault then Some(s)
      else Some(s.(status := KeyNone, h := RecordClear(s.h, s.status, reader)))
  }

  /** Device and driver data as the C file holds them, changed in place. */
  class KeyDev {
    const delay: nat
    var now: nat
    var pin: Level
    var irq: bool
    var scheduled: bool
    var running: bool
    var timer: Timer
    var handler: Handler
    var lastValue: Level
    var status: Status
    ghost var h: History

    ghost function View(): State
      reads this
    {
      State(delay, now, pin, irq, scheduled, running, timer, handler, lastValue, status, h)
    }

    constructor (delay: nat)
      ensures View() == Init(delay)
    {
      this.delay := delay;
      now, pin, irq, scheduled, running := 0, 1, false, false, false;
      timer, handler, lastValue, status := Unarmed, Idle, 1, KeyNone;
      h := NO_HISTORY;
    }

    method KeyInterruptHandler()
      requires irq
      modifies this
      ensures Next(old(View()), TakeIrq) == Some(View())
    {
      irq := false;
      scheduled := true;
    }

    method TaskletDequeue()
      requires scheduled && !running
      modifies this
      ensures Next(old(View()), TaskletStart) == Some(View())
    {
      scheduled := false;
      running := true;
    }

    method KeyIrqTasklet()
      requires running
      modifies this
      ensures Next(old(View()), TaskletRun) == Some(View())
    {
      timer := Armed(now + delay);
      h := h.(lastRun := now);
      running := false;
    }

    method TimerFire() returns (fired: bool)
      modifies this
      ensures fired <==> Next(old(View()), Expire).Some?
      ensures if fired then Next(old(View()), Expire) == Some(View()) else View() == old(View())
    {
      fired := timer.Armed? && timer.deadline <= now && handler.Idle?;
      if fired {
        timer, handler := Unarmed, Entered;
        h := h.(expiries := h.expiries + [now]);
      }
    }

    method TimerReadGpio()
      requires handler.Entered?
      modifies this
      ensures Next(old(View()), ReadGpio) == Some(View())
    {
      handler := HasRead(pin, now);
    }

    method TimerStore()
      requires handler.HasRead?
      modifies this
      ensures Next(old(View()), Store) == Some(View())
    {
      var curValue := handler.cur;
      ghost var before := status;
      if curValue == 0 && curValue != lastValue {
        status := KeyPress;
      } else if curValue == 1 && curValue != lastValue {
        status := KeyRelease;
      } else {
        status := KeyNone;
      }
      lastValue := curValue;
      h := RecordStore(h, before, status, curValue, handler.at, now);
      handler := Idle;
    }

    /** The whole of kery_read: `fault` is the answer of copy_to_user. */
    method KeryRead(reader: Pid, fault: bool) returns (copied: Option<Status>)
      requires !handler.HasRead?
      modifies this
      ensures Next(old(View()), Step.KeryRead(reader, fault)) == Some(View())
      ensures copied == if fault then None else Some(old(status))
    {
      if fault {
        return None;
      }
      copied := Some(status);
      h := RecordClear(h, status, reader);
      status := KeyNone;
    }
  }
}
