/** Timer multiplexing (src/timer.c): many events over one hardware timer.  The counter `cnt` and the
    tick `armed` at which the timer will fire stand for cntpct_el0 and the programmed comparator; the
    log records what the interrupt handler delivered. */
module Timer {
  const U64: int := 0x1_0000_0000_0000_0000
  const U32: int := 0x1_0000_0000
  const I32: int := 0x8000_0000

  /** timer_event_t without its list node and message; `id` numbers the events in order of registration
      and `tick` is the counter value at registration. */
  datatype Event = Event(id: nat, registerTime: int, prevUpdatedTime: int, duration: int, remainingTime: int, tick: int)

  /** The delivery of an event, and the system time and counter value at which it happened. */
  datatype Fired = Fired(event: Event, time: int, tick: int)

  datatype Clock = Clock(freq: int, cnt: int, armed: int, list: seq<Event>, multiplexing: bool, log: seq<Fired>,
                         nextId: nat)

  /** get_system_time */
  function SystemTime(s: Clock): int
    requires s.freq > 0
  {
    s.cnt / s.freq
  }

  /** The body of UpdateTimerEvents, in 64-bit unsigned arithmetic. */
  function UpdateOne(e: Event, now: int): Event
  {
    var temp := (now - e.prevUpdatedTime) % U64;
    e.(remainingTime := (e.remainingTime - temp) % U64, prevUpdatedTime := now)
  }

  function Update(list: seq<Event>, now: int): (r: seq<Event>)
    ensures |r| == |list| && forall i :: 0 <= i < |list| ==> r[i] == UpdateOne(list[i], now)
  {
    seq(|list|, i requires 0 <= i < |list| => UpdateOne(list[i], now))
  }

  /** Where AddNewTimerEvents puts an event: before the first entry, from i on, with more time left. */
  function PlaceFrom(list: seq<Event>, e: Event, i: nat): (k: nat)
    requires i <= |list|
    ensures i <= k <= |list|
    ensures forall j :: i <= j < k ==> list[j].remainingTime <= e.remainingTime
    ensures k < |list| ==> e.remainingTime < list[k].remainingTime
    decreases |list| - i
  {
    if i == |list| || e.remainingTime < list[i].remainingTime then i else PlaceFrom(list, e, i + 1)
  }

  function Insert(list: seq<Event>, e: Event): seq<Event>
  {
    var k := PlaceFrom(list, e, 0);
    list[..k] + [e] + list[k..]
  }

  /** What writing x to cntp_tval_el0 means: its low 32 bits, as a signed number. */
  function TimerValue(x: int): int
  {
    var low := x % U32;
    if low < I32 then low else low - U32
  }

  /** setNextTimerEventInterrupt: the tick at which the timer will fire. */
  function Arm(s: Clock): Clock
    requires s.list != []
  {
    s.(armed := s.cnt + TimerValue((s.freq * s.list[0].remainingTime) % U64))
  }

  /** add_timer */
  function AddTimer(s: Clock, duration: int): Clock
    requires s.freq > 0
  {
    var now := SystemTime(s);
    var e := Event(s.nextId, now, now, duration, duration, s.cnt);
    Arm(s.(list := Insert(Update(s.list, now), e), multiplexing := true, nextId := s.nextId + 1))
  }

  /** timerEvents_irq_handler.  With an empty list C would treat the list head as an event. */
  function Fire(s: Clock): Clock
    requires s.freq > 0
  {
    if s.list == [] then s
    else
      var now := SystemTime(s);
      var list := Update(s.list, now);
      var t := s.(list := list[1..], log := s.log + [Fired(list[0], now, s.cnt)]);
      if t.list != [] then Arm(t) else t.(multiplexing := false)
  }

  /** Time passes, the hardware counter with it. */
  function Advance(s: Clock, d: nat): Clock
  {
    s.(cnt := s.cnt + d)
  }

  datatype Move = AddMove(duration: int) | FireMove | AdvanceMove(ticks: nat)

  function Play(s: Clock, m: Move): Clock
    requires s.freq > 0
  {
    match m
    case AddMove(duration) => AddTimer(s, duration)
    case FireMove => Fire(s)
    case AdvanceMove(d) => Advance(s, d)
  }

  /** Delivery is exact: while the timer is set up, time stops at the programmed tick until the
      interrupt has been handled.  Durations stay within what the 32-bit timer value can hold, and
      the counter does not wrap. */
  predicate Exact(s: Clock, m: Move)
  {
    match m
    case AddMove(duration) => 0 <= duration && s.freq * duration < I32
    case FireMove => s.list != [] && s.cnt == s.armed
    case AdvanceMove(d) => s.cnt + d < U64 && (s.list != [] ==> s.cnt + d <= s.armed)
  }

  ghost predicate Plays(s: Clock, moves: seq<Move>, t: Clock)
    decreases |moves|
  {
    if moves == [] then s == t
    else s.freq > 0 && Exact(s, moves[0]) && Plays(Play(s, moves[0]), moves[1..], t)
  }

  function Start(freq: int, cnt: int): Clock
  {
    Clock(freq, cnt, 0, [], false, [], 0)
  }
}
