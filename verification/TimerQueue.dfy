/** The globals of src/timer.c, updated in place, proved against module Timer. */
module TimerQueue {
  import opened Timer
  import opened TimerTheorems

  class Queue {
    var timerList: seq<Event>
    var isTimerMultiplexingEventIRQ: bool
    var armed: int
    const freq: int
    ghost var cnt: int
    ghost var log: seq<Fired>
    var nextId: nat

    ghost function View(): Clock
      reads this
    {
      Clock(freq, cnt, armed, timerList, isTimerMultiplexingEventIRQ, log, nextId)
    }

    ghost predicate Valid()
      reads this
    {
      TInv(View())
    }

    constructor (freq: int, cnt: int)
      requires freq > 0 && 0 <= cnt < U64
      ensures Valid() && View() == Start(freq, cnt)
    {
      this.freq := freq;
      this.cnt := cnt;
      timerList, isTimerMultiplexingEventIRQ, armed, log, nextId := [], false, 0, [], 0;
      new;
      EveryRunExact(freq, cnt, [], Start(freq, cnt));
    }

    method UpdateTimerEvents(systemTime: int)
      modifies this`timerList
      ensures timerList == Update(old(timerList), systemTime)
    {
      for i := 0 to |timerList|
        invariant |timerList| == |old(timerList)|
        invariant forall j :: 0 <= j < i ==> timerList[j] == UpdateOne(old(timerList)[j], systemTime)
        invariant forall j :: i <= j < |timerList| ==> timerList[j] == old(timerList)[j]
      {
        var e := timerList[i];
        var temp := (systemTime - e.prevUpdatedTime) % U64;
        e := e.(remainingTime := (e.remainingTime - temp) % U64);
        e := e.(prevUpdatedTime := systemTime);
        timerList := timerList[i := e];
      }
    }

    method AddNewTimerEvents(e: Event)
      modifies this`timerList
      ensures timerList == Insert(old(timerList), e)
    {
      if timerList == [] {
        timerList := [e];
      } else {
        var i := 0;
        while i < |timerList|
          invariant 0 <= i <= |timerList| && timerList == old(timerList)
          invariant PlaceFrom(timerList, e, i) == PlaceFrom(timerList, e, 0)
        {
          if e.remainingTime < timerList[i].remainingTime {
            break;
          }
          i := i + 1;
        }
        timerList := timerList[..i] + [e] + timerList[i..];
      }
    }

    /** setNextTimerEventInterrupt, given the counter value at the time of the write. */
    method SetNextTimerEventInterrupt(count: int)
      requires timerList != [] && count == cnt
      modifies this`armed
      ensures View() == Arm(old(View()))
    {
      var next := timerList[0].remainingTime;
      armed := count + TimerValue((freq * next) % U64);
    }

    /** add_timer, given the counter value it reads; exact as long as deliveries and durations are. */
    method Register(duration: int, count: int)
      requires freq > 0 && count == cnt
      modifies this`timerList, this`isTimerMultiplexingEventIRQ, this`armed, this`nextId
      ensures View() == AddTimer(old(View()), duration)
      ensures old(Valid()) && Exact(old(View()), AddMove(duration)) ==> Valid()
    {
      ghost var exact := Valid() && Exact(View(), AddMove(duration));
      if exact { AddKeeps(View(), duration); }
      var now := count / freq;
      var e := Event(nextId, now, now, duration, duration, count);
      nextId := nextId + 1;
      isTimerMultiplexingEventIRQ := true;
      UpdateTimerEvents(now);
      AddNewTimerEvents(e);
      SetNextTimerEventInterrupt(count);
    }

    /** timerEvents_irq_handler, early, late or on time; e is passed to its callback.  On an interrupt that
        arrives on time e is due exactly now. */
    method IrqHandler(count: int) returns (e: Event)
      requires freq > 0 && timerList != [] && count == cnt
      modifies this`timerList, this`isTimerMultiplexingEventIRQ, this`armed, this`log
      ensures View() == Fire(old(View()))
      ensures log == old(log) + [Fired(e, count / freq, count)]
      ensures old(Valid()) && Exact(old(View()), FireMove) ==>
                Valid() && e.remainingTime == 0 && Deadline(e) == count / freq
    {
      ghost var exact := Valid() && Exact(View(), FireMove);
      if exact {
        FireKeeps(View());
        FiresAtZero(View());
      }
      var now := count / freq;
      UpdateTimerEvents(now);
      e := timerList[0];
      log := log + [Fired(e, now, count)];
      timerList := timerList[1..];
      if timerList != [] {
        SetNextTimerEventInterrupt(count);
      } else {
        isTimerMultiplexingEventIRQ := false;
      }
    }
  }
}
