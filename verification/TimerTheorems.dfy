/** Exactness and order of the multiplexed timer over every run. */
module TimerTheorems {
  import opened Seqs
  import opened Bits
  import opened Timer

  // ---------------------------------------------------------------- arithmetic

  lemma ModSmall(x: int, m: int)
    requires m > 0 && 0 <= x < m
    ensures x % m == x
  {
  }

  /** floor((n + F * r) / F) == floor(n / F) + r */
  lemma WholeSeconds(n: int, f: int, r: int)
    requires f > 0
    ensures (n + f * r) / f == n / f + r
  {
    var q := n / f + r;
    assert n == f * (n / f) + n % f;
    assert f * q == f * (n / f) + f * r by { MulSplit(f, n / f, r); }
    assert n + f * r == f * q + n % f;
    DivModUnique(n + f * r, f, q, n % f);
  }

  lemma DivMonotone(a: int, b: int, f: int)
    requires f > 0 && a <= b
    ensures a / f <= b / f
  {
    var p, q := a / f, b / f;
    assert a == f * p + a % f && b == f * q + b % f;
    assert f * (p - q) < f by { MulSplit(f, p - q, q); }
    if p - q >= 1 { MulAtLeast(f, p - q); }
  }

  // ---------------------------------------------------------------- one update

  /** The moment an event is due, in system time. */
  function Deadline(e: Event): int { e.registerTime + e.duration }

  /** However late the update: last update plus remaining time is kept modulo 2^64. */
  lemma UpdateKeepsModulo(e: Event, now: int)
    ensures (UpdateOne(e, now).prevUpdatedTime + UpdateOne(e, now).remainingTime) % U64
         == (e.prevUpdatedTime + e.remainingTime) % U64
  {
    var x := now - e.prevUpdatedTime;
    var y := e.remainingTime - x % U64;
    assert x == U64 * (x / U64) + x % U64;
    assert y == U64 * (y / U64) + y % U64;
    var q := -(x / U64) - (y / U64);
    assert now + y % U64 == e.prevUpdatedTime + e.remainingTime + U64 * (x / U64) - U64 * (y / U64);
    ModShift(e.prevUpdatedTime + e.remainingTime, x / U64 - y / U64);
  }

  lemma ModShift(a: int, q: int)
    ensures (a + U64 * q) % U64 == a % U64
  {
    assert a == U64 * (a / U64) + a % U64;
    DivModUnique(a + U64 * q, U64, a / U64 + q, a % U64);
  }

  /** The update is exact if and only if it comes no later than the event is due. */
  lemma UpdateExactIff(e: Event, now: int)
    requires 0 <= e.prevUpdatedTime <= now < U64 && 0 <= e.remainingTime < U64
    ensures UpdateOne(e, now).prevUpdatedTime + UpdateOne(e, now).remainingTime == e.prevUpdatedTime + e.remainingTime
        <==> now <= e.prevUpdatedTime + e.remainingTime
  {
    var temp := now - e.prevUpdatedTime;
    ModSmall(temp, U64);
    var y := e.remainingTime - temp;
    if y >= 0 { ModSmall(y, U64); } else { DivModUnique(y, U64, -1, y + U64); }
  }

  // ---------------------------------------------------------------- the invariant

  /** Earlier deadline, or the same and registered earlier. */
  predicate Before(d: Event, e: Event)
  {
    Deadline(d) < Deadline(e) || (Deadline(d) == Deadline(e) && d.id < e.id)
  }

  /** An event in the list, last updated at time u: the remaining time is the true one. */
  predicate EventOk(s: Clock, e: Event, u: int)
  {
    && e.prevUpdatedTime == u && e.remainingTime == Deadline(e) - u
    && 0 <= e.registerTime <= u && 0 <= e.remainingTime <= e.duration && s.freq * e.duration < I32
    && e.id < s.nextId && (s.freq > 0 ==> e.registerTime == e.tick / s.freq)
  }

  ghost predicate Sorted(list: seq<Event>)
  {
    forall i, j :: 0 <= i < j < |list| ==> Before(list[i], list[j])
  }

  /** The list was last updated, and the timer last set, at tick t0. */
  ghost predicate ListOk(s: Clock, t0: int)
    requires s.freq > 0
  {
    && 0 <= t0 <= s.cnt
    && (forall i :: 0 <= i < |s.list| ==> EventOk(s, s.list[i], t0 / s.freq))
    && Sorted(s.list)
    && (s.list != [] ==> s.multiplexing && s.cnt <= s.armed && s.armed == t0 + s.freq * s.list[0].remainingTime)
    && (s.list == [] ==> !s.multiplexing)
  }

  /** Everything was delivered at its deadline, in order, and before anything still in the list. */
  ghost predicate LogOk(s: Clock)
    requires s.freq > 0
  {
    && (forall i :: 0 <= i < |s.log| ==> s.log[i].time == Deadline(s.log[i].event) && s.log[i].event.remainingTime == 0)
    && (forall i, j :: 0 <= i < j < |s.log| ==> Before(s.log[i].event, s.log[j].event))
    && (forall i, j :: 0 <= i < |s.log| && 0 <= j < |s.list| ==> Before(s.log[i].event, s.list[j]))
    && (forall i :: 0 <= i < |s.log| ==> s.log[i].event.id < s.nextId && s.log[i].time <= s.cnt / s.freq)
    && (forall i :: 0 <= i < |s.log| ==>
          s.log[i].time == s.log[i].tick / s.freq && s.log[i].event.registerTime == s.log[i].event.tick / s.freq)
  }

  function Ids(list: seq<Event>): (r: seq<nat>)
    ensures |r| == |list| && forall i :: 0 <= i < |list| ==> r[i] == list[i].id
  {
    seq(|list|, i requires 0 <= i < |list| => list[i].id)
  }

  function LogIds(log: seq<Fired>): (r: seq<nat>)
    ensures |r| == |log| && forall i :: 0 <= i < |log| ==> r[i] == log[i].event.id
  {
    seq(|log|, i requires 0 <= i < |log| => log[i].event.id)
  }

  /** Every event registered so far is in the list or in the log, exactly once. */
  ghost predicate Conserved(s: Clock)
  {
    forall x: nat :: Occurs(Ids(s.list), x) + Occurs(LogIds(s.log), x) == if x < s.nextId then 1 else 0
  }

  ghost predicate TInv(s: Clock)
  {
    && s.freq > 0 && 0 <= s.cnt < U64
    && (exists t0 :: ListOk(s, t0))
    && LogOk(s)
    && Conserved(s)
  }

  /** Up to the programmed tick the system time does not pass the first deadline. */
  lemma InTime(s: Clock, t0: int, i: nat)
    requires s.freq > 0 && 0 <= s.cnt < U64 && ListOk(s, t0) && i < |s.list|
    ensures t0 / s.freq <= SystemTime(s) <= t0 / s.freq + s.list[0].remainingTime
    ensures s.list[0].remainingTime <= s.list[i].remainingTime
    ensures 0 <= t0 / s.freq && SystemTime(s) < U64
    ensures s.cnt == s.armed ==> SystemTime(s) == t0 / s.freq + s.list[0].remainingTime
  {
    DivMonotone(t0, s.cnt, s.freq);
    DivMonotone(s.cnt, s.armed, s.freq);
    DivMonotone(0, t0, s.freq);
    WholeSeconds(t0, s.freq, s.list[0].remainingTime);
    assert EventOk(s, s.list[0], t0 / s.freq) && EventOk(s, s.list[i], t0 / s.freq);
    DivBelow(s.cnt, s.freq);
  }

  lemma DivBelow(n: int, f: int)
    requires f > 0 && 0 <= n
    ensures 0 <= n / f <= n
  {
    assert n == f * (n / f) + n % f;
    if n / f > 0 { MulAtLeast(n / f, f); }
  }

  /** After an update every event still has its true remaining time. */
  lemma UpdatedOk(s: Clock, t0: int, i: nat)
    requires s.freq > 0 && 0 <= s.cnt < U64 && ListOk(s, t0) && i < |s.list|
    ensures var e := UpdateOne(s.list[i], SystemTime(s));
            && EventOk(s, e, SystemTime(s)) && Deadline(e) == Deadline(s.list[i]) && e.id == s.list[i].id
            && e.remainingTime == s.list[i].remainingTime - (SystemTime(s) - t0 / s.freq)
  {
    InTime(s, t0, i);
    var e := s.list[i];
    assert EventOk(s, e, t0 / s.freq);
    ModSmall(SystemTime(s) - t0 / s.freq, U64);
    assert e.remainingTime < U64 by { DurationSmall(s.freq, e.duration); }
    ModSmall(e.remainingTime - (SystemTime(s) - t0 / s.freq), U64);
  }

  lemma DurationSmall(f: int, d: int)
    requires f > 0 && d >= 0 && f * d < I32
    ensures d < I32
  {
    if d > 0 { MulAtLeast(d, f); }
  }

  /** No 64-bit subtraction wraps, and the event whose interrupt arrives has exactly no time left. */
  lemma FiresAtZero(s: Clock)
    requires TInv(s) && s.list != [] && s.cnt == s.armed
    ensures UpdateOne(s.list[0], SystemTime(s)).remainingTime == 0
    ensures SystemTime(s) == Deadline(s.list[0])
  {
    var t0 :| ListOk(s, t0);
    InTime(s, t0, 0);
    UpdatedOk(s, t0, 0);
  }

  // ---------------------------------------------------------------- every move keeps it

  lemma ProductBelow(f: int, r: int, d: int)
    requires f > 0 && 0 <= r <= d && f * d < I32
    ensures 0 <= f * r < I32
  {
    MulSplit(f, r, d - r);
    assert (d - r) * f >= 0;
    assert r * f >= 0;
  }

  /** Within the range of the timer value the timer fires freq * remaining ticks from now. */
  lemma ArmIsExact(s: Clock)
    requires s.freq > 0 && s.list != [] && 0 <= s.list[0].remainingTime <= s.list[0].duration &&
             s.freq * s.list[0].duration < I32
    ensures Arm(s).armed == s.cnt + s.freq * s.list[0].remainingTime
  {
    ProductBelow(s.freq, s.list[0].remainingTime, s.list[0].duration);
    var x := s.freq * s.list[0].remainingTime;
    ModSmall(x, U64);
    ModSmall(x, U32);
  }

  lemma {:induction false} OccursAppend(a: seq<nat>, b: seq<nat>, x: nat)
    ensures Occurs(a + b, x) == Occurs(a, x) + Occurs(b, x)
  {
  }

  lemma InsertIds(list: seq<Event>, e: Event, x: nat)
    ensures Occurs(Ids(Insert(list, e)), x) == Occurs(Ids(list), x) + if x == e.id then 1 else 0
  {
    var k := PlaceFrom(list, e, 0);
    assert Ids(Insert(list, e)) == Ids(list[..k]) + [e.id] + Ids(list[k..]);
    assert Ids(list) == Ids(list[..k]) + Ids(list[k..]);
    OccursAppend(Ids(list[..k]) + [e.id], Ids(list[k..]), x);
    OccursAppend(Ids(list[..k]), [e.id], x);
    OccursAppend(Ids(list[..k]), Ids(list[k..]), x);
  }

  lemma UpdatedSorted(s: Clock, t0: int)
    requires s.freq > 0 && 0 <= s.cnt < U64 && ListOk(s, t0)
    ensures var list := Update(s.list, SystemTime(s));
            && (forall i :: 0 <= i < |list| ==> EventOk(s, list[i], SystemTime(s)))
            && (forall i :: 0 <= i < |list| ==> Deadline(list[i]) == Deadline(s.list[i]) && list[i].id == s.list[i].id)
            && Sorted(list) && Ids(list) == Ids(s.list)
  {
    var list := Update(s.list, SystemTime(s));
    forall i | 0 <= i < |list|
      ensures EventOk(s, list[i], SystemTime(s)) && Deadline(list[i]) == Deadline(s.list[i]) &&
              list[i].id == s.list[i].id
    {
      UpdatedOk(s, t0, i);
    }
    forall i, j | 0 <= i < j < |list| ensures Before(list[i], list[j]) {
      assert Before(s.list[i], s.list[j]);
    }
  }

  /** Inserting by remaining time is inserting by deadline, behind equal deadlines. */
  lemma InsertSorted(s: Clock, list: seq<Event>, e: Event, now: int)
    requires Sorted(list) && forall i :: 0 <= i < |list| ==> EventOk(s, list[i], now)
    requires e == Event(s.nextId, now, now, e.duration, e.duration, e.tick)
    ensures Sorted(Insert(list, e))
    ensures forall i :: 0 <= i < |Insert(list, e)| ==> Insert(list, e)[i] == e || Insert(list, e)[i] in list
  {
    var k := PlaceFrom(list, e, 0);
    forall i | 0 <= i < |list| ensures if i < k then Before(list[i], e) else Before(e, list[i]) {
      assert EventOk(s, list[i], now);
      if i > k { assert Before(list[k], list[i]) && EventOk(s, list[k], now); }
    }
    var r := Insert(list, e);
    forall i, j | 0 <= i < j < |r| ensures Before(r[i], r[j]) {
      var i', j' := if i < k then i else i - 1, if j < k then j else j - 1;
      if i != k && j != k { assert r[i] == list[i'] && r[j] == list[j'] && Before(list[i'], list[j']); }
    }
  }

  lemma AddListOk(s: Clock, t0: int, duration: int)
    requires s.freq > 0 && 0 <= s.cnt < U64 && ListOk(s, t0) && Exact(s, AddMove(duration))
    ensures ListOk(AddTimer(s, duration), s.cnt)
  {
    var now := SystemTime(s);
    var list := Update(s.list, now);
    var e := Event(s.nextId, now, now, duration, duration, s.cnt);
    UpdatedSorted(s, t0);
    InsertSorted(s, list, e, now);
    DivBelow(s.cnt, s.freq);
    var r := AddTimer(s, duration);
    forall i | 0 <= i < |r.list| ensures EventOk(r, r.list[i], now) {
      if r.list[i] != e {
        var j :| 0 <= j < |list| && list[j] == r.list[i];
        assert EventOk(s, list[j], now);
      }
    }
    assert EventOk(r, r.list[0], now);
    var u := s.(list := Insert(list, e), multiplexing := true, nextId := s.nextId + 1);
    ArmIsExact(u);
    ProductBelow(s.freq, r.list[0].remainingTime, r.list[0].duration);
  }

  lemma AddLogOk(s: Clock, t0: int, duration: int)
    requires s.freq > 0 && 0 <= s.cnt < U64 && ListOk(s, t0) && LogOk(s) && Exact(s, AddMove(duration))
    ensures LogOk(AddTimer(s, duration))
  {
    var now := SystemTime(s);
    var list := Update(s.list, now);
    var e := Event(s.nextId, now, now, duration, duration, s.cnt);
    UpdatedSorted(s, t0);
    InsertSorted(s, list, e, now);
    var r := AddTimer(s, duration);
    forall i, j | 0 <= i < |r.log| && 0 <= j < |r.list| ensures Before(r.log[i].event, r.list[j]) {
      if r.list[j] != e {
        var k :| 0 <= k < |list| && list[k] == r.list[j];
        assert Before(s.log[i].event, s.list[k]);
      }
    }
  }

  lemma AddKeeps(s: Clock, duration: int)
    requires TInv(s) && Exact(s, AddMove(duration))
    ensures TInv(AddTimer(s, duration))
  {
    var t0 :| ListOk(s, t0);
    AddListOk(s, t0, duration);
    AddLogOk(s, t0, duration);
    UpdatedSorted(s, t0);
    var now := SystemTime(s);
    var r := AddTimer(s, duration);
    forall x: nat ensures Occurs(Ids(r.list), x) + Occurs(LogIds(r.log), x) == if x < r.nextId then 1 else 0 {
      InsertIds(Update(s.list, now), Event(s.nextId, now, now, duration, duration, s.cnt), x);
      assert Occurs(Ids(s.list), x) + Occurs(LogIds(s.log), x) == if x < s.nextId then 1 else 0;
    }
  }

  lemma FireListOk(s: Clock, t0: int)
    requires s.freq > 0 && 0 <= s.cnt < U64 && ListOk(s, t0) && Exact(s, FireMove)
    ensures ListOk(Fire(s), s.cnt)
  {
    UpdatedSorted(s, t0);
    var r := Fire(s);
    var list := Update(s.list, SystemTime(s));
    assert r.list == list[1..];
    if r.list != [] {
      assert EventOk(s, list[1], SystemTime(s));
      ArmIsExact(s.(list := list[1..]));
      ProductBelow(s.freq, r.list[0].remainingTime, r.list[0].duration);
    }
  }

  lemma FireLogOk(s: Clock, t0: int)
    requires TInv(s) && ListOk(s, t0) && Exact(s, FireMove)
    ensures LogOk(Fire(s))
  {
    UpdatedSorted(s, t0);
    FiresAtZero(s);
    var list := Update(s.list, SystemTime(s));
    var r := Fire(s);
    assert r.log == s.log + [Fired(list[0], SystemTime(s), s.cnt)] && r.list == list[1..];
    forall i | 0 <= i < |s.log| ensures Before(s.log[i].event, list[0]) {
      assert Before(s.log[i].event, s.list[0]);
    }
    forall i, j | 0 <= i < |r.log| && 0 <= j < |r.list| ensures Before(r.log[i].event, r.list[j]) {
      assert r.list[j] == list[j + 1];
      if i < |s.log| { assert Before(s.log[i].event, s.list[j + 1]); }
    }
  }

  lemma FireConserves(s: Clock, t0: int, x: nat)
    requires s.freq > 0 && 0 <= s.cnt < U64 && ListOk(s, t0) && s.list != []
    ensures Occurs(Ids(Fire(s).list), x) + Occurs(LogIds(Fire(s).log), x) == Occurs(Ids(s.list), x)
            + Occurs(LogIds(s.log), x)
  {
    UpdatedSorted(s, t0);
    var list := Update(s.list, SystemTime(s));
    assert Ids(list) == [list[0].id] + Ids(list[1..]);
    assert LogIds(Fire(s).log) == LogIds(s.log) + [list[0].id];
    OccursAppend([list[0].id], Ids(list[1..]), x);
    OccursAppend(LogIds(s.log), [list[0].id], x);
  }

  lemma FireKeeps(s: Clock)
    requires TInv(s) && Exact(s, FireMove)
    ensures TInv(Fire(s))
  {
    var t0 :| ListOk(s, t0);
    FireListOk(s, t0);
    FireLogOk(s, t0);
    var r := Fire(s);
    forall x: nat ensures Occurs(Ids(r.list), x) + Occurs(LogIds(r.log), x) == if x < r.nextId then 1 else 0 {
      FireConserves(s, t0, x);
    }
  }

  lemma AdvanceKeeps(s: Clock, d: nat)
    requires TInv(s) && Exact(s, AdvanceMove(d))
    ensures TInv(Advance(s, d))
  {
    var t0 :| ListOk(s, t0);
    var r := Advance(s, d);
    forall i | 0 <= i < |r.list| ensures EventOk(r, r.list[i], t0 / r.freq) {
      assert EventOk(s, s.list[i], t0 / s.freq);
    }
    assert ListOk(r, t0);
    DivMonotone(s.cnt, r.cnt, s.freq);
  }

  /** Over every exact run each event is delivered exactly when it is due, deliveries are in order of
      deadline and then of registration, and no event is lost or delivered twice. */
  lemma {:induction false} RunsStayExact(s: Clock, moves: seq<Move>, t: Clock)
    requires TInv(s) && Plays(s, moves, t)
    ensures TInv(t)
    decreases |moves|
  {
    if moves != [] {
      match moves[0] {
        case AddMove(duration) => AddKeeps(s, duration);
        case FireMove => FireKeeps(s);
        case AdvanceMove(d) => AdvanceKeeps(s, d);
      }
      RunsStayExact(Play(s, moves[0]), moves[1..], t);
    }
  }

  lemma EveryRunExact(freq: int, cnt: int, moves: seq<Move>, t: Clock)
    requires freq > 0 && 0 <= cnt < U64 && Plays(Start(freq, cnt), moves, t)
    ensures TInv(t)
    ensures forall i :: 0 <= i < |t.log| ==> t.log[i].time == Deadline(t.log[i].event)
    ensures forall i, j :: 0 <= i < j < |t.log| ==> Before(t.log[i].event, t.log[j].event)
    ensures forall x: nat :: Occurs(Ids(t.list), x) + Occurs(LogIds(t.log), x) == if x < t.nextId then 1 else 0
  {
    var s := Start(freq, cnt);
    assert ListOk(s, 0);
    RunsStayExact(s, moves, t);
  }

  /** Two ticks in the same second are less than a second apart. */
  lemma SameSecond(a: int, b: int, f: int)
    requires f > 0 && a / f == b / f
    ensures -f < a - b < f
  {
    assert a == f * (a / f) + a % f && b == f * (b / f) + b % f;
  }

  /** In ticks: over every exact run each event is delivered less than one second away from the tick
      that lies freq * duration after its registration. */
  lemma EveryRunOnTime(freq: int, cnt: int, moves: seq<Move>, t: Clock, i: nat)
    requires freq > 0 && 0 <= cnt < U64 && Plays(Start(freq, cnt), moves, t) && i < |t.log|
    ensures t.freq > 0
    ensures var f := t.log[i];
            -t.freq < f.tick - (f.event.tick + t.freq * f.event.duration) < t.freq
  {
    EveryRunExact(freq, cnt, moves, t);
    var f := t.log[i];
    WholeSeconds(f.event.tick, t.freq, f.event.duration);
    SameSecond(f.tick, f.event.tick + t.freq * f.event.duration, t.freq);
  }

  // ---------------------------------------------------------------- late and early interrupts

  /** Moves in any order and at any time, with any durations. */
  ghost predicate PlaysAnyhow(s: Clock, moves: seq<Move>, t: Clock)
    decreases |moves|
  {
    if moves == [] then s == t
    else s.freq > 0 && PlaysAnyhow(Play(s, moves[0]), moves[1..], t)
  }

  /** Modulo 2^64 the deadline is the last update plus the remaining time. */
  predicate DueModulo(e: Event)
  {
    Deadline(e) % U64 == (e.prevUpdatedTime + e.remainingTime) % U64
  }

  ghost predicate AllDue(s: Clock)
  {
    && (forall e :: e in s.list ==> DueModulo(e))
    && (forall f :: f in s.log ==> DueModulo(f.event))
  }

  lemma UpdateDue(list: seq<Event>, now: int)
    requires forall e :: e in list ==> DueModulo(e)
    ensures forall e :: e in Update(list, now) ==> DueModulo(e)
  {
    forall e | e in Update(list, now)
      ensures DueModulo(e)
    {
      var i :| 0 <= i < |list| && Update(list, now)[i] == e;
      assert DueModulo(list[i]);
      UpdateKeepsModulo(list[i], now);
    }
  }

  lemma PlayDue(s: Clock, m: Move)
    requires s.freq > 0 && AllDue(s)
    ensures AllDue(Play(s, m))
  {
    var now := SystemTime(s);
    UpdateDue(s.list, now);
    match m {
      case AddMove(duration) =>
        var e := Event(s.nextId, now, now, duration, duration, s.cnt);
        assert DueModulo(e);
        assert Play(s, m).list == Insert(Update(s.list, now), e);
      case FireMove =>
        if s.list != [] {
          var list := Update(s.list, now);
          assert list[0] in list && DueModulo(list[0]);
          assert Play(s, m).list == list[1..] && Play(s, m).log == s.log + [Fired(list[0], now, s.cnt)];
        }
      case AdvanceMove(d) =>
    }
  }

  lemma {:induction false} AnyRunDue(s: Clock, moves: seq<Move>, t: Clock)
    requires AllDue(s) && PlaysAnyhow(s, moves, t)
    ensures AllDue(t)
    decreases |moves|
  {
    if moves != [] {
      PlayDue(s, moves[0]);
      AnyRunDue(Play(s, moves[0]), moves[1..], t);
    }
  }

  /** Over every run whatsoever, with interrupts early, late or lost and durations of any length, each
      event pending or delivered keeps registration + duration = last update + remaining time modulo 2^64. */
  lemma EveryRunDueModulo(freq: int, cnt: int, moves: seq<Move>, t: Clock)
    requires PlaysAnyhow(Start(freq, cnt), moves, t)
    ensures AllDue(t)
  {
    AnyRunDue(Start(freq, cnt), moves, t);
  }

  /** An interrupt handled one second late wraps the remaining time of the event that was due. */
  lemma LateInterruptWraps(e: Event)
    requires 0 <= e.prevUpdatedTime && 0 <= e.remainingTime && e.prevUpdatedTime + e.remainingTime + 1 < U64
    ensures UpdateOne(e, e.prevUpdatedTime + e.remainingTime + 1).remainingTime == U64 - 1
  {
    ModSmall(e.remainingTime + 1, U64);
    DivModUnique(-1, U64, -1, U64 - 1);
  }
}
