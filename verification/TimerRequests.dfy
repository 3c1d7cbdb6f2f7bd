/** Timer events told by what the callers of add_timer asked for: the sequence of requests is read off the
    moves of a run alone, without looking at the timer list. */
module TimerRequests {
  import opened Seqs
  import opened Bits
  import opened Timer
  import opened TimerTheorems

  /** A call of add_timer at counter value `tick`. */
  datatype Request = Request(tick: int, duration: int)

  /** The requests of a run that starts at counter value cnt, in order. */
  function Requests(cnt: int, moves: seq<Move>): seq<Request>
    decreases |moves|
  {
    if moves == [] then []
    else
      match moves[0]
      case AddMove(duration) => [Request(cnt, duration)] + Requests(cnt, moves[1..])
      case AdvanceMove(d) => Requests(cnt + d, moves[1..])
      case FireMove => Requests(cnt, moves[1..])
  }

  /** Event e is the request of its number. */
  predicate Serves(e: Event, freq: int, q: seq<Request>)
    requires freq > 0
  {
    e.id < |q| && e.tick == q[e.id].tick && e.duration == q[e.id].duration && e.registerTime == q[e.id].tick / freq
  }

  ghost predicate AllServe(s: Clock, q: seq<Request>)
    requires s.freq > 0
  {
    && s.nextId == |q|
    && (forall e :: e in s.list ==> Serves(e, s.freq, q))
    && (forall f :: f in s.log ==> Serves(f.event, s.freq, q))
  }

  lemma UpdateServes(list: seq<Event>, now: int, freq: int, q: seq<Request>)
    requires freq > 0 && forall e :: e in list ==> Serves(e, freq, q)
    ensures forall e :: e in Update(list, now) ==> Serves(e, freq, q)
  {
    forall e | e in Update(list, now)
      ensures Serves(e, freq, q)
    {
      var i :| 0 <= i < |list| && Update(list, now)[i] == e;
      assert Serves(list[i], freq, q);
    }
  }

  lemma AddServes(s: Clock, duration: int, q: seq<Request>)
    requires s.freq > 0 && AllServe(s, q)
    ensures AllServe(AddTimer(s, duration), q + [Request(s.cnt, duration)])
  {
    var q' := q + [Request(s.cnt, duration)];
    var now := SystemTime(s);
    UpdateServes(s.list, now, s.freq, q);
    var e := Event(s.nextId, now, now, duration, duration, s.cnt);
    var r := AddTimer(s, duration);
    assert r.list == Insert(Update(s.list, now), e);
    forall x | x in r.list
      ensures Serves(x, s.freq, q')
    {
      assert x == e || x in Update(s.list, now);
    }
  }

  lemma FireServes(s: Clock, q: seq<Request>)
    requires s.freq > 0 && AllServe(s, q)
    ensures AllServe(Fire(s), q)
  {
    if s.list != [] {
      var now := SystemTime(s);
      UpdateServes(s.list, now, s.freq, q);
      var list := Update(s.list, now);
      assert list[0] in list;
      assert Fire(s).list == list[1..] && Fire(s).log == s.log + [Fired(list[0], now, s.cnt)];
    }
  }

  lemma {:induction false} RunServes(s: Clock, moves: seq<Move>, t: Clock, q: seq<Request>)
    requires s.freq > 0 && AllServe(s, q) && PlaysAnyhow(s, moves, t)
    ensures t.freq == s.freq && AllServe(t, q + Requests(s.cnt, moves))
    decreases |moves|
  {
    if moves == [] {
      assert q + Requests(s.cnt, moves) == q;
    } else {
      var r := Play(s, moves[0]);
      match moves[0] {
        case AddMove(duration) =>
          AddServes(s, duration, q);
          RunServes(r, moves[1..], t, q + [Request(s.cnt, duration)]);
          assert q + [Request(s.cnt, duration)] + Requests(s.cnt, moves[1..]) == q + Requests(s.cnt, moves);
        case FireMove =>
          FireServes(s, q);
          RunServes(r, moves[1..], t, q);
        case AdvanceMove(d) => RunServes(r, moves[1..], t, q);
      }
    }
  }

  /** Over every run, with interrupts early, late or lost, the events pending and delivered are the requests
      made, with the durations asked for and the times of asking. */
  lemma EveryRunServes(freq: int, cnt: int, moves: seq<Move>, t: Clock)
    requires freq > 0 && PlaysAnyhow(Start(freq, cnt), moves, t)
    ensures t.freq == freq && AllServe(t, Requests(cnt, moves))
  {
    RunServes(Start(freq, cnt), moves, t, []);
    assert [] + Requests(cnt, moves) == Requests(cnt, moves);
  }

  lemma {:induction false} ExactIsAnyhow(s: Clock, moves: seq<Move>, t: Clock)
    requires Plays(s, moves, t)
    ensures PlaysAnyhow(s, moves, t)
    decreases |moves|
  {
    if moves != [] { ExactIsAnyhow(Play(s, moves[0]), moves[1..], t); }
  }

  /** Over every exact run each request is pending or has been delivered once, and request x was delivered at
      the second in which it was made plus its duration. */
  lemma RequestsOnTime(freq: int, cnt: int, moves: seq<Move>, t: Clock, i: nat)
    requires freq > 0 && 0 <= cnt < U64 && Plays(Start(freq, cnt), moves, t) && i < |t.log|
    ensures var q, x := Requests(cnt, moves), t.log[i].event.id;
            x < |q| && t.log[i].time == q[x].tick / freq + q[x].duration
  {
    EveryRunExact(freq, cnt, moves, t);
    ExactIsAnyhow(Start(freq, cnt), moves, t);
    EveryRunServes(freq, cnt, moves, t);
    assert t.log[i] in t.log;
  }

  lemma EachRequestOnce(freq: int, cnt: int, moves: seq<Move>, t: Clock, x: nat)
    requires freq > 0 && 0 <= cnt < U64 && Plays(Start(freq, cnt), moves, t)
    ensures Occurs(Ids(t.list), x) + Occurs(LogIds(t.log), x) == if x < |Requests(cnt, moves)| then 1 else 0
  {
    EveryRunExact(freq, cnt, moves, t);
    ExactIsAnyhow(Start(freq, cnt), moves, t);
    EveryRunServes(freq, cnt, moves, t);
  }

  /** The programmed tick is freq * remaining from now exactly below 2^31; from there to 2^32 it lies in the past. */
  lemma ArmExactIff(s: Clock)
    requires s.freq > 0 && s.list != [] && 0 <= s.freq * s.list[0].remainingTime < U64
    ensures var x := s.freq * s.list[0].remainingTime;
            && (Arm(s).armed == s.cnt + x <==> x < 0x8000_0000)
            && (0x8000_0000 <= x < 0x1_0000_0000 ==> Arm(s).armed == s.cnt + x - 0x1_0000_0000 < s.cnt)
  {
    var x := s.freq * s.list[0].remainingTime;
    ModSmall(x, U64);
    if x < U32 { ModSmall(x, U32); }
  }
}
