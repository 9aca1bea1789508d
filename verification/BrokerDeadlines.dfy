/** The deadlines of the server loop (`jb_run`).  Handlers take no time and the
    poll returns no later than the timeout it was given. */
module BrokerDeadlines {
  import opened Common
  import opened SocketModel
  import opened BrokerModel
  import opened BrokerInvariant
  import opened BrokerPairing
  import opened BrokerTime
  import opened BrokerPromises

  /** One turn of the loop: the poll returns at `now` with some events, whose
      handlers run, followed by the timeout check. */
  datatype Round = Round(now: int, events: seq<Event>)

  function At(now: int, events: seq<Event>): (r: seq<Timed>)
    ensures |r| == |events| && forall k | 0 <= k < |r| :: r[k].now == now
  {
    seq(|events|, i requires 0 <= i < |events| => Timed(now, events[i]))
  }

  function Handled(r: Round): (t: seq<Timed>)
    ensures |t| == |r.events| + 1 && t[|r.events|] == Timed(r.now, Tick)
    ensures forall k | 0 <= k < |t| :: t[k].now == r.now
  {
    At(r.now, r.events) + [Timed(r.now, Tick)]
  }

  /** All handlers of the given turns, in order. */
  function Schedule(rounds: seq<Round>): seq<Timed> {
    if rounds == [] then [] else Schedule(rounds[..|rounds| - 1]) + Handled(rounds[|rounds| - 1])
  }

  /** The clock at the top of the loop after the given turns. */
  function TopTime(start: int, rounds: seq<Round>): int {
    if rounds == [] then start else rounds[|rounds| - 1].now
  }

  /** Each poll returns between the time it starts and its timeout, which is the
      closest timeout, or zero if that is negative. */
  predicate Fits(st: State, start: int, rounds: seq<Round>) {
    rounds == [] ||
    var init := rounds[..|rounds| - 1];
    var top := TopTime(start, init);
    && Fits(st, start, init)
    && top <= rounds[|rounds| - 1].now <= top + Max(0, ClosestTimeout(Run(st, Schedule(init)), top))
  }

  /** No deadline of the session has passed. */
  predicate InTime(s: Session, timeout: int, now: int) {
    if s.conn.Some? then now <= s.timestamp + Max(s.wait, 0) else now <= s.timestamp + timeout
  }

  ghost predicate OnTime(st: State, now: int) {
    forall i | 0 <= i < |st.sessions| :: InTime(st.sessions[i], st.timeout, now)
  }

  lemma StepOnTime(st: State, e: Event, now: int)
    requires Inv(st) && Enabled(st, e) && st.timeout > 0 && OnTime(st, now)
    ensures OnTime(Step(st, e, now), now) && Step(st, e, now).timeout == st.timeout
  {
    hide Step, Enabled, SockOk;
    StepMoves(st, e, now);
    var st' := Step(st, e, now);
    forall j | 0 <= j < |st'.sessions| ensures InTime(st'.sessions[j], st'.timeout, now) {
      assert Active(st, e, now, st'.sessions[j].uid) || Kept(st, st'.sessions[j]);
    }
  }

  lemma {:induction false} PossiblePrefix(st: State, events: seq<Timed>, n: nat)
    requires Possible(st, events) && n <= |events|
    ensures Possible(st, events[..n])
    ensures n < |events| ==> Enabled(Run(st, events[..n]), events[n].event)
    decreases |events|
  {
    hide Run, Enabled;
    if n == |events| {
      assert events[..n] == events;
    } else {
      var init := events[..|events| - 1];
      if n < |init| {
        PossiblePrefix(st, init, n);
      }
      assert init[..n] == events[..n];
      PossiblePrefix(st, init, n);
    }
  }

  lemma RunStep(st: State, events: seq<Timed>, n: nat)
    requires n < |events|
    ensures Run(st, events[..n + 1]) == Step(Run(st, events[..n]), events[n].event, events[n].now)
  {
    hide Step;
    assert events[..n + 1][..n] == events[..n];
  }

  /** Once on time, all handlers running at that clock value start on time. */
  lemma {:induction false} SameInstant(timeout: int, events: seq<Timed>, m: nat, n: nat, now: int)
    requires timeout > 0 && Possible(Initial(timeout), events) && m <= n <= |events|
    requires forall k | m <= k < |events| :: events[k].now == now
    requires OnTime(Run(Initial(timeout), events[..m]), now) && Run(Initial(timeout), events[..m]).timeout == timeout
    ensures OnTime(Run(Initial(timeout), events[..n]), now) && Run(Initial(timeout), events[..n]).timeout == timeout
    decreases n
  {
    hide Step, Enabled, Inv, OnTime, Run, Possible;
    if m < n {
      SameInstant(timeout, events, m, n - 1, now);
      PossiblePrefix(Initial(timeout), events, n - 1);
      RunKeeps(timeout, events[..n - 1]);
      StepOnTime(Run(Initial(timeout), events[..n - 1]), events[n - 1].event, now);
      RunStep(Initial(timeout), events, n - 1);
    }
  }

  lemma WaitingIsOnTime(st: State, top: int, now: int)
    requires top <= now <= top + Max(0, ClosestTimeout(st, top))
    requires st.timeout > 0 && ClosestTimeout(st, top) > 0
    ensures OnTime(st, now)
  {
    ClosestIsMinimum(st, top);
    forall i | 0 <= i < |st.sessions| ensures InTime(st.sessions[i], st.timeout, now) {
      assert ClosestTimeout(st, top) <= Remaining(st.sessions[i], st.timeout, top);
    }
  }

  ghost predicate OnTimeAt(timeout: int, events: seq<Timed>, n: nat)
    requires n < |events|
  {
    OnTime(Run(Initial(timeout), events[..n]), events[n].now)
  }

  lemma OnTimePrefix(timeout: int, events: seq<Timed>, m: nat)
    requires m <= |events| && forall n | 0 <= n < m :: OnTimeAt(timeout, events[..m], n)
    ensures forall n | 0 <= n < m :: OnTimeAt(timeout, events, n)
  {
    hide OnTime, Run;
    forall n | 0 <= n < m ensures OnTimeAt(timeout, events, n) {
      assert OnTimeAt(timeout, events[..m], n);
      assert events[..m][..n] == events[..n];
    }
  }

  /** Every handler of the loop starts on time, and at the top of the loop some
      time is left for every session. */
  lemma {:induction false} LoopOnTime(timeout: int, start: int, rounds: seq<Round>)
    requires timeout > 0
    requires Possible(Initial(timeout), Schedule(rounds)) && Fits(Initial(timeout), start, rounds)
    ensures forall n | 0 <= n < |Schedule(rounds)| :: OnTimeAt(timeout, Schedule(rounds), n)
    ensures Run(Initial(timeout), Schedule(rounds)).timeout == timeout
    ensures ClosestTimeout(Run(Initial(timeout), Schedule(rounds)), TopTime(start, rounds)) > 0
    decreases |rounds|
  {
    hide Step, Enabled, Inv, OnTime, OnTimeAt, ClosestTimeout, Run, Possible, Handled;
    if rounds == [] {
      FreshStart(timeout, start);
    } else {
      var init := rounds[..|rounds| - 1];
      var last := rounds[|rounds| - 1];
      var all := Schedule(rounds);
      assert all == Schedule(init) + Handled(last);
      ScheduleSplits(Schedule(init), last);
      PossiblePrefix(Initial(timeout), all, |Schedule(init)|);
      LoopOnTime(timeout, start, init);
      WaitingIsOnTime(Run(Initial(timeout), Schedule(init)), TopTime(start, init), last.now);
      OnTimePrefix(timeout, all, |Schedule(init)|);
      RoundOnTime(timeout, all, |Schedule(init)|, last.now);
      TickRefreshes(timeout, all, last.now);
    }
  }

  lemma ScheduleSplits(before: seq<Timed>, r: Round)
    ensures var all := before + Handled(r);
            && |before| < |all| && all[..|before|] == before
            && (forall k | |before| <= k < |all| :: all[k].now == r.now)
            && all[|all| - 1] == Timed(r.now, Tick)
  {
  }

  lemma RoundOnTime(timeout: int, all: seq<Timed>, m: nat, now: int)
    requires timeout > 0 && Possible(Initial(timeout), all) && m < |all|
    requires forall k | m <= k < |all| :: all[k].now == now
    requires OnTime(Run(Initial(timeout), all[..m]), now) && Run(Initial(timeout), all[..m]).timeout == timeout
    ensures forall n | m <= n < |all| :: OnTimeAt(timeout, all, n)
    ensures Run(Initial(timeout), all[..|all| - 1]).timeout == timeout
  {
    hide Possible, OnTime, Run;
    forall n | m <= n < |all| ensures OnTimeAt(timeout, all, n) {
      SameInstant(timeout, all, m, n, now);
    }
    SameInstant(timeout, all, m, |all| - 1, now);
  }

  /** The timeout check at the end of a turn leaves time for every session. */
  lemma TickRefreshes(timeout: int, all: seq<Timed>, now: int)
    requires timeout > 0 && Possible(Initial(timeout), all) && all != []
    requires all[|all| - 1] == Timed(now, Tick)
    requires Run(Initial(timeout), all[..|all| - 1]).timeout == timeout
    ensures Run(Initial(timeout), all).timeout == timeout
    ensures ClosestTimeout(Run(Initial(timeout), all), now) > 0
  {
    hide Step, Enabled, Inv, ClosestTimeout;
    var st := Run(Initial(timeout), all[..|all| - 1]);
    RunKeeps(timeout, all[..|all| - 1]);
    CheckIsTick(st, now);
    CheckTimeoutExact(st, now);
    ClosestAfterCheck(st, now);
  }

  lemma CheckIsTick(st: State, now: int)
    ensures Step(st, Tick, now) == CheckTimeout(st, now)
  {
  }

  lemma FreshStart(timeout: int, start: int)
    requires timeout > 0
    ensures ClosestTimeout(Run(Initial(timeout), []), start) > 0
    ensures Run(Initial(timeout), []).timeout == timeout
  {
  }

  /** In every run of the server loop, no handler runs, in particular none that
      could answer it, later than a held request's arrival plus the `wait` its
      session asked for when it was created (or its arrival, if that is negative);
      none runs later than an idle session's last activity plus the session
      timeout, activity being the event that created it, polled it, or sent or lost
      something on its behalf; and whenever the loop comes back to the top at time
      `top`, every request or session whose deadline is not after `top` has been
      dealt with. */
  lemma DeadlinesMet(timeout: int, start: int, rounds: seq<Round>, n: nat, u: Uid)
    requires timeout > 0
    requires Possible(Initial(timeout), Schedule(rounds)) && Fits(Initial(timeout), start, rounds)
    requires n <= |Schedule(rounds)| && Live(Run(Initial(timeout), Schedule(rounds)[..n]), u)
    ensures var events := Schedule(rounds)[..n];
            var st := Run(Initial(timeout), events);
            var s := st.sessions[IndexOfUid(st.sessions, u)];
            var poll := LastPoll(Initial(timeout), events, u);
            var active := LastActivity(Initial(timeout), events, u);
            var asked := Asked(Initial(timeout), events, u);
            && asked.Some? && asked.value.wait.Some?
            && (s.conn.Some? ==> poll.Some? && poll.value.event.HttpRequest? && s.conn.value == poll.value.event.conn)
            && (n < |Schedule(rounds)| && s.conn.Some? ==>
                  Schedule(rounds)[n].now <= poll.value.now + Max(1000 * asked.value.wait.value, 0))
            && active.Some?
            && (n < |Schedule(rounds)| && s.conn.None? ==>
                  Schedule(rounds)[n].now <= active.value + timeout)
            && (n == |Schedule(rounds)| ==>
                  TopTime(start, rounds) <
                    if s.conn.Some? then poll.value.now + 1000 * asked.value.wait.value else active.value + timeout)
  {
    hide Step, Enabled, Inv, Possible, Run;
    var all := Schedule(rounds);
    var st := Run(Initial(timeout), all[..n]);
    var s := st.sessions[IndexOfUid(st.sessions, u)];
    LoopOnTime(timeout, start, rounds);
    PossiblePrefix(Initial(timeout), all, n);
    TimestampExact(timeout, all[..n], u);
    WaitExact(timeout, all[..n], u);
    if s.conn.Some? {
      HeldSinceArrival(timeout, all[..n], u);
    }
    if n < |all| {
      assert OnTimeAt(timeout, all, n);
      TimeoutStays(timeout, all, n);
    } else {
      assert all[..n] == all;
      ClosestIsMinimum(st, TopTime(start, rounds));
    }
  }

  lemma {:induction false} TimeoutStays(timeout: int, events: seq<Timed>, n: nat)
    requires Possible(Initial(timeout), events) && n <= |events|
    ensures Run(Initial(timeout), events[..n]).timeout == timeout
    decreases n
  {
    hide Step, Enabled, Inv, Possible;
    if n > 0 {
      TimeoutStays(timeout, events, n - 1);
      PossiblePrefix(Initial(timeout), events, n - 1);
      RunKeeps(timeout, events[..n - 1]);
      StepMoves(Run(Initial(timeout), events[..n - 1]), events[n - 1].event, events[n - 1].now);
      RunStep(Initial(timeout), events, n - 1);
    }
  }
}
