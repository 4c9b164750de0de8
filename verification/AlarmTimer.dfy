/**
  The list of alarms driven by a tick counter that wraps at 2^32, compared with a scheduler
  that counts without bound.
 */
module AlarmTimer {
  import opened Words

  /** An alarm's two timing fields. */
  datatype Due = Due(time: Word, rollover: bool)

  // ---- one alarm, as the driver computes it ----

  function Begin(nticks: Word, current: Word): Due {
    var time := (nticks + current + 1) % WORD_MOD;
    Due(time, time < current)
  }

  /** The flag is cleared when the counter comes round to zero. */
  function Seen(d: Due, nticks: Word): Due {
    if d.rollover && nticks == 0 then d.(rollover := false) else d
  }

  predicate Expired(d: Due, nticks: Word) {
    d.time <= nticks && !d.rollover
  }

  function Renew(d: Due, nticks: Word, period: Word): Due {
    var time := (d.time + period) % WORD_MOD;
    Due(time, time < nticks || d.rollover)
  }

  /** What the callback returns when it is called in tick number `t`; zero stops the alarm. */
  type Callback = nat -> Word

  /** The ticks at which the alarm goes off during the next `n` ticks after tick number `now`. */
  function Firings(d: Due, callback: Callback, now: nat, n: nat): seq<nat>
    decreases n
  {
    if n == 0 then []
    else
      var nticks := (now + 1) % WORD_MOD;
      var seen := Seen(d, nticks);
      if !Expired(seen, nticks) then Firings(seen, callback, now + 1, n - 1)
      else if callback(now + 1) == 0 then [now + 1]
      else [now + 1] + Firings(Renew(seen, nticks, callback(now + 1)), callback, now + 1, n - 1)
  }

  // ---- the ideal ----

  /** All deadlines up to `horizon`: each is the one before it plus the period the callback returned there. */
  function Schedule(deadline: nat, callback: Callback, horizon: nat): seq<nat>
    decreases horizon - deadline
  {
    if deadline > horizon then []
    else if callback(deadline) == 0 then [deadline]
    else [deadline] + Schedule(deadline + callback(deadline), callback, horizon)
  }

  // ---- refinement ----

  /**
    After tick `now` the fields stand for `deadline`. On the last count before the wrap the flag does
    not matter, since the next tick clears it.
   */
  predicate OnTime(d: Due, deadline: nat, now: nat) {
    && now < deadline <= now + WORD_MOD
    && d.time == deadline % WORD_MOD
    && (now % WORD_MOD != WORD_MOD - 1 ==> (d.rollover <==> deadline / WORD_MOD > now / WORD_MOD))
  }

  /** The alarm goes off in the next tick exactly if that is its deadline. */
  lemma ExpiredOnDeadline(d: Due, deadline: nat, now: nat)
    requires OnTime(d, deadline, now)
    ensures var nticks := (now + 1) % WORD_MOD;
            && (Expired(Seen(d, nticks), nticks) <==> deadline == now + 1)
            && (deadline != now + 1 ==> OnTime(Seen(d, nticks), deadline, now + 1))
  {
    if now % WORD_MOD == WORD_MOD - 1 {
      assert (now + 1) % WORD_MOD == 0;
    } else {
      assert (now + 1) / WORD_MOD == now / WORD_MOD;
    }
  }

  /** Adding the period to an expired alarm gives its next deadline. */
  lemma RenewOnTime(d: Due, now: nat, period: Word)
    requires d.time == now % WORD_MOD && !d.rollover && period > 0
    ensures OnTime(Renew(d, now % WORD_MOD, period), now + period, now)
  {
    assert (now + period) % WORD_MOD == (now % WORD_MOD + period) % WORD_MOD;
  }

  lemma ExpiredTime(d: Due, deadline: nat, now: nat)
    requires OnTime(d, deadline, now) && deadline == now + 1
    ensures var seen := Seen(d, (now + 1) % WORD_MOD);
            seen.time == (now + 1) % WORD_MOD && !seen.rollover
  {
    ExpiredOnDeadline(d, deadline, now);
  }

  /** Over any number of ticks and wraps: no early, late, missed or drifting firing. */
  lemma {:induction false} FiringsAreScheduled(d: Due, deadline: nat, callback: Callback, now: nat, n: nat)
    requires OnTime(d, deadline, now)
    ensures Firings(d, callback, now, n) == Schedule(deadline, callback, now + n)
    decreases n
  {
    if n > 0 {
      var nticks := (now + 1) % WORD_MOD;
      var seen := Seen(d, nticks);
      ExpiredOnDeadline(d, deadline, now);
      if deadline != now + 1 {
        FiringsAreScheduled(seen, deadline, callback, now + 1, n - 1);
      } else if callback(now + 1) > 0 {
        ExpiredTime(d, deadline, now);
        RenewOnTime(seen, now + 1, callback(now + 1));
        FiringsAreScheduled(Renew(seen, nticks, callback(now + 1)), now + 1 + callback(now + 1), callback, now + 1,
            n - 1);
      }
    }
  }

  /** The one start that goes wrong: the longest delay, at any count but the last. */
  predicate StartsEarly(nticks: Word, now: nat) {
    nticks == WORD_MOD - 1 && now % WORD_MOD != WORD_MOD - 1
  }

  lemma BeginOnTime(nticks: Word, now: nat)
    ensures OnTime(Begin(nticks, now % WORD_MOD), now + nticks + 1, now) <==> !StartsEarly(nticks, now)
  {
    assert (now + nticks + 1) % WORD_MOD == (nticks + now % WORD_MOD + 1) % WORD_MOD;
  }

  /** An alarm keeps the ideal schedule for ever exactly if it does not start early. */
  lemma StartedAlarmKeepsSchedule(nticks: Word, callback: Callback, now: nat)
    ensures (forall n :: Firings(Begin(nticks, now % WORD_MOD), callback, now, n) == Schedule(now + nticks + 1, callback, now + n))
        <==> !StartsEarly(nticks, now)
  {
    var d := Begin(nticks, now % WORD_MOD);
    BeginOnTime(nticks, now);
    if StartsEarly(nticks, now) {
      FiresAtOnce(nticks, callback, now);
      assert Firings(d, callback, now, 1) != Schedule(now + nticks + 1, callback, now + 1);
    } else {
      forall n: nat
        ensures Firings(d, callback, now, n) == Schedule(now + nticks + 1, callback, now + n)
      {
        FiringsAreScheduled(d, now + nticks + 1, callback, now, n);
      }
    }
  }

  /** Such a start goes off in the very next tick instead of 2^32 ticks later. */
  lemma FiresAtOnce(nticks: Word, callback: Callback, now: nat)
    requires StartsEarly(nticks, now)
    ensures Firings(Begin(nticks, now % WORD_MOD), callback, now, 1) == [now + 1]
    ensures Schedule(now + nticks + 1, callback, now + 1) == []
  {
    var d, next := Begin(nticks, now % WORD_MOD), (now + 1) % WORD_MOD;
    assert d == Due(now % WORD_MOD, false);
    assert next == now % WORD_MOD + 1;
    assert Firings(Renew(Seen(d, next), next, callback(now + 1)), callback, now + 1, 0) == [];
  }

  // ---- firing by firing ----

  /** What has fired by `now`, followed by the schedule from `deadline` on, is the schedule from `first` on. */
  ghost predicate Continues(first: nat, deadline: nat, fired: seq<nat>, callback: Callback, now: nat) {
    now < deadline && forall h: nat :: h >= now ==> Schedule(first, callback, h) == fired + Schedule(deadline, callback, h)
  }

  /** The schedule from `first` on has come to its end with `fired`. */
  ghost predicate Ended(first: nat, fired: seq<nat>, callback: Callback, now: nat) {
    forall h: nat :: h >= now ==> Schedule(first, callback, h) == fired
  }

  lemma ContinuesFromStart(deadline: nat, callback: Callback, now: nat)
    requires now < deadline
    ensures Continues(deadline, deadline, [], callback, now)
  {
  }

  lemma ContinuesIdle(first: nat, deadline: nat, fired: seq<nat>, callback: Callback, now: nat)
    requires Continues(first, deadline, fired, callback, now) && deadline != now + 1
    ensures Continues(first, deadline, fired, callback, now + 1)
  {
  }

  lemma ContinuesFiring(first: nat, fired: seq<nat>, callback: Callback, now: nat)
    requires Continues(first, now + 1, fired, callback, now)
    ensures callback(now + 1) != 0 ==>
              Continues(first, now + 1 + callback(now + 1), fired + [now + 1], callback, now + 1)
    ensures callback(now + 1) == 0 ==> Ended(first, fired + [now + 1], callback, now + 1)
  {
    var period := callback(now + 1);
    forall h: nat | h >= now + 1
      ensures Schedule(first, callback, h)
           == fired + [now + 1] + if period == 0 then [] else Schedule(now + 1 + period, callback, h)
    {
      assert Schedule(first, callback, h) == fired + Schedule(now + 1, callback, h);
    }
  }

  /** So far it has fired on schedule. */
  lemma FiredOnSchedule(first: nat, deadline: nat, fired: seq<nat>, callback: Callback, now: nat)
    requires Continues(first, deadline, fired, callback, now)
    ensures fired == Schedule(first, callback, now)
  {
    assert Schedule(deadline, callback, now) == [];
  }

  // ---- the list ----

  class Alarm {
    var time: Word
    var rollover: bool
    var callback: Callback
    ghost var first: nat
    ghost var deadline: nat
    ghost var exact: bool
    ghost var active: bool
    ghost var fired: seq<nat>

    ghost function Fields(): Due
      reads this
    {
      Due(time, rollover)
    }

    /** After tick `now` the fields stand for the deadline, and the firings so far are those of the schedule. */
    ghost predicate InStep(now: nat)
      reads this
    {
      OnTime(Fields(), deadline, now) && Continues(first, deadline, fired, callback, now)
    }

    ghost predicate OnSchedule(now: nat)
      reads this
    {
      if active then InStep(now) else Ended(first, fired, callback, now)
    }

    constructor (callback: Callback)
      ensures fired == [] && this.callback == callback
    {
      time, rollover, this.callback := 0, false, callback;
      first, deadline, exact, active, fired := 0, 0, false, false, [];
    }
  }

  predicate Distinct<T(==)>(s: seq<T>) {
    forall i, j :: 0 <= i < j < |s| ==> s[i] != s[j]
  }

  function Without(list: seq<Alarm>, alarm: Alarm): (r: seq<Alarm>)
    ensures forall i :: 0 <= i < |r| ==> r[i] in list && r[i] != alarm
    ensures forall i :: 0 <= i < |list| && list[i] != alarm ==> list[i] in r
    ensures Distinct(list) ==> Distinct(r)
  {
    if list == [] then []
    else if list[0] == alarm then Without(list[1..], alarm)
    else [list[0]] + Without(list[1..], alarm)
  }

  lemma DistinctCons(list: seq<Alarm>, alarm: Alarm)
    requires Distinct(list) && alarm !in list
    ensures Distinct([alarm] + list) && forall a :: a in [alarm] + list <==> a == alarm || a in list
  {
  }

  lemma WithoutMembers(list: seq<Alarm>, alarm: Alarm)
    ensures forall a :: a in Without(list, alarm) <==> a in list && a != alarm
  {
  }

  datatype StartResult = Started | InvalidArgument | NotSupported

  class Timer {
    var rate: Word
    var nticks: Word
    var list: seq<Alarm>
    var now: nat  // ticks since reset without wrapping; only tells the callback's calls apart

    ghost predicate Valid()
      reads this, list
    {
      && nticks == now % WORD_MOD && Distinct(list)
      && forall a :: a in list ==> a.active && (a.exact ==> a.InStep(now))
    }

    constructor (rate: Word)
      ensures Valid() && list == [] && now == 0 && this.rate == rate
    {
      this.rate, nticks, list, now := rate, 0, [], 0;
    }

    /** Registers an alarm that is not in the list; it may have been there before. */
    method Start(alarm: Alarm?, delay: Word, callback: Callback) returns (r: StartResult)
      requires Valid() && alarm !in list
      modifies `list, alarm
      ensures Valid()
      ensures r == (if rate == 0 then NotSupported else if alarm == null then InvalidArgument else Started)
      ensures r != Started ==> list == old(list) && (alarm != null ==> unchanged(alarm))
      ensures r == Started ==>
                && list == [alarm] + old(list) && alarm.callback == callback && alarm.fired == []
                && alarm.Fields() == Begin(delay, nticks)
                && alarm.first == alarm.deadline == now + delay + 1 && alarm.exact == !StartsEarly(delay, now)
    {
      if rate == 0 {
        return NotSupported;
      }
      if alarm == null {
        return InvalidArgument;
      }
      alarm.callback := callback;
      alarm.time := (delay + nticks + 1) % WORD_MOD;
      alarm.rollover := alarm.time < nticks;
      alarm.deadline, alarm.exact, alarm.active, alarm.fired := now + delay + 1, !StartsEarly(delay, now), true, [];
      alarm.first := alarm.deadline;
      BeginOnTime(delay, now);
      ContinuesFromStart(alarm.deadline, callback, now);
      DistinctCons(list, alarm);
      list := [alarm] + list;
      return Started;
    }

    method Stop(alarm: Alarm)
      requires Valid()
      modifies `list, alarm`active
      ensures Valid() && list == Without(old(list), alarm) && !alarm.active
    {
      list := Without(list, alarm);
      alarm.active := false;
    }

    /** One alarm in tick `now`, by the driver's rules. */
    twostate predicate Serviced(a: Alarm)
      reads `nticks, `now, a
    {
      var seen, period := Seen(old(a.Fields()), nticks), old(a.callback)(now);
      && a.callback == old(a.callback)
      && if Expired(seen, nticks) then
           && a.fired == old(a.fired) + [now]
           && a.active == (period != 0)
           && (period != 0 ==> a.Fields() == Renew(seen, nticks, period))
         else
           a.fired == old(a.fired) && a.active && a.Fields() == seen
    }

    /** The same alarm in tick `now`, by the ideal scheduler's rules. */
    twostate predicate Scheduled(a: Alarm)
      reads `now, a
    {
      var period := old(a.callback)(now);
      a.first == old(a.first) && a.OnSchedule(now) &&
      if old(a.deadline) == now then
        && a.fired == old(a.fired) + [now]
        && a.active == (period != 0)
        && (period != 0 ==> a.deadline == now + period && a.exact)
      else
        a.fired == old(a.fired) && a.active && a.deadline == old(a.deadline) && a.exact
    }

    method Service(alarm: Alarm)
      requires alarm in list && alarm.active && Distinct(list) && 0 < now && nticks == now % WORD_MOD
      requires alarm.exact ==> alarm.InStep(now - 1)
      modifies `list, alarm
      ensures Serviced(alarm) && (old(alarm.exact) ==> Scheduled(alarm))
      ensures Distinct(list) && forall a :: a in list <==> a in old(list) && (a == alarm ==> alarm.active)
      ensures alarm.active && alarm.exact ==> alarm.InStep(now)
    {
      if alarm.exact {
        ExpiredOnDeadline(alarm.Fields(), alarm.deadline, now - 1);
        if alarm.deadline == now {
          ContinuesFiring(alarm.first, alarm.fired, alarm.callback, now - 1);
        } else {
          ContinuesIdle(alarm.first, alarm.deadline, alarm.fired, alarm.callback, now - 1);
        }
      }
      if alarm.rollover && nticks == 0 {
        alarm.rollover := false;
      }
      if alarm.time <= nticks && !alarm.rollover {
        CallBack(alarm);
        WithoutMembers(old(list), alarm);
      }
    }

    method CallBack(alarm: Alarm)
      requires Expired(alarm.Fields(), nticks) && alarm.active && nticks == now % WORD_MOD
      requires alarm.exact ==> alarm.time == nticks
      modifies `list, alarm
      ensures alarm.callback == old(alarm.callback) && alarm.fired == old(alarm.fired) + [now]
      ensures alarm.exact == old(alarm.exact) && alarm.first == old(alarm.first)
      ensures alarm.active == (alarm.callback(now) != 0)
      ensures alarm.active ==> alarm.Fields() == Renew(old(alarm.Fields()), nticks, alarm.callback(now))
      ensures alarm.active ==> alarm.deadline == now + alarm.callback(now)
      ensures list == (if alarm.active then old(list) else Without(old(list), alarm))
      ensures alarm.active && alarm.exact ==> OnTime(alarm.Fields(), alarm.deadline, now)
    {
      alarm.fired := alarm.fired + [now];
      var period := alarm.callback(now);
      if period == 0 {
        list := Without(list, alarm);
        alarm.active := false;
      } else {
        if alarm.exact {
          RenewOnTime(alarm.Fields(), now, period);
        }
        alarm.time := (alarm.time + period) % WORD_MOD;
        if alarm.time < nticks {
          alarm.rollover := true;
        }
        alarm.deadline := now + period;
      }
    }

    /** One tick: every alarm of the list is serviced once, by both sets of rules. */
    method Tick()
      requires Valid()
      modifies this, list
      ensures Valid() && now == old(now) + 1 && rate == old(rate)
      ensures forall a :: a in list ==> a in old(list)
      ensures forall i :: 0 <= i < |old(list)| ==>
                var a := old(list)[i];
                Serviced(a) && (old(a.exact) ==> Scheduled(a)) && (a in list <==> a.active)
    {
      var alarms := list;
      nticks := (nticks + 1) % WORD_MOD;
      now := now + 1;
      for i := 0 to |alarms|
        invariant nticks == now % WORD_MOD && now == old(now) + 1 && rate == old(rate)
        invariant Distinct(list) && forall a :: a in list ==> a in alarms
        invariant forall j :: 0 <= j < i ==> Done(alarms[j])
        invariant forall j :: 0 <= j < |alarms| ==> (alarms[j] in list <==> alarms[j].active)
        invariant forall j :: i <= j < |alarms| ==> alarms[j].active && unchanged(alarms[j])
      {
        Service(alarms[i]);
      }
    }

    twostate predicate Done(a: Alarm)
      reads `nticks, `now, a
    {
      && Serviced(a) && (old(a.exact) ==> Scheduled(a))
      && (a.active && a.exact ==> a.InStep(now))
    }
  }

  /**
    Whatever was started, stopped and ticked before: every exact alarm of the list has fired at the
    ideal schedule's ticks since its start, and at no others.
   */
  lemma ListedAlarmsKeepSchedule(timer: Timer)
    requires timer.Valid()
    ensures forall a :: a in timer.list && a.exact ==> a.fired == Schedule(a.first, a.callback, timer.now)
  {
    forall a | a in timer.list && a.exact
      ensures a.fired == Schedule(a.first, a.callback, timer.now)
    {
      FiredOnSchedule(a.first, a.deadline, a.fired, a.callback, timer.now);
    }
  }

  /** `n` timer interrupts in a row: the alarm keeps its schedule, also if that ends on the way. */
  method RunTicks(timer: Timer, alarm: Alarm, n: nat)
    requires timer.Valid() && alarm in timer.list && alarm.exact
    modifies timer, timer.list
    ensures timer.Valid() && timer.now == old(timer.now) + n
    ensures alarm.fired == Schedule(old(alarm.first), old(alarm.callback), timer.now)
  {
    ghost var alarms := timer.list;
    for i := 0 to n
      invariant timer.Valid() && timer.now == old(timer.now) + i
      invariant forall k :: 0 <= k < |timer.list| ==> timer.list[k] in alarms
      invariant alarm.first == old(alarm.first) && alarm.callback == old(alarm.callback)
      invariant if alarm in timer.list then alarm.exact else Ended(alarm.first, alarm.fired, alarm.callback, timer.now)
    {
      ghost var before := timer.list;
      timer.Tick();
      forall k | 0 <= k < |timer.list|
        ensures timer.list[k] in alarms
      {
        assert timer.list[k] in before;
      }
    }
    if alarm in timer.list {
      FiredOnSchedule(alarm.first, alarm.deadline, alarm.fired, alarm.callback, timer.now);
    }
  }
}
