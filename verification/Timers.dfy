/** The timer pool of network/vfs_timer.c: what one scan does to the active timers, as functions,
    and what that means for one timer over a whole run.
 */
module TimerSpec {
  import opened Basics

  datatype Timer = Timer(payload: nat, nextTime: int, spanTime: int, loop: bool)

  predicate Due(tm: Timer, cur: int) { cur > tm.nextTime }

  // A timer after a scan; a one-shot timer that fired is gone.
  function Step(tm: Timer, cur: int): Option<Timer>
  {
    if !Due(tm, cur) then Some(tm)
    else if tm.loop then Some(tm.(nextTime := cur + tm.spanTime))
    else None
  }

  function Remaining(ts: seq<Timer>, cur: int): seq<Timer>
  {
    if ts == [] then []
    else (if Step(ts[0], cur).Some? then [Step(ts[0], cur).value] else []) + Remaining(ts[1..], cur)
  }

  // The payloads whose callbacks a scan makes, in order.
  function Fired(ts: seq<Timer>, cur: int): seq<nat>
  {
    if ts == [] then [] else (if Due(ts[0], cur) then [ts[0].payload] else []) + Fired(ts[1..], cur)
  }

  /* ---------- runs ---------- */

  datatype Event = Add(payload: nat, span: int, loop: bool, at: int) | Scan(at: int)

  function Started(e: Event): Timer
    requires e.Add?
  {
    Timer(e.payload, e.at + e.span, e.span, e.loop)
  }

  // list_add_head puts the newest timer first.
  function Active(events: seq<Event>): seq<Timer>
  {
    if events == [] then []
    else
      var before, e := Active(events[..|events| - 1]), events[|events| - 1];
      if e.Add? then [Started(e)] + before else Remaining(before, e.at)
  }

  // Every callback of a run with the time of its scan.
  function Log(events: seq<Event>): seq<(nat, int)>
  {
    if events == [] then []
    else
      var before, e := events[..|events| - 1], events[|events| - 1];
      if e.Add? then Log(before) else Log(before) + Stamped(Fired(Active(before), e.at), e.at)
  }

  function Stamped(payloads: seq<nat>, at: int): seq<(nat, int)>
  {
    if payloads == [] then [] else [(payloads[0], at)] + Stamped(payloads[1..], at)
  }

  function ScanTimes(events: seq<Event>): seq<int>
  {
    if events == [] then []
    else
      var before, e := ScanTimes(events[..|events| - 1]), events[|events| - 1];
      if e.Scan? then before + [e.at] else before
  }

  /* ---------- one timer over a run ---------- */

  function Status(tm: Timer, times: seq<int>): Option<Timer>
  {
    if times == [] then Some(tm)
    else
      var before, last := Status(tm, times[..|times| - 1]), times[|times| - 1];
      if before.Some? then Step(before.value, last) else None
  }

  function Firings(tm: Timer, times: seq<int>): seq<int>
  {
    if times == [] then []
    else
      var before, last := Status(tm, times[..|times| - 1]), times[|times| - 1];
      Firings(tm, times[..|times| - 1]) + if before.Some? && Due(before.value, last) then [last] else []
  }

  function Named(ts: seq<Timer>, p: nat): seq<Timer>
  {
    if ts == [] then [] else (if ts[0].payload == p then [ts[0]] else []) + Named(ts[1..], p)
  }

  function TimesOf(log: seq<(nat, int)>, p: nat): seq<int>
  {
    if log == [] then [] else (if log[0].0 == p then [log[0].1] else []) + TimesOf(log[1..], p)
  }

  lemma NamedCons(x: Timer, rest: seq<Timer>, p: nat)
    ensures Named([x] + rest, p) == (if x.payload == p then [x] else []) + Named(rest, p)
  {
    assert ([x] + rest)[1..] == rest;
  }

  lemma {:induction false} NamedAppend(a: seq<Timer>, b: seq<Timer>, p: nat)
    ensures Named(a + b, p) == Named(a, p) + Named(b, p)
  {
    if a == [] {
      assert a + b == b;
    } else {
      assert a == [a[0]] + a[1..] && a + b == [a[0]] + (a[1..] + b);
      NamedCons(a[0], a[1..], p);
      NamedCons(a[0], a[1..] + b, p);
      NamedAppend(a[1..], b, p);
    }
  }

  lemma TimesCons(x: (nat, int), rest: seq<(nat, int)>, p: nat)
    ensures TimesOf([x] + rest, p) == (if x.0 == p then [x.1] else []) + TimesOf(rest, p)
  {
    assert ([x] + rest)[1..] == rest;
  }

  lemma {:induction false} TimesAppend(a: seq<(nat, int)>, b: seq<(nat, int)>, p: nat)
    ensures TimesOf(a + b, p) == TimesOf(a, p) + TimesOf(b, p)
  {
    if a == [] {
      assert a + b == b;
    } else {
      assert a == [a[0]] + a[1..] && a + b == [a[0]] + (a[1..] + b);
      TimesCons(a[0], a[1..], p);
      TimesCons(a[0], a[1..] + b, p);
      TimesAppend(a[1..], b, p);
    }
  }

  function One(x: Option<Timer>): seq<Timer> {
    if x.Some? then [x.value] else []
  }

  lemma RemainingCons(x: Timer, rest: seq<Timer>, cur: int)
    ensures Remaining([x] + rest, cur) == One(Step(x, cur)) + Remaining(rest, cur)
    ensures Fired([x] + rest, cur) == (if Due(x, cur) then [x.payload] else []) + Fired(rest, cur)
  {
    assert ([x] + rest)[1..] == rest;
  }

  lemma RemainingNil(cur: int)
    ensures Remaining([], cur) == [] && Fired([], cur) == []
  {
  }

  lemma NamedStep(x: Timer, cur: int, p: nat)
    ensures Named(One(Step(x, cur)), p) == if x.payload == p then One(Step(x, cur)) else []
  {
  }

  // A scan treats the timers of one payload as if they were alone.
  lemma {:induction false} RemainingPerTimer(ts: seq<Timer>, cur: int, p: nat)
    ensures Named(Remaining(ts, cur), p) == Remaining(Named(ts, p), cur)
  {
    hide Named, Remaining, Step, Fired, Due, One;
    RemainingNil(cur);
    if ts == [] {
      NamedNil(p);
    } else {
      var x, rest := ts[0], ts[1..];
      assert ts == [x] + rest;
      RemainingPerTimer(rest, cur, p);
      RemainingCons(x, rest, cur);
      NamedAppend(One(Step(x, cur)), Remaining(rest, cur), p);
      NamedStep(x, cur, p);
      NamedCons(x, rest, p);
      if x.payload == p {
        RemainingCons(x, Named(rest, p), cur);
      } else {
        assert Named(ts, p) == Named(rest, p);
        assert Named(Remaining(ts, cur), p) == Named(Remaining(rest, cur), p);
      }
    }
  }

  lemma NamedNil(p: nat)
    ensures Named([], p) == []
  {
  }

  lemma StampedCons(p: nat, rest: seq<nat>, at: int, q: nat)
    ensures TimesOf(Stamped([p] + rest, at), q) == (if p == q then [at] else []) + TimesOf(Stamped(rest, at), q)
  {
    assert ([p] + rest)[1..] == rest;
    assert ([(p, at)] + Stamped(rest, at))[1..] == Stamped(rest, at);
  }

  lemma {:induction false} FiredPerTimer(ts: seq<Timer>, cur: int, p: nat)
    ensures TimesOf(Stamped(Fired(ts, cur), cur), p) == TimesOf(Stamped(Fired(Named(ts, p), cur), cur), p)
  {
    hide Named, Remaining, Step, Fired, Due, TimesOf, Stamped;
    if ts == [] {
      NamedNil(p);
    } else {
      var x, rest := ts[0], ts[1..];
      assert ts == [x] + rest;
      FiredPerTimer(rest, cur, p);
      RemainingCons(x, rest, cur);
      NamedCons(x, rest, p);
      RemainingCons(x, Named(rest, p), cur);
      StampedCons(x.payload, Fired(rest, cur), cur, p);
      StampedCons(x.payload, Fired(Named(rest, p), cur), cur, p);
      assert [] + Fired(rest, cur) == Fired(rest, cur) && [] + Fired(Named(rest, p), cur) == Fired(Named(rest, p), cur);
      assert [] + Named(rest, p) == Named(rest, p);
    }
  }

  // The events in which a payload is added.
  ghost predicate AddedOnceAt(events: seq<Event>, i: nat)
  {
    i < |events| && events[i].Add? &&
    forall j :: 0 <= j < |events| && j != i && events[j].Add? ==> events[j].payload != events[i].payload
  }

  lemma {:induction false} NotActiveBefore(events: seq<Event>, p: nat)
    requires forall j :: 0 <= j < |events| && events[j].Add? ==> events[j].payload != p
    ensures Named(Active(events), p) == [] && TimesOf(Log(events), p) == []
  {
    if events != [] {
      var before, e := events[..|events| - 1], events[|events| - 1];
      NotActiveBefore(before, p);
      if e.Scan? {
        RemainingPerTimer(Active(before), e.at, p);
        FiredPerTimer(Active(before), e.at, p);
        TimesAppend(Log(before), Stamped(Fired(Active(before), e.at), e.at), p);
      } else {
        NamedAppend([Started(e)], Active(before), p);
      }
    }
  }

  // Over a whole run a timer lives and fires exactly as it would alone, whatever other timers are
  // added before, between and after, and whatever they do.
  lemma {:induction false} RunIsPerTimer(events: seq<Event>, i: nat)
    requires AddedOnceAt(events, i)
    ensures var tm, times := Started(events[i]), ScanTimes(events[i + 1..]);
            && Named(Active(events), tm.payload) == One(Status(tm, times))
            && TimesOf(Log(events), tm.payload) == Firings(tm, times)
  {
    hide TimesOf, Named, Firings, Status, Remaining, Fired, Stamped;
    var before, e := events[..|events| - 1], events[|events| - 1];
    var p := events[i].payload;
    if i + 1 == |events| {
      NotActiveBefore(before, p);
      NamedAppend([Started(e)], Active(before), p);
      assert events[i + 1..] == [];
      JustStarted(Started(e));
    } else {
      RunIsPerTimer(before, i);
      assert events[i + 1..][..|events| - i - 2] == before[i + 1..];
      if e.Scan? {
        RemainingPerTimer(Active(before), e.at, p);
        FiredPerTimer(Active(before), e.at, p);
        TimesAppend(Log(before), Stamped(Fired(Active(before), e.at), e.at), p);
        AloneStep(Started(events[i]), ScanTimes(before[i + 1..]), e.at);
      } else {
        NamedAppend([Started(e)], Active(before), p);
        NotNamed(Started(e), p);
      }
    }
  }

  lemma JustStarted(tm: Timer)
    ensures Status(tm, []) == Some(tm) && Firings(tm, []) == [] && Named([tm], tm.payload) == [tm]
  {
  }

  lemma NotNamed(tm: Timer, p: nat)
    requires tm.payload != p
    ensures Named([tm], p) == []
  {
  }

  lemma AloneStep(tm: Timer, times: seq<int>, at: int)
    ensures Status(tm, times).Some? ==> Status(tm, times).value.payload == tm.payload
    ensures One(Status(tm, times + [at])) == Remaining(One(Status(tm, times)), at)
    ensures Firings(tm, times + [at]) == Firings(tm, times) + TimesOf(Stamped(Fired(One(Status(tm, times)), at), at), tm.payload)
  {
    assert (times + [at])[..|times|] == times;
    StatusKeeps(tm, times);
  }

  lemma {:induction false} StatusKeeps(tm: Timer, times: seq<int>)
    ensures Status(tm, times).Some? ==>
      var now := Status(tm, times).value;
      now.payload == tm.payload && now.loop == tm.loop && now.spanTime == tm.spanTime
  {
    if times != [] { StatusKeeps(tm, times[..|times| - 1]); }
  }

  // The index of the first of the times that is strictly after t, or |times|.
  function FirstAfter(times: seq<int>, t: int): (i: nat)
    ensures i <= |times|
    ensures forall j :: 0 <= j < i ==> times[j] <= t
    ensures i < |times| ==> times[i] > t
  {
    if times == [] then 0
    else
      var last := |times| - 1;
      var k := FirstAfter(times[..last], t);
      if k < last then k else if times[last] > t then last else last + 1
  }

  // A one-shot timer fires exactly once, at the first scan strictly after its time, if there is one.
  lemma {:induction false} OneShot(tm: Timer, times: seq<int>)
    requires !tm.loop
    ensures var i := FirstAfter(times, tm.nextTime);
            if i < |times| then Firings(tm, times) == [times[i]] && Status(tm, times) == None
            else Firings(tm, times) == [] && Status(tm, times) == Some(tm)
  {
    if times != [] {
      OneShot(tm, times[..|times| - 1]);
    }
  }

  // A looping timer never stops, its firings are more than its span apart, and a scan that does
  // not fire it is no later than its due time.
  lemma {:induction false} Looping(tm: Timer, times: seq<int>)
    requires tm.loop
    ensures Status(tm, times).Some?
    ensures var f := Firings(tm, times);
            && (forall i :: 0 <= i < |f| - 1 ==> f[i + 1] > f[i] + tm.spanTime)
            && (f != [] ==> f[0] > tm.nextTime)
            && Status(tm, times).value.nextTime == if f == [] then tm.nextTime else f[|f| - 1] + tm.spanTime
  {
    StatusKeeps(tm, times);
    if times != [] {
      StatusKeeps(tm, times[..|times| - 1]);
      Looping(tm, times[..|times| - 1]);
    }
  }

  // When a looping timer that is due after `due` fires: at the first time after it, and then again
  // as if it had been started there.
  function LoopTimes(times: seq<int>, due: int, span: int): seq<int>
    decreases |times|
  {
    var i := FirstAfter(times, due);
    if i == |times| then [] else [times[i]] + LoopTimes(times[i + 1..], times[i] + span, span)
  }

  // When it fires next.
  function NextDue(times: seq<int>, due: int, span: int): int
  {
    var f := LoopTimes(times, due, span);
    if f == [] then due else f[|f| - 1] + span
  }

  lemma {:induction false} FirstAfterMore(times: seq<int>, at: int, t: int)
    ensures FirstAfter(times + [at], t) ==
      if FirstAfter(times, t) < |times| then FirstAfter(times, t) else if at > t then |times| else |times| + 1
  {
    assert (times + [at])[..|times|] == times;
  }

  lemma {:induction false} LoopTimesMore(times: seq<int>, at: int, due: int, span: int)
    ensures LoopTimes(times + [at], due, span) ==
      LoopTimes(times, due, span) + if at > NextDue(times, due, span) then [at] else []
    decreases |times|
  {
    hide FirstAfter;
    FirstAfterMore(times, at, due);
    var i := FirstAfter(times, due);
    if i < |times| {
      assert (times + [at])[i + 1..] == times[i + 1..] + [at];
      LoopTimesMore(times[i + 1..], at, times[i] + span, span);
    } else if at > due {
      assert (times + [at])[i + 1..] == [];
    }
  }

  lemma {:induction false} FiringsLoop(tm: Timer, times: seq<int>)
    requires tm.loop
    ensures Firings(tm, times) == LoopTimes(times, tm.nextTime, tm.spanTime)
  {
    if times != [] {
      var before, last := times[..|times| - 1], times[|times| - 1];
      assert times == before + [last];
      FiringsLoop(tm, before);
      Looping(tm, before);
      LoopTimesMore(before, last, tm.nextTime, tm.spanTime);
    }
  }

  // A one-shot timer that is added once, whatever else is added and fires: its callback is made at
  // the first later scan strictly after its span has passed, and never again.
  lemma OneShotRun(events: seq<Event>, i: nat)
    requires AddedOnceAt(events, i) && !events[i].loop
    ensures var e, times := events[i], ScanTimes(events[i + 1..]);
            var k := FirstAfter(times, e.at + e.span);
            TimesOf(Log(events), e.payload) == if k < |times| then [times[k]] else []
  {
    hide TimesOf, Log, ScanTimes, Active, Named;
    RunIsPerTimer(events, i);
    OneShot(Started(events[i]), ScanTimes(events[i + 1..]));
  }

  // A looping one: at the first later scan strictly after its span has passed, and again at each
  // first scan more than the span after the last callback, as long as there are scans.
  lemma LoopingRun(events: seq<Event>, i: nat)
    requires AddedOnceAt(events, i) && events[i].loop
    ensures var e := events[i];
            TimesOf(Log(events), e.payload) == LoopTimes(ScanTimes(events[i + 1..]), e.at + e.span, e.span)
  {
    hide TimesOf, Log, LoopTimes, ScanTimes, Active, Named, Status;
    RunIsPerTimer(events, i);
    FiringsLoop(Started(events[i]), ScanTimes(events[i + 1..]));
  }

  /* ---------- several timers in one scan ---------- */

  // No timer of payload p is in front of one of payload q.
  ghost predicate After(ts: seq<Timer>, p: nat, q: nat)
  {
    forall a, b :: 0 <= a < |ts| && 0 <= b < |ts| && ts[a].payload == p && ts[b].payload == q ==> b < a
  }

  lemma {:induction false} StepInOrder(ts: seq<Timer>, cur: int, p: nat, q: nat)
    requires After(ts, p, q) && p != q
    ensures After(Remaining(ts, cur), p, q)
    ensures var f := Fired(ts, cur);
            forall a, b :: 0 <= a < |f| && 0 <= b < |f| && f[a] == p && f[b] == q ==> b < a
  {
    hide Step, Due, Remaining, Fired;
    RemainingNil(cur);
    if ts != [] {
      var x, rest := ts[0], ts[1..];
      assert ts == [x] + rest;
      StepInOrder(rest, cur, p, q);
      StillThere(rest, cur);
      RemainingCons(x, rest, cur);
      if x.payload == p {
        assert forall y :: y in rest ==> y.payload != q;
        assert q !in Fired(rest, cur);
      }
      StepKeeps(x, cur);
      assert |Fired(ts, cur)| >= |Fired(rest, cur)|;
    }
  }

  lemma StepKeeps(x: Timer, cur: int)
    ensures Step(x, cur).Some? ==> Step(x, cur).value.payload == x.payload
  {
  }

  // A scan adds no timer and no callback of its own.
  lemma {:induction false} StillThere(ts: seq<Timer>, cur: int)
    ensures forall x :: x in Remaining(ts, cur) ==> exists y :: y in ts && y.payload == x.payload
    ensures forall x :: x in Fired(ts, cur) ==> exists y :: y in ts && y.payload == x
  {
    if ts != [] {
      StillThere(ts[1..], cur);
    }
  }

  // Of two timers the one that was added later comes first in every scan in which both fire.
  lemma {:induction false} NewestFirst(events: seq<Event>, i: nat, j: nat, cur: int)
    requires i < j && AddedOnceAt(events, i) && AddedOnceAt(events, j)
    ensures After(Active(events), events[i].payload, events[j].payload)
    ensures var f := Fired(Active(events), cur);
            forall a, b :: 0 <= a < |f| && 0 <= b < |f| && f[a] == events[i].payload && f[b] == events[j].payload ==> b < a
  {
    var p, q := events[i].payload, events[j].payload;
    var before, e := events[..|events| - 1], events[|events| - 1];
    if j == |events| - 1 {
      NotActiveBefore(before, q);
      NotNamedAnywhere(Active(before), q);
    } else {
      NewestFirst(before, i, j, cur);
      if e.Scan? {
        StepInOrder(Active(before), e.at, p, q);
      }
    }
    StepInOrder(Active(events), cur, p, q);
  }

  lemma {:induction false} NotNamedAnywhere(ts: seq<Timer>, p: nat)
    requires Named(ts, p) == []
    ensures forall x :: x in ts ==> x.payload != p
  {
    if ts != [] { NotNamedAnywhere(ts[1..], p); }
  }

  // A scan handles a list timer by timer, from the front.
  lemma {:induction false} ScanNext(ts: seq<Timer>, x: Timer, cur: int)
    ensures Remaining(ts + [x], cur) == Remaining(ts, cur) + One(Step(x, cur))
    ensures Fired(ts + [x], cur) == Fired(ts, cur) + if Due(x, cur) then [x.payload] else []
  {
    hide Remaining, Fired, Step, Due;
    RemainingNil(cur);
    if ts == [] {
      assert ts + [x] == [x] + [];
      RemainingCons(x, [], cur);
    } else {
      assert ts == [ts[0]] + ts[1..] && ts + [x] == [ts[0]] + (ts[1..] + [x]);
      RemainingCons(ts[0], ts[1..], cur);
      RemainingCons(ts[0], ts[1..] + [x], cur);
      ScanNext(ts[1..], x, cur);
    }
  }
}

/** delay_home and delay_active of network/vfs_timer.c over one pool of nodes. Nodes on neither
    list stand for memory that malloc has not handed out yet.
 */
module TimerPool {
  import opened Basics
  import opened IntrusiveList
  import opened ListPair
  import opened TimerSpec

  ghost predicate Inside(ids: seq<nat>, n: nat)
  {
    forall i :: 0 <= i < |ids| ==> ids[i] < n
  }

  ghost function TimersOf(ids: seq<nat>, all: seq<Timer>): (r: seq<Timer>)
    requires Inside(ids, |all|)
    ensures |r| == |ids|
  {
    seq(|ids|, i requires 0 <= i < |ids| => all[ids[i]])
  }

  // What a scan that has examined the first k of the timers `ids` has made of the active list
  // and of the timers, which were `all` when it began.
  ghost predicate Tracked(ids: seq<nat>, all: seq<Timer>, kept: seq<nat>, k: nat, cur: int, line: seq<nat>, now: seq<Timer>)
  {
    && k <= |ids| && |all| == |now| && Inside(ids, |all|) && Inside(kept, |all|)
    && Distinct(ids) && line == kept + ids[k..]
    && TimersOf(kept, now) == Remaining(TimersOf(ids, all)[..k], cur)
    && (forall j :: k <= j < |ids| ==> now[ids[j]] == all[ids[j]])
    && (forall j :: 0 <= j < |kept| ==> kept[j] in ids[..k])
  }

  lemma TrackedNext(ids: seq<nat>, all: seq<Timer>, kept: seq<nat>, k: nat, cur: int, line: seq<nat>, now: seq<Timer>)
    requires Tracked(ids, all, kept, k, cur, line, now) && k < |ids|
    ensures |kept| < |line| && now[ids[k]] == all[ids[k]]
    ensures var after := Step(all[ids[k]], cur);
            if after.Some? then Tracked(ids, all, kept + [ids[k]], k + 1, cur, line, now[ids[k] := after.value])
            else Tracked(ids, all, kept, k + 1, cur, Without(line, |kept|), now)
    ensures Fired(TimersOf(ids, all)[..k + 1], cur) ==
      Fired(TimersOf(ids, all)[..k], cur) + if Due(all[ids[k]], cur) then [all[ids[k]].payload] else []
  {
    hide Remaining, Fired, Step, Due;
    var ts, id := TimersOf(ids, all), ids[k];
    assert ts[..k + 1] == ts[..k] + [all[id]];
    ScanNext(ts[..k], all[id], cur);
    assert id !in kept;
    if Step(all[id], cur).Some? {
      var now' := now[id := Step(all[id], cur).value];
      assert TimersOf(kept + [id], now') == TimersOf(kept, now) + [now'[id]];
    }
  }

  // The node after the examined one is where the walk continues.
  lemma LineAdvances(ids: seq<nat>, all: seq<Timer>, kept: seq<nat>, k: nat, cur: int, line: seq<nat>, now: seq<Timer>)
    requires Tracked(ids, all, kept, k, cur, line, now) && k < |ids|
    ensures |kept| < |line| && |line| == |Without(line, |kept|)| + 1
    ensures |kept| + 1 < |line| ==> Without(line, |kept|)[|kept|] == line[|kept| + 1]
  {
  }

  class TimerPool {
    const lists: ListPair  // home is delay_home, side is delay_active
    const timers: array<Timer>

    ghost predicate Valid()
      reads this, timers, lists, lists.home, lists.side, lists.nodes
    {
      lists.Valid() && |lists.nodes| == timers.Length && Inside(lists.t, timers.Length)
    }

    ghost function ActiveTimers(): seq<Timer>
      reads this, timers, lists, lists.home, lists.side, lists.nodes
      requires Valid()
    {
      TimersOf(lists.t, timers[..])
    }

    // delay_task_init: defaultMax nodes on delay_home.
    constructor (memory: nat, defaultMax: nat)
      requires defaultMax <= memory
      ensures Valid() && lists.t == [] && |lists.q| == defaultMax && timers.Length == memory
      ensures fresh(timers) && fresh(lists) && fresh(lists.home) && fresh(lists.side)
      ensures forall k :: 0 <= k < |lists.nodes| ==> fresh(lists.nodes[k])
      ensures ActiveTimers() == [] && forall k :: k in lists.q ==> k < defaultMax
    {
      lists := new ListPair(memory);
      timers := new Timer[memory](_ => Timer(0, 0, 0, false));
      new;
      hide ListPair.Valid;
      Stock(defaultMax);
    }

    method Stock(n: nat)
      requires Valid() && lists.t == [] && lists.q == [] && n <= timers.Length
      modifies lists`q, lists`t, lists.home, lists.side, lists.nodes
      ensures Valid() && lists.t == [] && |lists.q| == n && forall k :: k in lists.q ==> k < n
    {
      hide ListPair.Valid;
      for i := 0 to n
        invariant Valid() && lists.t == [] && |lists.q| == i
        invariant forall k :: k in lists.q ==> k < i
      {
        lists.PrependHome(i);
      }
    }

    // add_to_delay_task. `spare` is what malloc answers when delay_home is empty.
    method AddToDelayTask(payload: nat, span: int, loop: bool, cur: int, spare: Option<nat>) returns (ok: bool)
      requires Valid()
      requires spare.Some? ==> spare.value < timers.Length && spare.value !in lists.q && spare.value !in lists.t
      modifies timers, lists`q, lists`t, lists.home, lists.side, lists.nodes
      ensures Valid() && ok == (old(lists.q) != [] || spare.Some?)
      ensures ok ==> ActiveTimers() == [Started(Add(payload, span, loop, cur))] + old(ActiveTimers())
      ensures !ok ==> ActiveTimers() == old(ActiveTimers())
      ensures lists.q == if old(lists.q) != [] then old(lists.q)[1..] else []
      ensures forall i :: i in lists.q || i in lists.t ==> i in old(lists.q) || i in old(lists.t) || spare == Some(i)
    {
      hide ListPair.Valid, Drop;
      lists.FrontOfHome();
      var pos := lists.home.next;
      var fd;
      if pos != lists.home {
        fd := pos.entry;
        DropFirst(lists.q);
        DropAbsent(lists.t, fd);
        lists.Detach(fd);
      } else if spare.Some? {
        fd := spare.value;
      } else {
        return false;
      }
      timers[fd] := Timer(payload, cur + span, span, loop);
      lists.PrependSide(fd);
      ok := true;
    }

    // The loop body of scan_delay_task for the j-th active timer.
    method Examine(fd: nat, cur: int, ghost j: nat) returns (fires: bool)
      requires Valid() && j < |lists.t| && fd == lists.t[j]
      modifies timers, lists`q, lists`t, lists.home, lists.side, lists.nodes
      ensures Valid() && fires == Due(old(timers[fd]), cur)
      ensures var after := Step(old(timers[fd]), cur);
              && timers[..] == (if after.Some? then old(timers[..])[fd := after.value] else old(timers[..]))
              && lists.t == (if after.Some? then old(lists.t) else Without(old(lists.t), j))
              && lists.q == (if after.Some? then old(lists.q) else [fd] + old(lists.q))
      ensures forall i :: i in old(lists.q) || i in old(lists.t) <==> i in lists.q || i in lists.t
    {
      hide ListPair.Valid, Drop;
      DropKeeps(lists.t, fd);
      fires := cur > timers[fd].nextTime;
      if fires {
        if timers[fd].loop {
          timers[fd] := timers[fd].(nextTime := cur + timers[fd].spanTime);
        } else {
          lists.FrontOfSide();
          DropAt(lists.t, j);
          DropAbsent(lists.q, fd);
          lists.Detach(fd);
          lists.PrependHome(fd);
        }
      }
    }

    ghost predicate Scanned(ids: seq<nat>, all: seq<Timer>, kept: seq<nat>, k: nat, cur: int)
      reads this, timers, lists, lists.home, lists.side, lists.nodes
    {
      Valid() && Tracked(ids, all, kept, k, cur, lists.t, timers[..])
    }

    lemma ScannedPosition(ids: seq<nat>, all: seq<Timer>, kept: seq<nat>, k: nat, cur: int)
      requires Scanned(ids, all, kept, k, cur)
      ensures lists.NodeAt(lists.side, lists.t, |kept|) == lists.side <==> k == |ids|
      ensures k < |ids| ==> |kept| < |lists.t| && lists.t[|kept|] == ids[k] < timers.Length
      ensures k < |ids| ==> lists.NodeAt(lists.side, lists.t, |kept|).entry == ids[k]
      ensures k < |ids| ==> lists.NodeAt(lists.side, lists.t, |kept|).next == lists.NodeAt(lists.side, lists.t, |kept| + 1)
    {
      hide ListPair.Valid, Remaining;
      lists.FrontOfSide();
      if k < |ids| {
        lists.NextOnSide(|kept|);
      }
    }

    // One turn of the loop of scan_delay_task.
    method ExamineNext(pos: ListHead<nat>, cur: int,
                       ghost ids: seq<nat>, ghost all: seq<Timer>, ghost kept: seq<nat>, ghost k: nat)
        returns (fires: bool, payload: nat, ghost kept': seq<nat>)
      requires Scanned(ids, all, kept, k, cur) && k < |ids|
      requires pos == lists.NodeAt(lists.side, lists.t, |kept|)
      modifies timers, lists`q, lists`t, lists.home, lists.side, lists.nodes
      ensures Scanned(ids, all, kept', k + 1, cur)
      ensures Fired(TimersOf(ids, all)[..k + 1], cur) ==
        Fired(TimersOf(ids, all)[..k], cur) + if fires then [payload] else []
      ensures old(pos.next) == lists.NodeAt(lists.side, lists.t, |kept'|)
      ensures forall i :: i in old(lists.q) || i in old(lists.t) <==> i in lists.q || i in lists.t
    {
      hide ListPair.Valid, Tracked, Fired, Step, Due, TimersOf, Without;
      ScannedPosition(ids, all, kept, k, cur);
      TrackedNext(ids, all, kept, k, cur, lists.t, timers[..]);
      var fd := pos.entry;
      payload := timers[fd].payload;
      kept' := if Step(timers[fd], cur).Some? then kept + [fd] else kept;
      ghost var line := lists.t;
      LineAdvances(ids, all, kept, k, cur, line, timers[..]);
      fires := Examine(fd, cur, |kept|);
    }

    // scan_delay_task: every active timer is examined once, from the front; one-shot timers that
    // fire go back to delay_home while the list is being walked.
    method ScanDelayTask(cur: int) returns (fired: seq<nat>)
      requires Valid()
      modifies timers, lists`q, lists`t, lists.home, lists.side, lists.nodes
      ensures Valid()
      ensures fired == Fired(old(ActiveTimers()), cur)
      ensures ActiveTimers() == Remaining(old(ActiveTimers()), cur)
      ensures forall i :: i in old(lists.q) || i in old(lists.t) <==> i in lists.q || i in lists.t
    {
      ghost var ids, all := lists.t, timers[..];
      ghost var kept, k := [], 0;
      RemainingNil(cur);
      lists.FrontOfSide();
      ScanStarts(cur);
      hide ListPair.Valid, Remaining, Fired, Step, Due, Scanned;
      fired := [];
      var pos := lists.side.next;
      var n := pos.next;
      while pos != lists.side
        invariant Scanned(ids, all, kept, k, cur) && k <= |ids|
        invariant fired == Fired(TimersOf(ids, all)[..k], cur)
        invariant pos == lists.NodeAt(lists.side, lists.t, |kept|) && n == pos.next
        invariant forall i :: i in old(lists.q) || i in ids <==> i in lists.q || i in lists.t
        decreases |ids| - k
      {
        ScannedPosition(ids, all, kept, k, cur);
        var fires, payload;
        fires, payload, kept := ExamineNext(pos, cur, ids, all, kept, k);
        if fires {
          fired := fired + [payload];
        }
        k := k + 1;
        ScanBounds(ids, all, kept, k, cur);
        pos := n;
        n := n.next;
      }
      ScannedPosition(ids, all, kept, k, cur);
      ScanEnds(ids, all, kept, cur);
    }

    lemma ScanStarts(cur: int)
      requires Valid()
      ensures Scanned(lists.t, timers[..], [], 0, cur)
    {
    }

    lemma ScanBounds(ids: seq<nat>, all: seq<Timer>, kept: seq<nat>, k: nat, cur: int)
      requires Scanned(ids, all, kept, k, cur)
      ensures k <= |ids|
    {
    }

    lemma ScanEnds(ids: seq<nat>, all: seq<Timer>, kept: seq<nat>, cur: int)
      requires Scanned(ids, all, kept, |ids|, cur)
      ensures Valid() && Inside(ids, |all|)
      ensures ActiveTimers() == Remaining(TimersOf(ids, all), cur)
      ensures TimersOf(ids, all)[..|ids|] == TimersOf(ids, all)
    {
      assert kept + ids[|ids|..] == kept;
      assert TimersOf(ids, all)[..|ids|] == TimersOf(ids, all);
    }
  }

  // Any run of adds and scans makes exactly the callbacks of the specification, in its order, however
  // many nodes were stocked at the start.
  method Replay(events: seq<Event>, defaultMax: nat) returns (log: seq<(nat, int)>)
    ensures log == Log(events)
  {
    hide Remaining, Fired, TimerPool.Valid, TimerPool.ActiveTimers;
    var pool := new TimerPool(defaultMax + |events|, defaultMax);
    log := [];
    var used := 0;
    for i := 0 to |events|
      invariant fresh(pool.timers) && fresh(pool.lists) && fresh(pool.lists.home) && fresh(pool.lists.side)
      invariant forall k :: 0 <= k < |pool.lists.nodes| ==> fresh(pool.lists.nodes[k])
      invariant pool.Valid() && pool.timers.Length == defaultMax + |events|
      invariant used <= i && forall k :: k in pool.lists.q || k in pool.lists.t ==> k < defaultMax + used
      invariant pool.ActiveTimers() == Active(events[..i]) && log == Log(events[..i])
    {
      assert events[..i + 1][..i] == events[..i];
      match events[i] {
        case Add(payload, span, loop, at) =>
          var ok := pool.AddToDelayTask(payload, span, loop, at, Some(defaultMax + used));
          used := used + 1;
        case Scan(at) =>
          var fired := pool.ScanDelayTask(at);
          log := log + Stamped(fired, at);
      }
    }
    assert events[..|events|] == events;
  }
}
