/** Nested timers on a stack of profiles. */
module Profiler {
  import opened ByteValues

  /** The time since birth, as stretches between events with the stack during each. */
  datatype History = Birth | After(past: History, stack: seq<Profile>, duration: nat)

  // What a history says about each profile.

  ghost function Top(stack: seq<Profile>): Profile
    requires stack != []
  {
    stack[|stack| - 1]
  }

  ghost predicate OnTop(stack: seq<Profile>, p: Profile)
  {
    stack != [] && Top(stack) == p
  }

  /** The time p was on top of the stack. */
  ghost function TopTime(h: History, p: Profile): nat
  {
    match h
    case Birth => 0
    case After(past, stack, d) => TopTime(past, p) + (if OnTop(stack, p) then d else 0)
  }

  /** The time p was anywhere on the stack. */
  ghost function StackTime(h: History, p: Profile): nat
  {
    match h
    case Birth => 0
    case After(past, stack, d) => StackTime(past, p) + (if p in stack then d else 0)
  }

  ghost function Total(h: History): nat
  {
    match h
    case Birth => 0
    case After(past, _, d) => Total(past) + d
  }

  /** How often p is on the stack. */
  ghost function Count(stack: seq<Profile>, p: Profile): (n: nat)
    ensures n > 0 <==> p in stack
  {
    if stack == [] then 0 else Count(stack[..|stack| - 1], p) + (if OnTop(stack, p) then 1 else 0)
  }

  lemma Pushed(stack: seq<Profile>, q: Profile, p: Profile)
    ensures Count(stack + [q], p) == Count(stack, p) + (if p == q then 1 else 0)
  {
    assert (stack + [q])[..|stack|] == stack;
  }

  /** Being on top is being on the stack, and the history is no longer than it is. */
  lemma {:induction false} TimesOrdered(h: History, p: Profile)
    ensures TopTime(h, p) <= StackTime(h, p) <= Total(h)
    decreases h
  {
    if h.After? { TimesOrdered(h.past, p); }
  }

  ghost function TopTimes(h: History, ps: seq<Profile>): nat
  {
    if ps == [] then 0 else TopTimes(h, ps[..|ps| - 1]) + TopTime(h, ps[|ps| - 1])
  }

  ghost predicate Distinct(ps: seq<Profile>)
  {
    forall i, j :: 0 <= i < j < |ps| ==> ps[i] != ps[j]
  }

  lemma {:induction false} TopTimesAfter(h: History, stack: seq<Profile>, d: nat, ps: seq<Profile>)
    requires Distinct(ps)
    ensures TopTimes(After(h, stack, d), ps) == TopTimes(h, ps) + (if stack != [] && Top(stack) in ps then d else 0)
    decreases |ps|
  {
    if ps != [] {
      TopTimesAfter(h, stack, d, ps[..|ps| - 1]);
      assert ps == ps[..|ps| - 1] + [ps[|ps| - 1]];
    }
  }

  /** There always was a profile on top, and of these. */
  ghost predicate Covers(h: History, ps: seq<Profile>)
  {
    match h
    case Birth => true
    case After(past, stack, d) => Covers(past, ps) && if stack == [] then d == 0 else Top(stack) in ps
  }

  /** Each moment belongs to the profile on top, so the tops' times make up the whole. */
  lemma {:induction false} TopTimesTotal(h: History, ps: seq<Profile>)
    requires Distinct(ps) && Covers(h, ps)
    ensures TopTimes(h, ps) == Total(h)
    decreases h
  {
    match h
    case Birth => NoTime(ps);
    case After(past, stack, d) =>
      TopTimesTotal(past, ps);
      TopTimesAfter(past, stack, d, ps);
  }

  lemma {:induction false} NoTime(ps: seq<Profile>)
    ensures TopTimes(Birth, ps) == 0
    decreases |ps|
  {
    if ps != [] { NoTime(ps[..|ps| - 1]); }
  }

  // One profile.

  datatype Timer = Timer(inProgress: int, sumTime: int, sumInternalTime: int, lastTime: int, lastInternalTime: int)

  /** The timer of p as the history has it, at the time of the last event. */
  ghost predicate Agrees(t: Timer, p: Profile, h: History, stack: seq<Profile>, last: nat)
  {
    t.inProgress == Count(stack, p)
    && t.sumInternalTime == TopTime(h, p)
    && t.sumTime + (if p in stack then last - t.lastTime else 0) == StackTime(h, p)
    && (p in stack ==> 0 <= t.lastTime <= last) && 0 <= t.sumTime
  }

  /** The timer that is started, and that of the top of the stack. */
  function AfterStart(t: Timer, started: bool, top: bool, now: int): Timer
  {
    var s := if started then t.(inProgress := t.inProgress + 1, lastTime := if t.inProgress == 0 then now else t.lastTime) else t;
    var i := now - t.lastInternalTime;
    var u := if top then s.(lastInternalTime := i, sumInternalTime := t.sumInternalTime + i) else s;
    if started then u.(lastInternalTime := now) else u
  }

  /** The timer that is stopped, and that of the top of the stack after it. */
  function AfterStop(t: Timer, stopped: bool, top: bool, now: int): Timer
  {
    var i, l := now - t.lastInternalTime, now - t.lastTime;
    var s := if stopped then t.(inProgress := t.inProgress - 1, lastInternalTime := i, sumInternalTime := t.sumInternalTime + i) else t;
    var u := if stopped && t.inProgress == 1 then s.(lastTime := l, sumTime := t.sumTime + l) else s;
    if top then u.(lastInternalTime := now) else u
  }

  lemma StartAgrees(t: Timer, p: Profile, q: Profile, h: History, stack: seq<Profile>, last: nat, now: nat)
    requires Agrees(t, p, h, stack, last) && last <= now
    requires OnTop(stack, p) ==> t.lastInternalTime == last
    ensures var u := AfterStart(t, p == q, OnTop(stack, p), now);
            Agrees(u, p, After(h, stack, now - last), stack + [q], now) && (p in stack ==> u.lastTime == t.lastTime)
  {
    Pushed(stack, q, p);
  }

  lemma StopAgrees(t: Timer, p: Profile, q: Profile, h: History, rest: seq<Profile>, last: nat, now: nat)
    requires Agrees(t, p, h, rest + [q], last) && last <= now
    requires p == q ==> t.lastInternalTime == last
    ensures var u := AfterStop(t, p == q, OnTop(rest, p), now);
            Agrees(u, p, After(h, rest + [q], now - last), rest, now) && (p in rest ==> u.lastTime == t.lastTime)
  {
    Pushed(rest, q, p);
  }

  ghost predicate AllIn(stack: seq<Profile>, all: seq<Profile>)
  {
    forall i :: 0 <= i < |stack| ==> stack[i] in all
  }

  /** The history is of these profiles. */
  ghost predicate Records(h: History, all: seq<Profile>)
  {
    match h
    case Birth => true
    case After(past, stack, _) => Records(past, all) && AllIn(stack, all)
  }

  ghost predicate AllAgree(all: seq<Profile>, h: History, stack: seq<Profile>, last: nat)
    reads all
  {
    forall p :: p in all ==> Agrees(p.Timing(), p, h, stack, last)
  }

  ghost function Timings(all: seq<Profile>): map<Profile, Timer>
    reads all
  {
    map p | p in all :: p.Timing()
  }

  ghost predicate AllAgreed(was: map<Profile, Timer>, h: History, stack: seq<Profile>, last: nat)
  {
    forall p :: p in was ==> Agrees(was[p], p, h, stack, last)
  }

  lemma AllStarted(all: seq<Profile>, was: map<Profile, Timer>, q: Profile, h: History, stack: seq<Profile>, last: nat, now: nat)
    requires AllAgreed(was, h, stack, last) && last <= now
    requires stack != [] ==> Top(stack) in was && was[Top(stack)].lastInternalTime == last
    requires forall p :: p in all ==> p in was && p.Timing() == AfterStart(was[p], p == q, OnTop(stack, p), now)
    ensures AllAgree(all, After(h, stack, now - last), stack + [q], now)
    ensures forall p :: p in all && p in stack ==> p.lastTime_ == was[p].lastTime
  {
    forall p | p in all
      ensures Agrees(p.Timing(), p, After(h, stack, now - last), stack + [q], now)
      ensures p in stack ==> p.lastTime_ == was[p].lastTime
    {
      StartAgrees(was[p], p, q, h, stack, last, now);
    }
  }

  lemma AllStopped(all: seq<Profile>, was: map<Profile, Timer>, q: Profile, h: History, rest: seq<Profile>, last: nat, now: nat)
    requires AllAgreed(was, h, rest + [q], last) && last <= now
    requires q in was && was[q].lastInternalTime == last
    requires forall p :: p in all ==> p in was && p.Timing() == AfterStop(was[p], p == q, OnTop(rest, p), now)
    ensures AllAgree(all, After(h, rest + [q], now - last), rest, now)
    ensures forall p :: p in all && p in rest ==> p.lastTime_ == was[p].lastTime
  {
    forall p | p in all
      ensures Agrees(p.Timing(), p, After(h, rest + [q], now - last), rest, now)
      ensures p in rest ==> p.lastTime_ == was[p].lastTime
    {
      StopAgrees(was[p], p, q, h, rest, last, now);
    }
  }

  class Profile {
    const strName_: string
    const pProfiles_: Profiles
    var inProgress_: int
    var sumTime_: int
    var sumInternalTime_: int
    var lastTime_: int
    var lastInternalTime_: int
    var lastVal2Stop_: nat
    var sumAllVals2Stop_: nat
    var stopCounts_: nat

    ghost function Timing(): Timer
      reads this
    {
      Timer(inProgress_, sumTime_, sumInternalTime_, lastTime_, lastInternalTime_)
    }

    /** A profile of profiles, which keeps those with a name. */
    constructor (name: string, profiles: Profiles)
      requires profiles.Consistent()
      modifies profiles
      ensures strName_ == name && pProfiles_ == profiles
      ensures profiles.Consistent() && profiles.SameRun() && profiles.all == old(profiles.all) + [this]
      ensures profiles.profiles_ == old(profiles.profiles_) + (if name != [] then [this] else [])
      ensures inProgress_ == sumTime_ == sumInternalTime_ == 0
    {
      strName_, pProfiles_ := name, profiles;
      inProgress_, sumTime_, sumInternalTime_, lastTime_, lastInternalTime_ := 0, 0, 0, 0, 0;
      lastVal2Stop_, sumAllVals2Stop_, stopCounts_ := 0, 0, 0;
      new;
      NeverSeen(profiles.history, profiles.stack_, this, profiles.all);
      RecordsMore(profiles.history, profiles.all, this);
      if name != [] { profiles.profiles_ := profiles.profiles_ + [this]; }
      profiles.all := profiles.all + [this];
      forall p | p in profiles.all
        ensures Agrees(p.Timing(), p, profiles.history, profiles.stack_, profiles.last)
      {
        if p != this { assert p in old(profiles.all) && p.Timing() == old(p.Timing()); }
      }
    }

    /** The timers that starting this touches. */
    method StartTimers(now: nat)
      modifies this, pProfiles_`stack_, pProfiles_.stack_
      ensures pProfiles_.stack_ == old(pProfiles_.stack_) + [this]
      ensures forall p :: p in old(pProfiles_.all) ==>
        p.Timing() == AfterStart(old(p.Timing()), p == this, OnTop(old(pProfiles_.stack_), p), now)
    {
      inProgress_ := inProgress_ + 1;
      if inProgress_ - 1 == 0 { lastTime_ := now; }
      if pProfiles_.stack_ != [] {
        var profile := pProfiles_.stack_[|pProfiles_.stack_| - 1];
        profile.lastInternalTime_ := now - profile.lastInternalTime_;
        profile.sumInternalTime_ := profile.sumInternalTime_ + profile.lastInternalTime_;
      }
      pProfiles_.stack_ := pProfiles_.stack_ + [this];
      lastInternalTime_ := now;
    }

    /** Starts timing this. */
    method Start(now: nat)
      requires pProfiles_.Consistent() && this in pProfiles_.all && pProfiles_.last <= now
      modifies this, pProfiles_, pProfiles_.stack_
      ensures pProfiles_.Consistent() && pProfiles_.SameProfiles() && (old(pProfiles_.Running()) ==> pProfiles_.Running())
      ensures pProfiles_.stack_ == old(pProfiles_.stack_) + [this]
      ensures pProfiles_.Passed(now)
      ensures forall p :: p in old(pProfiles_.stack_) ==> p.lastTime_ == old(p.lastTime_)
      ensures this !in old(pProfiles_.stack_) ==> lastTime_ == now
    {
      StartCounted(now);
    }

    method StartCounted(now: nat)
      requires pProfiles_.Consistent() && this in pProfiles_.all && pProfiles_.last <= now
      modifies this, pProfiles_, pProfiles_.stack_
      ensures pProfiles_.Consistent() && pProfiles_.SameProfiles()
      ensures pProfiles_.stack_ == old(pProfiles_.stack_) + [this]
      ensures pProfiles_.Passed(now)
      ensures forall p :: p in old(pProfiles_.stack_) ==> p.lastTime_ == old(p.lastTime_)
      ensures this !in old(pProfiles_.stack_) ==> lastTime_ == now
    {
      var profiles := pProfiles_;
      ghost var stack, h, last, was := profiles.stack_, profiles.history, profiles.last, Timings(profiles.all);
      assert AllAgreed(was, h, stack, last);
      StartTimers(now);
      assert AllIn(profiles.stack_, profiles.all) && lastInternalTime_ == now;
      profiles.Pass(stack, now);
      AllStarted(profiles.all, was, this, h, stack, last, now);
    }

    /** The timers that stopping this touches. */
    method StopTimers(now: nat)
      requires pProfiles_.stack_ != []
      modifies this, pProfiles_`stack_, pProfiles_.stack_
      ensures pProfiles_.stack_ == old(pProfiles_.stack_[..|pProfiles_.stack_| - 1])
      ensures forall p :: p in old(pProfiles_.all) ==>
        p.Timing() == AfterStop(old(p.Timing()), p == this, OnTop(pProfiles_.stack_, p), now)
      ensures lastVal2Stop_ == old(lastVal2Stop_) && sumAllVals2Stop_ == old(sumAllVals2Stop_) && stopCounts_ == old(stopCounts_)
    {
      inProgress_ := inProgress_ - 1;
      if inProgress_ == 0 {
        lastTime_ := now - lastTime_;
        sumTime_ := sumTime_ + lastTime_;
      }
      pProfiles_.stack_ := pProfiles_.stack_[..|pProfiles_.stack_| - 1];
      lastInternalTime_ := now - lastInternalTime_;
      sumInternalTime_ := sumInternalTime_ + lastInternalTime_;
      if pProfiles_.stack_ != [] {
        pProfiles_.stack_[|pProfiles_.stack_| - 1].lastInternalTime_ := now;
      }
    }

    /** Stops timing this, which was the last to be started. */
    method Stop(now: nat, qty: nat)
      requires pProfiles_.Consistent() && pProfiles_.stack_ != [] && Top(pProfiles_.stack_) == this && pProfiles_.last <= now
      requires qty < WORD32
      modifies this, pProfiles_, pProfiles_.stack_
      ensures pProfiles_.Consistent() && pProfiles_.SameProfiles()
      ensures old(pProfiles_.Running()) && pProfiles_.stack_ != [] ==> pProfiles_.Running()
      ensures pProfiles_.stack_ == old(pProfiles_.stack_[..|pProfiles_.stack_| - 1])
      ensures pProfiles_.Passed(now)
      ensures forall p :: p in pProfiles_.stack_ ==> p.lastTime_ == old(p.lastTime_)
      ensures lastVal2Stop_ == qty && sumAllVals2Stop_ == (old(sumAllVals2Stop_) + qty) % WORD32
      ensures stopCounts_ == (old(stopCounts_) + 1) % WORD32
    {
      CountStop(qty);
      StopCounted(now);
    }

    method CountStop(qty: nat)
      requires pProfiles_.Consistent()
      modifies this`lastVal2Stop_, this`sumAllVals2Stop_, this`stopCounts_
      ensures pProfiles_.Consistent() && (old(pProfiles_.Running()) ==> pProfiles_.Running())
      ensures lastVal2Stop_ == qty && sumAllVals2Stop_ == (old(sumAllVals2Stop_) + qty) % WORD32
      ensures stopCounts_ == (old(stopCounts_) + 1) % WORD32
    {
      lastVal2Stop_ := qty;
      sumAllVals2Stop_ := (sumAllVals2Stop_ + qty) % WORD32;
      stopCounts_ := (stopCounts_ + 1) % WORD32;
      assert forall p :: p in pProfiles_.all ==> p.Timing() == old(p.Timing());
    }

    method StopCounted(now: nat)
      requires pProfiles_.Consistent() && pProfiles_.stack_ != [] && Top(pProfiles_.stack_) == this && pProfiles_.last <= now
      modifies this, pProfiles_, pProfiles_.stack_
      ensures pProfiles_.Consistent() && pProfiles_.SameProfiles()
      ensures pProfiles_.stack_ == old(pProfiles_.stack_[..|pProfiles_.stack_| - 1])
      ensures pProfiles_.Passed(now)
      ensures forall p :: p in pProfiles_.stack_ ==> p.lastTime_ == old(p.lastTime_)
      ensures lastVal2Stop_ == old(lastVal2Stop_) && sumAllVals2Stop_ == old(sumAllVals2Stop_) && stopCounts_ == old(stopCounts_)
    {
      var profiles := pProfiles_;
      ghost var stack, h, last, was := profiles.stack_, profiles.history, profiles.last, Timings(profiles.all);
      assert AllAgreed(was, h, stack, last);
      StopTimers(now);
      ghost var rest := profiles.stack_;
      assert stack == rest + [this];
      assert rest != [] ==> Top(rest) in profiles.all && Top(rest).Timing().lastInternalTime == now;
      assert AllIn(rest, profiles.all);
      profiles.Pass(stack, now);
      AllStopped(profiles.all, was, this, h, rest, last, now);
    }
  }

  class Profiles {
    var profiles_: seq<Profile>
    var stack_: seq<Profile>
    /** Every profile of this, with a name or without. */
    ghost var all: seq<Profile>
    ghost var history: History
    /** The times of the first and of the last event. */
    ghost var birth: nat
    ghost var last: nat

    ghost predicate Consistent()
      reads this, all
    {
      Records(history, all) && Total(history) == last - birth && AllIn(stack_, all) && birth <= last && Distinct(all)
      && AllAgree(all, history, stack_, last)
      && (forall p :: p in profiles_ ==> p in all)
      && (stack_ != [] ==> Top(stack_).lastInternalTime_ == last)
    }

    /** The first profile of all was started first, and still runs. */
    ghost predicate Running()
      reads this, all, profiles_
    {
      Consistent() && Covers(history, all) && stack_ != [] && profiles_ != [] && stack_[0] == profiles_[0] && profiles_[0].lastTime_ == birth
    }

    constructor (now: nat)
      ensures Running() && last == birth == now && all == profiles_ == stack_ && |stack_| == 1
    {
      profiles_, stack_, all, history, birth, last := [], [], [], Birth, now, now;
      new;
      var pRunningTime := new Profile("RunningTime", this);
      pRunningTime.Start(now);
      assert stack_ == [pRunningTime] && history == After(Birth, [], 0);
      assert Covers(history, all);
    }

    method RunningTime(now: nat) returns (time: int)
      requires Running() && last <= now
      ensures time == Total(history) + (now - last)
    {
      time := now - profiles_[0].lastTime_;
    }

    /** Time passes, with what was on the stack. */
    ghost method Pass(stack: seq<Profile>, now: nat)
      requires last <= now
      modifies this`history, this`last
      ensures last == now && history == After(old(history), stack, now - old(last))
    {
      history := After(history, stack, now - last);
      last := now;
    }

    /** One more segment of history. */
    twostate predicate Passed(now: nat)
      reads this
    {
      last == now && old(last) <= now && birth == old(birth)
      && history == After(old(history), old(stack_), now - old(last))
    }

    twostate predicate SameProfiles()
      reads this
    {
      profiles_ == old(profiles_) && all == old(all)
    }

    /** Only the collection of profiles may have changed. */
    twostate predicate SameRun()
      reads this
    {
      stack_ == old(stack_) && history == old(history) && birth == old(birth) && last == old(last)
    }
  }

  lemma {:induction false} NeverSeen(h: History, stack: seq<Profile>, p: Profile, all: seq<Profile>)
    requires p !in all && AllIn(stack, all) && Records(h, all)
    ensures p !in stack && TopTime(h, p) == 0 && StackTime(h, p) == 0
    decreases h
  {
    if h.After? { NeverSeen(h.past, h.stack, p, all); }
  }

  lemma {:induction false} RecordsMore(h: History, all: seq<Profile>, p: Profile)
    requires Records(h, all)
    ensures Records(h, all + [p]) && (Covers(h, all) ==> Covers(h, all + [p]))
    decreases h
  {
    if h.After? { RecordsMore(h.past, all, p); }
  }

  /** The time counted as internal to ps. */
  ghost function SumInternal(ps: seq<Profile>): int
    reads ps
  {
    if ps == [] then 0 else SumInternal(ps[..|ps| - 1]) + ps[|ps| - 1].sumInternalTime_
  }

  lemma {:induction false} SumInternalIs(profiles: Profiles, ps: seq<Profile>)
    requires profiles.Consistent() && forall p :: p in ps ==> p in profiles.all
    ensures SumInternal(ps) == TopTimes(profiles.history, ps)
    decreases |ps|
  {
    if ps != [] {
      SumInternalIs(profiles, ps[..|ps| - 1]);
      var p := ps[|ps| - 1];
      assert Agrees(p.Timing(), p, profiles.history, profiles.stack_, profiles.last);
    }
  }

  /** No time is lost or counted twice: what is counted as internal to some profile, and what the top of
      the stack has not been credited with yet, make up the running time. */
  lemma TimeConserved(profiles: Profiles, now: nat)
    requires profiles.Running() && profiles.last <= now
    ensures SumInternal(profiles.all) + (now - Top(profiles.stack_).lastInternalTime_)
            == now - profiles.profiles_[0].lastTime_
  {
    SumInternalIs(profiles, profiles.all);
    TopTimesTotal(profiles.history, profiles.all);
  }

  /** A profile is in progress as often as it is on the stack; out of progress, its time is all the time it
      was there, and covers its internal time. */
  lemma Timed(profiles: Profiles, p: Profile)
    requires profiles.Consistent() && p in profiles.all
    ensures p.inProgress_ == Count(profiles.stack_, p) && p.sumInternalTime_ == TopTime(profiles.history, p)
    ensures p.inProgress_ == 0 ==> p.sumTime_ == StackTime(profiles.history, p) && p.sumTime_ >= p.sumInternalTime_
  {
    TimesOrdered(profiles.history, p);
  }

  /** As long as the clock keeps to 64 bits, so do all the times. */
  lemma TimesInRange(profiles: Profiles, p: Profile)
    requires profiles.Consistent() && p in profiles.all && profiles.last < WORD64
    ensures 0 <= p.sumInternalTime_ < WORD64 && 0 <= p.sumTime_ < WORD64
    ensures p in profiles.stack_ ==> p.sumTime_ + (profiles.last - p.lastTime_) < WORD64
  {
    TimesOrdered(profiles.history, p);
  }
}
