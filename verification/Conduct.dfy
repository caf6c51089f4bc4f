/**
 * Runs as the code and its paths make them: the clock never goes back, a path hands over its frames once and
 * in order, and an acknowledgement is sent when one is due. System allows far more.
 */
module Conduct {
  import opened Base
  import opened Sender
  import opened System
  import opened SystemSteps
  import opened SystemTheorems
  import opened AckRule

  /** Microseconds since the stream was made (stream.go:326-332). */
  function Stamp(base: int, now: int): nat {
    if now < base then 0 else (now - base) / 1000
  }

  /** The clock, the DATA frames that have arrived, and what the receiver owes. */
  datatype Ctx = Ctx(base: int, clock: int, arrived: set<DataFrame>, due: Due)

  /** When the step happens; for a ping reply, one that a ping sent after everything before can bring. */
  function ClockAfter(c: Ctx, step: Step): int {
    match step
    case Send(now, _) => now
    case DeliverAck(_, _, now, _) => now
    case Tick(now, _) => now
    case Attach(_, now) => now
    case Telemetry(_, _, now) => now
    case PingReply(_, r, echoTs) => Max(c.clock, c.base + 1000 * echoTs + r)
    case _ => c.clock
  }

  /** Everything sent on the path of f before it has arrived, and f has not. */
  ghost predicate InOrder(c: Ctx, s: Sys, f: DataFrame) {
    && f in s.net && f !in c.arrived
    && forall g :: g in s.net && g.path == f.path && g.ts < f.ts ==> g in c.arrived
  }

  ghost predicate Allowed(c: Ctx, s: Sys, step: Step) {
    && ClockAfter(c, step) >= c.clock
    && match step
       case Send(now, ts) => ts == Stamp(c.base, now) && forall f :: f in s.net ==> f.ts < ts
       case DeliverAck(a, via, now, nowTs) => a in s.acks && via in s.snd.live && nowTs == Stamp(c.base, now)
       case Tick(now, ts) => ts == Stamp(c.base, now)
       case PingReply(p, r, echoTs) => p in s.snd.live && r >= 0 && echoTs >= Stamp(c.base, c.clock)
       case DeliverData(f) => InOrder(c, s, f)
       case EmitAck => c.due.pending
       case _ => true
  }

  function After(c: Ctx, s: Sys, step: Step): Ctx {
    Ctx(c.base, ClockAfter(c, step), c.arrived + (if step.DeliverData? then {step.f} else {}), DueAfter(c.due, s, step))
  }

  /** Where the steps lead; None if one is not allowed. */
  ghost function Go(c: Ctx, s: Sys, steps: seq<Step>): Option<(Ctx, Sys)>
    decreases |steps|
  {
    if steps == [] then Some((c, s))
    else if !SenderReady(s.snd) || !Allowed(c, s, steps[0]) then None
    else match Next(s, steps[0])
      case None => None
      case Some(t) => Go(After(c, s, steps[0]), t, steps[1..])
  }

  /** At the start nothing has arrived, and the first acknowledgement is owed. */
  function Start(now: int): Ctx {
    Ctx(now, now, {}, AT_START)
  }

  lemma {:induction false} GoConcat(c: Ctx, s: Sys, a: seq<Step>, b: seq<Step>)
    requires Go(c, s, a).Some?
    ensures var (d, t) := Go(c, s, a).value; Go(c, s, a + b) == Go(d, t, b)
    decreases |a|
  {
    if a == [] {
      assert a + b == b;
    } else {
      assert (a + b)[1..] == a[1..] + b;
      GoConcat(After(c, s, a[0]), Next(s, a[0]).value, a[1..], b);
    }
  }

  lemma GoOne(c: Ctx, s: Sys, step: Step, t: Sys)
    requires SenderReady(s.snd) && Allowed(c, s, step) && Next(s, step) == Some(t)
    ensures Go(c, s, [step]) == Some((After(c, s, step), t))
  {
    assert [step][1..] == [];
  }

  /** The joint invariant, and that of what is owed. */
  ghost predicate Sound(c: Ctx, s: Sys) {
    SysInv(s) && DueInv(c.due, s) && c.arrived <= s.net
  }

  lemma SoundStep(c: Ctx, s: Sys, step: Step, t: Sys)
    requires Sound(c, s) && SenderReady(s.snd) && Allowed(c, s, step) && Next(s, step) == Some(t) && s.net <= t.net
    ensures Go(c, s, [step]) == Some((After(c, s, step), t)) && Sound(After(c, s, step), t)
  {
    StepKeepsInv(s, step);
    StepKeepsDue(c.due, s, step);
    GoOne(c, s, step, t);
  }

  lemma StartIsSound(cap: nat, now: int)
    ensures Sound(Start(now), Initial(cap, now))
  {
    InitialInv(cap, now);
    Combine(Start(now), Initial(cap, now));
  }

  lemma Combine(c: Ctx, s: Sys)
    requires SysInv(s) && DueInv(c.due, s) && c.arrived <= s.net
    ensures Sound(c, s)
  {
  }

  lemma {:induction false} GoKeepsSound(c: Ctx, s: Sys, steps: seq<Step>)
    requires Sound(c, s) && Go(c, s, steps).Some?
    ensures var (d, t) := Go(c, s, steps).value; Sound(d, t)
    decreases |steps|
  {
    if steps != [] {
      var t := Next(s, steps[0]).value;
      StepIsForward(s, steps[0]);
      SoundStep(c, s, steps[0], t);
      GoKeepsSound(After(c, s, steps[0]), t, steps[1..]);
    }
  }

  /** Such runs are runs of System, with the same account of what is owed. */
  lemma {:induction false} GoesAsRun(c: Ctx, s: Sys, steps: seq<Step>)
    requires Go(c, s, steps).Some?
    ensures RunFrom(s, steps) == Some(Go(c, s, steps).value.1)
    ensures Go(c, s, steps).value.0.due == DueIn(c.due, s, steps)
    decreases |steps|
  {
    if steps != [] {
      GoesAsRun(After(c, s, steps[0]), Next(s, steps[0]).value, steps[1..]);
    }
  }
}
