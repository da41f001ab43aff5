/**
 How the variant worker is woken: handlers kick it in two steps, a flag under the
 mutex and then a token into a channel of capacity 1, while its loop takes tokens
 and ticks and drains the table. No kick is lost, and idle means that every kick
 has been answered by a drain that started after it.
 */
module Wakeup {

  datatype Loop = Off | Selecting | Woken | Draining

  datatype State = State(
    busy: bool,
    kicked: bool,
    stopped: bool,
    wake: bool,            // the channel holds a token
    loop: Loop,
    kickers: set<nat>,     // kicks that have set the flag and not yet tried the channel
    begun: set<nat>,       // history: kicks that have set the flag
    current: set<nat>,     // history: those before the latest drain started
    served: set<nat>)      // history: those that a drain started after them has finished for

  const INITIAL := State(false, false, false, false, Off, {}, {}, {}, {})

  datatype Step =
    | SetFlag(k: nat)
    | PushToken(k: nat)
    | EnterRun
    | TakeToken
    | Tick
    | StartDrain
    | FinishDrain
    | LeaveRun             // ctx.Done

  predicate Enabled(s: State, e: Step) {
    match e
    case SetFlag(k) => k !in s.begun
    case PushToken(k) => k in s.kickers
    case EnterRun => s.loop.Off?
    case TakeToken => s.loop.Selecting? && s.wake
    case Tick => s.loop.Selecting?
    case StartDrain => s.loop.Woken?
    case FinishDrain => s.loop.Draining?
    case LeaveRun => s.loop.Selecting?
  }

  function Apply(s: State, e: Step): State
    requires Enabled(s, e)
  {
    match e
    case SetFlag(k) => s.(kicked := true, kickers := s.kickers + {k}, begun := s.begun + {k})
    case PushToken(k) => s.(wake := true, kickers := s.kickers - {k})
    case EnterRun => s.(stopped := false, loop := Selecting)
    case TakeToken => s.(wake := false, loop := Woken)
    case Tick => s.(loop := Woken)
    case StartDrain => s.(kicked := false, busy := true, loop := Draining, current := s.begun)
    case FinishDrain => s.(busy := false, loop := Selecting, served := s.served + s.current)
    case LeaveRun => s.(stopped := true, loop := Off)
  }

  predicate CanRun(s: State, es: seq<Step>)
    decreases |es|
  {
    es == [] || (Enabled(s, es[0]) && CanRun(Apply(s, es[0]), es[1..]))
  }

  function After(s: State, es: seq<Step>): State
    requires CanRun(s, es)
    decreases |es|
  {
    if es == [] then s else After(Apply(s, es[0]), es[1..])
  }

  predicate Idle(s: State) {
    !s.busy && !s.kicked && !s.wake
  }

  /** A set flag has something behind it that will start a drain. */
  predicate NothingLost(s: State) {
    s.kicked ==> s.wake || s.kickers != {} || s.loop.Woken?
  }

  /** What the flags say about the drains. */
  predicate Accounted(s: State) {
    && (s.busy <==> s.loop.Draining?)
    && (!s.kicked ==> s.begun <= s.served + s.current)
    && (!s.busy ==> s.current <= s.served)
    && s.served <= s.begun && s.current <= s.begun && s.kickers <= s.begun
  }

  predicate Inv(s: State) {
    NothingLost(s) && Accounted(s)
  }

  lemma {:induction false} RunKeeps(s: State, es: seq<Step>)
    requires Inv(s) && CanRun(s, es)
    ensures Inv(After(s, es))
    decreases |es|
  {
    if es != [] {
      if es[0].PushToken? { assert Apply(s, es[0]).wake; }
      RunKeeps(Apply(s, es[0]), es[1..]);
    }
  }

  /** When the loop is waiting and no kick is half done, a set flag means a token to take. */
  lemma NoLostWakeUp(es: seq<Step>)
    requires CanRun(INITIAL, es)
    ensures NothingLost(After(INITIAL, es))
    ensures var s := After(INITIAL, es); s.kicked && s.kickers == {} && s.loop.Selecting? ==> Enabled(s, TakeToken)
  {
    RunKeeps(INITIAL, es);
  }

  /**
   What idle means: every kick begun has a finished drain that started after it.
   The two flags say so by themselves, whatever the channel holds.
   */
  lemma IdleMeansServed(es: seq<Step>)
    requires CanRun(INITIAL, es) && var s := After(INITIAL, es); !s.busy && !s.kicked
    ensures After(INITIAL, es).served == After(INITIAL, es).begun
  {
    RunKeeps(INITIAL, es);
  }

  /** Neither flag says so without the other. */
  lemma BothFlagsAreNeeded()
    ensures exists es :: CanRun(INITIAL, es) && var s := After(INITIAL, es);
              !s.busy && !s.wake && 0 in s.begun - s.served
    ensures exists es :: CanRun(INITIAL, es) && var s := After(INITIAL, es);
              !s.kicked && !s.wake && 0 in s.begun - s.served
  {
    Flagged();
    Started();
  }

  lemma Flagged()
    ensures CanRun(INITIAL, [SetFlag(0)]) && After(INITIAL, [SetFlag(0)]) == State(false, true, false, false, Off, {0}, {0}, {}, {})
  {
    var es := [SetFlag(0)];
    assert es[1..] == [] && {} + {0} == {0};
  }

  lemma Started()
    ensures exists es :: CanRun(INITIAL, es) && After(INITIAL, es) == State(true, false, false, false, Draining, {}, {0}, {0}, {})
  {
    var es := [SetFlag(0), PushToken(0), EnterRun, TakeToken, StartDrain];
    assert es[1..] == [PushToken(0), EnterRun, TakeToken, StartDrain];
    assert es[1..][1..] == [EnterRun, TakeToken, StartDrain];
    assert es[1..][1..][1..] == [TakeToken, StartDrain];
    assert es[1..][1..][1..][1..] == [StartDrain];
    assert es[1..][1..][1..][1..][1..] == [];
    var s1 := Apply(INITIAL, SetFlag(0));
    var s2 := Apply(s1, PushToken(0));
    var s3 := Apply(s2, EnterRun);
    var s4 := Apply(s3, TakeToken);
    assert CanRun(s4, [StartDrain]);
    assert CanRun(s3, es[1..][1..][1..]);
    assert CanRun(s2, es[1..][1..]);
    assert CanRun(s1, es[1..]);
    assert CanRun(INITIAL, es);
    assert After(INITIAL, es) == After(s2, es[1..][1..]) == After(s4, [StartDrain]);
    assert s1.kickers - {0} == {} && {} + {0} == {0};
  }

  // ----- the same, as the code has it -----

  datatype Process = KickOf(k: nat) | RunLoop

  predicate Involves(who: Process, e: Step) {
    match who
    case KickOf(k) => e == SetFlag(k) || e == PushToken(k)
    case RunLoop => !e.SetFlag? && !e.PushToken?
  }

  ghost predicate RunsTo(s: State, es: seq<Step>, t: State) {
    CanRun(s, es) && After(s, es) == t
  }

  ghost predicate Leads(s: State, t: State) {
    exists es :: RunsTo(s, es, t)
  }

  ghost predicate RunsWithout(who: Process, s: State, es: seq<Step>, t: State) {
    RunsTo(s, es, t) && forall e :: e in es ==> !Involves(who, e)
  }

  ghost predicate Interferes(who: Process, s: State, t: State) {
    exists es :: RunsWithout(who, s, es, t)
  }

  ghost predicate SameControl(who: Process, s: State, t: State) {
    s.begun <= t.begun && s.served <= t.served &&
    match who
    case KickOf(k) => (k in s.begun <==> k in t.begun) && (k in s.kickers <==> k in t.kickers)
    case RunLoop => t.loop == s.loop && t.current == s.current && (s.wake ==> t.wake) && t.stopped == s.stopped
  }

  lemma {:induction false} RunAppend(s: State, es: seq<Step>, t: State, fs: seq<Step>, u: State)
    requires RunsTo(s, es, t) && RunsTo(t, fs, u)
    ensures RunsTo(s, es + fs, u)
    decreases |es|
  {
    if es == [] {
      assert es + fs == fs;
    } else {
      RunAppend(Apply(s, es[0]), es[1..], t, fs, u);
      assert (es + fs)[1..] == es[1..] + fs;
    }
  }

  lemma LeadsOn(s: State, t: State, u: State)
    requires Leads(s, t) && Leads(t, u)
    ensures Leads(s, u)
  {
    var es :| RunsTo(s, es, t);
    var fs :| RunsTo(t, fs, u);
    RunAppend(s, es, t, fs, u);
  }

  lemma LeadsKeeps(s: State, t: State)
    requires Leads(s, t) && Inv(s)
    ensures Inv(t)
  {
    var es :| RunsTo(s, es, t);
    RunKeeps(s, es);
  }

  lemma {:induction false} ControlKept(who: Process, s: State, es: seq<Step>, t: State)
    requires RunsWithout(who, s, es, t)
    ensures SameControl(who, s, t)
    decreases |es|
  {
    if es != [] {
      assert es[0] in es;
      assert forall e :: e in es[1..] ==> e in es;
      ControlKept(who, Apply(s, es[0]), es[1..], t);
    }
  }

  /** After the others have run. */
  lemma Resume(who: Process, s: State, t: State, u: State)
    requires Leads(s, t) && Interferes(who, t, u)
    ensures Leads(s, u) && SameControl(who, t, u)
  {
    var es :| RunsWithout(who, t, es, u);
    assert RunsTo(t, es, u);
    LeadsOn(s, t, u);
    ControlKept(who, t, es, u);
  }

  /** After a step of one's own. */
  lemma Proceed(s: State, t: State, e: Step, u: State)
    requires Leads(s, t) && Enabled(t, e) && Apply(t, e) == u
    ensures Leads(s, u)
  {
    assert CanRun(u, []) && After(u, []) == u;
    assert After(t, [e]) == After(Apply(t, e), [e][1..]);
    assert RunsTo(t, [e], u);
    LeadsOn(s, t, u);
  }

  lemma LeadsNowhere(s: State)
    ensures Leads(s, s)
  {
    assert RunsTo(s, [], s);
  }

  class VariantWorker {
    var wake: bool
    var busy: bool
    var kicked: bool
    var stopped: bool
    ghost var loop: Loop
    ghost var kickers: set<nat>
    ghost var begun: set<nat>
    ghost var current: set<nat>
    ghost var served: set<nat>

    ghost function Now(): State
      reads this
    {
      State(busy, kicked, stopped, wake, loop, kickers, begun, current, served)
    }

    /** newVariantWorker: kicks for what was pending when the process last stopped. */
    constructor ()
      ensures Leads(INITIAL, Now()) && kicked && wake && begun == {0} && loop == Off
    {
      wake, busy, kicked, stopped, loop := true, false, true, false, Off;
      kickers, begun, current, served := {}, {0}, {}, {};
      new;
      LeadsNowhere(INITIAL);
      ghost var s := Apply(INITIAL, SetFlag(0));
      Proceed(INITIAL, INITIAL, SetFlag(0), s);
      assert {} + {0} == {0} && {0} - {0} == {};
      Proceed(INITIAL, s, PushToken(0), Now());
    }

    method Others(ghost who: Process)
      modifies this
      ensures Interferes(who, old(Now()), Now())
    {
      assert RunsWithout(who, Now(), [], Now());
    }

    /** kick, by the handler that calls itself k. It tells whether the worker had stopped when the flag was set. */
    method Kick(ghost k: nat) returns (warn: bool)
      requires k !in begun
      modifies this
      ensures Leads(old(Now()), Now()) && k in begun && k !in kickers && warn == old(stopped)
    {
      ghost var s0 := Now();
      LeadsNowhere(s0);
      kicked := true;
      warn := stopped;
      kickers, begun := kickers + {k}, begun + {k};
      Proceed(s0, s0, SetFlag(k), Now());
      ghost var s1 := Now();
      Others(KickOf(k));
      Resume(KickOf(k), s0, s1, Now());
      ghost var s2 := Now();
      wake := true;
      kickers := kickers - {k};
      Proceed(s0, s2, PushToken(k), Now());
    }

    /** idle. */
    method IsIdle() returns (idle: bool)
      requires Leads(INITIAL, Now())
      ensures idle <==> Idle(Now())
      ensures idle ==> served == begun
    {
      LeadsNowhere(INITIAL);
      LeadsKeeps(INITIAL, Now());
      idle := !busy && !kicked && !wake;
    }

    /** From a taken token or a tick to the end of the drain. */
    method Serve()
      requires loop == Woken
      modifies this
      ensures Leads(old(Now()), Now()) && loop == Selecting && old(begun) <= served && stopped == old(stopped)
    {
      ghost var s0 := Now();
      LeadsNowhere(s0);
      Others(RunLoop);
      Resume(RunLoop, s0, s0, Now());
      ghost var s1 := Now();
      kicked, busy := false, true;
      loop, current := Draining, begun;
      Proceed(s0, s1, StartDrain, Now());
      ghost var s2 := Now();
      Others(RunLoop);                 // and drain
      Resume(RunLoop, s0, s2, Now());
      ghost var s3 := Now();
      busy := false;
      loop, served := Selecting, served + current;
      Proceed(s0, s3, FinishDrain, Now());
    }

    /**
     run, until ctx is done, here after at most the given number of wake-ups. Each
     round serves every kick begun before it.
     */
    method Run(rounds: nat)
      requires loop == Off
      modifies this
      ensures Leads(old(Now()), Now()) && loop == Off && stopped
    {
      ghost var s0 := Now();
      LeadsNowhere(s0);
      stopped, loop := false, Selecting;
      Proceed(s0, s0, EnterRun, Now());
      var left := rounds;
      while left > 0
        invariant Leads(s0, Now()) && loop == Selecting
      {
        ghost var s1 := Now();
        Others(RunLoop);
        Resume(RunLoop, s0, s1, Now());
        ghost var s2 := Now();
        var ticked: bool := *;
        if wake && !ticked {
          wake, loop := false, Woken;
          Proceed(s0, s2, TakeToken, Now());
        } else {
          loop := Woken;
          Proceed(s0, s2, Tick, Now());
        }
        ghost var s3 := Now();
        Serve();
        LeadsOn(s0, s3, Now());
        left := left - 1;
      }
      ghost var s4 := Now();
      stopped, loop := true, Off;
      Proceed(s0, s4, LeaveRun, Now());
    }
  }
}
