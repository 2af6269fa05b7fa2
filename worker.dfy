/** The background worker: the crash notifier that guards it, and the loop that
    steps once per minute, forwards each failed step's error to the tray and
    stops when the tray no longer receives. */
module Worker {
  import opened Types
  import opened FileSystem
  import opened Scanner
  import opened Collection
  import opened Engine

  /** A tray notice: the UI thread shows a balloon each time it is fired. */
  class Notice {
    var count: nat

    constructor ()
      ensures count == 0
    {
      count := 0;
    }

    method Fire()
      modifies this
      ensures count == old(count) + 1
    {
      count := count + 1;
    }
  }

  /** `CrashNotifier`: an optional handle to the crash notice, fired when the
      notifier is dropped unless it was disabled first. */
  class CrashNotifier {
    var sender: Option<Notice>

    constructor (s: Notice)
      ensures sender == Some(s)
    {
      sender := Some(s);
    }

    /** `disable`: forget the handle, so that dropping fires nothing. */
    method Disable()
      modifies this
      ensures sender == None
    {
      sender := None;
    }

    /** `drop`: fire the crash notice if the handle is still held. */
    method Drop()
      modifies if sender.Some? then {sender.value} else {}
      ensures sender == old(sender)
      ensures sender.Some? ==> sender.value.count == old(sender.value.count) + 1
    {
      if sender.Some? {
        sender.value.Fire();
      }
    }
  }

  /** One iteration of the loop: what the watched directory lists then, and
      whether the tray still holds the receiving end of the error channel. */
  datatype Tick = Tick(listing: Listing, consumerAlive: bool)

  /** How the worker thread ends within the ticks given: still running after the
      last one, out of its loop because the error channel is closed, or unwound
      by a panic. */
  datatype Exit = Running | ConsumerGone | Crashed(reason: PanicReason)

  /** The entries afterwards, the errors delivered to the tray in order, and the exit. */
  datatype Run = Run(nodes: Nodes, sent: seq<IoErrorKind>, exit: Exit)

  /** The worker's loop over a finite sequence of ticks. A step that returns
      `Ok` moves on; one that returns `Err` delivers its error and moves on, or
      leaves the loop if the channel is closed; one that panics ends the thread. */
  function RunEffect(n: Nodes, f: Faults, u: Unrotate, ticks: seq<Tick>): Run
    decreases |ticks|
  {
    if ticks == [] then Run(n, [], Running)
    else
      var e := StepEffect(n, f, u, ticks[0].listing);
      match e.outcome
      case Panicked(reason) => Run(e.nodes, [], Crashed(reason))
      case Returned(Ok(_)) => RunEffect(e.nodes, f, u, ticks[1..])
      case Returned(Err(k)) =>
        if !ticks[0].consumerAlive then Run(e.nodes, [], ConsumerGone)
        else
          var rest := RunEffect(e.nodes, f, u, ticks[1..]);
          Run(rest.nodes, [k] + rest.sent, rest.exit)
  }

  /** The run over `ticks` in terms of the first step's effect `e` and the run
      over the remaining ticks. */
  lemma RunAfterStep(n: Nodes, f: Faults, u: Unrotate, ticks: seq<Tick>, e: Effect)
    requires ticks != [] && e == StepEffect(n, f, u, ticks[0].listing)
    ensures var rest := RunEffect(e.nodes, f, u, ticks[1..]);
      RunEffect(n, f, u, ticks) ==
        if e.outcome.Panicked? then Run(e.nodes, [], Crashed(e.outcome.reason))
        else if e.outcome.result.Ok? then rest
        else if !ticks[0].consumerAlive then Run(e.nodes, [], ConsumerGone)
        else Run(rest.nodes, [e.outcome.result.error] + rest.sent, rest.exit)
  {
  }

  /** The run `rest`, with the errors `sent` already delivered in front of its own. */
  function Continue(sent: seq<IoErrorKind>, rest: Run): Run {
    Run(rest.nodes, sent + rest.sent, rest.exit)
  }

  /** The body of the thread spawned by `SystemTray::init`, run for the given
      ticks. `errorNotice` and `crash`'s notice are the tray's two notices. */
  method Work(disk: Disk, u: Unrotate, ticks: seq<Tick>, crash: CrashNotifier, crashNotice: Notice, errorNotice: Notice)
    returns (sent: seq<IoErrorKind>, exit: Exit)
    requires crash.sender == Some(crashNotice) && crashNotice != errorNotice
    modifies disk, crash, crashNotice, errorNotice
    ensures Run(disk.nodes, sent, exit) == RunEffect(old(disk.nodes), disk.faults, u, ticks)
    ensures errorNotice.count == old(errorNotice.count) + |sent|
    ensures crashNotice.count == old(crashNotice.count) + (if exit.Crashed? then 1 else 0)
    ensures crash.sender == if exit == ConsumerGone then None else Some(crashNotice)
  {
    sent := [];
    var i := 0;
    var gone := false;
    assert ticks[0..] == ticks;
    assert Continue([], RunEffect(disk.nodes, disk.faults, u, ticks)) == RunEffect(disk.nodes, disk.faults, u, ticks);
    while i < |ticks|
      invariant i <= |ticks|
      invariant crash.sender == Some(crashNotice)
      invariant errorNotice.count == old(errorNotice.count) + |sent|
      invariant crashNotice.count == old(crashNotice.count)
      invariant Continue(sent, RunEffect(disk.nodes, disk.faults, u, ticks[i..]))
        == RunEffect(old(disk.nodes), disk.faults, u, ticks)
    {
      ghost var before := disk.nodes;
      var r := Step(disk, u, ticks[i].listing);
      assert ticks[i..][0] == ticks[i] && ticks[i..][1..] == ticks[i + 1..];
      RunAfterStep(before, disk.faults, u, ticks[i..], Effect(r, disk.nodes));
      ghost var rest := RunEffect(disk.nodes, disk.faults, u, ticks[i + 1..]);
      if r.Panicked? {
        crash.Drop();
        exit := Crashed(r.reason);
        assert sent + [] == sent;
        return;
      }
      if r.result.Err? {
        if !ticks[i].consumerAlive {
          gone := true;
          assert sent + [] == sent;
          break;
        }
        assert (sent + [r.result.error]) + rest.sent == sent + ([r.result.error] + rest.sent);
        sent := sent + [r.result.error];
        errorNotice.Fire();
      }
      i := i + 1;
    }
    if gone {
      crash.Disable();
      crash.Drop();
      exit := ConsumerGone;
    } else {
      exit := Running;
    }
  }

  /** `SystemTray::init`: arm the crash notifier, build the `Unrotate` (a missing
      LocalLow folder makes the `unwrap` panic, and the armed notifier fires as
      it is dropped), then run the worker. */
  method Init(disk: Disk, locallow: Option<Path>, ticks: seq<Tick>, crashNotice: Notice, errorNotice: Notice)
    returns (u: Option<Unrotate>, sent: seq<IoErrorKind>, exit: Exit)
    requires crashNotice != errorNotice
    modifies disk, crashNotice, errorNotice
    ensures u == New(locallow)
    ensures u.None? ==> exit == Crashed(NoLocalLow) && sent == [] && disk.nodes == old(disk.nodes)
    ensures u.Some? ==> Run(disk.nodes, sent, exit) == RunEffect(old(disk.nodes), disk.faults, u.value, ticks)
    ensures errorNotice.count == old(errorNotice.count) + |sent|
    ensures crashNotice.count == old(crashNotice.count) + (if exit.Crashed? then 1 else 0)
  {
    var crash := new CrashNotifier(crashNotice);
    u := New(locallow);
    if u.None? {
      crash.Drop();
      return None, [], Crashed(NoLocalLow);
    }
    sent, exit := Work(disk, u.value, ticks, crash, crashNotice, errorNotice);
  }

  /** While the tray keeps receiving, the loop is never left: the thread runs on
      or crashes. */
  lemma {:induction false} AliveConsumerNeverStops(n: Nodes, f: Faults, u: Unrotate, ticks: seq<Tick>)
    requires forall i :: 0 <= i < |ticks| ==> ticks[i].consumerAlive
    ensures RunEffect(n, f, u, ticks).exit != ConsumerGone
    decreases |ticks|
  {
    if ticks != [] {
      var e := StepEffect(n, f, u, ticks[0].listing);
      assert ticks[0].consumerAlive;
      assert forall i :: 0 <= i < |ticks[1..]| ==> ticks[1..][i] == ticks[i + 1];
      AliveConsumerNeverStops(e.nodes, f, u, ticks[1..]);
    }
  }

  /** The worker only ever adds entries. */
  lemma {:induction false} RunAdditive(n: Nodes, f: Faults, u: Unrotate, ticks: seq<Tick>)
    ensures Extends(n, RunEffect(n, f, u, ticks).nodes)
    decreases |ticks|
  {
    if ticks != [] {
      var e := StepEffect(n, f, u, ticks[0].listing);
      StepAdditive(n, f, u, ticks[0].listing);
      RunAdditive(e.nodes, f, u, ticks[1..]);
    }
  }

  /** One error is delivered per failed step at most, so never more than one per tick. */
  lemma {:induction false} SentAtMostOnePerTick(n: Nodes, f: Faults, u: Unrotate, ticks: seq<Tick>)
    ensures |RunEffect(n, f, u, ticks).sent| <= |ticks|
    decreases |ticks|
  {
    if ticks != [] {
      var e := StepEffect(n, f, u, ticks[0].listing);
      SentAtMostOnePerTick(e.nodes, f, u, ticks[1..]);
    }
  }

  /** Once a step over a listing has succeeded, further ticks with the same
      listing keep the worker running, deliver nothing and change nothing. */
  lemma {:induction false} SteadyState(n: Nodes, f: Faults, u: Unrotate, listing: Listing, ticks: seq<Tick>)
    requires StepEffect(n, f, u, listing).outcome == Returned(Ok(()))
    requires forall i :: 0 <= i < |ticks| ==> ticks[i].listing == listing
    ensures var m := StepEffect(n, f, u, listing).nodes;
      RunEffect(m, f, u, ticks) == Run(m, [], Running)
    decreases |ticks|
  {
    var m := StepEffect(n, f, u, listing).nodes;
    StepIdempotent(n, f, u, listing);
    if ticks != [] {
      assert ticks[0].listing == listing;
      assert forall i :: 0 <= i < |ticks[1..]| ==> ticks[1..][i] == ticks[i + 1];
      SteadyState(m, f, u, listing, ticks[1..]);
    }
  }
}
