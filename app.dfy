/**
  The dashboard's application object and its run loop (`App` in
  src/main.rs): each iteration draws the screen, services at most one input
  event, refreshes the metrics and sleeps, until a quit key has been pressed.

  The loop's outside world is a finite sequence of ticks, one per iteration:
  whether drawing the frame succeeds, what polling for input yields, and the
  process list the metrics provider holds after its refresh. The loop is
  proved to follow `Simulate`, the same loop written over values; the lemmas
  then say how many frames are drawn and when the loop stops.
 */
module Dashboard {
  import opened Rows
  import opened RowSort
  import Input

  /** What one bounded wait for input produced. */
  datatype Poll =
    | NoEvent            // nothing arrived within the wait
    | Ready(event: Input.Event)
    | PollError          // the wait itself failed
    | ReadError          // an event was signalled but could not be read

  /** The outside world's share of one loop iteration. */
  datatype Tick = Tick(drawOk: bool, poll: Poll, snapshot: seq<Process>)

  /**
    How `run` ends: stopped by a quit key (success), a failing draw or input call (an
    error), or the supplied ticks running out while still running.
   */
  datatype Exit = Stopped | DrawFailed | InputFailed | OutOfTicks

  /**
    How a run ended, the snapshot shown by each frame it drew (oldest
    first), and the snapshot held at the end.
   */
  datatype Trace = Trace(exit: Exit, shown: seq<seq<Process>>, processes: seq<Process>)

  /** The process table drawn for a snapshot: one row per process, sorted by memory. */
  function Table(ps: seq<Process>): seq<Row> {
    SortDesc(BuildRows(ps), Key)
  }

  predicate InputFails(p: Poll) {
    p.PollError? || p.ReadError?
  }

  predicate PollQuits(p: Poll) {
    p.Ready? && Input.QuitsOn(p.event)
  }

  /** Whether the loop stops in the iteration that meets `t`. */
  predicate Ends(t: Tick) {
    !t.drawOk || InputFails(t.poll) || PollQuits(t.poll)
  }

  function ExitOf(t: Tick): Exit {
    if !t.drawOk then DrawFailed else if InputFails(t.poll) then InputFailed else Stopped
  }

  /** `run` over values, starting from snapshot `ps`. */
  function Simulate(ps: seq<Process>, ticks: seq<Tick>): Trace
    decreases |ticks|
  {
    if ticks == [] then Trace(OutOfTicks, [], ps)
    else
      var t := ticks[0];
      if !t.drawOk then Trace(DrawFailed, [], ps)
      else if InputFails(t.poll) then Trace(InputFailed, [ps], ps)
      else if PollQuits(t.poll) then Trace(Stopped, [ps], t.snapshot)
      else
        var rest := Simulate(t.snapshot, ticks[1..]);
        Trace(rest.exit, [ps] + rest.shown, rest.processes)
  }

  /** The index of the first tick at which the loop stops, or `|ticks|`. */
  function FirstEnd(ticks: seq<Tick>): (k: nat)
    ensures k <= |ticks|
    ensures forall i :: 0 <= i < k ==> !Ends(ticks[i])
    ensures k < |ticks| ==> Ends(ticks[k])
  {
    if ticks == [] || Ends(ticks[0]) then 0 else 1 + FirstEnd(ticks[1..])
  }

  /** One iteration of `Simulate`, on the ticks from index `i` on. */
  lemma SimulateAt(ps: seq<Process>, ticks: seq<Tick>, i: nat)
    requires i < |ticks|
    ensures var t := ticks[i];
      Simulate(ps, ticks[i..]) ==
        if !t.drawOk then Trace(DrawFailed, [], ps)
        else if InputFails(t.poll) then Trace(InputFailed, [ps], ps)
        else if PollQuits(t.poll) then Trace(Stopped, [ps], t.snapshot)
        else
          var rest := Simulate(t.snapshot, ticks[i + 1..]);
          Trace(rest.exit, [ps] + rest.shown, rest.processes)
  {
    assert ticks[i..][1..] == ticks[i + 1..];
  }

  /** A trace that follows the frames `drawn` already drawn. */
  function After(drawn: seq<seq<Process>>, rest: Trace): Trace {
    Trace(rest.exit, drawn + rest.shown, rest.processes)
  }

  /** The snapshot on screen after `frames` are drawn over a screen showing `d`. */
  function LastFrame(d: seq<Process>, frames: seq<seq<Process>>): seq<Process> {
    if frames == [] then d else frames[|frames| - 1]
  }

  /**
    The remaining run when the ticks are used up: nothing more is drawn,
    and a screen showing `d` keeps showing it.
   */
  lemma AfterNoTicks(drawn: seq<seq<Process>>, d: seq<Process>, ps: seq<Process>, ticks: seq<Tick>)
    ensures After(drawn, Simulate(ps, ticks[|ticks|..])) == Trace(OutOfTicks, drawn, ps)
    ensures LastFrame(d, Simulate(ps, ticks[|ticks|..]).shown) == d
  {
    assert ticks[|ticks|..] == [];
    assert drawn + [] == drawn;
  }

  /** The remaining run when the draw of iteration `i` fails. */
  lemma AfterDrawFails(drawn: seq<seq<Process>>, d: seq<Process>, ps: seq<Process>, ticks: seq<Tick>, i: nat)
    requires i < |ticks| && !ticks[i].drawOk
    ensures After(drawn, Simulate(ps, ticks[i..])) == Trace(DrawFailed, drawn, ps)
    ensures LastFrame(d, Simulate(ps, ticks[i..]).shown) == d
  {
    SimulateAt(ps, ticks, i);
    assert drawn + [] == drawn;
  }

  /**
    The remaining run after the frame of iteration `i` is drawn from `ps`
    over a screen showing `d`.
   */
  lemma AfterDraw(drawn: seq<seq<Process>>, d: seq<Process>, ps: seq<Process>, ticks: seq<Tick>, i: nat)
    requires i < |ticks| && ticks[i].drawOk
    ensures InputFails(ticks[i].poll) ==>
      After(drawn, Simulate(ps, ticks[i..])) == Trace(InputFailed, drawn + [ps], ps) &&
      LastFrame(d, Simulate(ps, ticks[i..]).shown) == ps
    ensures !InputFails(ticks[i].poll) && PollQuits(ticks[i].poll) ==>
      After(drawn, Simulate(ps, ticks[i..])) == Trace(Stopped, drawn + [ps], ticks[i].snapshot) &&
      LastFrame(d, Simulate(ps, ticks[i..]).shown) == ps
    ensures !InputFails(ticks[i].poll) && !PollQuits(ticks[i].poll) ==>
      After(drawn, Simulate(ps, ticks[i..])) ==
        After(drawn + [ps], Simulate(ticks[i].snapshot, ticks[i + 1..])) &&
      LastFrame(d, Simulate(ps, ticks[i..]).shown) ==
        LastFrame(ps, Simulate(ticks[i].snapshot, ticks[i + 1..]).shown)
  {
    SimulateAt(ps, ticks, i);
    var frames := Simulate(ticks[i].snapshot, ticks[i + 1..]).shown;
    if !Ends(ticks[i]) && frames != [] {
      assert ([ps] + frames)[|[ps] + frames| - 1] == frames[|frames| - 1];
    }
  }

  /**
    The loop stops at the first tick that ends it, with that tick's exit,
    having drawn one frame per iteration, the last one unless its draw failed;
    with no such tick it draws once per tick.
   */
  lemma {:induction false} SimulateStopsAtFirstEnd(ps: seq<Process>, ticks: seq<Tick>)
    ensures var r, k := Simulate(ps, ticks), FirstEnd(ticks);
      (k == |ticks| ==> r.exit == OutOfTicks && |r.shown| == |ticks|) &&
      (k < |ticks| ==> r.exit == ExitOf(ticks[k]) &&
                       |r.shown| == if ticks[k].drawOk then k + 1 else k)
    decreases |ticks|
  {
    if ticks != [] && !Ends(ticks[0]) {
      SimulateStopsAtFirstEnd(ticks[0].snapshot, ticks[1..]);
    }
  }

  /**
    The run ends with Stopped exactly when some tick's key press quits, every
    earlier iteration having drawn and read input without stopping.
   */
  lemma QuitIffQuitKeyFirst(ps: seq<Process>, ticks: seq<Tick>)
    ensures Simulate(ps, ticks).exit == Stopped <==>
      exists k :: 0 <= k < |ticks| && ticks[k].drawOk && PollQuits(ticks[k].poll) &&
        forall i :: 0 <= i < k ==> !Ends(ticks[i])
  {
    SimulateStopsAtFirstEnd(ps, ticks);
    var n := FirstEnd(ticks);
    if Simulate(ps, ticks).exit == Stopped {
      assert n < |ticks| && ticks[n].drawOk && PollQuits(ticks[n].poll);
    } else if k :| 0 <= k < |ticks| && ticks[k].drawOk && PollQuits(ticks[k].poll) &&
                 forall i :: 0 <= i < k ==> !Ends(ticks[i]) {
      assert false;
    }
  }

  /** If the first quitting key arrives in iteration k + 1, exactly k + 1 frames are drawn. */
  lemma DrawsUpToQuit(ps: seq<Process>, ticks: seq<Tick>, k: nat)
    requires k < |ticks| && ticks[k].drawOk && PollQuits(ticks[k].poll)
    requires forall i :: 0 <= i < k ==> !Ends(ticks[i])
    ensures Simulate(ps, ticks).exit == Stopped
    ensures |Simulate(ps, ticks).shown| == k + 1
  {
    SimulateStopsAtFirstEnd(ps, ticks);
    var n := FirstEnd(ticks);
    assert Ends(ticks[k]);
    assert n == k;
  }

  /** Without a quitting key or a failure the loop draws once per tick and is still running. */
  lemma DrawsOncePerTick(ps: seq<Process>, ticks: seq<Tick>)
    requires forall i :: 0 <= i < |ticks| ==> !Ends(ticks[i])
    ensures Simulate(ps, ticks).exit == OutOfTicks
    ensures |Simulate(ps, ticks).shown| == |ticks|
  {
    SimulateStopsAtFirstEnd(ps, ticks);
  }

  /**
    Frame i shows the snapshot the loop held then: the initial one for the
    first frame, the one refreshed in iteration i after that.
   */
  lemma {:induction false} FramesShowSnapshots(ps: seq<Process>, ticks: seq<Tick>, i: nat)
    requires i < |Simulate(ps, ticks).shown|
    ensures i <= |ticks|
    ensures Simulate(ps, ticks).shown[i] == if i == 0 then ps else ticks[i - 1].snapshot
    decreases |ticks|
  {
    if i > 0 {
      FramesShowSnapshots(ticks[0].snapshot, ticks[1..], i - 1);
      if i > 1 {
        assert ticks[1..][i - 2] == ticks[i - 1];
      }
    }
  }

  /**
    The table has one row per process, is a permutation of the built rows,
    is sorted by memory key, and keeps input order among equal keys.
   */
  lemma TableSpec(ps: seq<Process>)
    ensures |Table(ps)| == |ps|
    ensures multiset(Table(ps)) == multiset(BuildRows(ps))
    ensures SortedDesc(Table(ps), Key)
    ensures forall k :: WithKey(Table(ps), Key, k) == WithKey(BuildRows(ps), Key, k)
  {
    SortDescPermutation(BuildRows(ps), Key);
    SortDescSorted(BuildRows(ps), Key);
    forall k
      ensures WithKey(Table(ps), Key, k) == WithKey(BuildRows(ps), Key, k)
    {
      SortDescStable(BuildRows(ps), Key, k);
    }
  }

  /**
    Rows ranked 0.0, which include every row whose memory cell does not
    parse, come after all other rows.
   */
  lemma ZeroKeysLast(ps: seq<Process>, i: nat, j: nat)
    requires i < j < |Table(ps)|
    requires Key(Table(ps)[i]) == 0.0
    ensures Key(Table(ps)[j]) == 0.0
  {
    TableSpec(ps);
  }

  /** The memory keys of the three rows of `ThreeProcessExample`: 0.10, 4.88 and 1.95. */
  lemma ThreeRowKeys()
    ensures Key(BuildRow(Process(1, "a", 0, 100))) == 0.10
    ensures Key(BuildRow(Process(2, "b", 0, 5000))) == 4.88
    ensures Key(BuildRow(Process(3, "c", 0, 2000))) == 1.95
  {
    assert MemoryHundredths(100) == 10;
    MemoryCellRoundTrip(10);
    assert MemoryHundredths(5000) == 488;
    MemoryCellRoundTrip(488);
    assert MemoryHundredths(2000) == 195;
    MemoryCellRoundTrip(195);
  }

  /** Processes 1, 2 and 3 with memory 100, 5000 and 2000 are listed as 2, 3, 1. */
  lemma ThreeProcessExample()
    ensures var ps := [Process(1, "a", 0, 100), Process(2, "b", 0, 5000), Process(3, "c", 0, 2000)];
      Table(ps) == [BuildRow(ps[1]), BuildRow(ps[2]), BuildRow(ps[0])]
  {
    var ps := [Process(1, "a", 0, 100), Process(2, "b", 0, 5000), Process(3, "c", 0, 2000)];
    var r1, r2, r3 := BuildRow(ps[0]), BuildRow(ps[1]), BuildRow(ps[2]);
    ThreeRowKeys();
    assert BuildRows(ps) == [r1, r2, r3];
    SortThree(r1, r2, r3, Key);
  }

  /** Builds the rows of `ps` into a vector and sorts it in place, as `render` does. */
  method ProcessTable(ps: seq<Process>) returns (table: seq<Row>)
    ensures table == Table(ps)
    ensures |table| == |ps| && SortedDesc(table, Key)
  {
    var rows := BuildRows(ps);
    var a := new Row[|rows|](i requires 0 <= i < |rows| => rows[i]);
    assert a[..] == rows;
    SortInPlace(a, Key);
    table := a[..];
    TableSpec(ps);
  }

  class App {
    /** Whether the run loop goes on; cleared only by a quit key. */
    var running: bool
    /** The process list the metrics provider holds after its last refresh. */
    var processes: seq<Process>
    /** The process table on the screen, as the last draw left it. */
    var screen: seq<Row>
    /** The snapshot shown by each frame drawn so far, oldest first. */
    ghost var shown: seq<seq<Process>>
    /** The snapshot the table on the screen was built from. */
    ghost var showing: seq<Process>

    /** The screen holds the sorted table of the snapshot it shows. */
    ghost predicate Valid()
      reads this`screen, this`showing
    {
      screen == Table(showing)
    }

    /** `App::new`: running, with the provider's first snapshot. */
    constructor (snapshot: seq<Process>)
      ensures running && processes == snapshot && screen == [] && shown == []
      ensures Valid()
    {
      running := true;
      processes := snapshot;
      screen := [];
      shown := [];
      showing := [];
    }

    method Quit()
      modifies this`running
      ensures !running
    {
      running := false;
    }

    /** A quit key clears `running`; every other key leaves it as it was. */
    method OnKeyEvent(key: Input.KeyEvent)
      modifies this`running
      ensures Input.IsQuitKey(key) ==> !running
      ensures !Input.IsQuitKey(key) ==> running == old(running)
      ensures running ==> old(running)
    {
      match (key.modifiers, key.code)
      case (_, Esc) => Quit();
      case (_, Char('q')) => Quit();
      case (mods, Char(c)) =>
        if mods == Input.CONTROL && (c == 'c' || c == 'C') {
          Quit();
        }
      case _ =>
    }

    /**
      Services the outcome of one bounded wait for input. Only a key press
      reaches the key handler; mouse, resize, focus and paste events and
      key releases or repeats change nothing. A failed wait or read is an error.
     */
    method HandleCrosstermEvents(poll: Poll) returns (ok: bool)
      modifies this`running
      ensures ok <==> !InputFails(poll)
      ensures PollQuits(poll) ==> !running
      ensures !PollQuits(poll) ==> running == old(running)
      ensures running ==> old(running)
    {
      match poll
      case PollError =>
        ok := false;
      case NoEvent =>
        ok := true;
      case ReadError =>
        ok := false;
      case Ready(event) =>
        ok := true;
        match event
        case Key(key) =>
          if key.kind == Input.Press {
            OnKeyEvent(key);
          }
        case Mouse =>
        case Resize(_, _) =>
        case _ =>
    }

    /** Draws the process table of the current snapshot. */
    method Render()
      modifies this`screen, this`showing, this`shown
      ensures screen == Table(processes)
      ensures showing == processes && Valid()
      ensures shown == old(shown) + [processes]
    {
      screen := ProcessTable(processes);
      showing := processes;
      shown := shown + [processes];
    }

    /** The metrics provider's refresh: the next snapshot replaces the current one. */
    method Refresh(snapshot: seq<Process>)
      modifies this`processes
      ensures processes == snapshot
    {
      processes := snapshot;
    }

    /**
      `App::run`: sets `running`, then while it holds draws, services input,
      refreshes and sleeps, one tick per iteration. A failing draw or input
      call ends the run at once with an error.
     */
    method Run(ticks: seq<Tick>) returns (exit: Exit)
      requires Valid()
      modifies this
      ensures var t := Simulate(old(processes), ticks);
        exit == t.exit && shown == old(shown) + t.shown && processes == t.processes
      ensures running <==> exit != Stopped
      ensures Valid()
      ensures showing == LastFrame(old(showing), Simulate(old(processes), ticks).shown)
    {
      running := true;
      exit := Stopped;
      ghost var whole := After(old(shown), Simulate(old(processes), ticks));
      ghost var final := LastFrame(old(showing), Simulate(old(processes), ticks).shown);
      assert ticks[0..] == ticks;
      var i := 0;
      while running
        invariant 0 <= i <= |ticks| && exit == Stopped
        invariant Valid()
        invariant running ==> final == LastFrame(showing, Simulate(processes, ticks[i..]).shown)
        invariant !running ==> final == showing
        invariant running ==> whole == After(shown, Simulate(processes, ticks[i..]))
        invariant !running ==> whole == Trace(Stopped, shown, processes)
        decreases |ticks| - i
      {
        if i == |ticks| {
          AfterNoTicks(shown, showing, processes, ticks);
          exit := OutOfTicks;
          break;
        }
        var tick := ticks[i];
        if !tick.drawOk {
          AfterDrawFails(shown, showing, processes, ticks, i);
          exit := DrawFailed;
          break;
        }
        AfterDraw(shown, showing, processes, ticks, i);
        Render();
        var ok := HandleCrosstermEvents(tick.poll);
        if !ok {
          exit := InputFailed;
          break;
        }
        Refresh(tick.snapshot);
        i := i + 1;
      }
    }
  }
}
