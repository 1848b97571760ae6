/**
 * backend/main.py `loadtest_status` and `stop_loadtest`: the live figures
 * picked from the last line of the statistics history that the external
 * `locust` process writes, and the global flags that decide whether a load
 * test can be stopped. Writing the locustfile, running the tool and reading
 * its files are not modelled: the lines of the history file are an input.
 */
module LoadTest {
  import opened Wrappers
  import opened Text

  /** The figures `loadtest_status` returns, as the text of the CSV fields. */
  datatype LoadStatus = LoadStatus(
    requestsPerSecond: string,
    avgResponseTime: string,
    minResponseTime: string,
    maxResponseTime: string,
    failures: string,
    totalRequests: string)

  /**
   * The status for the lines of the history file (`None` when it cannot be
   * opened); `None` stands for the empty dictionary, returned when there is
   * no data line after the header or the last line has fewer than eight
   * fields, whose `IndexError` is swallowed.
   */
  function Status(file: Option<seq<string>>): (r: Option<LoadStatus>)
    ensures r.Some? <==> file.Some? && |file.value| > 1 && |Split(Strip(file.value[|file.value| - 1]), ',')| >= 8
  {
    match file
    case None => None
    case Some(lines) =>
      if |lines| <= 1 then None
      else
        var last := Split(Strip(lines[|lines| - 1]), ',');
        if |last| < 8 then None
        else Some(LoadStatus(last[2], last[5], last[6], last[7], last[4], last[1]))
  }

  /**
   * A history whose last row is written as comma-separated fields without
   * whitespace and ends with a newline reports fields 2, 5, 6, 7, 4 and 1 of
   * that row.
   */
  lemma StatusOfWrittenRow(header: seq<string>, fields: seq<string>)
    requires |header| >= 1 && |fields| >= 8
    requires forall i :: 0 <= i < |fields| ==> ',' !in fields[i]
    requires forall i, j :: 0 <= i < |fields| && 0 <= j < |fields[i]| ==> !IsSpace(fields[i][j])
    ensures Status(Some(header + [Join(fields, ',') + "\n"]))
         == Some(LoadStatus(fields[2], fields[5], fields[6], fields[7], fields[4], fields[1]))
  {
    var row := Join(fields, ',');
    var lines := header + [row + "\n"];
    assert lines[|lines| - 1] == row + "\n";
    JoinNoSpace(fields, ',');
    StripNewline(row);
    SplitJoin(fields, ',');
  }

  /** A history holding only its header, or nothing at all, reports nothing. */
  lemma StatusWithoutData(lines: seq<string>)
    requires |lines| <= 1
    ensures Status(Some(lines)) == None && Status(None) == None
  {
  }

  /**
   * The load-test globals: whether `loadtest_process` holds a process, the
   * `loadtest_running` flag, and which `locust` processes are alive. The
   * tracked process is the one in `loadtest_process`; the untracked ones were
   * started but are referenced by nothing, or only by a run of `run_locust`
   * that is still waiting on them.
   *
   * `run_locust` is a background task, so the steps of two runs and a
   * `stop_loadtest` can interleave: each line of `run_locust` is a method of
   * its own (`SpawnStray`, `RaiseFlag`, `SpawnTracked`, and `TrackedExited`
   * or `EarlierRunExited` for the end of its `wait()`).
   */
  class LoadTestControl {
    var hasProcess: bool
    var running: bool
    var trackedAlive: bool
    var untrackedAlive: nat

    /** A live tracked process is held in `loadtest_process`. */
    predicate Valid()
      reads this
    {
      trackedAlive ==> hasProcess
    }

    /** The number of `locust` processes still running. */
    function LiveProcesses(): (n: nat)
      reads this
      ensures n == untrackedAlive + (if trackedAlive then 1 else 0)
    {
      untrackedAlive + if trackedAlive then 1 else 0
    }

    constructor ()
      ensures Valid() && !hasProcess && !running && LiveProcesses() == 0
    {
      hasProcess, running, trackedAlive, untrackedAlive := false, false, false, 0;
    }

    /** Line 705: a `locust` is started and its handle dropped. */
    method SpawnStray()
      requires Valid()
      modifies this
      ensures Valid() && untrackedAlive == old(untrackedAlive) + 1
      ensures hasProcess == old(hasProcess) && running == old(running) && trackedAlive == old(trackedAlive)
    {
      untrackedAlive := untrackedAlive + 1;
    }

    /** Line 708: the flag is set, before any process of this run is tracked. */
    method RaiseFlag()
      requires Valid()
      modifies this
      ensures Valid() && running
      ensures hasProcess == old(hasProcess) && trackedAlive == old(trackedAlive) && untrackedAlive == old(untrackedAlive)
    {
      running := true;
    }

    /**
     * Line 709: a new `locust` becomes the tracked process. A tracked process
     * of an earlier run that is still alive loses its handle. The flag is
     * left as it is.
     */
    method SpawnTracked()
      requires Valid()
      modifies this
      ensures Valid() && hasProcess && trackedAlive && running == old(running)
      ensures untrackedAlive == old(untrackedAlive) + (if old(trackedAlive) then 1 else 0)
      ensures LiveProcesses() == old(LiveProcesses()) + 1
    {
      if trackedAlive {
        untrackedAlive := untrackedAlive + 1;
      }
      hasProcess := true;
      trackedAlive := true;
    }

    /**
     * `run_locust` up to `wait()`, as written and with no other run or stop
     * in between: it starts one `locust` it keeps no handle to, then sets
     * the flag and starts the tracked one.
     */
    method StartAsWritten()
      requires Valid()
      modifies this
      ensures Valid() && hasProcess && running && trackedAlive
      ensures untrackedAlive == old(untrackedAlive) + 1 + (if old(trackedAlive) then 1 else 0)
      ensures LiveProcesses() == old(LiveProcesses()) + 2
    {
      SpawnStray();
      RaiseFlag();
      SpawnTracked();
    }

    /** `run_locust` up to `wait()` with the stray `Popen` removed: one process, and it is tracked. */
    method Start()
      requires Valid()
      modifies this
      ensures Valid() && hasProcess && running && trackedAlive
      ensures untrackedAlive == old(untrackedAlive) + (if old(trackedAlive) then 1 else 0)
      ensures LiveProcesses() == old(LiveProcesses()) + 1
    {
      RaiseFlag();
      SpawnTracked();
    }

    /**
     * Lines 710-711 for the run whose process is the tracked one: `wait()`
     * returns once that process has ended, and the flag is cleared.
     */
    method TrackedExited()
      requires Valid()
      modifies this
      ensures Valid() && !running && !trackedAlive
      ensures hasProcess == old(hasProcess) && untrackedAlive == old(untrackedAlive)
    {
      trackedAlive := false;
      running := false;
    }

    /**
     * Lines 710-711 for an earlier run whose process has lost its handle to
     * a later run's: that untracked process ends and the flag is cleared,
     * whatever the tracked process is doing.
     */
    method EarlierRunExited()
      requires Valid() && untrackedAlive >= 1
      modifies this
      ensures Valid() && !running && untrackedAlive == old(untrackedAlive) - 1
      ensures hasProcess == old(hasProcess) && trackedAlive == old(trackedAlive)
    {
      untrackedAlive := untrackedAlive - 1;
      running := false;
    }

    /**
     * `stop_loadtest`: with a process and the flag set, terminate the
     * tracked process (a no-op when it has already ended), clear the flag and
     * report it stopped; otherwise report that no test is running and change
     * nothing.
     */
    method Stop() returns (stopped: bool)
      requires Valid()
      modifies this
      ensures Valid()
      ensures stopped <==> old(hasProcess && running)
      ensures stopped ==> !running && !trackedAlive && hasProcess
                          && untrackedAlive == old(untrackedAlive)
                          && LiveProcesses() == old(LiveProcesses()) - (if old(trackedAlive) then 1 else 0)
      ensures !stopped ==> running == old(running) && trackedAlive == old(trackedAlive)
                           && hasProcess == old(hasProcess) && untrackedAlive == old(untrackedAlive)
    {
      if hasProcess && running {
        trackedAlive := false;
        running := false;
        stopped := true;
      } else {
        stopped := false;
      }
    }
  }

  /** A second stop right after a stop reports that no test is running. */
  method StopTwice() returns (first: bool, second: bool)
    ensures first && !second
  {
    var control := new LoadTestControl();
    control.Start();
    first := control.Stop();
    second := control.Stop();
  }

  /** As written: starting a load test and stopping it leaves one `locust` running. */
  method StopAfterStartAsWritten() returns (stopped: bool, live: nat)
    ensures stopped && live == 1
  {
    var control := new LoadTestControl();
    control.StartAsWritten();
    stopped := control.Stop();
    live := control.LiveProcesses();
  }

  /** With a single tracked process, stopping a load test leaves none running. */
  method StopAfterStart() returns (stopped: bool, live: nat)
    ensures stopped && live == 0
  {
    var control := new LoadTestControl();
    control.Start();
    stopped := control.Stop();
    live := control.LiveProcesses();
  }

  /**
   * A stop that arrives while a second run sits between setting the flag and
   * starting its process: the stop succeeds but ends nothing, and the process
   * started next runs with the flag clear, so no later stop can end it. This
   * holds without the stray `Popen` too.
   */
  method StopBeforeProcess() returns (first: bool, second: bool, live: nat)
    ensures first && !second && live == 1
  {
    var control := new LoadTestControl();
    control.Start();
    control.TrackedExited();
    control.RaiseFlag();
    first := control.Stop();
    control.SpawnTracked();
    second := control.Stop();
    live := control.LiveProcesses();
  }

  /**
   * Two runs, the first of which ends before the second: the first run's
   * `wait()` clears the flag while the second run's process is alive, and
   * a stop then reports that no test is running. This holds without the
   * stray `Popen` too.
   */
  method EarlierRunClearsFlag() returns (stopped: bool, live: nat)
    ensures !stopped && live == 1
  {
    var control := new LoadTestControl();
    control.Start();
    control.Start();
    control.EarlierRunExited();
    stopped := control.Stop();
    live := control.LiveProcesses();
  }
}
