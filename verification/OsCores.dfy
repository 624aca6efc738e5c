/** The core table of merry/merry_os.c: an array of core pointers and an array of thread pointers
    that grow by one at each new-core request, updated in place. */
module OsCores {
  import opened RequestRing
  import opened RequestQueue
  import opened RequestHandler

  class VCore {
    const coreId: nat
    var pc: nat
    var stopRunning: bool

    constructor (id: nat)
      ensures coreId == id && pc == 0 && !stopRunning
    {
      coreId, pc, stopRunning := id, 0, false;
    }
  }

  /** An entry of core_threads: NULL, a thread that was created only, or one started on a core. */
  datatype Thread = NoThread | Idle | ThreadOf(core: VCore)

  /** What the host answers when a core is to be booted. */
  datatype Boot = NotCreated | NotStarted | Started

  /** How booting all cores ends: all run, or core `at` failed and the others were told to exit, or the
      very first one failed, which wraps the core count and leaves the table. */
  datatype Booting = AllRunning | Aborted(at: nat) | OutOfTable

  class Os {
    var cores: array<VCore?>
    var coreThreads: array<Thread>
    var coreCount: nat
    var activeCoreCount: nat
    var stop: bool
    /** os._lock is held. */
    var locked: bool
    const hdlr: RequestHdlr

    ghost predicate Valid()
      reads this, cores, coreThreads
    {
      && coreCount <= cores.Length && coreCount <= coreThreads.Length
      && (forall i :: 0 <= i < coreCount ==> cores[i] != null)
      && (forall i :: 0 <= i < coreCount ==> cores[i].coreId == i)
    }

    /** The table as a sequence: element i is the core with id i. */
    ghost function Table(): (s: seq<VCore?>)
      requires Valid()
      reads this, cores, coreThreads
      ensures |s| == coreCount
    {
      cores[..coreCount]
    }

    /** merry_os_init: one core per entry of the EAT, numbered in order. */
    constructor (entryCount: nat, hdlr: RequestHdlr)
      ensures Valid() && fresh(cores) && fresh(coreThreads)
      ensures coreCount == entryCount && activeCoreCount == 0 && !stop && !locked && this.hdlr == hdlr
      ensures forall i :: 0 <= i < coreCount ==> fresh(cores[i]) && !cores[i].stopRunning
    {
      cores := new VCore?[entryCount](_ => null);
      coreThreads := new Thread[entryCount + 1](_ => NoThread);
      coreCount, activeCoreCount, stop, locked := 0, 0, false, false;
      this.hdlr := hdlr;
      new;
      for i := 0 to entryCount
        invariant coreCount == i && cores.Length == entryCount && coreThreads.Length == entryCount + 1
        invariant fresh(cores) && fresh(coreThreads) && activeCoreCount == 0 && !stop && !locked
        invariant forall k :: 0 <= k < i ==>
                    cores[k] != null && fresh(cores[k]) && cores[k].coreId == k && !cores[k].stopRunning
      {
        cores[i] := new VCore(coreCount);
        coreCount := coreCount + 1;
      }
    }

    /** boot_core: set the start address, then create and start a thread on the core. Only a started one
        makes the core active. */
    method BootCore(coreId: nat, startAddr: nat, answer: Boot) returns (ok: bool)
      requires Valid() && coreId < coreCount
      modifies this`activeCoreCount, coreThreads, cores[coreId]
      ensures Valid() && Table() == old(Table()) && (ok <==> answer.Started?)
      ensures cores[coreId].pc == startAddr && cores[coreId].stopRunning == old(cores[coreId].stopRunning)
      ensures coreThreads[..] ==
              old(coreThreads[..])[coreId := match answer case NotCreated => NoThread
                                                          case NotStarted => Idle
                                                          case Started => ThreadOf(cores[coreId])]
      ensures activeCoreCount == old(activeCoreCount) + if ok then 1 else 0
    {
      cores[coreId].pc := startAddr;
      coreThreads[coreId] := if answer.NotCreated? then NoThread else Idle;
      if answer.NotCreated? || answer.NotStarted? {
        return false;
      }
      coreThreads[coreId] := ThreadOf(cores[coreId]);
      activeCoreCount := activeCoreCount + 1;
      ok := true;
    }

    /** The boot loop of start_vm: core i starts at the i-th entry of the EAT. A failure at core f > 0
        cuts the table to f - 1 cores before the exit is prepared, so core f - 1, which runs already, is
        not told to stop. */
    method BootAll(eat: seq<nat>, answers: seq<Boot>) returns (r: Booting)
      requires Valid() && hdlr.Valid() && |eat| == |answers| == coreCount && activeCoreCount == 0
      modifies this`activeCoreCount, this`coreCount, this`stop, coreThreads, hdlr, hdlr.queue,
               set i | 0 <= i < coreCount :: cores[i]
      ensures Valid() && hdlr.Valid() && cores == old(cores) && cores[..] == old(cores[..])
      ensures r.AllRunning? <==> forall i :: 0 <= i < |answers| ==> answers[i].Started?
      ensures r.AllRunning? ==> coreCount == activeCoreCount == |eat| && stop == old(stop)
      ensures r.AllRunning? ==>
                forall i :: 0 <= i < |eat| ==>
                  cores[i] != null && cores[i].pc == eat[i] && coreThreads[i] == ThreadOf(cores[i]) &&
                  cores[i].stopRunning == old(cores[i].stopRunning)
      ensures r.OutOfTable? <==> |answers| > 0 && !answers[0].Started?
      ensures r.Aborted? ==>
                && 0 < r.at < |answers| && !answers[r.at].Started?
                && (forall i :: 0 <= i < r.at ==> answers[i].Started?)
                && coreCount == r.at - 1 && activeCoreCount == r.at && stop
                && (forall i :: 0 <= i < r.at - 1 ==> cores[i] != null && cores[i].stopRunning)
                && cores[r.at - 1] != null && cores[r.at - 1].stopRunning == old(cores[r.at - 1].stopRunning)
    {
      var failed := BootUntilFailure(eat, answers);
      r := AllRunning;
      if failed < coreCount {
        r := Abort(failed);
      }
    }

    /** The loop itself, up to the first core that fails. */
    method BootUntilFailure(eat: seq<nat>, answers: seq<Boot>) returns (failed: nat)
      requires Valid() && |eat| == |answers| == coreCount && activeCoreCount == 0
      modifies this`activeCoreCount, coreThreads, set i | 0 <= i < coreCount :: cores[i]
      ensures Valid() && cores[..] == old(cores[..])
      ensures failed <= coreCount && (failed < coreCount ==> !answers[failed].Started?)
      ensures forall k :: 0 <= k < failed ==>
                answers[k].Started? && cores[k].pc == eat[k] && coreThreads[k] == ThreadOf(cores[k])
      ensures activeCoreCount == failed
      ensures forall k :: 0 <= k < coreCount ==> cores[k].stopRunning == old(cores[k].stopRunning)
    {
      for i := 0 to coreCount
        invariant Valid() && cores[..] == old(cores[..]) && activeCoreCount == i
        invariant forall k :: 0 <= k < i ==>
                    answers[k].Started? && cores[k].pc == eat[k] && coreThreads[k] == ThreadOf(cores[k])
        invariant forall k :: 0 <= k < coreCount ==> cores[k].stopRunning == old(cores[k].stopRunning)
      {
        var ok := BootCore(i, eat[i], answers[i]);
        if !ok {
          return i;
        }
      }
      failed := coreCount;
    }

    /** The failure branch of the boot loop. */
    method Abort(failed: nat) returns (r: Booting)
      requires Valid() && hdlr.Valid() && failed < coreCount
      modifies this`coreCount, this`stop, hdlr, hdlr.queue, set i | 0 <= i < coreCount :: cores[i]
      ensures Valid() && hdlr.Valid()
      ensures r == if failed == 0 then OutOfTable else Aborted(failed)
      ensures failed > 0 ==>
                && coreCount == failed - 1 && stop
                && (forall i :: 0 <= i < failed - 1 ==> cores[i].stopRunning)
                && cores[failed - 1] != null
                && cores[failed - 1].stopRunning == old(cores[failed - 1].stopRunning)
    {
      if failed == 0 {
        return OutOfTable;
      }
      coreCount := failed - 1;
      ghost var killed := PrepareForExit();
      r := Aborted(failed);
    }

    /** add_core: new arrays one longer, the old entries copied one by one, the new core numbered
        with the old count. Every core keeps its place, so `cores[i]` still has id i, and every
        started thread stays with its core. When the memory for this is not there, everything stays as
        it was, except that the lock is not released; the next call would wait for it forever. */
    method AddCore(enough: bool) returns (ok: bool)
      requires Valid() && !locked
      modifies this
      ensures Valid() && ok == enough && locked == !ok
      ensures activeCoreCount == old(activeCoreCount) && stop == old(stop)
      ensures !ok ==> cores == old(cores) && coreThreads == old(coreThreads) && coreCount == old(coreCount)
      ensures ok ==> fresh(cores) && fresh(coreThreads) && coreCount == old(coreCount) + 1
      ensures ok ==> Table()[..old(coreCount)] == old(Table())
      ensures ok ==> fresh(cores[old(coreCount)]) && !cores[old(coreCount)].stopRunning
      ensures ok ==> coreThreads[..old(coreCount)] == old(coreThreads[..coreCount])
    {
      locked := true;
      if !enough {
        return false;
      }
      coreThreads, cores := LongerTables();
      coreCount := coreCount + 1;
      locked := false;
      ok := true;
      assert Table()[..old(coreCount)] == cores[..old(coreCount)];
    }

    /** The tables with one entry more, and the new core in it. */
    method LongerTables() returns (temp: array<Thread>, tempc: array<VCore?>)
      requires Valid()
      ensures fresh(temp) && fresh(tempc) && temp.Length == tempc.Length == coreCount + 1
      ensures cores[..] == old(cores[..]) && coreThreads[..] == old(coreThreads[..])
      ensures forall k :: 0 <= k < coreCount ==> tempc[k] == cores[k]
      ensures temp[..coreCount] == coreThreads[..coreCount] && tempc[..coreCount] == cores[..coreCount]
      ensures tempc[coreCount] != null && fresh(tempc[coreCount])
      ensures tempc[coreCount].coreId == coreCount && !tempc[coreCount].stopRunning
    {
      temp := new Thread[coreCount + 1](_ => NoThread);
      tempc := new VCore?[coreCount + 1](_ => null);
      tempc[coreCount] := new VCore(coreCount);
      CopyTables(temp, tempc);
    }

    /** The copying loop of add_core. */
    method CopyTables(temp: array<Thread>, tempc: array<VCore?>)
      requires Valid() && temp.Length == tempc.Length == coreCount + 1
      requires temp != coreThreads && tempc != cores
      modifies temp, tempc
      ensures cores[..] == old(cores[..]) && coreThreads[..] == old(coreThreads[..])
      ensures forall k :: 0 <= k < coreCount ==> tempc[k] == cores[k]
      ensures temp[..coreCount] == coreThreads[..coreCount] && tempc[..coreCount] == cores[..coreCount]
      ensures tempc[coreCount] == old(tempc[coreCount])
    {
      for i := 0 to coreCount
        invariant cores[..] == old(cores[..]) && coreThreads[..] == old(coreThreads[..])
        invariant tempc[coreCount] == old(tempc[coreCount])
        invariant forall k :: 0 <= k < i ==> temp[k] == coreThreads[k] && tempc[k] == cores[k]
      {
        temp[i] := coreThreads[i];
        tempc[i] := cores[i];
      }
    }

    /** The first loop of prepare_for_exit. */
    method StopCores()
      requires Valid()
      modifies set i | 0 <= i < coreCount :: cores[i]
      ensures Valid() && Table() == old(Table())
      ensures forall i :: 0 <= i < coreCount ==>
                cores[i].stopRunning && cores[i].pc == old(cores[i].pc)
    {
      for i := 0 to coreCount
        invariant Valid()
        invariant forall k :: 0 <= k < i ==> cores[k].stopRunning
        invariant forall k :: 0 <= k < coreCount ==> cores[k].pc == old(cores[k].pc)
      {
        cores[i].stopRunning := true;
      }
    }

    /** prepare_for_exit: every core is told to stop before any waiting core is woken; the waiting
        requests are then popped as kill_requests does, and the OS loop ends. */
    method PrepareForExit() returns (killed: seq<Request>)
      requires Valid() && hdlr.Valid()
      modifies this`stop, hdlr, hdlr.queue, set i | 0 <= i < coreCount :: cores[i]
      ensures Valid() && hdlr.Valid() && Table() == old(Table())
      ensures stop
      ensures forall i :: 0 <= i < coreCount ==>
                cores[i].stopRunning && cores[i].pc == old(cores[i].pc)
      ensures (hdlr.View().ring, killed) == KillLoop(old(hdlr.View()).ring, 0)
      ensures hdlr.signals == old(hdlr.signals) + CoreSignals(killed)
    {
      StopCores();
      assert hdlr.Valid() && hdlr.View() == old(hdlr.View());
      killed := hdlr.KillRequests();
      stop := true;
    }
  }
}
