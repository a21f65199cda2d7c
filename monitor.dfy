/**
 * The `Monitor` class: one tailed file, its lifecycle status and whether it
 * holds an observer thread. The thread itself is not modelled; `Start` is told
 * whether launching it succeeded.
 */
module Monitors {
  import opened Wrappers

  datatype Status = Offline | Standby | Running

  /** The status as the program spells it. */
  function StatusText(s: Status): string
  {
    match s
    case Offline => "OFFLINE"
    case Standby => "STANDBY"
    case Running => "RUNNING"
  }

  /** Reads a spelt-out status back. */
  function ParseStatus(t: string): (r: Option<Status>)
    ensures r.Some? ==> StatusText(r.value) == t
  {
    if t == "OFFLINE" then Some(Offline)
    else if t == "STANDBY" then Some(Standby)
    else if t == "RUNNING" then Some(Running)
    else None
  }

  lemma StatusTextReadsBack(s: Status)
    ensures ParseStatus(StatusText(s)) == Some(s)
  {
  }

  class Monitor {
    /** Name, path and encoding are set once, when the monitor is created. */
    const name: string
    /** The file tailed; None when no log file was found for the monitor. */
    const path: Option<string>
    const encoding: string
    var status: Status
    /** Whether `_observer_thread` holds a thread (is not None). */
    var hasThread: bool

    /** Outside construction a monitor is idle or running, and holds a thread exactly while running. */
    ghost predicate Valid()
      reads this
    {
      status != Offline && (hasThread <==> status == Running)
    }

    /** `Monitor(name, path, encoding)`: starts OFFLINE and ends construction in STANDBY. */
    constructor (name: string, path: Option<string>, encoding: string)
      ensures Valid()
      ensures this.name == name && this.path == path && this.encoding == encoding
      ensures status == Standby && !hasThread
    {
      this.name := name;
      this.path := path;
      this.encoding := encoding;
      hasThread := false;
      status := Offline;
      new;
      status := Standby;
    }

    /**
     * `Start`: nothing happens when already RUNNING. Otherwise the thread is
     * launched; on success the status becomes RUNNING, on failure the handle
     * is cleared and the status stays as it was.
     */
    method Start(launched: bool)
      requires Valid()
      modifies this
      ensures Valid()
      ensures old(status) == Running ==> status == Running && hasThread == old(hasThread)
      ensures old(status) != Running && launched ==> status == Running && hasThread
      ensures old(status) != Running && !launched ==> status == old(status) && !hasThread
    {
      if status == Running {
        return;
      }
      hasThread := true;
      if !launched {
        hasThread := false;
        return;
      }
      status := Running;
    }

    /** `Stop`: nothing happens when in STANDBY; otherwise the handle is cleared and the status becomes STANDBY. */
    method Stop()
      requires Valid()
      modifies this
      ensures Valid()
      ensures status == Standby && !hasThread
      ensures old(status) == Standby ==> hasThread == old(hasThread)
    {
      if status == Standby {
        return;
      }
      hasThread := false;
      status := Standby;
    }

    /**
     * `str(monitor)`, "name - STATUS": it begins with the name, and the status
     * can be read back from what follows the separator.
     */
    function Describe(): (d: string)
      reads this
      ensures |d| >= |name| + 3 && d[..|name|] == name && d[|name|..|name| + 3] == " - "
      ensures ParseStatus(d[|name| + 3..]) == Some(status)
    {
      var d := name + " - " + StatusText(status);
      assert d[|name| + 3..] == StatusText(status);
      StatusTextReadsBack(status);
      d
    }
  }
}
