/**
 * The program's registry: the `MONITORS` list and the `PATHS` table, with the
 * add, remove, list, start, stop and path commands that change or show them.
 * Prompted answers arrive as parameters, already sanitised; the listing of a
 * log directory arrives as a parameter too.
 */
module Registry {
  import opened Wrappers
  import opened TextLines
  import opened LatestLog
  import opened Selection
  import opened Monitors

  /** A saved path: its name, the directory holding the logs and the log file prefix. */
  datatype PathEntry = PathEntry(name: string, directory: string, prefix: string)

  /** The add wizard's modes: [1] Quick [2] Quick Start [3] Custom [4] Custom Start. */
  datatype Mode = Quick | QuickStart | Custom | CustomStart

  predicate StartsOnAdd(mode: Mode)
  {
    mode == QuickStart || mode == CustomStart
  }

  predicate AsksEncoding(mode: Mode)
  {
    mode == Custom || mode == CustomStart
  }

  /** The encoding menu, in the order it is numbered. */
  const Encodings: seq<string> := ["utf-8", "utf-16", "utf-32"]

  /**
   * The encoding a new monitor gets: the chosen menu entry in the custom
   * modes, otherwise the argument when non-empty, otherwise "utf-8".
   */
  function ChosenEncoding(mode: Mode, encodingArg: string, menuChoice: nat): (e: string)
    requires AsksEncoding(mode) ==> 1 <= menuChoice <= 3
    ensures AsksEncoding(mode) ==> e in Encodings && e == Encodings[menuChoice - 1]
    ensures !AsksEncoding(mode) && encodingArg == "" ==> e == "utf-8"
    ensures !AsksEncoding(mode) && encodingArg != "" ==> e == encodingArg
  {
    var encoding := if encodingArg != "" then encodingArg else "utf-8";
    if AsksEncoding(mode) then Encodings[menuChoice - 1] else encoding
  }

  /** `[monitor._name for monitor in MONITORS]` */
  function Names(ms: seq<Monitor>): seq<string>
  {
    seq(|ms|, i requires 0 <= i < |ms| => ms[i].name)
  }

  /** `[monitor._log_file_path for monitor in MONITORS]` */
  function PathsOf(ms: seq<Monitor>): seq<Option<string>>
  {
    seq(|ms|, i requires 0 <= i < |ms| => ms[i].path)
  }

  predicate Distinct<T(==)>(s: seq<T>)
  {
    forall i, j :: 0 <= i < j < |s| ==> s[i] != s[j]
  }

  /** `list(PATHS.keys())` */
  function Keys(ps: seq<PathEntry>): seq<string>
  {
    seq(|ps|, i requires 0 <= i < |ps| => ps[i].name)
  }

  /** `PATHS[key]`, when the key is present. */
  function Lookup(ps: seq<PathEntry>, key: string): (r: Option<PathEntry>)
    ensures r.None? <==> key !in Keys(ps)
    ensures r.Some? ==> r.value in ps && r.value.name == key
  {
    if ps == [] then None
    else
      assert Keys(ps) == [ps[0].name] + Keys(ps[1..]);
      if ps[0].name == key then Some(ps[0]) else Lookup(ps[1..], key)
  }

  /** The `i`th entry of the path menu, `PATHS[list(PATHS.keys())[i]]`, is the table's `i`th entry. */
  lemma {:induction false} KeyedEntry(ps: seq<PathEntry>, i: nat)
    requires Distinct(Keys(ps)) && i < |ps|
    ensures Lookup(ps, Keys(ps)[i]) == Some(ps[i])
  {
    if i > 0 {
      var rest := ps[1..];
      forall a, b | 0 <= a < b < |rest|
        ensures Keys(rest)[a] != Keys(rest)[b]
      {
        assert Keys(rest)[a] == Keys(ps)[a + 1] && Keys(rest)[b] == Keys(ps)[b + 1];
      }
      assert Keys(ps)[0] != Keys(ps)[i];
      assert Keys(rest)[i - 1] == Keys(ps)[i];
      KeyedEntry(rest, i - 1);
    }
  }

  /**
   * `PATHS[name] = (directory, prefix)` on an insertion-ordered table: an
   * existing key is overwritten where it stands, a new key goes last.
   */
  function Put(ps: seq<PathEntry>, e: PathEntry): (r: seq<PathEntry>)
    ensures |r| == |ps| || r == ps + [e]
    ensures e in r
  {
    if ps == [] then [e]
    else if ps[0].name == e.name then [e] + ps[1..]
    else [ps[0]] + Put(ps[1..], e)
  }

  lemma KeysOfCons(e: PathEntry, ps: seq<PathEntry>)
    ensures Keys([e] + ps) == [e.name] + Keys(ps)
  {
  }

  /** The keys keep their order; a new key is added last. */
  lemma {:induction false} PutKeys(ps: seq<PathEntry>, e: PathEntry)
    ensures Keys(Put(ps, e)) == if e.name in Keys(ps) then Keys(ps) else Keys(ps) + [e.name]
  {
    if ps != [] {
      KeysOfCons(ps[0], ps[1..]);
      assert ps == [ps[0]] + ps[1..];
      if ps[0].name == e.name {
        KeysOfCons(e, ps[1..]);
      } else {
        PutKeys(ps[1..], e);
        KeysOfCons(ps[0], Put(ps[1..], e));
        assert e.name in Keys(ps) <==> e.name in Keys(ps[1..]);
      }
    }
  }

  /** Saving a path never makes two entries share a name. */
  lemma PutKeepsKeysDistinct(ps: seq<PathEntry>, e: PathEntry)
    requires Distinct(Keys(ps))
    ensures Distinct(Keys(Put(ps, e)))
  {
    PutKeys(ps, e);
  }

  /** Afterwards the key reads the new entry and every other key reads what it did before. */
  lemma {:induction false} PutLookup(ps: seq<PathEntry>, e: PathEntry, key: string)
    ensures Lookup(Put(ps, e), key) == if key == e.name then Some(e) else Lookup(ps, key)
  {
    if ps != [] && ps[0].name != e.name {
      var r := Put(ps, e);
      assert r[1..] == Put(ps[1..], e);
      PutLookup(ps[1..], e, key);
    }
  }

  /** The last write to a key wins: writing it twice is writing it once with the second value. */
  lemma {:induction false} PutOverwrites(ps: seq<PathEntry>, first: PathEntry, second: PathEntry)
    requires first.name == second.name
    ensures Put(Put(ps, first), second) == Put(ps, second)
  {
    if ps != [] && ps[0].name != first.name {
      PutOverwrites(ps[1..], first, second);
      assert Put(ps, first)[1..] == Put(ps[1..], first);
    }
  }

  /** The position of the first monitor with the given name. */
  function FirstNamed(ms: seq<Monitor>, name: string): (r: Option<nat>)
    ensures r.None? <==> name !in Names(ms)
    ensures r.Some? ==> r.value < |ms| && ms[r.value].name == name
    ensures r.Some? ==> forall j :: 0 <= j < r.value ==> ms[j].name != name
  {
    if ms == [] then None
    else
      assert Names(ms) == [ms[0].name] + Names(ms[1..]);
      if ms[0].name == name then Some(0)
      else match FirstNamed(ms[1..], name)
        case None => None
        case Some(k) => Some(k + 1)
  }

  /** `str()` of each monitor, in list order. */
  function Descriptions(ms: seq<Monitor>): seq<string>
    reads ms
  {
    if ms == [] then [] else Descriptions(ms[..|ms| - 1]) + [ms[|ms| - 1].Describe()]
  }

  /** There is one description per monitor. */
  lemma {:induction false} DescriptionsLength(ms: seq<Monitor>)
    ensures |Descriptions(ms)| == |ms|
  {
    if ms != [] {
      DescriptionsLength(ms[..|ms| - 1]);
    }
  }

  /** The `i`th description is `str()` of the `i`th monitor. */
  lemma {:induction false} DescriptionAt(ms: seq<Monitor>, i: nat)
    requires i < |ms|
    ensures |Descriptions(ms)| == |ms| && Descriptions(ms)[i] == ms[i].Describe()
  {
    var prior := ms[..|ms| - 1];
    var last := ms[|ms| - 1].Describe();
    DescriptionsLength(prior);
    assert Descriptions(ms) == Descriptions(prior) + [last];
    if i < |prior| {
      DescriptionAt(prior, i);
      assert prior[i] == ms[i];
      assert Descriptions(ms)[i] == Descriptions(prior)[i] == prior[i].Describe();
    } else {
      assert i == |ms| - 1;
      assert Descriptions(ms)[i] == last;
    }
  }

  /** Each description followed by a newline, concatenated. */
  function JoinLines(ds: seq<string>): string
  {
    if ds == [] then [] else JoinLines(ds[..|ds| - 1]) + ds[|ds| - 1] + "\n"
  }

  /** What the list command builds: a fixed message for no monitors, otherwise one line per monitor. */
  function Listing(ds: seq<string>): string
  {
    if ds == [] then "No monitors found" else JoinLines(ds)
  }

  /** The descriptions with their newlines, as separate lines. */
  function Terminated(ds: seq<string>): (ls: seq<string>)
    ensures |ls| == |ds| && forall i :: 0 <= i < |ds| ==> ls[i] == ds[i] + "\n"
  {
    if ds == [] then [] else Terminated(ds[..|ds| - 1]) + [ds[|ds| - 1] + "\n"]
  }

  lemma {:induction false} JoinLinesIsConcat(ds: seq<string>)
    ensures JoinLines(ds) == Concat(Terminated(ds))
  {
    if ds != [] {
      var prior := ds[..|ds| - 1];
      JoinLinesIsConcat(prior);
      ConcatAppend(Terminated(prior), [ds[|ds| - 1] + "\n"]);
      assert Concat([ds[|ds| - 1] + "\n"]) == ds[|ds| - 1] + "\n";
    }
  }

  /** The empty-registry message is told apart from every real listing, which ends in a newline. */
  lemma ListingEmptyIff(ds: seq<string>)
    ensures Listing(ds) == "No monitors found" <==> ds == []
  {
    if ds != [] {
      var l := JoinLines(ds);
      assert l[|l| - 1] == '\n';
    }
  }

  /** A newline-free text with a newline added is one whole line. */
  lemma TerminatedIsLine(d: string)
    requires '\n' !in d
    ensures IsLine(d + "\n") && EndsWithNewline(d + "\n")
  {
    var l := d + "\n";
    forall i | 0 <= i < |l| - 1
      ensures l[i] != '\n'
    {
      assert l[i] == d[i];
    }
  }

  /** Read back line by line, a listing gives each monitor's description, in order. */
  lemma ListingReadsBack(ds: seq<string>)
    requires ds != []
    requires forall i :: 0 <= i < |ds| ==> '\n' !in ds[i]
    ensures ReadLines(Listing(ds)) == Terminated(ds)
  {
    JoinLinesIsConcat(ds);
    var ls := Terminated(ds);
    forall k | 0 <= k < |ls|
      ensures IsLine(ls[k]) && EndsWithNewline(ls[k])
    {
      TerminatedIsLine(ds[k]);
    }
    ReadLinesOfConcat(ls);
  }

  /** The outcome of the add command. */
  datatype AddOutcome =
    | NameTaken(name: string)
    | NoSavedPaths
    | PathTaken(path: Option<string>)
    | Added(description: string)
  {
    /** The message the command returns. */
    function Message(): string
    {
      match this
      case NameTaken(n) => "Monitor with name " + n + " already exists"
      case NoSavedPaths => "There are no saved paths in the config file"
      case PathTaken(p) => "FAILED: Monitor with path " + PathText(p) + " already exists"
      case Added(d) => "SUCCESS: Monitor added: " + d
    }
  }

  /** A path as an f-string shows it; None shows as "None". */
  function PathText(p: Option<string>): string
  {
    match p
    case None => "None"
    case Some(s) => s
  }

  /** The outcome of the remove command. */
  datatype RemoveOutcome = Removed(description: string) | NotFound(name: string)
  {
    function Message(): string
    {
      match this
      case Removed(d) => "Monitor removed: " + d
      case NotFound(n) => "Monitor with name " + n + " not found"
    }
  }

  class Registry {
    /** `MONITORS`, in insertion order. */
    var monitors: seq<Monitor>
    /** `PATHS`, in key insertion order. */
    var paths: seq<PathEntry>

    /** Names are unique, resolved paths are unique, path keys are unique, and every monitor is valid. */
    ghost predicate Valid()
      reads this, monitors
    {
      && Distinct(Names(monitors))
      && Distinct(PathsOf(monitors))
      && Distinct(Keys(paths))
      && forall i :: 0 <= i < |monitors| ==> monitors[i].Valid()
    }

    /** An empty monitor list over the saved path table. */
    constructor (saved: seq<PathEntry>)
      requires Distinct(Keys(saved))
      ensures Valid() && monitors == [] && paths == saved
    {
      monitors := [];
      paths := saved;
    }

    /**
     * `_add_monitor`: refuses a name already in use, an empty path table and
     * a resolved path already monitored, in that order, without changing the
     * list; otherwise appends one new monitor, started in the starting modes.
     * `pathIndex` is the entry the path menu settled on, `files` the listing
     * of that entry's directory.
     */
    method Add(mode: Mode, name: string, pathIndex: nat, files: seq<LogFile>,
               encodingArg: string, menuChoice: nat, launched: bool)
      returns (outcome: AddOutcome)
      requires Valid()
      requires paths != [] ==> pathIndex < |paths|
      requires AsksEncoding(mode) ==> 1 <= menuChoice <= 3
      modifies this
      ensures Valid() && paths == old(paths)
      ensures forall i :: 0 <= i < |old(monitors)| ==> old(monitors)[i].status == old(monitors[i].status)
      ensures name in old(Names(monitors)) ==> outcome == NameTaken(name) && monitors == old(monitors)
      ensures name !in old(Names(monitors)) && paths == [] ==> outcome == NoSavedPaths && monitors == old(monitors)
      ensures name !in old(Names(monitors)) && paths != [] ==>
        var entry := paths[pathIndex];
        var resolved := GetLatestLog(entry.directory, entry.prefix, files);
        if resolved in old(PathsOf(monitors)) then
          outcome == PathTaken(resolved) && monitors == old(monitors)
        else
          |monitors| == |old(monitors)| + 1 && monitors[..|old(monitors)|] == old(monitors) &&
          var m := monitors[|monitors| - 1];
          fresh(m) && m.name == name && m.path == resolved &&
          m.encoding == ChosenEncoding(mode, encodingArg, menuChoice) &&
          m.status == (if StartsOnAdd(mode) && launched then Running else Standby) &&
          outcome == Added(m.Describe())
    {
      if name in Names(monitors) {
        return NameTaken(name);
      }
      if paths == [] {
        return NoSavedPaths;
      }
      var entry := paths[pathIndex];
      var resolved := GetLatestLog(entry.directory, entry.prefix, files);
      if resolved in PathsOf(monitors) {
        return PathTaken(resolved);
      }
      var encoding := if encodingArg != "" then encodingArg else "utf-8";
      if AsksEncoding(mode) {
        encoding := Encodings[menuChoice - 1];
      }
      var m := new Monitor(name, resolved, encoding);
      AppendingKeepsDistinct(monitors, m);
      monitors := monitors + [m];
      if StartsOnAdd(mode) {
        m.Start(launched);
      }
      outcome := Added(m.Describe());
    }

    /**
     * `_remove_monitor`: takes out the first monitor with the name, whatever
     * its status, keeping the others in order; a name not present changes nothing.
     */
    method Remove(name: string) returns (outcome: RemoveOutcome)
      requires Valid()
      modifies this
      ensures Valid() && paths == old(paths)
      ensures name !in old(Names(monitors)) ==> outcome == NotFound(name) && monitors == old(monitors)
      ensures name in old(Names(monitors)) ==>
        var k := FirstNamed(old(monitors), name).value;
        monitors == old(monitors[..k] + monitors[k + 1..]) &&
        outcome == Removed(old(monitors[k].Describe()))
      ensures name !in Names(monitors)
    {
      var i := 0;
      while i < |monitors|
        invariant 0 <= i <= |monitors|
        invariant forall j :: 0 <= j < i ==> monitors[j].name != name
      {
        if monitors[i].name == name {
          var m := monitors[i];
          ghost var before := monitors;
          assert Names(before)[i] == name;
          assert FirstNamed(before, name) == Some(i);
          monitors := monitors[..i] + monitors[i + 1..];
          RemovingKeepsDistinct(before, i);
          return Removed(m.Describe());
        }
        i := i + 1;
      }
      return NotFound(name);
    }

    /** `_list_monitors`: the listing of the monitors' descriptions, built line by line. */
    method List() returns (message: string)
      ensures message == Listing(Descriptions(monitors))
    {
      if monitors == [] {
        return "No monitors found";
      }
      message := "";
      var i := 0;
      while i < |monitors|
        invariant 0 <= i <= |monitors|
        invariant message == JoinLines(Descriptions(monitors[..i]))
      {
        assert monitors[..i + 1][..i] == monitors[..i];
        message := message + monitors[i].Describe() + "\n";
        i := i + 1;
      }
      assert monitors[..i] == monitors;
    }

    /**
     * `_start_monitor`: the monitor menu is answered from `answers`; the
     * selected monitor is started and the others left alone. None when no
     * answer was accepted (the program would keep prompting), and always
     * None with no monitors.
     */
    method StartSelected(answers: seq<string>, launched: bool) returns (picked: Option<nat>, message: string)
      requires Valid()
      modifies monitors
      ensures Valid() && monitors == old(monitors) && paths == old(paths)
      ensures picked == FirstAccepted(answers, |monitors|)
      ensures picked.None? ==> message == ""
      ensures picked.None? ==> forall i :: 0 <= i < |monitors| ==> monitors[i].status == old(monitors[i].status)
      ensures picked.Some? ==>
        var k := picked.value;
        k < |monitors| &&
        (forall i :: 0 <= i < |monitors| && i != k ==> monitors[i].status == old(monitors[i].status)) &&
        (old(monitors[k].status) != Running && launched ==> monitors[k].status == Running) &&
        (old(monitors[k].status) != Running && !launched ==> monitors[k].status == old(monitors[k].status)) &&
        (old(monitors[k].status) == Running ==> monitors[k].status == Running) &&
        message == "Monitor started: " + monitors[k].Describe()
    {
      var read;
      picked, read := Prompt(answers, |monitors|);
      if picked.None? {
        return picked, "";
      }
      var m := monitors[picked.value];
      m.Start(launched);
      DistinctNamesDistinctMonitors(monitors, picked.value);
      message := "Monitor started: " + m.Describe();
    }

    /**
     * `_stop_monitor`: the monitor menu is answered from `answers`; the
     * selected monitor ends in STANDBY and the others are left alone.
     */
    method StopSelected(answers: seq<string>) returns (picked: Option<nat>, message: string)
      requires Valid()
      modifies monitors
      ensures Valid() && monitors == old(monitors) && paths == old(paths)
      ensures picked == FirstAccepted(answers, |monitors|)
      ensures picked.None? ==> message == ""
      ensures picked.None? ==> forall i :: 0 <= i < |monitors| ==> monitors[i].status == old(monitors[i].status)
      ensures picked.Some? ==>
        var k := picked.value;
        k < |monitors| &&
        (forall i :: 0 <= i < |monitors| && i != k ==> monitors[i].status == old(monitors[i].status)) &&
        monitors[k].status == Standby && !monitors[k].hasThread &&
        message == "Monitor stopped: " + monitors[k].Describe()
    {
      var read;
      picked, read := Prompt(answers, |monitors|);
      if picked.None? {
        return picked, "";
      }
      var m := monitors[picked.value];
      m.Stop();
      DistinctNamesDistinctMonitors(monitors, picked.value);
      message := "Monitor stopped: " + m.Describe();
    }

    /**
     * `_config_path`: saves the entry under its name, overwriting an entry
     * of that name where it stands, or adding it last.
     */
    method ConfigPath(name: string, directory: string, prefix: string) returns (message: string)
      requires Valid()
      modifies this
      ensures Valid() && monitors == old(monitors)
      ensures paths == Put(old(paths), PathEntry(name, directory, prefix))
      ensures message == "Path added: " + name + " - " + directory + " - " + prefix
    {
      PutKeepsKeysDistinct(paths, PathEntry(name, directory, prefix));
      paths := Put(paths, PathEntry(name, directory, prefix));
      message := "Path added: " + name + " - " + directory + " - " + prefix;
    }
  }

  /** Monitors with distinct names are distinct objects. */
  /** Appending a monitor whose name and path are new keeps names and paths unique. */
  lemma AppendingKeepsDistinct(ms: seq<Monitor>, m: Monitor)
    requires Distinct(Names(ms)) && m.name !in Names(ms)
    requires Distinct(PathsOf(ms)) && m.path !in PathsOf(ms)
    ensures Names(ms + [m]) == Names(ms) + [m.name] && Distinct(Names(ms + [m]))
    ensures PathsOf(ms + [m]) == PathsOf(ms) + [m.path] && Distinct(PathsOf(ms + [m]))
  {
    assert Names(ms + [m]) == Names(ms) + [m.name];
    assert PathsOf(ms + [m]) == PathsOf(ms) + [m.path];
  }

  lemma DistinctNamesDistinctMonitors(ms: seq<Monitor>, k: nat)
    requires Distinct(Names(ms)) && k < |ms|
    ensures forall i :: 0 <= i < |ms| && i != k ==> ms[i] != ms[k]
  {
    forall i | 0 <= i < |ms| && i != k
      ensures ms[i] != ms[k]
    {
      if i < k { assert Names(ms)[i] != Names(ms)[k]; }
      else { assert Names(ms)[k] != Names(ms)[i]; }
    }
  }

  /** Taking one monitor out keeps names and paths unique, and with unique names the name is gone. */
  lemma RemovingKeepsDistinct(ms: seq<Monitor>, k: nat)
    requires k < |ms| && Distinct(Names(ms)) && Distinct(PathsOf(ms))
    ensures var rest := ms[..k] + ms[k + 1..];
      Distinct(Names(rest)) && Distinct(PathsOf(rest)) && ms[k].name !in Names(rest)
  {
    var rest := ms[..k] + ms[k + 1..];
    assert forall i :: 0 <= i < |rest| ==> rest[i] == ms[if i < k then i else i + 1];
    assert Distinct(Names(rest)) by {
      forall i, j | 0 <= i < j < |rest|
        ensures Names(rest)[i] != Names(rest)[j]
      {
        var i', j' := if i < k then i else i + 1, if j < k then j else j + 1;
        assert Names(ms)[i'] != Names(ms)[j'];
      }
    }
    assert Distinct(PathsOf(rest)) by {
      forall i, j | 0 <= i < j < |rest|
        ensures PathsOf(rest)[i] != PathsOf(rest)[j]
      {
        var i', j' := if i < k then i else i + 1, if j < k then j else j + 1;
        assert PathsOf(ms)[i'] != PathsOf(ms)[j'];
      }
    }
    forall i | 0 <= i < |rest|
      ensures Names(rest)[i] != ms[k].name
    {
      var i' := if i < k then i else i + 1;
      if i' < k { assert Names(ms)[i'] != Names(ms)[k]; }
      else { assert Names(ms)[k] != Names(ms)[i']; }
    }
  }
}
