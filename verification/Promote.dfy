// Moving a staged folder into place, replacing what is there. Any operation of
// the file system may fail, and a copy or a removal may fail half way.
module Promotion {
  import opened Sequences

  type Path = string

  // What a path holds. A folder's entries are in the order they are listed.
  datatype Node =
    | File(content: string, mode: int)
    | Link(target: Path)
    | Folder(entries: seq<(string, Node)>, mode: int)

  // The paths a promotion touches, none inside another, and what they hold.
  type Disk = map<Path, Node>

  const REPLACED_SUFFIX := ".old"
  const DEFAULT_MODE := 0x1ED

  datatype Error = NotFound | CrossesDevices | Other

  datatype Result = Ok | Err(error: Error)

  // How the next operation goes. One that fails may leave something behind where
  // it was at work.
  datatype Fault = Works | Fails(crossesDevices: bool, leftover: Option<Node>)

  function Head(faults: seq<Fault>): Fault {
    if faults == [] then Works else faults[0]
  }

  function Tail(faults: seq<Fault>): seq<Fault> {
    if faults == [] then [] else faults[1..]
  }

  function ErrorOf(fault: Fault): Error
    requires fault.Fails?
  {
    if fault.crossesDevices then CrossesDevices else Other
  }

  // -- Operations -------------------------------------------------------------------

  datatype Done = Done(result: Result, disk: Disk, faults: seq<Fault>)

  function Left(disk: Disk, path: Path, leftover: Option<Node>): Disk {
    if leftover.Some? then disk[path := leftover.value] else disk
  }

  // `remove_dir_all`, or `remove_file`.
  function Remove(disk: Disk, path: Path, faults: seq<Fault>): Done {
    match Head(faults)
    case Works => Done(Ok, disk - {path}, Tail(faults))
    case Fails(_, leftover) => Done(Err(Other), Left(disk, path, leftover), Tail(faults))
  }

  // Removal of whatever is there, asked first; a path that holds nothing is no error.
  function RemoveAny(disk: Disk, path: Path, faults: seq<Fault>): Done {
    if Head(faults).Fails? then Done(Err(Other), disk, Tail(faults))
    else if path !in disk then Done(Ok, disk, Tail(faults))
    else Remove(disk, path, Tail(faults))
  }

  // A folder replaces an empty folder only, anything else no folder.
  predicate Replaces(moved: Node, there: Node) {
    if moved.Folder? then there.Folder? && there.entries == [] else !there.Folder?
  }

  function Rename(disk: Disk, from: Path, to: Path, faults: seq<Fault>): Done {
    if from !in disk then Done(Err(NotFound), disk, Tail(faults))
    else if Head(faults).Fails? then Done(Err(ErrorOf(Head(faults))), disk, Tail(faults))
    else if to in disk && !Replaces(disk[from], disk[to]) then Done(Err(Other), disk, Tail(faults))
    else Done(Ok, (disk - {from})[to := disk[from]], Tail(faults))
  }

  // A rename over something works exactly for a folder over an empty one and for what
  // is no folder over what is none.
  lemma RenamesOverIff(disk: Disk, from: Path, to: Path, faults: seq<Fault>)
    requires from in disk && to in disk && Head(faults).Works?
    ensures Rename(disk, from, to, faults).result == Ok <==>
            || (disk[from].Folder? && disk[to].Folder? && |disk[to].entries| == 0)
            || (!disk[from].Folder? && !disk[to].Folder?)
  {
  }

  // -- Copying ------------------------------------------------------------------------

  // What the target holds after each step of a copy.
  datatype Copy = Copy(result: Result, steps: seq<Node>, faults: seq<Fault>)

  // A copy of `node`: as it is, but for links where there are none.
  function Copied(node: Node, unix: bool): Node
    decreases node, 0
  {
    match node
    case Folder(entries, mode) => Folder(CopiedEntries(entries, unix), mode)
    case _ => node
  }

  function CopiedEntries(entries: seq<(string, Node)>, unix: bool): seq<(string, Node)>
    decreases entries, 1
  {
    if entries == [] then []
    else
      (if entries[0].1.Link? && !unix then [] else [(entries[0].0, CopiedIn(entries[0], unix))])
      + CopiedEntries(entries[1..], unix)
  }

  function CopiedIn(entry: (string, Node), unix: bool): Node
    decreases entry, 2
  {
    Copied(entry.1, unix)
  }

  // The folder `from` copied to a path where nothing is.
  function CopyTree(from: Node, unix: bool, faults: seq<Fault>): Copy
    decreases from, 1
  {
    if Head(faults).Fails? then Copy(Err(Other), [], Tail(faults))
    else
      var made := Folder([], DEFAULT_MODE);
      if !from.Folder? then Copy(Err(Other), [made], Tail(faults))
      else
        var inside := CopyEntries(from.entries, [], unix, Tail(faults));
        if inside.result.Err? then inside.(steps := [made] + inside.steps)
        else if Head(inside.faults).Fails? then Copy(Err(Other), [made] + inside.steps, Tail(inside.faults))
        else
          Copy(Ok, [made] + inside.steps + [Folder(CopiedEntries(from.entries, unix), from.mode)], Tail(inside.faults))
  }

  // The entries left, after those `done`.
  function CopyEntries(
    entries: seq<(string, Node)>, done: seq<(string, Node)>, unix: bool, faults: seq<Fault>): Copy
    decreases entries, 0
  {
    if entries == [] then Copy(Ok, [], faults)
    else if Head(faults).Fails? then Copy(Err(Other), [], Tail(faults))  // the entry can't be read
    else
      var one := CopyEntry(entries[0], unix, Tail(faults));
      var steps := Within(one.steps, entries[0].0, done);
      if one.result.Err? then Copy(one.result, steps, one.faults)
      else
        var rest := CopyEntries(entries[1..], done + CopiedEntries([entries[0]], unix), unix, one.faults);
        rest.(steps := steps + rest.steps)
  }

  function CopyEntry(entry: (string, Node), unix: bool, faults: seq<Fault>): Copy
    decreases entry, 2
  {
    match entry.1
    case Folder(_, _) => CopyTree(entry.1, unix, faults)
    case Link(_) =>
      if !unix then Copy(Ok, [], faults)
      else if Head(faults).Fails? then Copy(Err(Other), [], Tail(faults))
      else Copy(Ok, [entry.1], Tail(faults))
    case File(_, _) =>
      (match Head(faults)
       case Works => Copy(Ok, [entry.1], Tail(faults))
       case Fails(_, leftover) =>
         Copy(Err(Other), if leftover.Some? then [leftover.value] else [], Tail(faults)))
  }

  // Each step of an entry, seen in the folder being filled.
  function Within(steps: seq<Node>, name: string, done: seq<(string, Node)>): seq<Node> {
    seq(|steps|, i requires 0 <= i < |steps| => Folder(done + [(name, steps[i])], DEFAULT_MODE))
  }

  // -- Moving and promoting -------------------------------------------------------------

  // How it ended, and the disk after each operation.
  datatype Run = Run(result: Result, disk: Disk, trace: seq<Disk>, faults: seq<Fault>)

  function Placed(disk: Disk, path: Path, steps: seq<Node>): seq<Disk> {
    seq(|steps|, i requires 0 <= i < |steps| => disk[path := steps[i]])
  }

  function LastStep(copy: Copy): Node
    requires copy.steps != []
  {
    copy.steps[|copy.steps| - 1]
  }

  function AfterCopy(disk: Disk, destination: Path, copy: Copy): Disk {
    if copy.steps == [] then disk else disk[destination := LastStep(copy)]
  }

  // What crosses disks: the copy's steps, then the staged folder removed.
  function Crossing(disk: Disk, staging: Path, destination: Path, copy: Copy): Run {
    var copied := AfterCopy(disk, destination, copy);
    var trace := Placed(disk, destination, copy.steps);
    if copy.result.Err? then Run(copy.result, copied, trace, copy.faults)
    else
      var removed := Remove(copied, staging, copy.faults);
      Run(removed.result, removed.disk, trace + [removed.disk], removed.faults)
  }

  // Within one disk a rename is all; between two, the tree is copied and then
  // removed where it was.
  function MoveFolder(disk: Disk, staging: Path, destination: Path, unix: bool, faults: seq<Fault>): Run {
    var renamed := Rename(disk, staging, destination, faults);
    if renamed.result != Err(CrossesDevices)
    then Run(renamed.result, renamed.disk, [renamed.disk], renamed.faults)
    else
      var copied := Crossing(disk, staging, destination, CopyTree(disk[staging], unix, renamed.faults));
      copied.(trace := [disk] + copied.trace)
  }

  function Aside(destination: Path): Path {
    destination + REPLACED_SUFFIX
  }

  // The folder that stood in the way set aside; whether there was one.
  function SetAside(disk: Disk, destination: Path, faults: seq<Fault>): (Done, Done) {
    var removed := RemoveAny(disk, Aside(destination), Tail(faults));
    (removed, Rename(removed.disk, destination, Aside(destination), removed.faults))
  }

  // The promotion after the first rename.
  function MoveIn(aside: Done, staging: Path, destination: Path, unix: bool): Run {
    var moved := MoveFolder(aside.disk, staging, destination, unix, aside.faults);
    if moved.result.Err? then
      if aside.result.Ok? then
        var restored := Rename(moved.disk, Aside(destination), destination, moved.faults);
        Run(moved.result, restored.disk, moved.trace + [restored.disk], restored.faults)
      else moved
    else
      var cleaned := RemoveAny(moved.disk, Aside(destination), moved.faults);
      Run(Ok, cleaned.disk, moved.trace + [cleaned.disk], cleaned.faults)
  }

  function Promote(disk: Disk, staging: Path, destination: Path, unix: bool, faults: seq<Fault>): Run {
    if Head(faults).Fails? then Run(Err(Other), disk, [], Tail(faults))  // the parent folder can't be made
    else
      var (removed, aside) := SetAside(disk, destination, faults);
      if removed.result.Err? then Run(removed.result, removed.disk, [removed.disk], removed.faults)
      else if aside.result.Err? && aside.result.error != NotFound then
        Run(aside.result, aside.disk, [removed.disk, aside.disk], aside.faults)
      else
        var moved := MoveIn(aside, staging, destination, unix);
        moved.(trace := [removed.disk, aside.disk] + moved.trace)
  }

  // -- The code that does it -----------------------------------------------------------------

  // Every operation is recorded with the disk as it leaves it.
  class FileSystem {
    var disk: Disk
    var faults: seq<Fault>
    ghost var trace: seq<Disk>

    constructor (disk: Disk, faults: seq<Fault>)
      ensures this.disk == disk && this.faults == faults && trace == []
    {
      this.disk, this.faults, trace := disk, faults, [];
    }

    method Next() returns (fault: Fault)
      modifies this`faults
      ensures fault == Head(old(faults)) && faults == Tail(old(faults))
    {
      fault, faults := Head(faults), Tail(faults);
    }

    method DoRename(from: Path, to: Path) returns (result: Result)
      modifies this
      ensures Done(result, disk, faults) == Rename(old(disk), from, to, old(faults))
      ensures trace == old(trace) + [disk]
    {
      var fault := Next();
      if from !in disk {
        result := Err(NotFound);
      } else if fault.Fails? {
        result := Err(ErrorOf(fault));
      } else if to in disk && !Replaces(disk[from], disk[to]) {
        result := Err(Other);
      } else {
        disk, result := (disk - {from})[to := disk[from]], Ok;
      }
      trace := trace + [disk];
    }

    method DoRemove(path: Path) returns (result: Result)
      modifies this
      ensures Done(result, disk, faults) == Remove(old(disk), path, old(faults))
      ensures trace == old(trace) + [disk]
    {
      var fault := Next();
      match fault {
        case Works => disk, result := disk - {path}, Ok;
        case Fails(_, leftover) => disk, result := Left(disk, path, leftover), Err(Other);
      }
      trace := trace + [disk];
    }

    method DoRemoveAny(path: Path) returns (result: Result)
      modifies this
      ensures Done(result, disk, faults) == RemoveAny(old(disk), path, old(faults))
      ensures trace == old(trace) + [disk]
    {
      var metadata := Next();
      if metadata.Works? && path in disk {
        result := DoRemove(path);
      } else {
        result := if metadata.Works? then Ok else Err(Other);
        trace := trace + [disk];
      }
    }

    method DoMoveFolder(staging: Path, destination: Path, unix: bool) returns (result: Result)
      modifies this
      ensures var run := MoveFolder(old(disk), staging, destination, unix, old(faults));
              && result == run.result && disk == run.disk && faults == run.faults
              && trace == old(trace) + run.trace
    {
      result := DoRename(staging, destination);
      if result != Err(CrossesDevices) {
        return;
      }
      var copy := DoCopyTree(disk[staging], unix, faults);
      trace := trace + Placed(disk, destination, copy.steps);
      Regrouped(old(trace), [disk], Placed(disk, destination, copy.steps));
      disk, faults := AfterCopy(disk, destination, copy), copy.faults;
      if copy.result.Err? {
        return copy.result;
      }
      result := DoRemove(staging);
      Regrouped(old(trace), [old(disk)] + Placed(old(disk), destination, copy.steps), [disk]);
      Regrouped([old(disk)], Placed(old(disk), destination, copy.steps), [disk]);
    }

    method DoPromote(staging: Path, destination: Path, unix: bool) returns (result: Result)
      modifies this
      ensures var run := Promote(old(disk), staging, destination, unix, old(faults));
              && result == run.result && disk == run.disk && faults == run.faults
              && trace == old(trace) + run.trace
    {
      var parent := Next();
      if parent.Fails? {
        return Err(Other);
      }
      var aside := destination + REPLACED_SUFFIX;
      var removed := DoRemoveAny(aside);
      if removed.Err? {
        return removed;
      }
      ghost var first := disk;
      var setAside := DoRename(destination, aside);
      assert trace == old(trace) + [first, disk];
      if setAside.Err? && setAside.error != NotFound {
        return setAside;
      }
      ghost var start := Done(setAside, disk, faults);
      result := DoMoveIn(start, setAside.Ok?, staging, destination, unix);
      Regrouped(old(trace), [first, start.disk], MoveIn(start, staging, destination, unix).trace);
    }

    // The rest of it: the move, and what undoes or finishes it.
    method DoMoveIn(ghost aside: Done, hadOld: bool, staging: Path, destination: Path, unix: bool)
      returns (result: Result)
      requires aside.disk == disk && aside.faults == faults && aside.result.Ok? == hadOld
      modifies this
      ensures var run := MoveIn(aside, staging, destination, unix);
              && result == run.result && disk == run.disk && faults == run.faults
              && trace == old(trace) + run.trace
    {
      result := DoMoveFolder(staging, destination, unix);
      ghost var moved := MoveFolder(aside.disk, staging, destination, unix, aside.faults);
      if result.Err? {
        if hadOld {
          var ignored := DoRename(Aside(destination), destination);
          Regrouped(old(trace), moved.trace, [disk]);
        }
        return;
      }
      var ignored := DoRemoveAny(Aside(destination));
      Regrouped(old(trace), moved.trace, [disk]);
    }
  }

  // Steps already taken, then a copy.
  function Then(steps: seq<Node>, copy: Copy): Copy {
    copy.(steps := steps + copy.steps)
  }

  lemma ThenThen(a: seq<Node>, b: seq<Node>, copy: Copy)
    ensures Then(a, Then(b, copy)) == Then(a + b, copy)
  {
    Regrouped(a, b, copy.steps);
  }

  lemma NextEntry(entries: seq<(string, Node)>, done: seq<(string, Node)>, unix: bool, faults: seq<Fault>)
    requires entries != [] && Head(faults).Works?
    ensures var one := CopyEntry(entries[0], unix, Tail(faults));
            var steps := Within(one.steps, entries[0].0, done);
            CopyEntries(entries, done, unix, faults) ==
            Then(steps,
                 if one.result.Err? then Copy(one.result, [], one.faults)
                 else CopyEntries(entries[1..], done + CopiedEntries([entries[0]], unix), unix, one.faults))
  {
    var one := CopyEntry(entries[0], unix, Tail(faults));
    var steps := Within(one.steps, entries[0].0, done);
    assert steps + [] == steps;
  }

  // The copy itself: the folder made, its entries one after another, its
  // permissions last.
  method DoCopyTree(from: Node, unix: bool, before: seq<Fault>) returns (copy: Copy)
    ensures copy == CopyTree(from, unix, before)
    decreases from, 1
  {
    var made := Folder([], DEFAULT_MODE);
    if Head(before).Fails? {
      return Copy(Err(Other), [], Tail(before));
    }
    if !from.Folder? {
      return Copy(Err(Other), [made], Tail(before));
    }
    var inside := DoCopyEntries(from.entries, unix, Tail(before));
    var steps, faults := [made] + inside.steps, inside.faults;
    if inside.result.Err? {
      return Copy(inside.result, steps, faults);
    }
    if Head(faults).Fails? {
      return Copy(Err(Other), steps, Tail(faults));
    }
    return Copy(Ok, steps + [Folder(CopiedEntries(from.entries, unix), from.mode)], Tail(faults));
  }

  method DoCopyEntries(entries: seq<(string, Node)>, unix: bool, before: seq<Fault>) returns (copy: Copy)
    ensures copy == CopyEntries(entries, [], unix, before)
    decreases entries, 0
  {
    var steps, done, faults := [], [], before;
    for i := 0 to |entries|
      invariant CopyEntries(entries, [], unix, before) ==
                Then(steps, CopyEntries(entries[i..], done, unix, faults))
    {
      var entry := entries[i];
      assert entry == entries[i..][0] && entries[i..][1..] == entries[i + 1..];
      if Head(faults).Fails? {
        return Copy(Err(Other), steps, Tail(faults));
      }
      NextEntry(entries[i..], done, unix, faults);
      var one := DoCopyEntry(entry, unix, Tail(faults));
      var within := Within(one.steps, entry.0, done);
      if one.result.Err? {
        assert Then(steps, Then(within, Copy(one.result, [], one.faults))).steps == steps + within;
        return Copy(one.result, steps + within, one.faults);
      }
      ThenThen(steps, within,
               CopyEntries(entries[i + 1..], done + CopiedEntries([entry], unix), unix, one.faults));
      steps := steps + within;
      done := done + CopiedEntries([entry], unix);
      faults := one.faults;
    }
    assert entries[|entries|..] == [];
    return Copy(Ok, steps, faults);
  }

  method DoCopyEntry(entry: (string, Node), unix: bool, faults: seq<Fault>) returns (copy: Copy)
    ensures copy == CopyEntry(entry, unix, faults)
    decreases entry, 2
  {
    match entry.1
    case Folder(_, _) => copy := DoCopyTree(entry.1, unix, faults);
    case Link(_) =>
      if !unix {
        return Copy(Ok, [], faults);
      }
      return if Head(faults).Fails? then Copy(Err(Other), [], Tail(faults)) else Copy(Ok, [entry.1], Tail(faults));
    case File(_, _) =>
      match Head(faults) {
        case Works => return Copy(Ok, [entry.1], Tail(faults));
        case Fails(_, leftover) =>
          return Copy(Err(Other), if leftover.Some? then [leftover.value] else [], Tail(faults));
      }
  }

  // -- What a copy is ------------------------------------------------------------------------

  // What a copy that succeeds leaves.
  lemma CopySucceeds(from: Node, unix: bool, faults: seq<Fault>)
    requires CopyTree(from, unix, faults).result.Ok?
    ensures var steps := CopyTree(from, unix, faults).steps;
            steps != [] && steps[|steps| - 1] == Copied(from, unix)
  {
  }

  predicate HasLinks(node: Node)
    decreases node, 0
  {
    match node
    case Folder(entries, _) => EntriesHaveLinks(entries)
    case _ => false
  }

  predicate EntriesHaveLinks(entries: seq<(string, Node)>)
    decreases entries, 1
  {
    entries != [] && (EntryHasLinks(entries[0]) || EntriesHaveLinks(entries[1..]))
  }

  predicate EntryHasLinks(entry: (string, Node))
    decreases entry, 2
  {
    entry.1.Link? || HasLinks(entry.1)
  }

  // A copy is the folder itself exactly where links are kept or it has none.
  lemma {:induction false} CopiedIffNoLinks(node: Node, unix: bool)
    ensures Copied(node, unix) == node <==> unix || !HasLinks(node)
    decreases node, 0
  {
    if node.Folder? {
      CopiedEntriesIffNoLinks(node.entries, unix);
    }
  }

  lemma {:induction false} CopiedEntriesIffNoLinks(entries: seq<(string, Node)>, unix: bool)
    ensures |CopiedEntries(entries, unix)| <= |entries|
    ensures CopiedEntries(entries, unix) == entries <==> unix || !EntriesHaveLinks(entries)
    decreases entries, 1
  {
    if entries != [] {
      CopiedEntriesIffNoLinks(entries[1..], unix);
      CopiedEntryIffNoLinks(entries[0], unix);
      var all := CopiedEntries(entries, unix);
      if !(entries[0].1.Link? && !unix) {
        assert all[0] == (entries[0].0, Copied(entries[0].1, unix));
        assert all[1..] == CopiedEntries(entries[1..], unix);
        assert entries == [entries[0]] + entries[1..];
      }
    }
  }

  lemma {:induction false} CopiedEntryIffNoLinks(entry: (string, Node), unix: bool)
    ensures !entry.1.Link? ==> (Copied(entry.1, unix) == entry.1 <==> unix || !HasLinks(entry.1))
    decreases entry, 2
  {
    CopiedIffNoLinks(entry.1, unix);
  }

  // -- What a promotion keeps ------------------------------------------------------------------

  // The three paths are different.
  predicate Apart(staging: Path, destination: Path) {
    staging != destination && staging != Aside(destination) && destination != Aside(destination)
  }

  // The complete new tree: the staged one, or its copy.
  predicate IsNew(node: Node, staged: Node, unix: bool) {
    node == staged || node == Copied(staged, unix)
  }

  // The complete old tree is at the destination or waits at its `.old` name, or
  // the complete new one is at the destination.
  predicate Safe(disk: Disk, destination: Path, before: Node, staged: Node, unix: bool) {
    || (destination in disk && (disk[destination] == before || IsNew(disk[destination], staged, unix)))
    || (Aside(destination) in disk && disk[Aside(destination)] == before)
  }

  // What a path holds, where it holds something, is still there.
  predicate Keeps(before: Disk, now: Disk, path: Path) {
    path in before ==> path in now && now[path] == before[path]
  }

  lemma RemoveKeeps(disk: Disk, path: Path, faults: seq<Fault>, other: Path)
    requires other != path
    ensures Keeps(disk, RemoveAny(disk, path, faults).disk, other)
  {
  }

  lemma CrossingKeeps(disk: Disk, staging: Path, destination: Path, copy: Copy, other: Path)
    requires other != staging && other != destination
    ensures var run := Crossing(disk, staging, destination, copy);
            Keeps(disk, run.disk, other) && forall now :: now in run.trace ==> Keeps(disk, now, other)
  {
    var copied := AfterCopy(disk, destination, copy);
    assert forall now :: now in Placed(disk, destination, copy.steps) ==> Keeps(disk, now, other);
    assert Keeps(copied, Remove(copied, staging, copy.faults).disk, other);
  }

  // Moving touches nothing else, whatever fails.
  lemma MoveKeeps(
    disk: Disk, staging: Path, destination: Path, unix: bool, faults: seq<Fault>, other: Path)
    requires other != staging && other != destination
    ensures var run := MoveFolder(disk, staging, destination, unix, faults);
            Keeps(disk, run.disk, other) && forall now :: now in run.trace ==> Keeps(disk, now, other)
  {
    if Rename(disk, staging, destination, faults).result == Err(CrossesDevices) {
      CrossingKeeps(disk, staging, destination, CopyTree(disk[staging], unix, Tail(faults)), other);
    }
  }

  // When it succeeds it leaves no less than the whole new tree.
  lemma MovePlaces(disk: Disk, staging: Path, destination: Path, unix: bool, faults: seq<Fault>)
    requires staging != destination
    requires MoveFolder(disk, staging, destination, unix, faults).result.Ok?
    ensures staging in disk
    ensures var last := MoveFolder(disk, staging, destination, unix, faults).disk;
            destination in last && IsNew(last[destination], disk[staging], unix)
  {
    if Rename(disk, staging, destination, faults).result == Err(CrossesDevices) {
      CopySucceeds(disk[staging], unix, Tail(faults));
    }
  }

  // The old folder was set aside: nothing is at the destination.
  predicate WasSetAside(disk: Disk, destination: Path, faults: seq<Fault>) {
    && Head(faults).Works?
    && SetAside(disk, destination, faults).0.result.Ok?
    && SetAside(disk, destination, faults).1.result.Ok?
  }

  lemma SetAsideHolds(disk: Disk, staging: Path, destination: Path, faults: seq<Fault>)
    requires Apart(staging, destination) && staging in disk && destination in disk
    requires WasSetAside(disk, destination, faults)
    ensures var aside := SetAside(disk, destination, faults).1;
            aside.disk == (disk - {destination})[Aside(destination) := disk[destination]]
  {
  }

  // After every operation from then on.
  lemma MoveInIsSafe(aside: Done, staging: Path, destination: Path, unix: bool, now: Disk)
    requires Apart(staging, destination) && staging in aside.disk
    requires aside.result.Ok? && Aside(destination) in aside.disk
    requires now in MoveIn(aside, staging, destination, unix).trace
    ensures Safe(now, destination, aside.disk[Aside(destination)], aside.disk[staging], unix)
  {
    var moved := MoveFolder(aside.disk, staging, destination, unix, aside.faults);
    MoveKeeps(aside.disk, staging, destination, unix, aside.faults, Aside(destination));
    if now !in moved.trace && moved.result.Ok? {
      MovePlaces(aside.disk, staging, destination, unix, aside.faults);
      RemoveKeeps(moved.disk, Aside(destination), moved.faults, destination);
    }
  }

  // Whichever operation fails, after every operation of a promotion that started
  // from a complete old folder, the old tree or the new one is whole.
  lemma NothingIsLost(
    disk: Disk, staging: Path, destination: Path, unix: bool, faults: seq<Fault>, k: nat)
    requires Apart(staging, destination) && staging in disk && destination in disk
    requires k < |Promote(disk, staging, destination, unix, faults).trace|
    ensures Safe(Promote(disk, staging, destination, unix, faults).trace[k],
                 destination, disk[destination], disk[staging], unix)
  {
    if WasSetAside(disk, destination, faults) && k >= 1 {
      SetAsideHolds(disk, staging, destination, faults);
      var now := Promote(disk, staging, destination, unix, faults).trace[k];
      if k >= 2 {
        MoveInIsSafe(SetAside(disk, destination, faults).1, staging, destination, unix, now);
      }
    } else {
      BeforeSetAside(disk, staging, destination, unix, faults, k);
    }
  }

  // The last disk recorded is the one the promotion leaves; none is when the parent
  // folder can't be made.
  lemma TraceEndsInDisk(disk: Disk, staging: Path, destination: Path, unix: bool, faults: seq<Fault>)
    ensures var run := Promote(disk, staging, destination, unix, faults);
            if Head(faults).Fails? then run.trace == [] && run.disk == disk && run.result.Err?
            else run.trace != [] && run.trace[|run.trace| - 1] == run.disk
  {
    if Head(faults).Works? {
      var aside := SetAside(disk, destination, faults).1;
      MoveInEndsInDisk(aside, staging, destination, unix);
    }
  }

  lemma MoveInEndsInDisk(aside: Done, staging: Path, destination: Path, unix: bool)
    ensures var run := MoveIn(aside, staging, destination, unix);
            run.trace != [] && run.trace[|run.trace| - 1] == run.disk
  {
    MoveEndsInDisk(aside.disk, staging, destination, unix, aside.faults);
  }

  lemma MoveEndsInDisk(disk: Disk, staging: Path, destination: Path, unix: bool, faults: seq<Fault>)
    ensures var run := MoveFolder(disk, staging, destination, unix, faults);
            run.trace != [] && run.trace[|run.trace| - 1] == run.disk
  {
    var renamed := Rename(disk, staging, destination, faults);
    if renamed.result == Err(CrossesDevices) {
      var copy := CopyTree(disk[staging], unix, renamed.faults);
      var run := Crossing(disk, staging, destination, copy);
      assert run.trace == [] ==> copy.steps == [] && run.disk == disk;
      assert run.trace != [] ==> run.trace[|run.trace| - 1] == run.disk;
    }
  }

  // A copy begins with an empty folder, unless that can't be made.
  lemma CopyBegins(from: Node, unix: bool, faults: seq<Fault>)
    ensures var copy := CopyTree(from, unix, faults);
            if Head(faults).Fails? then copy.steps == [] && copy.result.Err?
            else copy.steps != [] && copy.steps[0] == Folder([], 0x1ED)
  {
  }

  // Until then the old folder is where it was.
  lemma BeforeSetAside(
    disk: Disk, staging: Path, destination: Path, unix: bool, faults: seq<Fault>, k: nat)
    requires destination in disk && destination != Aside(destination)
    requires k < |Promote(disk, staging, destination, unix, faults).trace|
    requires WasSetAside(disk, destination, faults) ==> k == 0
    ensures var now := Promote(disk, staging, destination, unix, faults).trace[k];
            destination in now && now[destination] == disk[destination]
  {
    RemoveKeeps(disk, Aside(destination), Tail(faults), destination);
    var (removed, aside) := SetAside(disk, destination, faults);
    assert aside.result.Err? ==> aside.disk == removed.disk;
  }

  // A promotion that succeeds, over an old folder or over nothing, leaves exactly
  // the staged tree at the destination; across disks, where links can't be
  // copied, when it has none.
  lemma SuccessPlacesTheNew(disk: Disk, staging: Path, destination: Path, unix: bool, faults: seq<Fault>)
    requires Apart(staging, destination)
    requires Promote(disk, staging, destination, unix, faults).result.Ok?
    ensures staging in disk
    ensures var last := Promote(disk, staging, destination, unix, faults).disk;
            && destination in last && IsNew(last[destination], disk[staging], unix)
            && (unix || !HasLinks(disk[staging]) ==> last[destination] == disk[staging])
  {
    var (removed, aside) := SetAside(disk, destination, faults);
    SuccessfulMoveIn(aside, staging, destination, unix);
    assert Keeps(aside.disk, disk, staging);
    CopiedIffNoLinks(disk[staging], unix);
  }

  lemma SuccessfulMoveIn(aside: Done, staging: Path, destination: Path, unix: bool)
    requires Apart(staging, destination)
    requires MoveIn(aside, staging, destination, unix).result.Ok?
    ensures staging in aside.disk
    ensures var last := MoveIn(aside, staging, destination, unix).disk;
            destination in last && IsNew(last[destination], aside.disk[staging], unix)
  {
    var moved := MoveFolder(aside.disk, staging, destination, unix, aside.faults);
    MovePlaces(aside.disk, staging, destination, unix, aside.faults);
    RemoveKeeps(moved.disk, Aside(destination), moved.faults, destination);
  }

  function At(disk: Disk, path: Path): Option<Node> {
    if path in disk then Some(disk[path]) else None
  }

  // What is left of what a path held when it is to be removed; `faults` begin with
  // the look at it.
  function LeftByRemoval(there: Option<Node>, faults: seq<Fault>): Option<Node> {
    if Head(faults).Fails? || there.None? then there
    else match Head(Tail(faults))
      case Works => None
      case Fails(_, leftover) => if leftover.Some? then leftover else there
  }

  lemma RemovalLeaves(disk: Disk, path: Path, faults: seq<Fault>, other: Path)
    requires other != path
    ensures var last := RemoveAny(disk, path, faults).disk;
            At(last, path) == LeftByRemoval(At(disk, path), faults) && At(last, other) == At(disk, other)
  {
  }

  // After a success the `.old` name holds only what could not be removed of it.
  lemma SuccessRemovesTheOld(disk: Disk, staging: Path, destination: Path, unix: bool, faults: seq<Fault>)
    requires Apart(staging, destination)
    requires Promote(disk, staging, destination, unix, faults).result.Ok?
    ensures var moved := Moving(disk, staging, destination, unix, faults);
            At(Promote(disk, staging, destination, unix, faults).disk, Aside(destination)) ==
            LeftByRemoval(At(SetAside(disk, destination, faults).1.disk, Aside(destination)), moved.faults)
  {
    SuccessfulMoveInRemoves(SetAside(disk, destination, faults).1, staging, destination, unix);
  }

  lemma SuccessfulMoveInRemoves(aside: Done, staging: Path, destination: Path, unix: bool)
    requires Apart(staging, destination)
    requires MoveIn(aside, staging, destination, unix).result.Ok?
    ensures var moved := MoveFolder(aside.disk, staging, destination, unix, aside.faults);
            At(MoveIn(aside, staging, destination, unix).disk, Aside(destination)) ==
            LeftByRemoval(At(aside.disk, Aside(destination)), moved.faults)
  {
    var moved := MoveFolder(aside.disk, staging, destination, unix, aside.faults);
    MoveChangesNo(aside.disk, staging, destination, unix, aside.faults, Aside(destination));
    RemovalLeaves(moved.disk, Aside(destination), moved.faults, destination);
  }

  lemma MoveChangesNo(
    disk: Disk, staging: Path, destination: Path, unix: bool, faults: seq<Fault>, other: Path)
    requires other != staging && other != destination
    ensures At(MoveFolder(disk, staging, destination, unix, faults).disk, other) == At(disk, other)
  {
  }

  // When nothing fails the disk holds the staged tree at the destination, and nothing
  // where it was staged and at the `.old` name.
  lemma NothingFails(disk: Disk, staging: Path, destination: Path, unix: bool)
    requires Apart(staging, destination) && staging in disk
    ensures var run := Promote(disk, staging, destination, unix, []);
            && run.result == Ok
            && run.disk == (disk - {staging, destination + ".old"})[destination := disk[staging]]
  {
  }

  // So it does with the staged folder on another disk, but for links where there are
  // none.
  lemma NothingElseFailsAcross(disk: Disk, staging: Path, destination: Path, unix: bool)
    requires Apart(staging, destination) && staging in disk && disk[staging].Folder?
    requires Aside(destination) !in disk
    ensures var run := Promote(disk, staging, destination, unix, [Works, Works, Works, Fails(true, None)]);
            && run.result == Ok
            && run.disk == (disk - {staging, destination + ".old"})[destination := Copied(disk[staging], unix)]
  {
    var crosses := Fails(true, None);
    var faults := [Works, Works, Works, crosses];
    assert faults[1..] == [Works, Works, crosses] && faults[1..][1..] == [Works, crosses];
    assert faults[1..][1..][1..] == [crosses] && [crosses][1..] == [];
    var (removed, aside) := SetAside(disk, destination, faults);
    assert aside.faults == [crosses];
    CrossesFaultless(aside.disk, staging, destination, unix);
  }

  lemma CrossesFaultless(disk: Disk, staging: Path, destination: Path, unix: bool)
    requires Apart(staging, destination) && staging in disk && disk[staging].Folder?
    requires destination !in disk
    ensures var run := MoveFolder(disk, staging, destination, unix, [Fails(true, None)]);
            && run.result == Ok && run.faults == []
            && run.disk == (disk - {staging})[destination := Copied(disk[staging], unix)]
  {
    assert [Fails(true, None)][1..] == [];
    CopiesFaultless(disk[staging], unix);
    CopySucceeds(disk[staging], unix, []);
  }

  lemma {:induction false} CopiesFaultless(from: Node, unix: bool)
    requires from.Folder?
    ensures CopyTree(from, unix, []).result == Ok && CopyTree(from, unix, []).faults == []
    decreases from, 1
  {
    EntriesCopyFaultless(from.entries, [], unix);
  }

  lemma {:induction false} EntriesCopyFaultless(entries: seq<(string, Node)>, done: seq<(string, Node)>, unix: bool)
    ensures CopyEntries(entries, done, unix, []).result == Ok && CopyEntries(entries, done, unix, []).faults == []
    decreases entries, 0
  {
    if entries != [] {
      EntryCopiesFaultless(entries[0], unix);
      EntriesCopyFaultless(entries[1..], done + CopiedEntries([entries[0]], unix), unix);
    }
  }

  lemma {:induction false} EntryCopiesFaultless(entry: (string, Node), unix: bool)
    ensures CopyEntry(entry, unix, []).result == Ok && CopyEntry(entry, unix, []).faults == []
    decreases entry, 2
  {
    if entry.1.Folder? {
      CopiesFaultless(entry.1, unix);
    }
  }

  // The move after the old folder was set aside.
  function Moving(disk: Disk, staging: Path, destination: Path, unix: bool, faults: seq<Fault>): Run {
    var aside := SetAside(disk, destination, faults).1;
    MoveFolder(aside.disk, staging, destination, unix, aside.faults)
  }

  // What a move that failed left at the destination: nothing when its rename was
  // refused, a part of the copy when that failed, the whole copy when only the
  // staged folder could not be removed.
  function LeftByMove(aside: Done, staging: Path, destination: Path, unix: bool): Option<Node> {
    if Rename(aside.disk, staging, destination, aside.faults).result != Err(CrossesDevices) then None
    else
      var copy := CopyTree(aside.disk[staging], unix, Tail(aside.faults));
      if copy.steps == [] then None else Some(LastStep(copy))
  }

  // The rename that restores the old tree is let through.
  predicate CanRestore(before: Node, left: Option<Node>, fault: Fault) {
    fault.Works? && (left.None? || Replaces(before, left.value))
  }

  // Whatever made the move fail, the old tree is at the destination again if and
  // only if its rename works and finds nothing in its way, or the move had left
  // the same tree there. Otherwise it is at its `.old` name, and the destination
  // holds just what the move left.
  lemma FailureRestoresTheOld(disk: Disk, staging: Path, destination: Path, unix: bool, faults: seq<Fault>)
    requires Apart(staging, destination) && destination in disk
    requires WasSetAside(disk, destination, faults)
    requires Moving(disk, staging, destination, unix, faults).result.Err?
    ensures var aside := SetAside(disk, destination, faults).1;
            var left := LeftByMove(aside, staging, destination, unix);
            var fault := Head(Moving(disk, staging, destination, unix, faults).faults);
            var last := Promote(disk, staging, destination, unix, faults).disk;
            && (destination in last && last[destination] == disk[destination] <==>
                  CanRestore(disk[destination], left, fault) || left == Some(disk[destination]))
            && (!CanRestore(disk[destination], left, fault) ==>
                  && Aside(destination) in last && last[Aside(destination)] == disk[destination]
                  && (destination in last <==> left.Some?)
                  && (left.Some? ==> last[destination] == left.value))
  {
    var aside := SetAside(disk, destination, faults).1;
    var left := LeftByMove(aside, staging, destination, unix);
    var moved := Moving(disk, staging, destination, unix, faults);
    WasAside(disk, destination, faults);
    MoveLeaves(aside, staging, destination, unix);
    MoveKeeps(aside.disk, staging, destination, unix, aside.faults, Aside(destination));
    RestoresOver(moved.disk, destination, moved.faults);
  }

  lemma WasAside(disk: Disk, destination: Path, faults: seq<Fault>)
    requires destination in disk && destination != Aside(destination)
    requires WasSetAside(disk, destination, faults)
    ensures var aside := SetAside(disk, destination, faults).1.disk;
            destination !in aside && Aside(destination) in aside && aside[Aside(destination)] == disk[destination]
  {
  }

  lemma MoveLeaves(aside: Done, staging: Path, destination: Path, unix: bool)
    requires Apart(staging, destination) && destination !in aside.disk
    requires MoveFolder(aside.disk, staging, destination, unix, aside.faults).result.Err?
    ensures var left := LeftByMove(aside, staging, destination, unix);
            var moved := MoveFolder(aside.disk, staging, destination, unix, aside.faults).disk;
            (destination in moved <==> left.Some?) && (left.Some? ==> moved[destination] == left.value)
  {
  }

  // A copy that was whole, and a staged folder that can't be removed: the
  // promotion fails, yet unless the old tree can replace an empty one the new tree
  // stays at the destination, and the old one at its `.old` name.
  lemma RefusedRemovalKeepsTheNew(disk: Disk, staging: Path, destination: Path, unix: bool, faults: seq<Fault>)
    requires Apart(staging, destination) && staging in disk && destination in disk
    requires WasSetAside(disk, destination, faults)
    requires var aside := SetAside(disk, destination, faults).1;
             && Rename(aside.disk, staging, destination, aside.faults).result == Err(CrossesDevices)
             && CopyTree(disk[staging], unix, Tail(aside.faults)).result.Ok?
             && Head(CopyTree(disk[staging], unix, Tail(aside.faults)).faults).Fails?
    requires !Replaces(disk[destination], Copied(disk[staging], unix))
    ensures var run := Promote(disk, staging, destination, unix, faults);
            && run.result.Err?
            && destination in run.disk && run.disk[destination] == Copied(disk[staging], unix)
            && Aside(destination) in run.disk && run.disk[Aside(destination)] == disk[destination]
  {
    var aside := SetAside(disk, destination, faults).1;
    SetAsideHolds(disk, staging, destination, faults);
    CopySucceeds(disk[staging], unix, Tail(aside.faults));
    FailureRestoresTheOld(disk, staging, destination, unix, faults);
  }

  // On one disk nothing is in the way of that rename: unless it fails itself, the
  // disk holds again what it held, but for what was at the `.old` name before.
  lemma SameDiskFailureRestores(disk: Disk, staging: Path, destination: Path, unix: bool, faults: seq<Fault>)
    requires Apart(staging, destination) && staging in disk && destination in disk
    requires WasSetAside(disk, destination, faults)
    requires var aside := SetAside(disk, destination, faults).1;
             Rename(aside.disk, staging, destination, aside.faults).result == Err(Other)
    ensures Promote(disk, staging, destination, unix, faults).result == Err(Other)
    ensures Head(Moving(disk, staging, destination, unix, faults).faults).Works? ==>
              Promote(disk, staging, destination, unix, faults).disk == disk - {Aside(destination)}
  {
    SetAsideHolds(disk, staging, destination, faults);
  }

  // -- What is not always so ---------------------------------------------------------------------

  // There is a moment at which the destination is empty exactly when the old folder
  // is set aside.
  lemma DestinationIsNeverEmptyIff(disk: Disk, staging: Path, destination: Path, unix: bool, faults: seq<Fault>)
    requires Apart(staging, destination) && staging in disk && destination in disk
    ensures var trace := Promote(disk, staging, destination, unix, faults).trace;
            (forall k :: 0 <= k < |trace| ==> destination in trace[k]) <==>
            !WasSetAside(disk, destination, faults)
  {
    var trace := Promote(disk, staging, destination, unix, faults).trace;
    if WasSetAside(disk, destination, faults) {
      SetAsideHolds(disk, staging, destination, faults);
      assert trace[1] == SetAside(disk, destination, faults).1.disk;
    } else {
      forall k | 0 <= k < |trace|
        ensures destination in trace[k]
      {
        BeforeSetAside(disk, staging, destination, unix, faults, k);
      }
    }
  }

  // The old tree, or the new one, is whole at the destination.
  predicate StandsWhole(disk: Disk, destination: Path, before: Node, staged: Node, unix: bool) {
    destination in disk && (disk[destination] == before || IsNew(disk[destination], staged, unix))
  }

  lemma RemovesAside(disk: Disk, staging: Path, destination: Path, unix: bool, faults: seq<Fault>)
    requires destination != Aside(destination)
    ensures var run := Promote(disk, staging, destination, unix, faults);
            if Head(faults).Fails? then run.trace == [] && run.disk == disk
            else
              && run.trace != []
              && At(run.trace[0], destination) == At(disk, destination)
              && At(run.trace[0], Aside(destination)) == LeftByRemoval(At(disk, Aside(destination)), Tail(faults))
  {
    RemovalLeaves(disk, Aside(destination), Tail(faults), destination);
  }

  // Another promotion removes the `.old` tree first, if its parent folder is there.
  // What one promotion set aside outlives that exactly when it stands whole at the
  // destination, or the removal fails and leaves it whole.
  lemma AnotherPromotionForgetsTheOld(
    disk: Disk, staging: Path, destination: Path, unix: bool, faults: seq<Fault>,
    nextStaging: Path, nextFaults: seq<Fault>)
    requires Apart(staging, destination) && staging in disk && destination in disk
    ensures var first := Promote(disk, staging, destination, unix, faults).disk;
            var next := Promote(first, nextStaging, destination, unix, nextFaults);
            if Head(nextFaults).Fails? then next.trace == [] && next.disk == first
            else
              && next.trace != []
              && (Safe(next.trace[0], destination, disk[destination], disk[staging], unix) <==>
                    || StandsWhole(first, destination, disk[destination], disk[staging], unix)
                    || LeftByRemoval(At(first, Aside(destination)), Tail(nextFaults)) == Some(disk[destination]))
  {
    RemovesAside(Promote(disk, staging, destination, unix, faults).disk, nextStaging, destination, unix, nextFaults);
  }

  // The removal takes the tree, or spoils it half way.
  predicate Spoils(faults: seq<Fault>, tree: Node) {
    && Head(faults).Works?
    && match Head(Tail(faults))
       case Works => true
       case Fails(_, leftover) => leftover.Some? && leftover.value != tree
  }

  // Which failed promotions those are: the old tree is lost to the next one exactly
  // when it could not be restored, the move left neither it nor the new one, and the
  // removal takes or spoils it.
  lemma OldIsForgottenIff(
    disk: Disk, staging: Path, destination: Path, unix: bool, faults: seq<Fault>,
    nextStaging: Path, nextFaults: seq<Fault>)
    requires Apart(staging, destination) && staging in disk && destination in disk
    requires WasSetAside(disk, destination, faults)
    requires Moving(disk, staging, destination, unix, faults).result.Err?
    requires Head(nextFaults).Works?
    ensures var first := Promote(disk, staging, destination, unix, faults).disk;
            var trace := Promote(first, nextStaging, destination, unix, nextFaults).trace;
            var left := LeftByMove(SetAside(disk, destination, faults).1, staging, destination, unix);
            var fault := Head(Moving(disk, staging, destination, unix, faults).faults);
            trace != [] &&
            (!Safe(trace[0], destination, disk[destination], disk[staging], unix) <==>
              && !CanRestore(disk[destination], left, fault)
              && left != Some(disk[destination])
              && (left.Some? ==> !IsNew(left.value, disk[staging], unix))
              && Spoils(Tail(nextFaults), disk[destination]))
  {
    AnotherPromotionForgetsTheOld(disk, staging, destination, unix, faults, nextStaging, nextFaults);
    FailureRestoresTheOld(disk, staging, destination, unix, faults);
  }

  // It happens: on every disk with no `.old` there, two refused renames leave the
  // old tree at that name alone, and a promotion in which nothing fails removes it.
  lemma TwoRefusalsForget(disk: Disk, staging: Path, destination: Path, unix: bool)
    requires Apart(staging, destination) && staging in disk && destination in disk
    requires Aside(destination) !in disk
    ensures var refused := Fails(false, None);
            var first := Promote(disk, staging, destination, unix, [Works, Works, Works, refused, refused]).disk;
            && first == (disk - {destination})[Aside(destination) := disk[destination]]
            && var trace := Promote(first, staging, destination, unix, []).trace;
               trace != [] && !Safe(trace[0], destination, disk[destination], disk[staging], unix)
  {
    var refused := Fails(false, None);
    var faults := [Works, Works, Works, refused, refused];
    assert faults[1..] == [Works, Works, refused, refused];
    assert faults[1..][1..] == [Works, refused, refused];
    assert faults[1..][1..][1..] == [refused, refused];
    assert [refused, refused][1..] == [refused];
    var (removed, aside) := SetAside(disk, destination, faults);
    assert removed.disk == disk && aside.faults == [refused, refused];
    assert Rename(aside.disk, staging, destination, aside.faults).result == Err(Other);
    var first := Promote(disk, staging, destination, unix, faults).disk;
    assert first == aside.disk;
    RemovesAside(first, staging, destination, unix, []);
  }

  lemma RestoresOver(disk: Disk, destination: Path, faults: seq<Fault>)
    requires destination != Aside(destination) && Aside(destination) in disk
    ensures var restored := Rename(disk, Aside(destination), destination, faults).disk;
            if Head(faults).Works? && (destination !in disk || Replaces(disk[Aside(destination)], disk[destination]))
            then destination in restored && restored[destination] == disk[Aside(destination)]
            else restored == disk
  {
  }

  // And a copy can put something in its way: this one stops after its first file.
  lemma CopyStopsAfterFirst(first: Node, second: Node, copying: seq<Fault>)
    requires first.File? && second.File? && copying == [Works, Works, Works, Fails(false, None)]
    ensures var copy := CopyTree(Folder([("1", first), ("2", second)], 0), true, copying);
            && copy.result == Err(Other) && copy.steps != []
            && LastStep(copy) == Folder([("1", first)], DEFAULT_MODE)
            && forall before: Node :: before.Folder? ==> !Replaces(before, LastStep(copy))
  {
    var entries := [("1", first), ("2", second)];
    assert copying[1..][1..][1..] == [Fails(false, None)];
    var one := CopyEntry(entries[0], true, copying[1..][1..]);
    assert one == Copy(Ok, [first], [Fails(false, None)]);
    var none: seq<(string, Node)> := [];
    assert none + [("1", first)] == [("1", first)];
    assert Within([first], "1", none) == [Folder([("1", first)], DEFAULT_MODE)];
    assert entries[1..] == [("2", second)];
    assert CopyEntries(entries, [], true, copying[1..]).steps == [Folder([("1", first)], DEFAULT_MODE)];
  }
}
