/**
  The persisted Espresso state (store/espresso_store.go), the readers that turn it into the
  block number put in client requests (proxy/interceptor.go), and the readiness handler that
  caches it (main.go).

  Two views of the same code are given.  The classes are the code, one call at a time.  The
  `World` machine splits every call at its locks and at the rename, so that reads, crashes and
  restarts may fall between any two of its steps.
*/
module Store {
  import opened Common

  /** The persisted record.  An `updatedAt` of 0 is Go's zero time. */
  datatype State = State(l2: nat, fallback: nat, updatedAt: nat)

  /** What `loadFromDisk` asks of a parsed file. */
  predicate Loadable(s: State) {
    s.fallback != 0 && s.updatedAt != 0
  }

  /** What the interceptor asks of the state before it substitutes its number. */
  predicate Known(s: State) {
    s.fallback != 0 && s.l2 != 0 && s.updatedAt != 0
  }

  /** How writing the file ends.  The replacement is atomic: the rename happened or it did not. */
  datatype Io = Succeeds | Fails | CrashesAfterRename

  /** What `UpdateIfGreater` reports; `Crashed` means the process is gone before the memory update. */
  datatype Verdict = Updated | NotGreater | WriteFailed | Crashed

  /** Memory and file of a running process, between two calls. */
  datatype Cell = Cell(mem: State, file: State)

  function Update(c: Cell, next: State, io: Io): (Cell, Verdict) {
    if c.mem.l2 >= next.l2 then (c, NotGreater)
    else match io
      case Succeeds => (Cell(next, next), Updated)
      case Fails => (c, WriteFailed)
      case CrashesAfterRename => (c.(file := next), Crashed)
  }

  // ---------------------------------------------------------------- the code, call by call

  /** The state file, which outlives the process. */
  class Disk {
    var file: Option<State>

    constructor (file: Option<State>)
      ensures this.file == file
    {
      this.file := file;
    }

    method Replace(next: State, io: Io)
      modifies this
      ensures file == if io.Fails? then old(file) else Some(next)
    {
      if !io.Fails? {
        file := Some(next);
      }
    }
  }

  class EspressoStore {
    const disk: Disk
    var state: State

    constructor (disk: Disk, state: State)
      ensures this.disk == disk && this.state == state
    {
      this.disk := disk;
      this.state := state;
    }

    ghost predicate Valid()
      reads this, disk
    {
      disk.file.Some?
    }

    ghost function View(): Cell
      reads this, disk
      requires Valid()
    {
      Cell(state, disk.file.value)
    }

    /** `mustCreateEspressoStore` followed by `NewEspressoStore`; null is a refusal to start. */
    static method Open(disk: Disk, initialHeight: nat, now: nat, io: Io) returns (store: EspressoStore?)
      modifies disk
      ensures var w := Do(World(old(disk.file), Down, [], []), Start(initialHeight, now, io));
              && disk.file == w.file
              && (store != null <==> w.proc.Up?)
              && (store != null ==> fresh(store) && store.disk == disk && store.Valid() && store.state == w.proc.mem)
      ensures old(disk.file).Some? ==>
                var loaded := old(disk.file).value;
                && disk.file == old(disk.file)
                && (store != null <==> loaded.fallback != 0 && loaded.updatedAt != 0)
                && (store != null ==> store.state == loaded)
      ensures old(disk.file).None? ==>
                && disk.file == (if initialHeight == 0 || io.Fails? then None else Some(State(0, initialHeight, now)))
                && (store != null <==> initialHeight != 0 && io.Succeeds?)
                && (store != null ==> disk.file == Some(store.state))
    {
      store := null;
      if disk.file.Some? {
        var loaded := disk.file.value;
        if loaded.fallback == 0 || loaded.updatedAt == 0 {
          return;
        }
        store := new EspressoStore(disk, loaded);
        return;
      }
      if initialHeight == 0 {
        return;
      }
      var fresh0 := State(0, initialHeight, now);
      disk.Replace(fresh0, io);
      if io.Succeeds? {
        store := new EspressoStore(disk, fresh0);
      }
    }

    method UpdateIfGreater(l2: nat, fallback: nat, now: nat, io: Io) returns (v: Verdict)
      requires Valid()
      modifies this, disk
      ensures Valid()
      ensures (View(), v) == Update(old(View()), State(l2, fallback, now), io)
      ensures v.NotGreater? <==> l2 <= old(state).l2
      ensures !v.NotGreater? ==> (v.Updated? <==> io.Succeeds?) && (v.WriteFailed? <==> io.Fails?)
      ensures state == if v.Updated? then State(l2, fallback, now) else old(state)
      ensures disk.file == if v.Updated? || v.Crashed? then Some(State(l2, fallback, now)) else old(disk.file)
    {
      var current := state;
      if current.l2 >= l2 {
        return NotGreater;
      }
      var next := State(l2, fallback, now);
      disk.Replace(next, io);
      match io {
        case Fails => return WriteFailed;
        case CrashesAfterRename => return Crashed;
        case Succeeds =>
      }
      state := next;
      return Updated;
    }

    /** `getCurrentEspressoFinalizedBlockNumber`: none while the state is empty. */
    method FinalizedBlockNumber() returns (n: Option<nat>)
      ensures n == if Known(state) then Some(state.l2) else None
      ensures n.Some? <==> state.fallback != 0 && state.l2 != 0 && state.updatedAt != 0
    {
      if state.fallback == 0 || state.l2 == 0 || state.updatedAt == 0 {
        return None;
      }
      return Some(state.l2);
    }
  }

  /** The /ready handler: after its first 200 it never looks at the store again. */
  class ReadinessHandler {
    const store: EspressoStore
    var swapped: bool

    constructor (store: EspressoStore)
      ensures this.store == store && !swapped
    {
      this.store := store;
      this.swapped := false;
    }

    method Probe() returns (ready: bool)
      modifies this
      ensures (ready, swapped) == ProbeOf(old(swapped), store.state)
      ensures ready <==> old(swapped) || store.state.l2 != 0
    {
      if swapped {
        return true;
      }
      if store.state.l2 == 0 {
        return false;
      }
      swapped := true;
      return true;
    }
  }

  /** The handler's answer and whether it has swapped itself afterwards. */
  function ProbeOf(swapped: bool, mem: State): (bool, bool) {
    var ready := swapped || mem.l2 != 0;
    (ready, ready)
  }

  // ---------------------------------------------------------------- the machine, step by step

  /** Where the single writer is inside `UpdateIfGreater`. */
  datatype Phase = Idle | Checked(next: State) | Renamed(next: State)

  datatype Proc = Down | Up(mem: State, phase: Phase, swapped: bool)

  /**
    `served` lists the numbers put in client requests, oldest first.  `answers` pairs each
    readiness answer with the one a handler that rereads the store would have given.
  */
  datatype World = World(file: Option<State>, proc: Proc, served: seq<nat>, answers: seq<(bool, bool)>)

  datatype Step =
    | Start(initialHeight: nat, now: nat, io: Io)
    | Begin(next: State)
    | Rename
    | WriteError
    | Commit
    | Serve
    | Probe
    | Crash

  function Booted(s: State): Proc {
    Up(s, Idle, false)
  }

  /** One step; a step that its process is not ready for changes nothing. */
  function Do(w: World, s: Step): World {
    match w.proc
    case Down =>
      if !s.Start? then w
      else if w.file.Some? then
        if Loadable(w.file.value) then w.(proc := Booted(w.file.value)) else w
      else if s.initialHeight == 0 || s.io.Fails? then w
      else
        var first := State(0, s.initialHeight, s.now);
        w.(file := Some(first), proc := if s.io.Succeeds? then Booted(first) else Down)
    case Up(mem, phase, swapped) =>
      match s
      case Begin(next) =>
        if phase.Idle? && mem.l2 < next.l2 then w.(proc := Up(mem, Checked(next), swapped)) else w
      case Rename =>
        if phase.Checked? then w.(file := Some(phase.next), proc := Up(mem, Renamed(phase.next), swapped)) else w
      case WriteError =>
        if phase.Checked? then w.(proc := Up(mem, Idle, swapped)) else w
      case Commit =>
        if phase.Renamed? then w.(proc := Up(phase.next, Idle, swapped)) else w
      case Serve =>
        if Known(mem) then w.(served := w.served + [mem.l2]) else w
      case Probe =>
        var (ready, swapped') := ProbeOf(swapped, mem);
        w.(proc := Up(mem, phase, swapped'), answers := w.answers + [(ready, mem.l2 != 0)])
      case Crash => w.(proc := Down)
      case Start(_, _, _) => w
  }

  function Exec(w: World, steps: seq<Step>): World {
    if steps == [] then w else Do(Exec(w, steps[..|steps| - 1]), steps[|steps| - 1])
  }

  function Boot(file: Option<State>): World {
    World(file, Down, [], [])
  }

  ghost predicate Sorted(s: seq<nat>) {
    forall i, j :: 0 <= i < j < |s| ==> s[i] <= s[j]
  }

  ghost predicate AllAtMost(s: seq<nat>, bound: nat) {
    forall i :: 0 <= i < |s| ==> s[i] <= bound
  }

  ghost predicate Invariant(w: World) {
    && Sorted(w.served)
    && (w.served != [] ==> w.file.Some?)
    && (w.file.Some? ==> AllAtMost(w.served, w.file.value.l2))
    && (forall a :: a in w.answers ==> a.0 == a.1)
    && (w.proc.Up? ==>
          && w.file.Some?
          && AllAtMost(w.served, w.proc.mem.l2)
          && (w.proc.swapped ==> w.proc.mem.l2 != 0)
          && match w.proc.phase
             case Idle => w.file.value == w.proc.mem
             case Checked(next) => w.file.value == w.proc.mem && w.proc.mem.l2 < next.l2
             case Renamed(next) => w.file.value == next && w.proc.mem.l2 < next.l2)
  }

  lemma StepKeepsInvariant(w: World, s: Step)
    requires Invariant(w)
    ensures Invariant(Do(w, s))
  {
  }

  lemma {:induction false} Reachable(file: Option<State>, steps: seq<Step>)
    ensures Invariant(Exec(Boot(file), steps))
  {
    if steps == [] {
    } else {
      Reachable(file, steps[..|steps| - 1]);
      StepKeepsInvariant(Exec(Boot(file), steps[..|steps| - 1]), steps[|steps| - 1]);
    }
  }

  /**
    Over every interleaving of requests, the phases of updates, failed writes, crashes (also
    between rename and memory update) and restarts, from any file: the numbers put in requests
    never decrease, and neither memory nor the file is ever below one of them.
  */
  lemma ServedTagNeverDecreases(file: Option<State>, steps: seq<Step>)
    ensures var w := Exec(Boot(file), steps);
            && Sorted(w.served)
            && (w.served != [] ==> w.file.Some? && AllAtMost(w.served, w.file.value.l2))
            && (w.proc.Up? ==> w.file.Some? && w.file.value.l2 >= w.proc.mem.l2 && AllAtMost(w.served, w.proc.mem.l2))
  {
    Reachable(file, steps);
  }

  /** The self-swapping handler answers like one that rereads the store on every request. */
  lemma ReadinessAgreesWithStore(file: Option<State>, steps: seq<Step>)
    ensures var w := Exec(Boot(file), steps);
            forall i :: 0 <= i < |w.answers| ==> w.answers[i].0 == w.answers[i].1
  {
    Reachable(file, steps);
  }

  /** Inputs that carry the nonzero heights and clock readings a later load insists on. */
  predicate Sound(s: Step) {
    match s
    case Start(h, now, _) => h != 0 && now != 0
    case Begin(next) => Loadable(next)
    case _ => true
  }

  lemma {:induction false} FileStaysLoadable(file: Option<State>, steps: seq<Step>)
    requires file.Some? ==> Loadable(file.value)
    requires forall s :: s in steps ==> Sound(s)
    ensures var w := Exec(Boot(file), steps);
            && (w.file.Some? ==> Loadable(w.file.value))
            && (w.proc.Up? && w.proc.phase.Checked? ==> Loadable(w.proc.phase.next))
  {
    if steps == [] {
    } else {
      FileStaysLoadable(file, steps[..|steps| - 1]);
      assert steps[|steps| - 1] in steps;
    }
  }

  /**
    With nonzero heights no crash leaves a file that the next start refuses: a restart comes up
    with exactly the file's state, hence at or above every number served before.
  */
  lemma RestartResumes(file: Option<State>, steps: seq<Step>, restart: Step)
    requires file.Some? ==> Loadable(file.value)
    requires forall s :: s in steps ==> Sound(s)
    requires restart.Start? && Sound(restart)
    requires Exec(Boot(file), steps).proc.Down?
    ensures var w := Exec(Boot(file), steps);
            var w' := Do(w, restart);
            && (w.file.Some? ==> w'.proc == Booted(w.file.value))
            && (w.file.None? && restart.io.Succeeds? ==> w'.proc.Up? && w'.proc.mem.l2 == 0)
            && (w'.proc.Up? ==> AllAtMost(w.served, w'.proc.mem.l2))
  {
    Reachable(file, steps);
    FileStaysLoadable(file, steps);
  }

  /** The call-by-call `Update` is exactly a run of the phases with nothing in between. */
  function PhasesOf(next: State, io: Io): seq<Step> {
    match io
    case Succeeds => [Begin(next), Rename, Commit]
    case Fails => [Begin(next), WriteError]
    case CrashesAfterRename => [Begin(next), Rename]
  }

  lemma UpdateRunsThePhases(w: World, next: State, io: Io)
    requires Invariant(w) && w.proc.Up? && w.proc.phase.Idle?
    ensures var (c, v) := Update(Cell(w.proc.mem, w.file.value), next, io);
            var w' := Exec(w, PhasesOf(next, io));
            && w'.file == Some(c.file)
            && w'.proc.Up? && w'.proc.mem == c.mem
            && (w'.proc.phase.Idle? <==> !v.Crashed?)
            && w'.served == w.served
  {
    var ps := PhasesOf(next, io);
    assert ps[..|ps| - 1][..|ps| - 2] == ps[..|ps| - 2];
    assert ps[..1] == [Begin(next)];
    assert ps[..1][..0] == [];
    assert Exec(w, ps[..1]) == Do(w, Begin(next));
    assert ps[..|ps| - 2] == if io.Succeeds? then ps[..1] else [];
  }

  // ---------------------------------------------------------------- more than one writer

  /** The two remaining actions of a writer that has passed its check. */
  datatype Act = RenameA | CommitA | RenameB | CommitB

  predicate Interleaving(order: seq<Act>) {
    order in {
      [RenameA, CommitA, RenameB, CommitB], [RenameA, RenameB, CommitA, CommitB],
      [RenameA, RenameB, CommitB, CommitA], [RenameB, RenameA, CommitA, CommitB],
      [RenameB, RenameA, CommitB, CommitA], [RenameB, CommitB, RenameA, CommitA]
    }
  }

  function Perform(c: Cell, a: State, b: State, act: Act): Cell {
    match act
    case RenameA => c.(file := a)
    case RenameB => c.(file := b)
    case CommitA => c.(mem := a)
    case CommitB => c.(mem := b)
  }

  function PerformAll(c: Cell, a: State, b: State, order: seq<Act>): Cell
    decreases |order|
  {
    if order == [] then c
    else Perform(PerformAll(c, a, b, order[..|order| - 1]), a, b, order[|order| - 1])
  }

  /** After the first j actions memory holds a lower number than after the first i, with i <= j. */
  ghost predicate Regresses(c: Cell, a: State, b: State, order: seq<Act>) {
    exists i, j :: 0 <= i <= j <= |order|
      && PerformAll(c, a, b, order[..j]).mem.l2 < PerformAll(c, a, b, order[..i]).mem.l2
  }

  lemma LowerCommitLastRegresses(c: Cell, a: State, b: State, order: seq<Act>)
    requires a.l2 != b.l2
    requires order == if a.l2 > b.l2 then [RenameA, CommitA, RenameB, CommitB] else [RenameB, CommitB, RenameA, CommitA]
    ensures Regresses(c, a, b, order)
  {
    assert order[..2][..1] == order[..1];
    assert PerformAll(c, a, b, order[..2]).mem == if a.l2 > b.l2 then a else b;
    assert order[..4] == order;
    assert PerformAll(c, a, b, order[..4]).mem == if a.l2 > b.l2 then b else a;
  }

  lemma {:induction false} EqualNumbersClimb(c: Cell, a: State, b: State, order: seq<Act>, i: nat, j: nat)
    requires c.mem.l2 <= a.l2 == b.l2 && i <= j <= |order|
    ensures PerformAll(c, a, b, order[..i]).mem.l2 <= PerformAll(c, a, b, order[..j]).mem.l2 <= a.l2
    decreases j
  {
    if j == 0 {
      assert order[..j] == [];
    } else {
      assert order[..j][..j - 1] == order[..j - 1];
      EqualNumbersClimb(c, a, b, order, if i < j then i else j - 1, j - 1);
    }
  }

  /**
    `UpdateIfGreater` relies on its single writer.  When two calls with numbers above the
    memory's have both passed the check, some order of their remaining actions takes the memory
    backwards exactly when their numbers differ.
  */
  lemma TwoWritersRegressIffNumbersDiffer(c: Cell, a: State, b: State)
    requires c.mem.l2 < a.l2 && c.mem.l2 < b.l2
    ensures (exists order :: Interleaving(order) && Regresses(c, a, b, order)) <==> a.l2 != b.l2
  {
    if a.l2 != b.l2 {
      var order := if a.l2 > b.l2 then [RenameA, CommitA, RenameB, CommitB] else [RenameB, CommitB, RenameA, CommitA];
      LowerCommitLastRegresses(c, a, b, order);
      assert Interleaving(order);
    } else {
      forall order | Interleaving(order)
        ensures !Regresses(c, a, b, order)
      {
        forall i, j | 0 <= i <= j <= |order|
          ensures PerformAll(c, a, b, order[..i]).mem.l2 <= PerformAll(c, a, b, order[..j]).mem.l2
        {
          EqualNumbersClimb(c, a, b, order, i, j);
        }
      }
    }
  }
}
