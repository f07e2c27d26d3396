/** The VM registry under interleaved verbs, polls and watchdogs (crates/vdsm-virt/src/verbs.rs). Each
    step is one section under the registry's write lock; verbs, polls and watchdogs of any number of
    tasks interleave between them. */
module VmRegistry {
  import opened Prelude

  type Id = string

  datatype VmState = WaitForLaunch | PoweringUp | Up | Down | Paused | PoweringDown

  datatype Vm = Vm(id: Id, name: string, mem: nat, vcpus: nat, state: VmState, created: nat)

  type Registry = map<Id, Vm>

  /** A shutdown watchdog still asleep: the domain name and VM id it captured. */
  datatype Watchdog = Watchdog(name: string, id: Id)

  /** The registry, the watchdogs asleep, each under the number of the task it runs in, and how many
      such tasks were spawned. */
  datatype World = World(reg: Registry, pending: map<nat, Watchdog>, spawned: nat)

  const START: World := World(map[], map[], 0)

  /** What one poll saw of libvirt: the running domains, and for each its trimmed UUID (empty when
      it could not be read), memory and processors. */
  datatype Snapshot = Snapshot(running: seq<string>, uuid: string -> Id, mem: string -> nat, vcpus: string -> nat)

  // ------------------------------------------------------------------- reconcile

  function Retained(reg: Registry, running: seq<string>): Registry {
    map id | id in reg && reg[id].name in running :: reg[id]
  }

  function Adopt(reg: Registry, snap: Snapshot, name: string, now: nat): Registry {
    var id := snap.uuid(name);
    if id == "" || id in reg then reg
    else reg[id := Vm(id, name, snap.mem(name), snap.vcpus(name), Up, now)]
  }

  function AdoptAll(reg: Registry, snap: Snapshot, names: seq<string>, now: nat): Registry
    decreases |names|
  {
    if names == [] then reg else AdoptAll(Adopt(reg, snap, names[0], now), snap, names[1..], now)
  }

  function Reconcile(reg: Registry, snap: Snapshot, now: nat): Registry {
    AdoptAll(Retained(reg, snap.running), snap, snap.running, now)
  }

  // ----------------------------------------------------------------------- steps

  datatype Step =
    | Create(vm: Vm, defined: bool, started: bool)
    | MigrationCreate(vm: Vm)
    | Destroy(id: Id)
    | Shutdown(id: Id, name: string)
    | Fire(task: nat, running: bool)
    | Cont(id: Id)
    | Pause(id: Id)
    | Poll(snap: Option<Snapshot>, now: nat)

  function SetState(reg: Registry, id: Id, st: VmState): Registry {
    if id in reg then reg[id := reg[id].(state := st)] else reg
  }

  function Apply(w: World, step: Step): World {
    match step
    case Create(vm, defined, started) =>
      if defined && started then w.(reg := w.reg[vm.id := vm.(state := Up)]) else w
    case MigrationCreate(vm) => w.(reg := w.reg[vm.id := vm.(state := WaitForLaunch)])
    case Destroy(id) => w.(reg := w.reg - {id})
    case Shutdown(id, name) =>
      World(SetState(w.reg, id, PoweringDown), w.pending[w.spawned := Watchdog(name, id)], w.spawned + 1)
    case Fire(task, running) =>
      if task !in w.pending then w
      else
        World(if running then SetState(w.reg, w.pending[task].id, Down) else w.reg, w.pending - {task}, w.spawned)
    case Cont(id) => w.(reg := SetState(w.reg, id, Up))
    case Pause(id) => w.(reg := SetState(w.reg, id, Paused))
    case Poll(None, _) => w
    case Poll(Some(snap), now) => w.(reg := Reconcile(w.reg, snap, now))
  }

  function Run(steps: seq<Step>): World {
    if steps == [] then START else Apply(Run(steps[..|steps| - 1]), steps[|steps| - 1])
  }

  // -------------------------------------------------------- what reconcile does

  /** The record is the one a poll makes of a domain it did not know. */
  predicate AdoptedFrom(snap: Snapshot, now: nat, vm: Vm) {
    && snap.uuid(vm.name) == vm.id && vm.mem == snap.mem(vm.name) && vm.vcpus == snap.vcpus(vm.name)
    && vm.state == Up && vm.created == now
  }

  lemma {:induction false} AdoptAllGives(reg: Registry, snap: Snapshot, names: seq<string>, now: nat)
    ensures var r := AdoptAll(reg, snap, names, now);
            && (forall id :: id in reg ==> id in r && r[id] == reg[id])
            && (forall i :: 0 <= i < |names| && snap.uuid(names[i]) != "" ==> snap.uuid(names[i]) in r)
            && (forall id :: id in r && id !in reg ==>
                  r[id].id == id && id != "" && r[id].name in names && AdoptedFrom(snap, now, r[id]))
    decreases |names|
  {
    if names != [] {
      AdoptAllGives(Adopt(reg, snap, names[0], now), snap, names[1..], now);
    }
  }

  lemma {:induction false} AdoptNothing(reg: Registry, snap: Snapshot, names: seq<string>, now: nat)
    requires forall i :: 0 <= i < |names| && snap.uuid(names[i]) != "" ==> snap.uuid(names[i]) in reg
    ensures AdoptAll(reg, snap, names, now) == reg
    decreases |names|
  {
    if names != [] {
      assert Adopt(reg, snap, names[0], now) == reg;
      AdoptNothing(reg, snap, names[1..], now);
    }
  }

  /** After a poll every record is of a running domain, every running domain whose UUID could be
      read has a record, records that were there and still run are untouched, and new ones are Up. */
  lemma PollReflectsLibvirt(reg: Registry, snap: Snapshot, now: nat)
    ensures var r := Reconcile(reg, snap, now);
            && (forall id :: id in r ==> r[id].name in snap.running)
            && (forall i :: 0 <= i < |snap.running| && snap.uuid(snap.running[i]) != ""
                  ==> snap.uuid(snap.running[i]) in r)
            && (forall id :: id in reg && reg[id].name in snap.running ==> id in r && r[id] == reg[id])
            && (forall id :: id in r && (id !in reg || reg[id].name !in snap.running) ==>
                  r[id].id == id && AdoptedFrom(snap, now, r[id]))
  {
    AdoptAllGives(Retained(reg, snap.running), snap, snap.running, now);
  }

  /** Polling again with the same view of libvirt changes nothing. */
  lemma PollIdempotent(reg: Registry, snap: Snapshot, now: nat, later: nat)
    ensures Reconcile(Reconcile(reg, snap, now), snap, later) == Reconcile(reg, snap, now)
  {
    var r := Reconcile(reg, snap, now);
    PollReflectsLibvirt(reg, snap, now);
    assert Retained(r, snap.running) == r;
    AdoptNothing(r, snap, snap.running, later);
  }

  // ------------------------------------------------------- every interleaving

  predicate Keyed(reg: Registry) {
    forall id :: id in reg ==> reg[id].id == id
  }

  lemma StepKeyed(w: World, step: Step)
    requires Keyed(w.reg)
    ensures Keyed(Apply(w, step).reg)
  {
    if step.Poll? && step.snap.Some? {
      AdoptAllGives(Retained(w.reg, step.snap.value.running), step.snap.value, step.snap.value.running, step.now);
    }
  }

  /** In every interleaving each registry key is its record's own id. */
  lemma {:induction false} RunKeyed(steps: seq<Step>)
    ensures Keyed(Run(steps).reg)
    decreases |steps|
  {
    if steps != [] {
      RunKeyed(steps[..|steps| - 1]);
      StepKeyed(Run(steps[..|steps| - 1]), steps[|steps| - 1]);
    }
  }

  /** An absent id appears only through its own create or migrationCreate, or because a poll found a
      running domain with that UUID; in particular no watchdog brings a destroyed VM back. */
  lemma OnlyCreationAdds(w: World, step: Step, id: Id)
    requires id !in w.reg && id in Apply(w, step).reg
    ensures || ((step.Create? || step.MigrationCreate?) && step.vm.id == id)
            || (step.Poll? && step.snap.Some? &&
                exists i :: 0 <= i < |step.snap.value.running| && step.snap.value.uuid(step.snap.value.running[i]) == id)
  {
    if step.Poll? && step.snap.Some? {
      var snap := step.snap.value;
      AdoptAllGives(Retained(w.reg, snap.running), snap, snap.running, step.now);
      var name := Apply(w, step).reg[id].name;
      assert name in snap.running;
    }
  }

  // ------------------------------------------------------------ down by watchdog

  /** The state before step `k` of a run. */
  function Before(steps: seq<Step>, k: nat): World
    requires k <= |steps|
  {
    Run(steps[..k])
  }

  lemma RunOneMore(steps: seq<Step>, step: Step)
    ensures Run(steps + [step]) == Apply(Run(steps), step)
  {
    assert (steps + [step])[..|steps|] == steps;
  }

  lemma {:induction false} PendingNumbered(steps: seq<Step>, task: nat)
    ensures task in Run(steps).pending ==> task < Run(steps).spawned
    decreases |steps|
  {
    if steps != [] {
      PendingNumbered(steps[..|steps| - 1], task);
    }
  }

  /** Step `i` is the shutdown that spawned the watchdog numbered `task`. */
  ghost predicate SpawnedAt(steps: seq<Step>, i: nat, task: nat, dog: Watchdog)
    requires i < |steps|
  {
    steps[i] == Shutdown(dog.id, dog.name) && Before(steps, i).spawned == task
  }

  /** The watchdog's step is yet to come. */
  predicate Unfired(steps: seq<Step>, i: nat, task: nat) {
    forall k :: i < k < |steps| ==> !(steps[k].Fire? && steps[k].task == task)
  }

  ghost predicate Asleep(steps: seq<Step>, task: nat, dog: Watchdog) {
    exists i :: 0 <= i < |steps| && SpawnedAt(steps, i, task, dog) && Unfired(steps, i, task)
  }

  /** Every shutdown, of a known VM or not, leaves a watchdog that sleeps until it fires, and there are
      no others. */
  lemma {:induction false} AsleepExactly(steps: seq<Step>, task: nat, dog: Watchdog)
    ensures task in Run(steps).pending && Run(steps).pending[task] == dog <==> Asleep(steps, task, dog)
    decreases |steps|
  {
    if steps != [] {
      var n := |steps| - 1;
      var front, w := steps[..n], Run(steps[..n]);
      AsleepExactly(front, task, dog);
      PendingNumbered(front, task);
      AsleepStep(steps, task, dog);
      if steps[n].Shutdown? && w.spawned == task {
        NotYetSpawned(front, task, dog);
      }
    }
  }

  lemma NotYetSpawned(steps: seq<Step>, task: nat, dog: Watchdog)
    requires Run(steps).spawned == task
    ensures !Asleep(steps, task, dog)
  {
    if i :| 0 <= i < |steps| && SpawnedAt(steps, i, task, dog) {
      assert steps[..i + 1][..i] == steps[..i] && steps[..|steps|] == steps;
      SpawnedGrows(steps, i + 1, |steps|);
    }
  }

  lemma AsleepStep(steps: seq<Step>, task: nat, dog: Watchdog)
    requires steps != []
    ensures var n := |steps| - 1;
            Asleep(steps, task, dog) <==>
              || SpawnedAt(steps, n, task, dog)
              || (Asleep(steps[..n], task, dog) && !(steps[n].Fire? && steps[n].task == task))
  {
    var n := |steps| - 1;
    var front := steps[..n];
    if Asleep(front, task, dog) && !(steps[n].Fire? && steps[n].task == task) {
      var i :| 0 <= i < n && SpawnedAt(front, i, task, dog) && Unfired(front, i, task);
      SpawnedInPrefix(steps, n, i, task, dog);
      assert Unfired(steps, i, task);
    }
    if Asleep(steps, task, dog) {
      var i :| 0 <= i < |steps| && SpawnedAt(steps, i, task, dog) && Unfired(steps, i, task);
      if i < n {
        assert front[..i] == steps[..i];
        assert SpawnedAt(front, i, task, dog) && Unfired(front, i, task);
      }
    }
    if SpawnedAt(steps, n, task, dog) {
      assert Unfired(steps, n, task);
    }
  }

  lemma {:induction false} SpawnedGrows(steps: seq<Step>, i: nat, j: nat)
    requires i <= j <= |steps|
    ensures Before(steps, i).spawned <= Before(steps, j).spawned
    decreases j
  {
    if i < j {
      SpawnedGrows(steps, i, j - 1);
      assert steps[..j][..j - 1] == steps[..j - 1];
    }
  }

  /** No two shutdowns spawn the same watchdog. */
  lemma SpawnedOnce(steps: seq<Step>, i: nat, i': nat, task: nat, dog: Watchdog, dog': Watchdog)
    requires i < i' < |steps| && SpawnedAt(steps, i, task, dog)
    ensures !SpawnedAt(steps, i', task, dog')
  {
    assert steps[..i + 1][..i] == steps[..i];
    SpawnedGrows(steps, i + 1, i');
  }

  lemma SpawnedInPrefix(steps: seq<Step>, n: nat, i: nat, task: nat, dog: Watchdog)
    requires i < n <= |steps| && SpawnedAt(steps[..n], i, task, dog)
    ensures SpawnedAt(steps, i, task, dog)
  {
    assert steps[..n][..i] == steps[..i];
  }

  lemma {:induction false} PendingSpawned(steps: seq<Step>, task: nat)
    requires task in Run(steps).pending
    ensures exists i :: 0 <= i < |steps| && SpawnedAt(steps, i, task, Run(steps).pending[task])
    decreases |steps|
  {
    var n := |steps| - 1;
    var dog, w := Run(steps).pending[task], Run(steps[..n]);
    PendingNumbered(steps[..n], task);
    if task in w.pending && w.pending[task] == dog {
      PendingSpawned(steps[..n], task);
      var i :| 0 <= i < n && SpawnedAt(steps[..n], i, task, dog);
      SpawnedInPrefix(steps, n, i, task, dog);
    } else {
      assert SpawnedAt(steps, n, task, dog);
    }
  }

  /** The step leaves the record of `id` where it is, in whatever state. */
  predicate Keeps(w: World, step: Step, id: Id) {
    && id in w.reg
    && match step
       case Create(vm, defined, started) => !(defined && started && vm.id == id)
       case MigrationCreate(vm) => vm.id != id
       case Destroy(i) => i != id
       case Poll(Some(snap), _) => w.reg[id].name in snap.running
       case _ => true
  }

  lemma KeptRecord(w: World, step: Step, id: Id)
    requires Keeps(w, step, id)
    ensures id in Apply(w, step).reg
    ensures Apply(w, step).reg[id].(state := Up) == w.reg[id].(state := Up)
  {
    if step.Poll? && step.snap.Some? {
      PollReflectsLibvirt(w.reg, step.snap.value, step.now);
    }
  }

  lemma NewRecord(w: World, step: Step, id: Id)
    requires id in Apply(w, step).reg && !Keeps(w, step, id)
    ensures Apply(w, step).reg[id].state == Up || Apply(w, step).reg[id].state == WaitForLaunch
    ensures step.Create? || step.MigrationCreate? || step.Poll?
  {
    if step.Poll? && step.snap.Some? {
      PollReflectsLibvirt(w.reg, step.snap.value, step.now);
    }
  }

  /** The step that put the record of `id` in its place. */
  function Birth(steps: seq<Step>, id: Id): (b: nat)
    requires id in Run(steps).reg
    ensures b < |steps|
  {
    var n := |steps| - 1;
    if Keeps(Run(steps[..n]), steps[n], id) then Birth(steps[..n], id) else n
  }

  predicate KeptAt(steps: seq<Step>, k: nat, id: Id)
    requires k < |steps|
  {
    Keeps(Before(steps, k), steps[k], id)
  }

  lemma KeptInPrefix(steps: seq<Step>, n: nat, id: Id)
    requires n <= |steps|
    ensures forall k :: 0 <= k < n ==> KeptAt(steps[..n], k, id) == KeptAt(steps, k, id)
  {
    forall k | 0 <= k < n ensures KeptAt(steps[..n], k, id) == KeptAt(steps, k, id) {
      assert steps[..n][..k] == steps[..k];
    }
  }

  /** A record was put in place after step `i` exactly when some step after `i` did not keep what was
      there: a VM removed, dropped or replaced is never the same record again. */
  lemma {:induction false} BornAfter(steps: seq<Step>, id: Id, i: nat)
    requires id in Run(steps).reg && i < |steps|
    ensures Birth(steps, id) > i <==> exists k :: i < k < |steps| && !KeptAt(steps, k, id)
    decreases |steps|
  {
    var n := |steps| - 1;
    if KeptAt(steps, n, id) && i < n {
      BornAfter(steps[..n], id, i);
      KeptInPrefix(steps, n, id);
    }
  }

  /** Step `j` is a watchdog that found its domain running; the shutdown at `i` spawned it, for `id`. */
  ghost predicate TimedOut(steps: seq<Step>, i: nat, j: nat, id: Id)
    requires i < j < |steps|
  {
    && steps[j].Fire? && steps[j].running
    && exists name :: SpawnedAt(steps, i, steps[j].task, Watchdog(name, id))
  }

  lemma TimedOutInPrefix(steps: seq<Step>, n: nat, i: nat, j: nat, id: Id)
    requires i < j < n <= |steps| && TimedOut(steps[..n], i, j, id)
    ensures TimedOut(steps, i, j, id)
  {
    var name :| SpawnedAt(steps[..n], i, steps[j].task, Watchdog(name, id));
    SpawnedInPrefix(steps, n, i, steps[j].task, Watchdog(name, id));
  }

  lemma DownComesFrom(w: World, step: Step, id: Id)
    requires id in Apply(w, step).reg && Apply(w, step).reg[id].state == Down
    ensures Keeps(w, step, id)
    ensures || w.reg[id].state == Down
            || (step.Fire? && step.running && step.task in w.pending && w.pending[step.task].id == id)
  {
    if !Keeps(w, step, id) {
      NewRecord(w, step, id);
    } else if step.Poll? && step.snap.Some? {
      PollReflectsLibvirt(w.reg, step.snap.value, step.now);
    }
  }

  /** A Down record was put down by step `j` while in place. */
  ghost predicate PutDown(steps: seq<Step>, i: nat, j: nat, id: Id)
    requires i < j < |steps| && id in Run(steps).reg
  {
    TimedOut(steps, i, j, id) && Birth(steps, id) < j
  }

  /** In every interleaving, a record is Down only because a shutdown of that id was requested and its
      watchdog later found the domain still running, with the record already in place. */
  lemma {:induction false} DownOnlyByWatchdog(steps: seq<Step>, id: Id)
    requires id in Run(steps).reg && Run(steps).reg[id].state == Down
    ensures exists i, j :: 0 <= i < j < |steps| && PutDown(steps, i, j, id)
    decreases |steps|
  {
    var n := |steps| - 1;
    var front, last, w := steps[..n], steps[n], Run(steps[..n]);
    DownComesFrom(w, last, id);
    if w.reg[id].state == Down {
      DownOnlyByWatchdog(front, id);
      var i, j :| 0 <= i < j < n && PutDown(front, i, j, id);
      TimedOutInPrefix(steps, n, i, j, id);
      assert PutDown(steps, i, j, id);
    } else {
      PendingSpawned(front, last.task);
      var i :| 0 <= i < n && SpawnedAt(front, i, last.task, w.pending[last.task]);
      SpawnedInPrefix(steps, n, i, last.task, w.pending[last.task]);
      assert PutDown(steps, i, n, id);
    }
  }

  /** Watchdogs know VMs by id alone. The record put down is a later VM than the one the shutdown was
      for exactly when some step between the two removed, dropped or replaced that one. */
  lemma StaleWatchdog(steps: seq<Step>, i: nat, j: nat, id: Id)
    requires i < j < |steps| && id in Run(steps).reg && PutDown(steps, i, j, id)
    ensures Birth(steps, id) > i <==> exists k :: i < k < j && !KeptAt(steps, k, id)
  {
    BornAfter(steps, id, i);
    BornAfter(steps, id, j - 1);
  }

  /** It happens: a VM destroyed and created again is put down by the watchdog of the first one. */
  lemma NewVmPutDown(vm: Vm, vm': Vm)
    requires vm'.id == vm.id
    ensures var run := [Create(vm, true, true), Shutdown(vm.id, vm.name), Destroy(vm.id)]
                       + [Create(vm', true, true), Fire(0, true)];
            vm.id in Run(run).reg && Run(run).reg[vm.id] == vm'.(state := Down)
  {
    var a := [Create(vm, true, true)];
    var b := a + [Shutdown(vm.id, vm.name)];
    var c := b + [Destroy(vm.id)];
    var d := c + [Create(vm', true, true)];
    RunOneMore([], a[0]);
    RunOneMore(a, Shutdown(vm.id, vm.name));
    RunOneMore(b, Destroy(vm.id));
    RunOneMore(c, Create(vm', true, true));
    RunOneMore(d, Fire(0, true));
    assert [] + a == a;
    assert d + [Fire(0, true)] == [Create(vm, true, true), Shutdown(vm.id, vm.name), Destroy(vm.id)]
                                  + [Create(vm', true, true), Fire(0, true)];
  }

  // ---------------------------------------------------- what a record says, and why

  /** The record is described by the step that put it in place. */
  predicate DescribedBy(step: Step, vm: Vm) {
    match step
    case Create(given, defined, started) => defined && started && vm == given.(state := vm.state)
    case MigrationCreate(given) => vm == given.(state := vm.state)
    case Poll(Some(snap), now) => vm.name in snap.running && AdoptedFrom(snap, now, vm.(state := Up))
    case _ => false
  }

  lemma PlacedBy(w: World, step: Step, id: Id)
    requires id in Apply(w, step).reg && !Keeps(w, step, id)
    ensures DescribedBy(step, Apply(w, step).reg[id])
  {
    if step.Poll? && step.snap.Some? {
      PollReflectsLibvirt(w.reg, step.snap.value, step.now);
    }
  }

  lemma StillDescribed(step: Step, vm: Vm, vm': Vm)
    requires DescribedBy(step, vm) && vm'.(state := Up) == vm.(state := Up)
    ensures DescribedBy(step, vm')
  {
  }

  /** In every interleaving a record says what the step that put it in place said: the VM created or
      announced, or what the poll saw of a domain it did not know. */
  lemma {:induction false} RecordExplained(steps: seq<Step>, id: Id)
    requires id in Run(steps).reg
    ensures DescribedBy(steps[Birth(steps, id)], Run(steps).reg[id])
    decreases |steps|
  {
    var n := |steps| - 1;
    var w := Run(steps[..n]);
    if Keeps(w, steps[n], id) {
      RecordExplained(steps[..n], id);
      KeptRecord(w, steps[n], id);
      StillDescribed(steps[Birth(steps, id)], w.reg[id], Run(steps).reg[id]);
    } else {
      PlacedBy(w, steps[n], id);
    }
  }

  /** The step puts the record of `id` in place, or is a verb or a timed-out watchdog for it. */
  predicate Speaks(w: World, step: Step, id: Id) {
    || (id in Apply(w, step).reg && !Keeps(w, step, id))
    || (id in w.reg && match step
        case Shutdown(i, _) => i == id
        case Fire(task, running) => running && task in w.pending && w.pending[task].id == id
        case Cont(i) => i == id
        case Pause(i) => i == id
        case _ => false)
  }

  /** The state a step that speaks leaves. */
  function Said(step: Step): VmState {
    match step
    case Create(_, _, _) => Up
    case MigrationCreate(_) => WaitForLaunch
    case Poll(_, _) => Up
    case Shutdown(_, _) => PoweringDown
    case Fire(_, _) => Down
    case Cont(_) => Up
    case Pause(_) => Paused
    case Destroy(_) => Down
  }

  lemma SpokenState(w: World, step: Step, id: Id)
    requires id in Apply(w, step).reg
    ensures Speaks(w, step, id) ==> Apply(w, step).reg[id].state == Said(step)
    ensures !Speaks(w, step, id) ==> Keeps(w, step, id) && Apply(w, step).reg[id] == w.reg[id]
  {
    if step.Poll? && step.snap.Some? {
      PollReflectsLibvirt(w.reg, step.snap.value, step.now);
    }
  }

  /** Step `j` is the last that spoke of `id`. */
  ghost predicate LastWord(steps: seq<Step>, j: nat, id: Id)
    requires j < |steps|
  {
    && Speaks(Before(steps, j), steps[j], id)
    && forall k :: j < k < |steps| ==> Silent(steps, k, id)
  }

  ghost predicate Silent(steps: seq<Step>, k: nat, id: Id)
    requires k < |steps|
  {
    KeptAt(steps, k, id) && !Speaks(Before(steps, k), steps[k], id)
  }

  lemma LastWordLater(steps: seq<Step>, j: nat, id: Id)
    requires j < |steps| - 1 && LastWord(steps[..|steps| - 1], j, id) && Silent(steps, |steps| - 1, id)
    ensures LastWord(steps, j, id)
  {
    var front := steps[..|steps| - 1];
    assert front[..j] == steps[..j];
    forall k | j < k < |front| ensures Silent(steps, k, id) {
      assert Silent(front, k, id) && front[..k] == steps[..k];
    }
  }

  /** In every interleaving the state of a record is the one left by the last step that spoke of it:
      paused by a pause until another verb, a timed-out shutdown or a new record. */
  lemma {:induction false} StateExplained(steps: seq<Step>, id: Id)
    requires id in Run(steps).reg
    ensures exists j :: 0 <= j < |steps| && LastWord(steps, j, id) && Run(steps).reg[id].state == Said(steps[j])
    decreases |steps|
  {
    var n := |steps| - 1;
    var w := Run(steps[..n]);
    SpokenState(w, steps[n], id);
    if Speaks(w, steps[n], id) {
      assert LastWord(steps, n, id);
    } else {
      StateExplained(steps[..n], id);
      var j :| 0 <= j < n && LastWord(steps[..n], j, id) && w.reg[id].state == Said(steps[j]);
      assert Silent(steps, n, id);
      LastWordLater(steps, j, id);
    }
  }

  // -------------------------------------------------- the registry as it changes

  class VmHost {
    var records: Registry
    var watchdogs: map<nat, Watchdog>
    var spawned: nat
    /** The steps so far. */
    ghost var history: seq<Step>

    ghost function Abs(): World
      reads this
    {
      World(records, watchdogs, spawned)
    }

    /** The registry is what its history made of an empty one, so that theorems on runs hold of it. */
    ghost predicate Valid()
      reads this
    {
      Abs() == Run(history)
    }

    /** For instance these. */
    lemma AtAnyTime(id: Id)
      requires Valid() && id in records
      ensures records[id].id == id
      ensures records[id].state == Down ==> exists i, j :: 0 <= i < j < |history| && PutDown(history, i, j, id)
    {
      RunKeyed(history);
      if records[id].state == Down {
        DownOnlyByWatchdog(history, id);
      }
    }

    constructor ()
      ensures Valid() && history == [] && Abs() == START
    {
      records, watchdogs, spawned, history := map[], map[], 0, [];
    }

    /** Adds to the history the step just taken. */
    ghost method Note(step: Step, before: World)
      requires before == Run(history) && Abs() == Apply(before, step)
      modifies this`history
      ensures Valid() && history == old(history) + [step]
    {
      RunOneMore(history, step);
      history := history + [step];
    }

    method VmCreate(vm: Vm, defined: bool, started: bool) returns (ok: bool)
      requires Valid()
      modifies this
      ensures Valid() && history == old(history) + [Create(vm, defined, started)]
      ensures ok == (defined && started)
      ensures Abs() == Apply(old(Abs()), Create(vm, defined, started))
    {
      ok := false;
      if defined {
        if started {
          records := records[vm.id := vm.(state := Up)];
          ok := true;
        }
      }
      Note(Create(vm, defined, started), old(Abs()));
    }

    method VmMigrationCreate(vm: Vm)
      requires Valid()
      modifies this
      ensures Valid() && history == old(history) + [MigrationCreate(vm)]
      ensures Abs() == Apply(old(Abs()), MigrationCreate(vm))
    {
      records := records[vm.id := vm.(state := WaitForLaunch)];
      Note(MigrationCreate(vm), old(Abs()));
    }

    method VmDestroy(id: Id)
      requires Valid()
      modifies this
      ensures Valid() && history == old(history) + [Destroy(id)]
      ensures Abs() == Apply(old(Abs()), Destroy(id))
    {
      records := records - {id};
      Note(Destroy(id), old(Abs()));
    }

    method Mark(id: Id, st: VmState)
      modifies this`records
      ensures records == SetState(old(records), id, st)
    {
      if id in records {
        records := records[id := records[id].(state := st)];
      }
    }

    /** `name` was read under an earlier lock. */
    method VmShutdown(id: Id, name: string)
      requires Valid()
      modifies this
      ensures Valid() && history == old(history) + [Shutdown(id, name)]
      ensures Abs() == Apply(old(Abs()), Shutdown(id, name))
    {
      Mark(id, PoweringDown);
      watchdogs := watchdogs[spawned := Watchdog(name, id)];
      spawned := spawned + 1;
      Note(Shutdown(id, name), old(Abs()));
    }

    method WatchdogFires(task: nat, running: bool)
      requires task in watchdogs
      requires Valid()
      modifies this
      ensures Valid() && history == old(history) + [Fire(task, running)]
      ensures Abs() == Apply(old(Abs()), Fire(task, running))
    {
      var dog := watchdogs[task];
      watchdogs := watchdogs - {task};
      if running {
        Mark(dog.id, Down);
      }
      Note(Fire(task, running), old(Abs()));
    }

    method VmCont(id: Id)
      requires Valid()
      modifies this
      ensures Valid() && history == old(history) + [Cont(id)]
      ensures Abs() == Apply(old(Abs()), Cont(id))
    {
      Mark(id, Up);
      Note(Cont(id), old(Abs()));
    }

    method VmPause(id: Id)
      requires Valid()
      modifies this
      ensures Valid() && history == old(history) + [Pause(id)]
      ensures Abs() == Apply(old(Abs()), Pause(id))
    {
      Mark(id, Paused);
      Note(Pause(id), old(Abs()));
    }

    /** `reconcile_from_libvirt`: retain, then adopt domain by domain. */
    method ReconcileFromLibvirt(view: Option<Snapshot>, now: nat)
      requires Valid()
      modifies this
      ensures Valid() && history == old(history) + [Poll(view, now)]
      ensures Abs() == Apply(old(Abs()), Poll(view, now))
    {
      if view.Some? {
        AdoptRunning(view.value, now);
      }
      Note(Poll(view, now), old(Abs()));
    }

    method AdoptRunning(snap: Snapshot, now: nat)
      modifies this`records
      ensures records == Reconcile(old(records), snap, now)
    {
      records := map id | id in records && records[id].name in snap.running :: records[id];
      for i := 0 to |snap.running|
        invariant AdoptAll(records, snap, snap.running[i..], now) == Reconcile(old(records), snap, now)
      {
        var name := snap.running[i];
        assert snap.running[i..][1..] == snap.running[i + 1..];
        var id := snap.uuid(name);
        if id == "" || id in records {
          continue;
        }
        records := records[id := Vm(id, name, snap.mem(name), snap.vcpus(name), Up, now)];
      }
    }
  }
}
