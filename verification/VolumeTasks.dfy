/** Overlapping volume requests on a block storage domain. Each request is a task that runs one tool at
    a time, and between two tools any other task may run
    (crates/vdsm-storage/src/volumes.rs; nothing there holds a lock over a request). */
module VolumeTasks {
  import opened Prelude
  import opened BlockVolumes

  /** What a request has still to do. */
  datatype Task =
    | Formatting(img: Name, vol: Name, qcow2: bool, meta: string)
    | RollingBack(vol: Name)
    | MakingDir(img: Name, vol: Name, meta: string)
    | Writing(img: Name, vol: Name, meta: string)
    | Unlinking(img: Name, vol: Name)
    | Dropping(img: Name)

  datatype World = World(d: Domain, tasks: map<nat, Task>)

  datatype Format = Formatted | NotSpawned | FormatFailed

  /** One tool run, of the task `id`. */
  datatype Step =
    | StartCreate(id: nat, img: Name, vol: Name, size: nat, qcow2: bool, meta: string, ok: bool)
    | RunFormat(id: nat, format: Format)
    | RunRollback(id: nat, ok: bool)
    | RunMkdir(id: nat, ok: bool)
    | RunWrite(id: nat, outcome: WriteOutcome)
    | StartDelete(id: nat, img: Name, vol: Name, ok: bool)
    | RunUnlink(id: nat, ok: bool)
    | StartImageDelete(id: nat, img: Name)
    | RemoveListed(id: nat, vol: Name, ok: bool)
    | RunRmdir(id: nat, ok: bool)

  function Next(w: World, id: nat, t: Task): World {
    w.(tasks := w.tasks[id := t])
  }

  function End(w: World, id: nat): World {
    w.(tasks := w.tasks - {id})
  }

  function Put(w: World, slot: Slot, text: string): World {
    w.(d := w.d.(sidecars := w.d.sidecars[slot := text]))
  }

  /** One step of a creation, for the task `t` it finds. */
  function Make(w: World, step: Step, t: Task): World {
    match (t, step)
    case (Formatting(img, vol, qcow2, meta), RunFormat(id, format)) =>
      if !qcow2 || format == Formatted then Next(w, id, MakingDir(img, vol, meta))
      else if format == NotSpawned then End(w, id)
      else Next(w, id, RollingBack(vol))
    case (RollingBack(vol), RunRollback(id, ok)) => End(w.(d := Lvremove(w.d, vol, ok)), id)
    case (MakingDir(img, vol, meta), RunMkdir(id, ok)) =>
      if ok then Next(w, id, Writing(img, vol, meta)) else End(w, id)
    case (Writing(img, vol, meta), RunWrite(id, outcome)) =>
      (match outcome
       case Wrote => End(Put(w, Slot(img, vol), meta), id)
       case NotCreated => End(w, id)
       case Truncated(text) => End(Put(w, Slot(img, vol), text), id))
    case _ => w
  }

  /** One step of a deletion, for the task `t` it finds. */
  function Destroy(w: World, step: Step, t: Task): World {
    match (t, step)
    case (Unlinking(img, vol), RunUnlink(id, ok)) =>
      End(if ok then w.(d := w.d.(sidecars := w.d.sidecars - {Slot(img, vol)})) else w, id)
    case (Dropping(img), RemoveListed(id, vol, ok)) => w.(d := Lvremove(w.d, vol, ok))
    case (Dropping(img), RunRmdir(id, ok)) => End(if ok then w.(d := DropImage(w.d, img)) else w, id)
    case _ => w
  }

  /** The first step of a request; its id must be new. */
  function Begin(w: World, step: Step): World {
    match step
    case StartCreate(id, img, vol, size, qcow2, meta, ok) =>
      (match Lvcreate(w.d, vol, Rounded(size), ok)
       case None => w
       case Some(d') => Next(w.(d := d'), id, Formatting(img, vol, qcow2, meta)))
    case StartDelete(id, img, vol, ok) => Next(w.(d := Lvremove(w.d, vol, ok)), id, Unlinking(img, vol))
    case StartImageDelete(id, img) => Next(w, id, Dropping(img))
    case _ => w
  }

  function Do(w: World, step: Step): World {
    if step.id !in w.tasks then Begin(w, step)
    else
      var t := w.tasks[step.id];
      if Makes(t) then Make(w, step, t) else Destroy(w, step, t)
  }

  function Run(w: World, steps: seq<Step>): World
    decreases |steps|
  {
    if steps == [] then w else Run(Do(w, steps[0]), steps[1..])
  }

  // ------------------------------------------------------------------ invariant

  /** The task is a creation that has made its LV and not yet finished. */
  predicate Makes(t: Task) {
    t.Formatting? || t.RollingBack? || t.MakingDir? || t.Writing?
  }

  predicate MakesVol(t: Task, vol: Name) {
    Makes(t) && t.vol == vol
  }

  /** Some deletion under way will remove the sidecar. */
  ghost predicate Doomed(w: World, s: Slot) {
    exists id :: id in w.tasks && (w.tasks[id] == Unlinking(s.img, s.vol) || w.tasks[id] == Dropping(s.img))
  }

  /** No creation of the volume is under way. */
  ghost predicate NotInTheMaking(w: World, vol: Name) {
    forall id :: id in w.tasks ==> !MakesVol(w.tasks[id], vol)
  }

  ghost predicate AllDoomed(w: World, vol: Name) {
    forall s :: s in w.d.sidecars && s.vol == vol ==> Doomed(w, s)
  }

  /** Sidecars that no deletion is about to remove name existing LVs, and no two of them the same. A
      volume in the making has its LV and no such sidecar, and only one task makes it. */
  ghost predicate Inv(w: World) {
    && (forall s :: s in w.d.sidecars ==> s.vol in w.d.lvs || Doomed(w, s))
    && (forall s, s' :: s in w.d.sidecars && s' in w.d.sidecars && s.vol == s'.vol && s != s' ==>
          Doomed(w, s) || Doomed(w, s'))
    && (forall id :: id in w.tasks && Makes(w.tasks[id]) ==>
          w.tasks[id].vol in w.d.lvs && AllDoomed(w, w.tasks[id].vol))
    && (forall i, j :: i in w.tasks && j in w.tasks && Makes(w.tasks[i]) && MakesVol(w.tasks[j], w.tasks[i].vol)
          ==> i == j)
    && (forall v :: v in w.d.lvs ==> w.d.lvs[v] > 0 && w.d.lvs[v] % EXTENT == 0)
  }

  /** Removing the LV of a volume on behalf of a deletion: no creation of the volume is under way, and
      its sidecars are the one in the named image and ones already doomed. */
  ghost predicate MayRemove(w: World, img: Name, vol: Name, ok: bool) {
    Removes(w.d, vol, ok) ==>
      && NotInTheMaking(w, vol)
      && forall s :: s in w.d.sidecars && s.vol == vol ==> s.img == img || Doomed(w, s)
  }

  /** What is relied on: no deletion removes the LV of a volume in the making or of one under another
      image, and removing an existing sidecar or image directory succeeds. */
  ghost predicate Expected(w: World, step: Step) {
    match step
    case StartDelete(id, img, vol, ok) => id in w.tasks || MayRemove(w, img, vol, ok)
    case RemoveListed(id, vol, ok) =>
      id in w.tasks && w.tasks[id].Dropping? ==> MayRemove(w, w.tasks[id].img, vol, ok)
    case RunUnlink(_, ok) => ok
    case RunRmdir(_, ok) => ok
    case _ => true
  }

  ghost predicate ExpectedRun(w: World, steps: seq<Step>)
    decreases |steps|
  {
    steps == [] || (Expected(w, steps[0]) && ExpectedRun(Do(w, steps[0]), steps[1..]))
  }

  // ----------------------------------------------------------------- every step

  /** Doom lasts through steps that end no deletion. */
  ghost predicate KeepsDeletions(w: World, w': World) {
    forall id :: id in w.tasks && !Makes(w.tasks[id]) ==> id in w'.tasks && w'.tasks[id] == w.tasks[id]
  }

  lemma DoomKept(w: World, w': World)
    requires KeepsDeletions(w, w')
    ensures forall s :: Doomed(w, s) ==> Doomed(w', s)
  {
    forall s | Doomed(w, s) ensures Doomed(w', s) {
      var id :| id in w.tasks && (w.tasks[id] == Unlinking(s.img, s.vol) || w.tasks[id] == Dropping(s.img));
      assert !Makes(w.tasks[id]);
      assert id in w'.tasks && w'.tasks[id] == w.tasks[id];
    }
  }

  /** A creation that ends, whatever it leaves behind. */
  lemma EndKeeps(w: World, id: nat)
    requires Inv(w) && id in w.tasks && Makes(w.tasks[id])
    ensures Inv(End(w, id))
  {
    DoomKept(w, End(w, id));
  }

  /** A creation that goes on. */
  lemma NextKeeps(w: World, id: nat, t: Task)
    requires Inv(w) && id in w.tasks && Makes(w.tasks[id]) && Makes(t) && t.vol == w.tasks[id].vol
    ensures Inv(Next(w, id, t))
  {
    DoomKept(w, Next(w, id, t));
  }

  lemma CreateKeeps(w: World, id: nat, vol: Name, bytes: nat, t: Task)
    requires Inv(w) && id !in w.tasks && vol !in w.d.lvs && MakesVol(t, vol) && bytes > 0 && bytes % EXTENT == 0
    ensures Inv(Next(w.(d := w.d.(lvs := w.d.lvs[vol := bytes])), id, t))
  {
    DoomKept(w, Next(w.(d := w.d.(lvs := w.d.lvs[vol := bytes])), id, t));
  }

  /** Rolling back takes the LV of a volume that has no lasting sidecar and no other maker. */
  lemma RollbackKeeps(w: World, id: nat, ok: bool)
    requires Inv(w) && id in w.tasks && w.tasks[id].RollingBack?
    ensures Inv(End(w.(d := Lvremove(w.d, w.tasks[id].vol, ok)), id))
  {
    DoomKept(w, End(w.(d := Lvremove(w.d, w.tasks[id].vol, ok)), id));
  }

  lemma WriteKeeps(w: World, id: nat, text: string)
    requires Inv(w) && id in w.tasks && w.tasks[id].Writing?
    ensures Inv(End(Put(w, Slot(w.tasks[id].img, w.tasks[id].vol), text), id))
  {
    DoomKept(w, End(Put(w, Slot(w.tasks[id].img, w.tasks[id].vol), text), id));
  }

  lemma MakeKeeps(w: World, step: Step)
    requires Inv(w) && step.id in w.tasks && Makes(w.tasks[step.id])
    ensures Inv(Make(w, step, w.tasks[step.id]))
  {
    var id := step.id;
    match (w.tasks[id], step)
    case (Formatting(img, vol, qcow2, meta), RunFormat(_, format)) =>
      if !qcow2 || format == Formatted {
        NextKeeps(w, id, MakingDir(img, vol, meta));
      } else if format == NotSpawned {
        EndKeeps(w, id);
      } else {
        NextKeeps(w, id, RollingBack(vol));
      }
    case (RollingBack(vol), RunRollback(_, ok)) => RollbackKeeps(w, id, ok);
    case (MakingDir(img, vol, meta), RunMkdir(_, ok)) =>
      if ok { NextKeeps(w, id, Writing(img, vol, meta)); } else { EndKeeps(w, id); }
    case (Writing(img, vol, meta), RunWrite(_, outcome)) =>
      if outcome == NotCreated {
        EndKeeps(w, id);
      } else {
        WriteKeeps(w, id, if outcome == Wrote then meta else outcome.text);
      }
    case _ =>
  }

  lemma RemoveKeeps(w: World, w': World, vol: Name)
    requires Inv(w) && KeepsDeletions(w, w') && NotInTheMaking(w, vol)
    requires w'.d == w.d.(lvs := w.d.lvs - {vol}) && AllDoomed(w', vol)
    requires forall id :: id in w'.tasks && Makes(w'.tasks[id]) ==> id in w.tasks && w'.tasks[id] == w.tasks[id]
    ensures Inv(w')
  {
    DoomKept(w, w');
  }

  /** Exactly when a deletion may remove its LV: at that moment no creation of the volume is under
      way, and every sidecar it has is in the image named or doomed already. */
  lemma StartDeleteKeeps(w: World, id: nat, img: Name, vol: Name, ok: bool)
    requires Inv(w) && id !in w.tasks
    ensures Inv(Do(w, StartDelete(id, img, vol, ok))) <==> MayRemove(w, img, vol, ok)
  {
    var w' := Next(w.(d := Lvremove(w.d, vol, ok)), id, Unlinking(img, vol));
    DoomAdded(w, w', id, img, vol);
    if !Removes(w.d, vol, ok) {
      AddDeletionKeeps(w, id, Unlinking(img, vol));
    } else if MayRemove(w, img, vol, ok) {
      RemoveKeeps(w, w', vol);
    } else {
      RemoveBreaks(w, w', img, vol);
    }
  }

  lemma AddDeletionKeeps(w: World, id: nat, t: Task)
    requires Inv(w) && id !in w.tasks && !Makes(t)
    ensures Inv(Next(w, id, t))
  {
    DoomKept(w, Next(w, id, t));
  }

  lemma DoomAdded(w: World, w': World, id: nat, img: Name, vol: Name)
    requires id !in w.tasks && w'.tasks == w.tasks[id := Unlinking(img, vol)]
    ensures forall s :: Doomed(w', s) <==> Doomed(w, s) || s == Slot(img, vol)
  {
    DoomKept(w, w');
    assert w'.tasks[id] == Unlinking(img, vol);
  }

  lemma RemoveBreaks(w: World, w': World, img: Name, vol: Name)
    requires vol !in w'.d.lvs && w'.d.sidecars == w.d.sidecars
    requires forall i :: i in w.tasks ==> i in w'.tasks && w'.tasks[i] == w.tasks[i]
    requires forall s :: Doomed(w', s) ==> Doomed(w, s) || s.img == img
    requires !(NotInTheMaking(w, vol) && forall s :: s in w.d.sidecars && s.vol == vol ==> s.img == img || Doomed(w, s))
    ensures !Inv(w')
  {
    if i :| i in w.tasks && MakesVol(w.tasks[i], vol) {
      assert w'.tasks[i] == w.tasks[i];
    } else {
      var s :| s in w.d.sidecars && s.vol == vol && s.img != img && !Doomed(w, s);
      assert !Doomed(w', s);
    }
  }

  lemma RemoveListedKeeps(w: World, id: nat, vol: Name, ok: bool)
    requires Inv(w) && id in w.tasks && w.tasks[id].Dropping?
    ensures Inv(Do(w, RemoveListed(id, vol, ok))) <==> MayRemove(w, w.tasks[id].img, vol, ok)
  {
    var w' := w.(d := Lvremove(w.d, vol, ok));
    DoomKept(w, w');
    DoomKept(w', w);
    if Removes(w.d, vol, ok) {
      if MayRemove(w, w.tasks[id].img, vol, ok) {
        RemoveKeeps(w, w', vol);
      } else {
        RemoveBreaks(w, w', w.tasks[id].img, vol);
      }
    }
  }

  /** Ending a deletion with its sidecars gone. */
  lemma EndDeleteKeeps(w: World, id: nat, kept: map<Slot, string>)
    requires Inv(w) && id in w.tasks && !Makes(w.tasks[id])
    requires forall s :: s in kept ==> s in w.d.sidecars
    requires forall s :: s in kept ==> w.tasks[id] != Unlinking(s.img, s.vol) && w.tasks[id] != Dropping(s.img)
    ensures Inv(End(w.(d := w.d.(sidecars := kept)), id))
  {
    var w' := End(w.(d := w.d.(sidecars := kept)), id);
    forall s | s in kept && Doomed(w, s) ensures Doomed(w', s) {
      var i :| i in w.tasks && (w.tasks[i] == Unlinking(s.img, s.vol) || w.tasks[i] == Dropping(s.img));
      assert i in w'.tasks && w'.tasks[i] == w.tasks[i];
    }
  }

  lemma DestroyKeeps(w: World, step: Step)
    requires Inv(w) && Expected(w, step) && step.id in w.tasks && !Makes(w.tasks[step.id])
    ensures Inv(Destroy(w, step, w.tasks[step.id]))
  {
    var id := step.id;
    match (w.tasks[id], step)
    case (Unlinking(img, vol), RunUnlink(_, ok)) => EndDeleteKeeps(w, id, w.d.sidecars - {Slot(img, vol)});
    case (Dropping(img), RemoveListed(_, vol, ok)) => RemoveListedKeeps(w, id, vol, ok);
    case (Dropping(img), RunRmdir(_, ok)) => EndDeleteKeeps(w, id, DropImage(w.d, img).sidecars);
    case _ =>
  }

  lemma BeginKeeps(w: World, step: Step)
    requires Inv(w) && Expected(w, step) && step.id !in w.tasks
    ensures Inv(Begin(w, step))
  {
    match step
    case StartCreate(id, img, vol, size, qcow2, meta, ok) =>
      if Lvcreate(w.d, vol, Rounded(size), ok).Some? {
        RoundedLeast(size, 0);
        CreateKeeps(w, id, vol, Rounded(size), Formatting(img, vol, qcow2, meta));
      }
    case StartDelete(id, img, vol, ok) => StartDeleteKeeps(w, id, img, vol, ok);
    case StartImageDelete(id, img) => AddDeletionKeeps(w, id, Dropping(img));
    case _ =>
  }

  lemma StepKeeps(w: World, step: Step)
    requires Inv(w) && Expected(w, step)
    ensures Inv(Do(w, step))
  {
    if step.id !in w.tasks {
      BeginKeeps(w, step);
    } else if Makes(w.tasks[step.id]) {
      MakeKeeps(w, step);
    } else {
      DestroyKeeps(w, step);
    }
  }

  // --------------------------------------------- requests with nothing in between

  function FormatOf(t: Tools): Format {
    if !t.qemuSpawns then NotSpawned else if t.qemuSucceeds then Formatted else FormatFailed
  }

  /** The tools of one creation in turn, those it does not get to included: they find nothing to do. */
  function FinishSteps(id: nat, t: Tools): seq<Step> {
    [RunFormat(id, FormatOf(t)), RunRollback(id, t.rollback)] + [RunMkdir(id, t.mkdir), RunWrite(id, t.write)]
  }

  lemma FinishInSteps(w: World, id: nat, img: Name, vol: Name, qcow2: bool, meta: string, t: Tools)
    requires id in w.tasks && w.tasks[id] == Formatting(img, vol, qcow2, meta)
    ensures Run(w, FinishSteps(id, t)) == End(w.(d := Finish(w.d, img, vol, qcow2, meta, t).domain), id)
  {
    var w1 := Do(w, RunFormat(id, FormatOf(t)));
    var w2 := Do(w1, RunRollback(id, t.rollback));
    RunTwo(w, RunFormat(id, FormatOf(t)), RunRollback(id, t.rollback));
    RunTwo(w2, RunMkdir(id, t.mkdir), RunWrite(id, t.write));
    RunAppend(w, [RunFormat(id, FormatOf(t)), RunRollback(id, t.rollback)],
              [RunMkdir(id, t.mkdir), RunWrite(id, t.write)]);
    if !qcow2 || FormatOf(t) == Formatted {
      assert w2 == Next(w, id, MakingDir(img, vol, meta));
      SidecarInSteps(w2, id, img, vol, meta, t);
    }
  }

  lemma SidecarInSteps(w: World, id: nat, img: Name, vol: Name, meta: string, t: Tools)
    requires id in w.tasks && w.tasks[id] == MakingDir(img, vol, meta)
    ensures Do(Do(w, RunMkdir(id, t.mkdir)), RunWrite(id, t.write)) ==
            End(w.(d := WriteSidecar(w.d, Slot(img, vol), meta, t.mkdir, t.write).domain), id)
  {
  }

  /** A creation that nothing interrupts is `Create`. */
  lemma CreateInSteps(w: World, id: nat, img: Name, vol: Name, size: nat, qcow2: bool, meta: string, t: Tools)
    requires id !in w.tasks
    ensures Run(w, [StartCreate(id, img, vol, size, qcow2, meta, t.lvcreate)] + FinishSteps(id, t)) ==
            w.(d := Create(w.d, img, vol, size, qcow2, meta, t).domain)
  {
    var a := StartCreate(id, img, vol, size, qcow2, meta, t.lvcreate);
    var w1 := Do(w, a);
    RunOne(w, a);
    RunAppend(w, [a], FinishSteps(id, t));
    if id in w1.tasks {
      FinishInSteps(w1, id, img, vol, qcow2, meta, t);
      assert w1.tasks - {id} == w.tasks;
    } else {
      NothingToDo(w1, id, t);
    }
  }

  lemma NothingToDo(w: World, id: nat, t: Tools)
    requires id !in w.tasks
    ensures Run(w, FinishSteps(id, t)) == w
  {
    RunTwo(w, RunFormat(id, FormatOf(t)), RunRollback(id, t.rollback));
    RunTwo(w, RunMkdir(id, t.mkdir), RunWrite(id, t.write));
    RunAppend(w, [RunFormat(id, FormatOf(t)), RunRollback(id, t.rollback)],
              [RunMkdir(id, t.mkdir), RunWrite(id, t.write)]);
  }

  /** A deletion that nothing interrupts is `Delete`. */
  lemma DeleteInSteps(w: World, id: nat, img: Name, vol: Name, lvremove: bool, unlink: bool)
    requires id !in w.tasks
    ensures Run(w, [StartDelete(id, img, vol, lvremove), RunUnlink(id, unlink)]) ==
            w.(d := Delete(w.d, img, vol, lvremove, unlink))
  {
    RunTwo(w, StartDelete(id, img, vol, lvremove), RunUnlink(id, unlink));
    assert w.tasks[id := Unlinking(img, vol)] - {id} == w.tasks;
  }

  function RemovalSteps(id: nat, vols: seq<Name>, ok: Name -> bool): seq<Step> {
    if vols == [] then [] else [RemoveListed(id, vols[0], ok(vols[0]))] + RemovalSteps(id, vols[1..], ok)
  }

  lemma {:induction false} RemovalsInSteps(w: World, id: nat, vols: seq<Name>, ok: Name -> bool)
    requires id in w.tasks && w.tasks[id].Dropping?
    ensures Run(w, RemovalSteps(id, vols, ok)) == w.(d := RemoveAll(w.d, vols, ok))
    decreases |vols|
  {
    if vols != [] {
      var a := RemoveListed(id, vols[0], ok(vols[0]));
      RunOne(w, a);
      RunAppend(w, [a], RemovalSteps(id, vols[1..], ok));
      RemovalsInSteps(Do(w, a), id, vols[1..], ok);
    }
  }

  /** The deletion of an image that nothing interrupts is `DeleteImage`. */
  lemma DeleteImageInSteps(w: World, id: nat, img: Name, vols: seq<Name>, ok: Name -> bool, rmdir: bool)
    requires id !in w.tasks
    ensures Run(w, [StartImageDelete(id, img)] + RemovalSteps(id, vols, ok) + [RunRmdir(id, rmdir)]) ==
            w.(d := DeleteImage(w.d, img, vols, ok, rmdir))
  {
    var a, b := [StartImageDelete(id, img)], RemovalSteps(id, vols, ok);
    var w1 := Next(w, id, Dropping(img));
    RunOne(w, a[0]);
    RunAppend(w, a, b);
    RemovalsInSteps(w1, id, vols, ok);
    RunAppend(w, a + b, [RunRmdir(id, rmdir)]);
    RunOne(Run(w, a + b), RunRmdir(id, rmdir));
    assert w1.tasks - {id} == w.tasks;
  }

  // ---------------------------------------------------------- every interleaving

  lemma {:induction false} RunKeeps(w: World, steps: seq<Step>)
    requires Inv(w) && ExpectedRun(w, steps)
    ensures Inv(Run(w, steps))
    decreases |steps|
  {
    if steps != [] {
      StepKeeps(w, steps[0]);
      RunKeeps(Do(w, steps[0]), steps[1..]);
    }
  }

  lemma QuietConsistent(w: World)
    requires Inv(w) && forall id :: id in w.tasks ==> Makes(w.tasks[id])
    ensures Consistent(w.d)
  {
    assert forall s :: !Doomed(w, s);
  }

  /** In every interleaving of requests in which no deletion falls inside a creation of its volume,
      whatever tools fail: whenever no deletion is under way the domain is consistent, creations under
      way or not; and while some are, only sidecars they are about to remove can be out of step. */
  lemma InterleavedConsistent(d: Domain, steps: seq<Step>)
    requires Consistent(d) && ExpectedRun(World(d, map[]), steps)
    ensures var w := Run(World(d, map[]), steps);
            && Inv(w)
            && ((forall id :: id in w.tasks ==> Makes(w.tasks[id])) ==> Consistent(w.d))
  {
    var w := Run(World(d, map[]), steps);
    assert Inv(World(d, map[]));
    RunKeeps(World(d, map[]), steps);
    if forall id :: id in w.tasks ==> Makes(w.tasks[id]) {
      QuietConsistent(w);
    }
  }

  /** The condition is needed: a whole deletion between a creation's lvcreate and its last step leaves
      a sidecar without an LV, from every domain in which the creation can start. */
  lemma DeleteInsideCreate(d: Domain, img: Name, vol: Name, size: nat, meta: string)
    requires ValidName(d.vg) && ValidName(vol) && size > 0 && vol !in d.lvs
    ensures var start := [StartCreate(0, img, vol, size, false, meta, true)];
            var delete := [StartDelete(1, img, vol, true), RunUnlink(1, true)];
            var finish := [RunFormat(0, Formatted), RunMkdir(0, true), RunWrite(0, Wrote)];
            var w := Run(World(d, map[]), start + delete + finish);
            w.tasks == map[] && Slot(img, vol) in w.d.sidecars && vol !in w.d.lvs && !Consistent(w.d)
  {
    var t := Formatting(img, vol, false, meta);
    var start := [StartCreate(0, img, vol, size, false, meta, true)];
    var delete := [StartDelete(1, img, vol, true), RunUnlink(1, true)];
    var finish := [RunFormat(0, Formatted), RunMkdir(0, true), RunWrite(0, Wrote)];
    var w0, w1 := World(d, map[]), World(d.(lvs := d.lvs[vol := Rounded(size)]), map[0 := t]);
    StartsCreate(d, img, vol, size, meta);
    DeleteInSteps(w1, 1, img, vol, true, true);
    WholeFinish(Run(w1, delete), img, vol, meta);
    RunAppend(w0, start, delete);
    RunAppend(w0, start + delete, finish);
  }

  lemma StartsCreate(d: Domain, img: Name, vol: Name, size: nat, meta: string)
    requires ValidName(d.vg) && ValidName(vol) && size > 0 && vol !in d.lvs
    ensures Run(World(d, map[]), [StartCreate(0, img, vol, size, false, meta, true)]) ==
            World(d.(lvs := d.lvs[vol := Rounded(size)]), map[0 := Formatting(img, vol, false, meta)])
  {
    RoundedLeast(size, 0);
    var step, t := StartCreate(0, img, vol, size, false, meta, true), Formatting(img, vol, false, meta);
    assert [step][1..] == [] && map[][0 := t] == map[0 := t];
    assert Do(World(d, map[]), step) == World(d.(lvs := d.lvs[vol := Rounded(size)]), map[0 := t]);
  }

  lemma WholeFinish(w: World, img: Name, vol: Name, meta: string)
    requires w.tasks == map[0 := Formatting(img, vol, false, meta)] && vol !in w.d.lvs
    ensures var w' := Run(w, [RunFormat(0, Formatted), RunMkdir(0, true), RunWrite(0, Wrote)]);
            w'.tasks == map[] && Slot(img, vol) in w'.d.sidecars && vol !in w'.d.lvs
  {
    RunThree(w, RunFormat(0, Formatted), RunMkdir(0, true), RunWrite(0, Wrote));
    var w1 := Do(w, RunFormat(0, Formatted));
    assert w1 == w.(tasks := map[0 := MakingDir(img, vol, meta)]);
    var w2 := Do(w1, RunMkdir(0, true));
    assert w2 == w.(tasks := map[0 := Writing(img, vol, meta)]);
    assert w2.tasks - {0} == map[];
  }

  lemma RunOne(w: World, a: Step)
    ensures Run(w, [a]) == Do(w, a)
  {
    assert [a][1..] == [];
  }

  lemma RunTwo(w: World, a: Step, b: Step)
    ensures Run(w, [a, b]) == Do(Do(w, a), b)
  {
    assert [a, b][1..] == [b];
    RunOne(Do(w, a), b);
  }

  lemma RunThree(w: World, a: Step, b: Step, c: Step)
    ensures Run(w, [a, b, c]) == Do(Do(Do(w, a), b), c)
  {
    assert [a, b, c][1..] == [b, c];
    RunTwo(Do(w, a), b, c);
  }

  lemma {:induction false} RunAppend(w: World, a: seq<Step>, b: seq<Step>)
    ensures Run(w, a + b) == Run(Run(w, a), b)
    decreases |a|
  {
    if a == [] {
      assert a + b == b;
    } else {
      assert (a + b)[0] == a[0] && (a + b)[1..] == a[1..] + b;
      RunAppend(Do(w, a[0]), a[1..], b);
    }
  }
}
