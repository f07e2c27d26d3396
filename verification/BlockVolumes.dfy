/** Volumes of a block storage domain: a logical volume each, with its metadata in a sidecar file
    (crates/vdsm-storage/src/volumes.rs), under every failure of the tools involved. */
module BlockVolumes {
  import opened Prelude
  import Identifiers

  type Name = string

  const EXTENT: nat := 128 * 1024 * 1024

  /** `u64::div_ceil`. */
  function DivCeil(n: nat, d: nat): nat
    requires d > 0
  {
    if n % d > 0 then n / d + 1 else n / d
  }

  function Rounded(size: nat): nat {
    DivCeil(size, EXTENT) * EXTENT
  }

  /** The LV size is the least whole number of extents that covers the request. */
  lemma RoundedLeast(size: nat, n: nat)
    ensures Rounded(size) >= size && Rounded(size) % EXTENT == 0
    ensures n * EXTENT >= size <==> n * EXTENT >= Rounded(size)
    ensures Rounded(size) == 0 <==> size == 0
  {
  }

  predicate LvmChar(c: char) {
    || 'a' <= c <= 'z' || 'A' <= c <= 'Z' || '0' <= c <= '9'
    || c == '-' || c == '_' || c == '.' || c == '+'
  }

  /** `valid_lvm_name` in crates/supervdsm/src/exec.rs. */
  predicate ValidName(s: Name) {
    s != "" && s[0] != '-' && |s| <= 128 && forall i :: 0 <= i < |s| ==> LvmChar(s[i])
  }

  /** A UUID as oVirt writes it: five groups of lower-case hexadecimal digits. */
  predicate IsUuid(s: string) {
    && |s| == 36 && s[8] == '-' && s[13] == '-' && s[18] == '-' && s[23] == '-'
    && forall i :: 0 <= i < 36 && i != 8 && i != 13 && i != 18 && i != 23 ==> s[i] in "0123456789abcdef"
  }

  lemma HexDigit(c: char)
    requires c in "0123456789abcdef"
    ensures '0' <= c <= '9' || 'a' <= c <= 'f'
  {
  }

  /** Every UUID is a valid name. */
  lemma UuidIsName(s: string)
    requires IsUuid(s)
    ensures ValidName(s)
  {
    forall i | 0 <= i < |s| ensures LvmChar(s[i]) {
      if i != 8 && i != 13 && i != 18 && i != 23 {
        HexDigit(s[i]);
      }
    }
    HexDigit(s[0]);
  }

  lemma Mark(c: char)
    ensures c == '-' || c == '_' || c == '.' || c == '+' <==> c in "-_.+"
  {
    assert "-_.+"[0] == '-' && "-_.+"[1] == '_' && "-_.+"[2] == '.' && "-_.+"[3] == '+';
  }

  /** The characters of names, one by one. */
  lemma NameChars(c: char)
    ensures LvmChar(c) <==>
            || (exists i :: 0 <= i < 26 && (Identifiers.LOWER[i] == c || Identifiers.UPPER[i] == c))
            || c in "0123456789" || c in "-_.+"
  {
    Identifiers.Letters(c);
    Identifiers.Digits(c);
    Mark(c);
  }

  /** No valid name can be taken for an option or a path, or holds white space. */
  lemma NameIsPlain(s: string, i: nat)
    requires ValidName(s) && i < |s|
    ensures s[0] != '-' && s[i] !in "/\\:;,*?=@ \t\n\0" && |s| <= 128
  {
  }

  datatype Slot = Slot(img: Name, vol: Name)

  /** One volume group and its sidecar files, each under its image. */
  datatype Domain = Domain(vg: Name, lvs: map<Name, nat>, sidecars: map<Slot, string>)

  // ------------------------------------------------------------- single tools

  /** lvcreate behind supervdsmd: it refuses bad names, a zero size and an existing name. */
  function Lvcreate(d: Domain, lv: Name, size: nat, ok: bool): Option<Domain> {
    if ValidName(d.vg) && ValidName(lv) && size != 0 && ok && lv !in d.lvs
    then Some(d.(lvs := d.lvs[lv := size]))
    else None
  }

  predicate Removes(d: Domain, lv: Name, ok: bool) {
    ValidName(d.vg) && ValidName(lv) && ok && lv in d.lvs
  }

  function Lvremove(d: Domain, lv: Name, ok: bool): Domain {
    if Removes(d, lv, ok) then d.(lvs := d.lvs - {lv}) else d
  }

  /** Writing a file can fail before or after it exists. */
  datatype WriteOutcome = Wrote | NotCreated | Truncated(text: string)

  datatype Tools = Tools(
    lvcreate: bool, qemuSpawns: bool, qemuSucceeds: bool, rollback: bool, mkdir: bool, write: WriteOutcome)

  // -------------------------------------------------------------- the operations

  datatype Created = Created(domain: Domain, ok: bool)

  function WriteSidecar(d: Domain, slot: Slot, meta: string, mkdir: bool, write: WriteOutcome): Created {
    if !mkdir then Created(d, false)
    else
      match write
      case Wrote => Created(d.(sidecars := d.sidecars[slot := meta]), true)
      case NotCreated => Created(d, false)
      case Truncated(text) => Created(d.(sidecars := d.sidecars[slot := text]), false)
  }

  /** What a creation does once the LV exists. Only a formatter that ran and failed is rolled back. */
  function Finish(d: Domain, img: Name, vol: Name, qcow2: bool, meta: string, t: Tools): Created {
    if qcow2 && !t.qemuSpawns then Created(d, false)
    else if qcow2 && !t.qemuSucceeds then Created(Lvremove(d, vol, t.rollback), false)
    else WriteSidecar(d, Slot(img, vol), meta, t.mkdir, t.write)
  }

  /** `create_block_volume`. */
  function Create(d: Domain, img: Name, vol: Name, size: nat, qcow2: bool, meta: string, t: Tools): Created {
    match Lvcreate(d, vol, Rounded(size), t.lvcreate)
    case None => Created(d, false)
    case Some(d') => Finish(d', img, vol, qcow2, meta, t)
  }

  /** `volume_delete`: both removals are attempted whatever the first one does. */
  function Delete(d: Domain, img: Name, vol: Name, lvremove: bool, unlink: bool): Domain {
    var d' := Lvremove(d, vol, lvremove);
    if unlink then d'.(sidecars := d'.sidecars - {Slot(img, vol)}) else d'
  }

  function RemoveAll(d: Domain, vols: seq<Name>, ok: Name -> bool): Domain
    decreases |vols|
  {
    if vols == [] then d else RemoveAll(Lvremove(d, vols[0], ok(vols[0])), vols[1..], ok)
  }

  function DropImage(d: Domain, img: Name): Domain {
    d.(sidecars := map slot | slot in d.sidecars && slot.img != img :: d.sidecars[slot])
  }

  /** `image_delete`: `vols` are the directory entries it got to see. */
  function DeleteImage(d: Domain, img: Name, vols: seq<Name>, ok: Name -> bool, rmdir: bool): Domain {
    var d' := RemoveAll(d, vols, ok);
    if rmdir then DropImage(d', img) else d'
  }

  // ------------------------------------------------------------------ invariant

  /** Every sidecar names an existing LV, no LV has two sidecars, and every LV is a positive whole
      number of extents. */
  ghost predicate Consistent(d: Domain) {
    && (forall s :: s in d.sidecars ==> s.vol in d.lvs)
    && (forall s, s' :: s in d.sidecars && s' in d.sidecars && s.vol == s'.vol ==> s == s')
    && (forall v :: v in d.lvs ==> d.lvs[v] > 0 && d.lvs[v] % EXTENT == 0)
  }

  /** The volume has no sidecar outside the image. */
  ghost predicate OwnImage(d: Domain, img: Name, vol: Name) {
    forall s :: s in d.sidecars && s.vol == vol ==> s.img == img
  }

  lemma FinishConsistent(d: Domain, img: Name, vol: Name, qcow2: bool, meta: string, t: Tools)
    requires Consistent(d) && vol in d.lvs && forall s :: s in d.sidecars ==> s.vol != vol
    ensures Consistent(Finish(d, img, vol, qcow2, meta, t).domain)
  {
  }

  lemma CreateConsistent(d: Domain, img: Name, vol: Name, size: nat, qcow2: bool, meta: string, t: Tools)
    requires Consistent(d)
    ensures Consistent(Create(d, img, vol, size, qcow2, meta, t).domain)
  {
    RoundedLeast(size, 0);
    var d' := Lvcreate(d, vol, Rounded(size), t.lvcreate);
    if d'.Some? {
      FinishConsistent(d'.value, img, vol, qcow2, meta, t);
    }
  }

  /** A reported success means that LV and sidecar both exist, of the requested size and content; a
      zero size is never a success; and the rest of the domain is as it was in every case. */
  lemma CreateReports(d: Domain, img: Name, vol: Name, size: nat, qcow2: bool, meta: string, t: Tools)
    requires Consistent(d)
    ensures var r := Create(d, img, vol, size, qcow2, meta, t);
            && (r.ok ==>
                  && vol !in d.lvs && size > 0
                  && r.domain.lvs == d.lvs[vol := Rounded(size)]
                  && r.domain.sidecars == d.sidecars[Slot(img, vol) := meta])
            && (forall v :: v != vol ==> (v in r.domain.lvs <==> v in d.lvs))
            && (forall v :: v != vol && v in d.lvs ==> r.domain.lvs[v] == d.lvs[v])
            && (forall s: Slot :: s.vol != vol ==> (s in r.domain.sidecars <==> s in d.sidecars))
            && (forall s: Slot :: s.vol != vol && s in d.sidecars ==> r.domain.sidecars[s] == d.sidecars[s])
            && (vol in d.lvs ==> r.domain == d)
  {
    RoundedLeast(size, 0);
  }

  /** Exactly when a creation succeeds. */
  lemma CreateSucceeds(d: Domain, img: Name, vol: Name, size: nat, qcow2: bool, meta: string, t: Tools)
    ensures Create(d, img, vol, size, qcow2, meta, t).ok <==>
              && ValidName(d.vg) && ValidName(vol) && size > 0 && t.lvcreate && vol !in d.lvs
              && (qcow2 ==> t.qemuSpawns && t.qemuSucceeds) && t.mkdir && t.write == Wrote
  {
    RoundedLeast(size, 0);
  }

  /** What a creation that gets past the formatter leaves, whether or not it succeeds: the LV at the
      rounded size, and of the sidecar what was written. */
  lemma CreateLeaves(d: Domain, img: Name, vol: Name, size: nat, qcow2: bool, meta: string, t: Tools)
    requires ValidName(d.vg) && ValidName(vol) && size > 0 && t.lvcreate && vol !in d.lvs
    requires qcow2 ==> t.qemuSpawns && t.qemuSucceeds
    ensures var d' := Create(d, img, vol, size, qcow2, meta, t).domain;
            && d'.lvs == d.lvs[vol := Rounded(size)]
            && d'.sidecars == if !t.mkdir || t.write == NotCreated then d.sidecars
                              else d.sidecars[Slot(img, vol) := if t.write == Wrote then meta else t.write.text]
  {
    RoundedLeast(size, 0);
  }

  /** A formatter failure that is rolled back leaves no trace. */
  lemma RollbackRestores(d: Domain, img: Name, vol: Name, size: nat, meta: string, t: Tools)
    requires t.qemuSpawns && !t.qemuSucceeds && t.rollback
    ensures Create(d, img, vol, size, true, meta, t) == Created(d, false)
  {
    if Lvcreate(d, vol, Rounded(size), t.lvcreate).Some? {
      assert d.lvs[vol := Rounded(size)] - {vol} == d.lvs;
    }
  }

  /** Exactly which failures leave no trace: those before the LV exists, and a formatter that ran,
      failed and was rolled back. A formatter that cannot be started, or a sidecar that cannot be
      written, leaves the LV behind. */
  lemma FailureTraceless(d: Domain, img: Name, vol: Name, size: nat, qcow2: bool, meta: string, t: Tools)
    ensures var r := Create(d, img, vol, size, qcow2, meta, t);
            r == Created(d, false) <==>
              || !(ValidName(d.vg) && ValidName(vol) && size > 0 && t.lvcreate && vol !in d.lvs)
              || (qcow2 && t.qemuSpawns && !t.qemuSucceeds && t.rollback)
  {
    var r := Create(d, img, vol, size, qcow2, meta, t);
    RoundedLeast(size, 0);
    if qcow2 && t.qemuSpawns && !t.qemuSucceeds && t.rollback {
      RollbackRestores(d, img, vol, size, meta, t);
    } else if Lvcreate(d, vol, Rounded(size), t.lvcreate).Some? {
      assert vol in r.domain.lvs;
    }
  }

  /** Deleting keeps the domain consistent exactly when the LV survives or every sidecar of the volume
      is the one named and goes too. */
  lemma DeleteConsistent(d: Domain, img: Name, vol: Name, lvremove: bool, unlink: bool)
    requires Consistent(d)
    ensures Consistent(Delete(d, img, vol, lvremove, unlink))
            <==> !Removes(d, vol, lvremove) || (OwnImage(d, img, vol) && (unlink || Slot(img, vol) !in d.sidecars))
  {
    var d' := Delete(d, img, vol, lvremove, unlink);
    if Removes(d, vol, lvremove) && !OwnImage(d, img, vol) {
      var s :| s in d.sidecars && s.vol == vol && s.img != img;
      assert s in d'.sidecars && s.vol !in d'.lvs;
    }
  }

  /** Which LVs a loop of removals leaves. */
  lemma {:induction false} RemoveAllExactly(d: Domain, vols: seq<Name>, ok: Name -> bool)
    ensures var d' := RemoveAll(d, vols, ok);
            && d'.vg == d.vg && d'.sidecars == d.sidecars
            && (forall v :: v in d'.lvs <==> v in d.lvs && !(v in vols && Removes(d, v, ok(v))))
            && (forall v :: v in d'.lvs ==> d'.lvs[v] == d.lvs[v])
    decreases |vols|
  {
    if vols != [] {
      RemoveAllExactly(Lvremove(d, vols[0], ok(vols[0])), vols[1..], ok);
    }
  }

  /** Deleting an image keeps the domain consistent exactly when every sidecar that loses its LV is one
      of the image and the image's directory goes too; then exactly the image's sidecars are gone. */
  lemma DeleteImageConsistent(d: Domain, img: Name, vols: seq<Name>, ok: Name -> bool, rmdir: bool)
    requires Consistent(d)
    ensures Consistent(DeleteImage(d, img, vols, ok, rmdir))
            <==> forall s :: s in d.sidecars && s.vol in vols && Removes(d, s.vol, ok(s.vol)) ==> rmdir && s.img == img
    ensures forall s :: s in DeleteImage(d, img, vols, ok, rmdir).sidecars
                        <==> s in d.sidecars && !(rmdir && s.img == img)
  {
    RemoveAllExactly(d, vols, ok);
    var d' := DeleteImage(d, img, vols, ok, rmdir);
    if s :| s in d.sidecars && s.vol in vols && Removes(d, s.vol, ok(s.vol)) && !(rmdir && s.img == img) {
      assert s in d'.sidecars && s.vol !in d'.lvs;
    }
  }

  // ----------------------------------------------------------------- whole runs

  datatype Op =
    | CreateOp(img: Name, vol: Name, size: nat, qcow2: bool, meta: string, tools: Tools)
    | DeleteOp(img: Name, vol: Name, lvremove: bool, unlink: bool)
    | DeleteImageOp(img: Name, vols: seq<Name>, ok: Name -> bool, rmdir: bool)

  function Apply(d: Domain, op: Op): Domain {
    match op
    case CreateOp(img, vol, size, qcow2, meta, tools) => Create(d, img, vol, size, qcow2, meta, tools).domain
    case DeleteOp(img, vol, lvremove, unlink) => Delete(d, img, vol, lvremove, unlink)
    case DeleteImageOp(img, vols, ok, rmdir) => DeleteImage(d, img, vols, ok, rmdir)
  }

  /** What the engine and the file system are relied on for: deletes name the volume's own image,
      directory listings show files that exist, and removing an existing sidecar or image succeeds. */
  ghost predicate Expected(d: Domain, op: Op) {
    match op
    case CreateOp(_, _, _, _, _, _) => true
    case DeleteOp(img, vol, _, unlink) => OwnImage(d, img, vol) && (unlink || Slot(img, vol) !in d.sidecars)
    case DeleteImageOp(img, vols, _, rmdir) => rmdir && forall i :: 0 <= i < |vols| ==> Slot(img, vols[i]) in d.sidecars
  }

  function Run(d: Domain, ops: seq<Op>): Domain
    decreases |ops|
  {
    if ops == [] then d else Run(Apply(d, ops[0]), ops[1..])
  }

  lemma {:induction false} RunOneMore(d: Domain, ops: seq<Op>, op: Op)
    ensures Run(d, ops + [op]) == Apply(Run(d, ops), op)
    decreases |ops|
  {
    if ops == [] {
      assert ops + [op] == [op] && [op][1..] == [];
    } else {
      assert (ops + [op])[1..] == ops[1..] + [op];
      RunOneMore(Apply(d, ops[0]), ops[1..], op);
    }
  }

  ghost predicate ExpectedRun(d: Domain, ops: seq<Op>)
    decreases |ops|
  {
    ops == [] || (Expected(d, ops[0]) && ExpectedRun(Apply(d, ops[0]), ops[1..]))
  }

  /** Every run of whole requests, one after the other, keeps the domain consistent whatever fails in
      it. Requests that overlap are the subject of `VolumeTasks`. */
  lemma {:induction false} RunConsistent(d: Domain, ops: seq<Op>)
    requires Consistent(d) && ExpectedRun(d, ops)
    ensures Consistent(Run(d, ops))
    decreases |ops|
  {
    if ops != [] {
      StepConsistent(d, ops[0]);
      RunConsistent(Apply(d, ops[0]), ops[1..]);
    }
  }

  lemma StepConsistent(d: Domain, op: Op)
    requires Consistent(d) && Expected(d, op)
    ensures Consistent(Apply(d, op))
  {
    match op
    case CreateOp(img, vol, size, qcow2, meta, tools) =>
      CreateConsistent(d, img, vol, size, qcow2, meta, tools);
    case DeleteOp(img, vol, lvremove, unlink) =>
      DeleteConsistent(d, img, vol, lvremove, unlink);
    case DeleteImageOp(img, vols, ok, rmdir) =>
      assert forall v :: v in vols ==> Slot(img, v) in d.sidecars;
      DeleteImageConsistent(d, img, vols, ok, rmdir);
  }

  /** A volume whose creation was reported stays complete, at the size it was given, through every
      later step that does not delete it or its image. */
  lemma {:induction false} CreatedStays(d: Domain, ops: seq<Op>, img: Name, vol: Name)
    requires Consistent(d) && ExpectedRun(d, ops) && vol in d.lvs && Slot(img, vol) in d.sidecars
    requires forall i :: 0 <= i < |ops| ==> Spares(ops[i], img, vol)
    ensures var d' := Run(d, ops);
            && vol in d'.lvs && d'.lvs[vol] == d.lvs[vol]
            && Slot(img, vol) in d'.sidecars && d'.sidecars[Slot(img, vol)] == d.sidecars[Slot(img, vol)]
    decreases |ops|
  {
    if ops != [] {
      StepConsistent(d, ops[0]);
      SparedStep(d, ops[0], img, vol);
      CreatedStays(Apply(d, ops[0]), ops[1..], img, vol);
    }
  }

  predicate Spares(op: Op, img: Name, vol: Name) {
    match op
    case CreateOp(_, _, _, _, _, _) => true
    case DeleteOp(_, v, _, _) => v != vol
    case DeleteImageOp(i, _, _, _) => i != img
  }

  lemma SparedStep(d: Domain, op: Op, img: Name, vol: Name)
    requires Consistent(d) && Expected(d, op) && Spares(op, img, vol)
    requires vol in d.lvs && Slot(img, vol) in d.sidecars
    ensures var d' := Apply(d, op);
            && vol in d'.lvs && d'.lvs[vol] == d.lvs[vol]
            && Slot(img, vol) in d'.sidecars && d'.sidecars[Slot(img, vol)] == d.sidecars[Slot(img, vol)]
  {
    match op
    case CreateOp(i, v, size, qcow2, meta, tools) =>
      CreateReports(d, i, v, size, qcow2, meta, tools);
    case DeleteOp(i, v, lvremove, unlink) =>
    case DeleteImageOp(i, vols, ok, rmdir) =>
      RemoveAllExactly(d, vols, ok);
      assert forall v :: v in vols ==> Slot(i, v) in d.sidecars;
  }

  // ------------------------------------------------------- the domain as it changes

  class BlockDomain {
    const vg: Name
    var lvs: map<Name, nat>
    var sidecars: map<Slot, string>
    /** The requests so far. */
    ghost var history: seq<Op>

    ghost function Abs(): Domain
      reads this
    {
      Domain(vg, lvs, sidecars)
    }

    /** The domain is what its history made of an empty one, so that theorems on runs hold of it. */
    ghost predicate Valid()
      reads this
    {
      Abs() == Run(Domain(vg, map[], map[]), history)
    }

    /** Through every history that meets the expectations the domain stays consistent. */
    lemma StaysConsistent()
      requires Valid() && ExpectedRun(Domain(vg, map[], map[]), history)
      ensures Consistent(Abs())
    {
      RunConsistent(Domain(vg, map[], map[]), history);
    }

    constructor (vg: Name)
      ensures Valid() && history == [] && Abs() == Domain(vg, map[], map[])
    {
      this.vg, lvs, sidecars, history := vg, map[], map[], [];
    }

    /** supervdsmd's arms for lvcreate and lvremove. */
    method RunLvcreate(lv: Name, size: nat, tool: bool) returns (ok: bool)
      modifies this`lvs
      ensures ok == Lvcreate(old(Abs()), lv, size, tool).Some?
      ensures Abs() == if ok then Lvcreate(old(Abs()), lv, size, tool).value else old(Abs())
    {
      ok := ValidName(vg) && ValidName(lv) && size != 0 && tool && lv !in lvs;
      if ok {
        lvs := lvs[lv := size];
      }
    }

    method RunLvremove(lv: Name, tool: bool)
      modifies this`lvs
      ensures Abs() == Lvremove(old(Abs()), lv, tool)
    {
      if ValidName(vg) && ValidName(lv) && tool && lv in lvs {
        lvs := lvs - {lv};
      }
    }

    /** The steps of a creation after the LV exists. */
    method FinishVolume(img: Name, vol: Name, qcow2: bool, meta: string, t: Tools) returns (ok: bool)
      modifies this`lvs, this`sidecars
      ensures Created(Abs(), ok) == Finish(old(Abs()), img, vol, qcow2, meta, t)
    {
      if qcow2 {
        if !t.qemuSpawns {
          return false;
        }
        if !t.qemuSucceeds {
          RunLvremove(vol, t.rollback);
          return false;
        }
      }
      if !t.mkdir {
        return false;
      }
      match t.write {
        case Wrote =>
          sidecars := sidecars[Slot(img, vol) := meta];
          return true;
        case NotCreated =>
          return false;
        case Truncated(text) =>
          sidecars := sidecars[Slot(img, vol) := text];
          return false;
      }
    }

    method CreateBlockVolume(img: Name, vol: Name, size: nat, qcow2: bool, meta: string, t: Tools)
      returns (ok: bool)
      requires Valid()
      modifies this
      ensures Valid() && history == old(history) + [CreateOp(img, vol, size, qcow2, meta, t)]
      ensures Created(Abs(), ok) == Create(old(Abs()), img, vol, size, qcow2, meta, t)
    {
      var extents := DivCeil(size, EXTENT);
      ok := RunLvcreate(vol, extents * EXTENT, t.lvcreate);
      if ok {
        ok := FinishVolume(img, vol, qcow2, meta, t);
      }
      RunOneMore(Domain(vg, map[], map[]), history, CreateOp(img, vol, size, qcow2, meta, t));
      history := history + [CreateOp(img, vol, size, qcow2, meta, t)];
    }

    method VolumeDelete(img: Name, vol: Name, lvremove: bool, unlink: bool)
      requires Valid()
      modifies this
      ensures Valid() && history == old(history) + [DeleteOp(img, vol, lvremove, unlink)]
      ensures Abs() == Delete(old(Abs()), img, vol, lvremove, unlink)
    {
      RunLvremove(vol, lvremove);
      if unlink {
        sidecars := sidecars - {Slot(img, vol)};
      }
      RunOneMore(Domain(vg, map[], map[]), history, DeleteOp(img, vol, lvremove, unlink));
      history := history + [DeleteOp(img, vol, lvremove, unlink)];
    }

    method ImageDelete(img: Name, vols: seq<Name>, ok: Name -> bool, rmdir: bool)
      requires Valid()
      modifies this
      ensures Valid() && history == old(history) + [DeleteImageOp(img, vols, ok, rmdir)]
      ensures Abs() == DeleteImage(old(Abs()), img, vols, ok, rmdir)
    {
      for i := 0 to |vols|
        invariant RemoveAll(Abs(), vols[i..], ok) == RemoveAll(old(Abs()), vols, ok)
        invariant history == old(history)
      {
        assert vols[i..][1..] == vols[i + 1..];
        RunLvremove(vols[i], ok(vols[i]));
      }
      if rmdir {
        sidecars := map slot | slot in sidecars && slot.img != img :: sidecars[slot];
      }
      RunOneMore(Domain(vg, map[], map[]), history, DeleteImageOp(img, vols, ok, rmdir));
      history := history + [DeleteImageOp(img, vols, ok, rmdir)];
    }
  }
}
