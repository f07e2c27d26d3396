/** Mount targets: vdsmd builds them, supervdsmd checks them (`mountpoint` in
    crates/vdsm-storage/src/connection.rs, `mount_one` and `disconnect_storage_server` in
    crates/vdsm-storage/src/verbs.rs, `execute` in crates/supervdsm/src/exec.rs). */
module MountTargets {
  import opened Prelude

  const MNT_BASE: string := "/rhev/data-center/mnt"
  const MOUNT_ROOT: string := "/rhev/data-center/mnt/"

  // ------------------------------------------------------------------ the client

  /** `str::replace('/', "_")`. */
  function Flatten(s: string): (r: string)
    ensures |r| == |s|
    ensures forall i :: 0 <= i < |s| ==> r[i] == if s[i] == '/' then '_' else s[i]
  {
    if s == "" then "" else [if s[0] == '/' then '_' else s[0]] + Flatten(s[1..])
  }

  /** `Path::join` on texts: an absolute second part replaces the first. */
  function Join(base: string, part: string): string {
    if part != "" && part[0] == '/' then part
    else if base != "" && base[|base| - 1] == '/' then base + part
    else base + "/" + part
  }

  /** The target of a connection string, the same for mounting and for unmounting. */
  function Mountpoint(connection: string): string {
    Join(MNT_BASE, Flatten(connection))
  }

  datatype PrivOp =
    | Mount(fstype: string, spec: string, target: string, options: string)
    | Umount(target: string)

  datatype Connection = Connection(connection: string, vfsType: string, options: string)

  /** The file system type `mount_one` falls back to for a storage type. */
  function DefaultVfs(domainType: int): string {
    match domainType
    case 5 => "cifs"
    case 7 => "auto"
    case 4 => "none"
    case 8 => "glusterfs"
    case _ => "nfs"
  }

  /** Storage types that are not mounted: FCP needs nothing, iSCSI logs in to its target. */
  predicate Unmounted(domainType: int) {
    domainType == 2 || domainType == 3
  }

  /** What `mount_one` asks supervdsmd to mount, if anything. */
  function MountRequest(c: Connection, domainType: int): Option<PrivOp> {
    if Unmounted(domainType) then None
    else
      var vfs := if c.vfsType != "" then c.vfsType else DefaultVfs(domainType);
      Some(Mount(vfs, c.connection, Mountpoint(c.connection), c.options))
  }

  /** What `disconnect_storage_server` asks for. */
  function UmountRequest(c: Connection): PrivOp {
    Umount(Mountpoint(c.connection))
  }

  // ------------------------------------------------------------------ the helper

  ghost predicate HasDots(s: string) {
    exists i :: DotsAt(s, i)
  }

  predicate DotsAt(s: string, i: int) {
    0 <= i < |s| - 1 && s[i] == '.' && s[i + 1] == '.'
  }

  ghost predicate ValidTarget(s: string) {
    MOUNT_ROOT <= s && !HasDots(s) && '\0' !in s
  }

  predicate ValidFstype(s: string) {
    s in {"nfs", "nfs4", "cifs", "glusterfs", "none", "auto", "ext4", "xfs", "ext3"}
  }

  predicate Argument(s: string) {
    (s != "" ==> s[0] != '-') && '\0' !in s
  }

  /** Whether `execute` runs the operation rather than rejecting a field. */
  ghost predicate Accepts(op: PrivOp) {
    match op
    case Mount(fstype, spec, target, options) =>
      ValidFstype(fstype) && ValidTarget(target) && spec != "" && Argument(spec) && Argument(options)
    case Umount(target) => ValidTarget(target)
  }

  // --------------------------------------------------------------- they agree

  lemma MountpointText(connection: string)
    ensures Mountpoint(connection) == MOUNT_ROOT + Flatten(connection)
  {
    assert MNT_BASE + "/" == MOUNT_ROOT;
  }

  lemma RootHasNoDots()
    ensures forall i :: 0 <= i < |MOUNT_ROOT| ==> MOUNT_ROOT[i] != '.' && MOUNT_ROOT[i] != '\0'
  {
  }

  lemma DotsAfterRoot(root: string, rest: string)
    requires forall i :: 0 <= i < |root| ==> root[i] != '.'
    ensures HasDots(root + rest) <==> HasDots(rest)
  {
    var s := root + rest;
    if i :| DotsAt(s, i) {
      assert DotsAt(rest, i - |root|);
    }
    if i :| DotsAt(rest, i) {
      assert DotsAt(s, i + |root|);
    }
  }

  lemma DotsFlattened(s: string)
    ensures HasDots(Flatten(s)) <==> HasDots(s)
    ensures '\0' in Flatten(s) <==> '\0' in s
  {
    var r := Flatten(s);
    if i :| DotsAt(r, i) {
      assert DotsAt(s, i);
    }
    if i :| DotsAt(s, i) {
      assert DotsAt(r, i);
    }
    if '\0' in s {
      var i :| 0 <= i < |s| && s[i] == '\0';
      assert r[i] == '\0';
    }
  }

  /** The target vdsmd builds for a connection string is accepted exactly when the string holds no
      ".." and no NUL. */
  lemma TargetAccepted(connection: string)
    ensures ValidTarget(Mountpoint(connection)) <==> !HasDots(connection) && '\0' !in connection
  {
    MountpointText(connection);
    RootHasNoDots();
    DotsAfterRoot(MOUNT_ROOT, Flatten(connection));
    DotsFlattened(connection);
  }

  /** The file system type asked for: the one given, else the one usual for the storage type. */
  predicate AsksFor(c: Connection, domainType: int, fstype: string) {
    var usual := map[4 := "none", 5 := "cifs", 7 := "auto", 8 := "glusterfs"];
    if c.vfsType != "" then fstype == c.vfsType
    else fstype == if domainType in usual then usual[domainType] else "nfs"
  }

  /** Not taken for an option, and no NUL. */
  predicate SafeArgument(s: string) {
    !("-" <= s) && '\0' !in s
  }

  /** A mount is requested for every storage type but FCP (2) and iSCSI (3), with the connection string
      as given; it is accepted exactly when type, connection string and options are each in order; and
      then the unmount of the same connection is accepted too, for the same target. */
  lemma RequestsAgree(c: Connection, domainType: int)
    ensures MountRequest(c, domainType).None? <==> domainType in {2, 3}
    ensures var r := MountRequest(c, domainType);
            r.Some? ==>
              && r.value.Mount? && r.value.spec == c.connection && r.value.options == c.options
              && AsksFor(c, domainType, r.value.fstype) && r.value.target == UmountRequest(c).target
              && (Accepts(r.value) <==>
                    && (c.vfsType == "" || c.vfsType in ["nfs", "nfs4", "cifs", "glusterfs", "none", "auto", "ext4", "xfs", "ext3"])
                    && c.connection != "" && SafeArgument(c.connection) && !HasDots(c.connection)
                    && SafeArgument(c.options))
              && (Accepts(r.value) ==> Accepts(UmountRequest(c)))
  {
    TargetAccepted(c.connection);
    UsualAccepted(domainType);
    TypeListed(c.vfsType);
  }

  lemma UsualAccepted(domainType: int)
    ensures ValidFstype(DefaultVfs(domainType))
  {
  }

  lemma TypeListed(s: string)
    ensures ValidFstype(s) <==> s in ["nfs", "nfs4", "cifs", "glusterfs", "none", "auto", "ext4", "xfs", "ext3"]
  {
  }

  predicate Alike(c: char, d: char) {
    c == d || ((c == '/' || c == '_') && (d == '/' || d == '_'))
  }

  /** Where a connection is mounted; two connections share a target exactly when they differ at most in
      slashes and underscores. */
  lemma TargetsCollide(a: string, b: string)
    ensures Mountpoint(a) == "/rhev/data-center/mnt/" + Flatten(a)
    ensures Mountpoint(a) == Mountpoint(b) <==> |a| == |b| && forall i :: 0 <= i < |a| ==> Alike(a[i], b[i])
  {
    MountpointText(a);
    MountpointText(b);
    SameAfterRoot(MOUNT_ROOT, Flatten(a), Flatten(b));
    FlattensAlike(a, b);
  }

  lemma SameAfterRoot(root: string, a: string, b: string)
    ensures root + a == root + b <==> a == b
  {
    assert (root + a)[|root|..] == a && (root + b)[|root|..] == b;
  }

  lemma {:induction false} FlattensAlike(a: string, b: string)
    ensures Flatten(a) == Flatten(b) <==> |a| == |b| && forall i :: 0 <= i < |a| ==> Alike(a[i], b[i])
    decreases |a|
  {
    if |a| == |b| > 0 {
      FlattensAlike(a[1..], b[1..]);
      assert Flatten(a)[1..] == Flatten(a[1..]) && Flatten(b)[1..] == Flatten(b[1..]);
      assert Flatten(a) == Flatten(b) <==> Flatten(a)[0] == Flatten(b)[0] && Flatten(a)[1..] == Flatten(b)[1..];
    }
  }

  // ------------------------------------------------------ targets stay in the tree

  /** The parts of a path between slashes. */
  function Parts(s: string): seq<string> {
    if s == "" then [""]
    else
      var rest := Parts(s[1..]);
      if s[0] == '/' then [""] + rest
      else if rest == [] then [[s[0]]]
      else [[s[0]] + rest[0]] + rest[1..]
  }

  /** Lexical normalisation: drop empty and "." parts, let ".." take back the part before it. */
  function Walk(at: seq<string>, parts: seq<string>): seq<string>
    decreases |parts|
  {
    if parts == [] then at
    else if parts[0] == "" || parts[0] == "." then Walk(at, parts[1..])
    else if parts[0] == ".." then Walk(if at == [] then [] else at[..|at| - 1], parts[1..])
    else Walk(at + [parts[0]], parts[1..])
  }

  function Normalise(path: string): seq<string> {
    Walk([], Parts(path))
  }

  lemma {:induction false} PartsNonEmpty(s: string)
    ensures Parts(s) != []
  {
    if s != "" {
      PartsNonEmpty(s[1..]);
    }
  }

  lemma FirstPart(c: char, p: seq<string>, q: seq<string>)
    requires p != []
    ensures [[c] + (p + q)[0]] + (p + q)[1..] == [[c] + p[0]] + p[1..] + q
    ensures [""] + (p + q) == [""] + p + q
  {
  }

  lemma {:induction false} PartsSplit(a: string, b: string)
    ensures Parts(a + "/" + b) == Parts(a) + Parts(b)
  {
    if a == "" {
      assert (a + "/" + b)[1..] == b;
    } else {
      var s := a + "/" + b;
      assert s[0] == a[0] && s[1..] == a[1..] + "/" + b;
      PartsNonEmpty(a[1..]);
      PartsSplit(a[1..], b);
      FirstPart(s[0], Parts(a[1..]), Parts(b));
    }
  }

  lemma {:induction false} WalkConcat(at: seq<string>, p: seq<string>, q: seq<string>)
    ensures Walk(at, p + q) == Walk(Walk(at, p), q)
    decreases |p|
  {
    if p == [] {
      assert p + q == q;
    } else {
      assert (p + q)[1..] == p[1..] + q;
      WalkConcat(if p[0] == "" || p[0] == "." then at
                 else if p[0] == ".." then (if at == [] then [] else at[..|at| - 1])
                 else at + [p[0]], p[1..], q);
    }
  }

  lemma {:induction false} WalkOnward(at: seq<string>, parts: seq<string>)
    requires ".." !in parts
    ensures at <= Walk(at, parts)
    decreases |parts|
  {
    if parts != [] {
      WalkOnward(if parts[0] == "" || parts[0] == "." then at else at + [parts[0]], parts[1..]);
    }
  }

  /** A ".." part shows as two dots in the text. */
  lemma {:induction false} DotsPart(s: string)
    ensures ".." in Parts(s) ==> HasDots(s)
    ensures [] < Parts(s) && Parts(s)[0] <= s
  {
    if s != "" {
      DotsPart(s[1..]);
      var rest := Parts(s[1..]);
      if HasDots(s[1..]) {
        var i :| DotsAt(s[1..], i);
        assert DotsAt(s, i + 1);
      }
      if s[0] != '/' && [s[0]] + rest[0] == ".." {
        DotsFirst(s, rest[0]);
      }
    }
  }

  lemma DotsFirst(s: string, part: string)
    requires s != "" && part <= s[1..] && [s[0]] + part == ".."
    ensures HasDots(s)
  {
    var first := [s[0]] + part;
    assert first[0] == s[0] && first[1] == part[0] && s[1] == s[1..][0];
    assert DotsAt(s, 0);
  }

  /** Every target supervdsmd accepts, from whatever client, normalises to a path at or below the
      mount root. */
  lemma AcceptedStaysBelowRoot(target: string)
    requires ValidTarget(target)
    ensures ["rhev", "data-center", "mnt"] <= Normalise(target)
  {
    var rest := target[|MOUNT_ROOT|..];
    assert target == MOUNT_ROOT + rest;
    RootHasNoDots();
    DotsAfterRoot(MOUNT_ROOT, rest);
    DotsPart(rest);
    assert MOUNT_ROOT + rest == MNT_BASE + "/" + rest;
    PartsSplit(MNT_BASE, rest);
    WalkConcat([], Parts(MNT_BASE), Parts(rest));
    RootNormal();
    WalkOnward(Normalise(MNT_BASE), Parts(rest));
  }

  lemma RootNormal()
    ensures Normalise(MNT_BASE) == ["rhev", "data-center", "mnt"]
  {
    assert MNT_BASE == "" + "/" + ("rhev" + "/" + ("data-center" + "/" + "mnt"));
    ThreeParts("rhev", "data-center", "mnt");
  }

  predicate PlainName(s: string) {
    '/' !in s && s != "" && s != "." && s != ".."
  }

  lemma ThreeParts(a: string, b: string, c: string)
    requires PlainName(a) && PlainName(b) && PlainName(c)
    ensures Normalise("" + "/" + (a + "/" + (b + "/" + c))) == [a, b, c]
  {
    PartsSplit("", a + "/" + (b + "/" + c));
    PartsSplit(a, b + "/" + c);
    PartsSplit(b, c);
    PlainPart(a);
    PlainPart(b);
    PlainPart(c);
    var parts := ["", a, b, c];
    assert Parts("") + (Parts(a) + (Parts(b) + Parts(c))) == parts;
    assert parts[1..] == [a, b, c];
    assert [a, b, c][1..] == [b, c] && [b, c][1..] == [c] && [c][1..] == [];
    assert [] + [a] == [a] && [a] + [b] == [a, b] && [a, b] + [c] == [a, b, c];
    assert Walk([a, b], [c]) == [a, b, c];
    assert Walk([a], [b, c]) == [a, b, c];
    assert Walk([], [a, b, c]) == [a, b, c];
  }

  lemma {:induction false} PlainPart(s: string)
    requires '/' !in s
    ensures Parts(s) == [s]
  {
    if s != "" {
      PlainPart(s[1..]);
      assert [s[0]] + s[1..] == s;
      assert [s[1..]][1..] == [];
    }
  }
}
